/** SyncService.Pull and pageOf: the loops, and the functions they compute. */
module SyncService {
  import opened Prelude
  import opened SyncCatalogue

  datatype SyncPage<T> = SyncPage(rows: seq<T>, watermark: int, hasMore: bool)

  datatype Change =
    | Upsert(domain: Domain, id: nat, row: Row)
    | Delete(domain: Domain, id: nat)

  datatype DomainPull = DomainPull(changes: seq<Change>, watermark: int, hasMore: bool)

  datatype PullResult = PullResult(changes: seq<Change>, nextCursor: int, hasMore: map<Domain, bool>)

  datatype PullOutcome = Pulled(result: PullResult) | UnsupportedDomain(name: string)

  // ---- pages ------------------------------------------------------------------

  function Max(a: int, b: int): int { if a < b then b else a }

  function Horizon(rows: seq<Entry>, since: int): int {
    if rows == [] then since else Max(Horizon(rows[..|rows| - 1], since), StampOf(rows[|rows| - 1]))
  }

  /** What one stream contributes to a poll: the page cut from limit+1 ordered rows. */
  function StreamPage(t: Table, s: Stream, since: int, limit: nat): SyncPage<Entry> {
    var rows := Query(t, s, since, limit + 1);
    SyncPage(Take(rows, limit), Horizon(rows, since), |rows| > limit)
  }

  /** pageOf: the watermark is the latest stamp read, the sentinel row included, and
      never earlier than the cursor. */
  method PageOf<T>(rows: seq<T>, since: int, limit: nat, stamp: T -> int) returns (page: SyncPage<T>)
    ensures page.hasMore <==> |rows| > limit
    ensures page.rows == Take(rows, limit)
    ensures page.watermark >= since && forall r :: r in rows ==> stamp(r) <= page.watermark
    ensures page.watermark == since || exists r :: r in rows && stamp(r) == page.watermark
  {
    var wm := since;
    for i := 0 to |rows|
      invariant wm >= since && forall j :: 0 <= j < i ==> stamp(rows[j]) <= wm
      invariant wm == since || exists r :: r in rows && stamp(r) == wm
    {
      var t := stamp(rows[i]);
      if t > wm {
        wm := t;
      }
    }
    var hasMore := |rows| > limit;
    var kept := rows;
    if hasMore {
      kept := rows[..limit];
    }
    page := SyncPage(kept, wm, hasMore);
  }

  lemma {:induction false} HorizonIsLatest(rows: seq<Entry>, since: int)
    ensures Horizon(rows, since) >= since
    ensures forall r :: r in rows ==> StampOf(r) <= Horizon(rows, since)
    ensures Horizon(rows, since) == since || exists r :: r in rows && StampOf(r) == Horizon(rows, since)
  {
    if rows != [] {
      var front, last := rows[..|rows| - 1], rows[|rows| - 1];
      HorizonIsLatest(front, since);
      assert rows == front + [last];
    }
  }

  // ---- one domain ---------------------------------------------------------------

  function UpsertOps(d: Domain, rows: seq<Entry>): (ops: seq<Change>) {
    seq(|rows|, i requires 0 <= i < |rows| => Upsert(d, rows[i].id, rows[i].row))
  }

  function DeleteOps(d: Domain, rows: seq<Entry>): (ops: seq<Change>) {
    seq(|rows|, i requires 0 <= i < |rows| => Delete(d, rows[i].id))
  }

  /** The upsert page, and for delete-capable domains the delete page merged into it:
      the later watermark wins. */
  function DomainDelta(t: Table, d: Domain, since: int, limit: nat): DomainPull {
    var up := StreamPage(t, Upserts, since, limit);
    var base := DomainPull(UpsertOps(d, up.rows), up.watermark, up.hasMore);
    if !DeleteCapable(d) then base
    else
      var del := StreamPage(t, Deletes, since, limit);
      DomainPull(base.changes + DeleteOps(d, del.rows),
                 Max(base.watermark, del.watermark),
                 del.hasMore || base.hasMore)
  }

  function Delta(cat: Catalogue, d: Domain, since: int, limit: nat): DomainPull {
    DomainDelta(TableOf(cat, d), d, since, limit)
  }

  /** One ordered limit+1 read cut to a page. */
  method ReadPage(t: Table, s: Stream, since: int, limit: nat) returns (page: SyncPage<Entry>)
    ensures page == StreamPage(t, s, since, limit)
  {
    var rows := Query(t, s, since, limit + 1);
    page := PageOf(rows, since, limit, StampOf);
    HorizonIsLatest(rows, since);
  }

  /** DeletedIDsChangedSince: the privileged helper raises outside its own list. */
  method ReadDeleted(t: Table, d: Domain, since: int, limit: nat) returns (page: Option<SyncPage<Entry>>)
    ensures page == if d in DELETED_IDS_DOMAINS then Some(StreamPage(t, Deletes, since, limit)) else None
  {
    if d !in DELETED_IDS_DOMAINS {
      return None;
    }
    var p := ReadPage(t, Deletes, since, limit);
    return Some(p);
  }

  method EmitUpserts(d: Domain, rows: seq<Entry>) returns (ops: seq<Change>)
    ensures ops == UpsertOps(d, rows)
  {
    ops := [];
    for i := 0 to |rows|
      invariant ops == UpsertOps(d, rows)[..i]
    {
      ops := ops + [Upsert(d, rows[i].id, rows[i].row)];
    }
  }

  method EmitDeletes(d: Domain, rows: seq<Entry>) returns (ops: seq<Change>)
    ensures ops == DeleteOps(d, rows)
  {
    ops := [];
    for i := 0 to |rows|
      invariant ops == DeleteOps(d, rows)[..i]
    {
      ops := ops + [Delete(d, rows[i].id)];
    }
  }

  /** A name outside the whitelist is an error. */
  method PullDomain(cat: Catalogue, d: Domain, since: int, limit: nat) returns (res: Option<DomainPull>)
    ensures res == if d.Unlisted? then None else Some(Delta(cat, d, since, limit))
  {
    if d.Unlisted? {
      return None;
    }
    var t := TableOf(cat, d);
    var page := ReadPage(t, Upserts, since, limit);
    var changes := EmitUpserts(d, page.rows);
    var pull := DomainPull(changes, page.watermark, page.hasMore);
    if DeleteCapable(d) {
      var deleted := ReadDeleted(t, d, since, limit);
      if deleted.None? {
        return None;
      }
      var delPage := deleted.value;
      var ops := EmitDeletes(d, delPage.rows);
      pull := pull.(changes := pull.changes + ops);
      if delPage.watermark > pull.watermark {
        pull := pull.(watermark := delPage.watermark);
      }
      pull := pull.(hasMore := delPage.hasMore || pull.hasMore);
    }
    return Some(pull);
  }

  // ---- all requested domains ------------------------------------------------------

  function Requested(domains: seq<Domain>): seq<Domain> {
    if |domains| == 0 then SYNC_DOMAINS_ORDER else domains
  }

  /** The page of every requested domain, in request order. */
  function Deltas(cat: Catalogue, ds: seq<Domain>, since: int, limit: nat): seq<DomainPull> {
    seq(|ds|, i requires 0 <= i < |ds| => Delta(cat, ds[i], since, limit))
  }

  // The folds below run over the first n pages, as the loop does.

  function AllChanges(pulls: seq<DomainPull>, n: nat): seq<Change>
    requires n <= |pulls|
  {
    if n == 0 then [] else AllChanges(pulls, n - 1) + pulls[n - 1].changes
  }

  predicate AnyMore(pulls: seq<DomainPull>, n: nat)
    requires n <= |pulls|
  {
    n > 0 && (AnyMore(pulls, n - 1) || pulls[n - 1].hasMore)
  }

  /** The latest watermark of any requested domain. */
  function Advance(pulls: seq<DomainPull>, n: nat, since: int): int
    requires n <= |pulls|
  {
    if n == 0 then since else Max(Advance(pulls, n - 1, since), pulls[n - 1].watermark)
  }

  /** The earliest watermark of an unfinished domain; the cursor when there is none. */
  function Clamp(pulls: seq<DomainPull>, n: nat, since: int): int
    requires n <= |pulls|
  {
    if n == 0 then since
    else
      var last, c := pulls[n - 1], Clamp(pulls, n - 1, since);
      if last.hasMore && (!AnyMore(pulls, n - 1) || last.watermark < c) then last.watermark else c
  }

  function NextCursor(pulls: seq<DomainPull>, since: int): int {
    if AnyMore(pulls, |pulls|) then Clamp(pulls, |pulls|, since) else Advance(pulls, |pulls|, since)
  }

  /** The has_more map, last write wins for a domain named twice. */
  function MoreByDomain(ds: seq<Domain>, pulls: seq<DomainPull>, n: nat): map<Domain, bool>
    requires n <= |pulls| == |ds|
  {
    if n == 0 then map[] else MoreByDomain(ds, pulls, n - 1)[ds[n - 1] := pulls[n - 1].hasMore]
  }

  /** The response of one poll. */
  function PollResult(cat: Catalogue, ds: seq<Domain>, cursor: int, limit: nat): PullResult {
    var pulls := Deltas(cat, ds, cursor, limit);
    PullResult(AllChanges(pulls, |ds|), NextCursor(pulls, cursor), MoreByDomain(ds, pulls, |ds|))
  }

  predicate Supported(ds: seq<Domain>, n: nat)
    requires n <= |ds|
  {
    n > 0 ==> Supported(ds, n - 1) && !ds[n - 1].Unlisted?
  }

  lemma {:induction false} SupportedMeansListed(ds: seq<Domain>, n: nat)
    requires n <= |ds|
    ensures Supported(ds, n) <==> forall j :: 0 <= j < n ==> !ds[j].Unlisted?
  {
    if n > 0 {
      SupportedMeansListed(ds, n - 1);
    }
  }

  /** The loop of Pull. A domain outside the whitelist fails the whole poll. */
  method PullEach(cat: Catalogue, ds: seq<Domain>, cursor: int, limit: nat) returns (out: PullOutcome)
    ensures out.Pulled? ==> Supported(ds, |ds|) && out.result == PollResult(cat, ds, cursor, limit)
    ensures out.UnsupportedDomain? ==> Unlisted(out.name) in ds
  {
    var changes: seq<Change> := [];
    var hasMore: map<Domain, bool> := map[];
    var advance, clamp := cursor, cursor;
    var clamped, anyMore := false, false;
    ghost var pulls := Deltas(cat, ds, cursor, limit);
    for i := 0 to |ds|
      invariant Supported(ds, i)
      invariant hasMore == MoreByDomain(ds, pulls, i)
      invariant changes == AllChanges(pulls, i)
      invariant advance == Advance(pulls, i, cursor)
      invariant clamp == Clamp(pulls, i, cursor)
      invariant clamped == anyMore == AnyMore(pulls, i)
    {
      var name := ds[i];
      var pulled := PullDomain(cat, name, cursor, limit);
      if pulled.None? {
        return UnsupportedDomain(name.name);
      }
      var res := pulled.value;
      assert pulls[i] == res;
      hasMore := hasMore[name := res.hasMore];
      anyMore := anyMore || res.hasMore;
      changes := changes + res.changes;
      if res.watermark > advance {
        advance := res.watermark;
      }
      if res.hasMore && (!clamped || res.watermark < clamp) {
        clamp := res.watermark;
        clamped := true;
      }
    }
    var next := cursor;
    if !anyMore {
      next := advance;
    } else if clamped {
      next := clamp;
    }
    out := Pulled(PullResult(changes, next, hasMore));
  }

  /** SyncService.Pull: no domains means all of them. */
  method Pull(cat: Catalogue, domains: seq<Domain>, cursor: int, limit: nat) returns (out: PullOutcome)
    ensures out.Pulled? <==> forall j :: 0 <= j < |domains| ==> !domains[j].Unlisted?
    ensures out.Pulled? ==> out.result == PollResult(cat, Requested(domains), cursor, limit)
    ensures out.UnsupportedDomain? ==> Unlisted(out.name) in domains
  {
    var ds := domains;
    if |ds| == 0 {
      ds := SYNC_DOMAINS_ORDER;
    }
    out := PullEach(cat, ds, cursor, limit);
    SupportedMeansListed(ds, |ds|);
  }

  /** The has_more a client is sent: the domains with more, and no others. */
  function Sent(hasMore: map<Domain, bool>): set<Domain> { set d | d in hasMore && hasMore[d] }

  /** The handler's loop over the result's map. */
  method SendHasMore(hasMore: map<Domain, bool>) returns (sent: set<Domain>)
    ensures sent == Sent(hasMore)
  {
    sent := {};
    var todo := hasMore.Keys;
    while todo != {}
      invariant todo <= hasMore.Keys
      invariant sent == set d | d in hasMore && d !in todo && hasMore[d]
      decreases |todo|
    {
      var d :| d in todo;
      todo := todo - {d};
      if hasMore[d] {
        sent := sent + {d};
      }
    }
  }
}
