/** One poll: what a page and a whole response carry, and exactly when a poll leaves no
    gap below its next cursor. */
module SyncPoll {
  import opened SyncCatalogue
  import opened SyncService

  predicate Unfinished(t: Table, s: Stream, since: int, limit: nat) {
    |Selected(t, s, since)| > limit
  }

  /** A page holds every selected row stamped below its watermark. A page with more to
      come has left a row stamped exactly at its watermark (the sentinel) behind. */
  lemma StreamPageCarries(t: Table, s: Stream, since: int, limit: nat)
    ensures
      var sel, page := Selected(t, s, since), StreamPage(t, s, since, limit);
      && (page.hasMore <==> Unfinished(t, s, since, limit))
      && page.watermark >= since
      && |page.rows| == (if page.hasMore then limit else |sel|)
      && (forall e :: e in page.rows ==> e in sel && e.row.stamp <= page.watermark)
      && (forall e :: e in sel && e.row.stamp < page.watermark ==> e in page.rows)
      && (!page.hasMore ==> forall e :: e in sel ==> e in page.rows && e.row.stamp <= page.watermark)
      && (page.hasMore ==> exists e :: e in sel && e !in page.rows && e.row.stamp == page.watermark)
  {
    if Unfinished(t, s, since, limit) {
      FullPageCarries(t, s, since, limit);
    } else {
      InOrderSorts(Selected(t, s, since));
      HorizonIsLatest(Query(t, s, since, limit + 1), since);
      assert StreamPage(t, s, since, limit).rows == InOrder(Selected(t, s, since));
    }
  }

  lemma {:induction false} HorizonOfAscending(rows: seq<Entry>, since: int)
    requires Ascending(rows) && rows != [] && rows[0].row.stamp >= since
    ensures Horizon(rows, since) == StampOf(rows[|rows| - 1])
  {
    if |rows| > 1 {
      HorizonOfAscending(rows[..|rows| - 1], since);
      assert Before(rows[|rows| - 2], rows[|rows| - 1]);
    }
  }

  /** Cutting an ascending sequence at index n. */
  lemma CutAscending(all: seq<Entry>, n: nat)
    requires Ascending(all) && n < |all|
    ensures forall e :: e in all[..n] ==> e in all && e.row.stamp <= all[n].row.stamp
    ensures forall e :: e in all && e.row.stamp < all[n].row.stamp ==> e in all[..n]
    ensures all[n] in all && all[n] !in all[..n]
  {
    forall e | e in all[..n] ensures e in all && e.row.stamp <= all[n].row.stamp && e != all[n] {
      var k :| 0 <= k < n && all[k] == e;
      assert Before(all[k], all[n]);
    }
    forall k | n < k < |all| ensures all[n].row.stamp <= all[k].row.stamp {
      assert Before(all[n], all[k]);
    }
    forall e | e in all && e.row.stamp < all[n].row.stamp ensures e in all[..n] {
      var k :| 0 <= k < |all| && all[k] == e;
      assert all[..n][k] == e;
    }
  }

  lemma FullPageCarries(t: Table, s: Stream, since: int, limit: nat)
    requires Unfinished(t, s, since, limit)
    ensures
      var sel, page := Selected(t, s, since), StreamPage(t, s, since, limit);
      && page.hasMore
      && page.watermark >= since
      && |page.rows| == limit
      && (forall e :: e in page.rows ==> e in sel && e.row.stamp <= page.watermark)
      && (forall e :: e in sel && e.row.stamp < page.watermark ==> e in page.rows)
      && exists e :: e in sel && e !in page.rows && e.row.stamp == page.watermark
  {
    var sel := Selected(t, s, since);
    var all, rows := InOrder(sel), Query(t, s, since, limit + 1);
    InOrderSorts(sel);
    CutAscending(all, limit);
    assert rows == all[..limit + 1] && rows[..limit] == all[..limit];
    assert all[0] in all;
    HorizonOfAscending(rows, since);
  }

  lemma {:induction false} ChangesOfAll(pulls: seq<DomainPull>, n: nat, ch: Change)
    requires n <= |pulls|
    ensures ch in AllChanges(pulls, n) <==> exists j :: 0 <= j < n && ch in pulls[j].changes
  {
    if n > 0 {
      ChangesOfAll(pulls, n - 1, ch);
    }
  }

  lemma UpsertOpsCarry(d: Domain, rows: seq<Entry>, ch: Change)
    ensures ch in UpsertOps(d, rows) <==> ch.Upsert? && ch.domain == d && Entry(ch.id, ch.row) in rows
  {
    var ops := UpsertOps(d, rows);
    if ch.Upsert? && ch.domain == d && Entry(ch.id, ch.row) in rows {
      var k :| 0 <= k < |rows| && rows[k] == Entry(ch.id, ch.row);
      assert ops[k] == ch;
    }
    if ch in ops {
      var k :| 0 <= k < |ops| && ops[k] == ch;
      assert rows[k] == Entry(ch.id, ch.row);
    }
  }

  lemma DeleteOpsCarry(d: Domain, rows: seq<Entry>, ch: Change)
    ensures ch in DeleteOps(d, rows) <==> ch.Delete? && ch.domain == d && exists r :: Entry(ch.id, r) in rows
  {
    var ops := DeleteOps(d, rows);
    if ch.Delete? && ch.domain == d && exists r :: Entry(ch.id, r) in rows {
      var r :| Entry(ch.id, r) in rows;
      var k :| 0 <= k < |rows| && rows[k] == Entry(ch.id, r);
      assert ops[k] == ch;
    }
    if ch in ops {
      var k :| 0 <= k < |ops| && ops[k] == ch;
      assert rows[k] == Entry(ch.id, rows[k].row);
    }
  }

  /** The rows of one domain a response carries. */
  ghost predicate Carries(cat: Catalogue, since: int, limit: nat, ch: Change) {
    var t := TableOf(cat, ch.domain);
    match ch
    case Upsert(d, i, r) => Entry(i, r) in StreamPage(t, Upserts, since, limit).rows
    case Delete(d, i) => DeleteCapable(d) && exists r :: Entry(i, r) in StreamPage(t, Deletes, since, limit).rows
  }

  function Response(cat: Catalogue, ds: seq<Domain>, since: int, limit: nat): seq<Change> {
    PollResult(cat, ds, since, limit).changes
  }

  function Next(cat: Catalogue, ds: seq<Domain>, since: int, limit: nat): int {
    PollResult(cat, ds, since, limit).nextCursor
  }

  /** The domains the client is told there is more of. */
  function MoreOf(cat: Catalogue, ds: seq<Domain>, since: int, limit: nat): set<Domain> {
    Sent(PollResult(cat, ds, since, limit).hasMore)
  }

  /** The client is told of no more. */
  predicate Finished(cat: Catalogue, ds: seq<Domain>, since: int, limit: nat) {
    MoreOf(cat, ds, since, limit) == {}
  }

  lemma {:induction false} MoreByDomainIs(ds: seq<Domain>, pulls: seq<DomainPull>, n: nat, d: Domain, more: bool)
    requires n <= |pulls| == |ds|
    requires forall j :: 0 <= j < n && ds[j] == d ==> pulls[j].hasMore == more
    ensures
      var m := MoreByDomain(ds, pulls, n);
      && (d in m <==> d in ds[..n])
      && (d in m ==> m[d] == more)
  {
    if n > 0 {
      MoreByDomainIs(ds, pulls, n - 1, d, more);
      assert ds[..n] == ds[..n - 1] + [ds[n - 1]];
    }
  }

  lemma ReportedMore(cat: Catalogue, ds: seq<Domain>, since: int, limit: nat, d: Domain)
    ensures
      var m := PollResult(cat, ds, since, limit).hasMore;
      && (d in m <==> d in ds)
      && (d in m ==> m[d] == Delta(cat, d, since, limit).hasMore)
  {
    var pulls, more := Deltas(cat, ds, since, limit), Delta(cat, d, since, limit).hasMore;
    MoreByDomainIs(ds, pulls, |ds|, d, more);
    assert ds[..|ds|] == ds;
  }

  /** has_more: one entry for each requested domain, true exactly when one of the domain's
      streams has more rows from the cursor on than fit a page. */
  lemma HasMoreIs(cat: Catalogue, ds: seq<Domain>, since: int, limit: nat, d: Domain)
    ensures
      var m := PollResult(cat, ds, since, limit).hasMore;
      && (d in m <==> d in ds)
      && (d in m ==> (m[d] <==> exists s :: Serves(d, s) && |Selected(TableOf(cat, d), s, since)| > limit))
  {
    ReportedMore(cat, ds, since, limit, d);
    UnfinishedStreamMeansMore(cat, d, since, limit);
    if s :| Serves(d, s) && |Selected(TableOf(cat, d), s, since)| > limit {
      assert Unfinished(TableOf(cat, d), s, since, limit);
    }
  }

  /** What the client is sent: a requested domain is named exactly while a stream of it has more
      rows than fit a page, and no domain that was not asked for ever is. */
  lemma SentIs(cat: Catalogue, ds: seq<Domain>, since: int, limit: nat, d: Domain)
    ensures d in MoreOf(cat, ds, since, limit)
            <==> d in ds && exists s :: Serves(d, s) && |Selected(TableOf(cat, d), s, since)| > limit
  {
    HasMoreIs(cat, ds, since, limit, d);
  }

  lemma MoreOfIs(cat: Catalogue, ds: seq<Domain>, since: int, limit: nat, d: Domain)
    ensures d in MoreOf(cat, ds, since, limit) <==> d in ds && Delta(cat, d, since, limit).hasMore
  {
    ReportedMore(cat, ds, since, limit, d);
  }

  lemma FinishedIs(cat: Catalogue, ds: seq<Domain>, since: int, limit: nat)
    ensures Finished(cat, ds, since, limit) <==> !AnyMore(Deltas(cat, ds, since, limit), |ds|)
  {
    var pulls := Deltas(cat, ds, since, limit);
    AnyMoreIsSome(pulls, |ds|);
    if AnyMore(pulls, |ds|) {
      var j :| 0 <= j < |ds| && pulls[j].hasMore;
      MoreOfIs(cat, ds, since, limit, ds[j]);
    } else {
      forall d ensures d !in MoreOf(cat, ds, since, limit) {
        MoreOfIs(cat, ds, since, limit, d);
        if d in ds {
          var j :| 0 <= j < |ds| && ds[j] == d;
          assert pulls[j] == Delta(cat, d, since, limit);
        }
      }
    }
  }

  lemma ResponseCarries(cat: Catalogue, ds: seq<Domain>, since: int, limit: nat, ch: Change)
    ensures ch in Response(cat, ds, since, limit) <==> ch.domain in ds && Carries(cat, since, limit, ch)
  {
    var pulls := Deltas(cat, ds, since, limit);
    ChangesOfAll(pulls, |ds|, ch);
    forall j | 0 <= j < |ds|
      ensures ch in pulls[j].changes <==> ch.domain == ds[j] && Carries(cat, since, limit, ch)
    {
      var t := TableOf(cat, ds[j]);
      UpsertOpsCarry(ds[j], StreamPage(t, Upserts, since, limit).rows, ch);
      DeleteOpsCarry(ds[j], StreamPage(t, Deletes, since, limit).rows, ch);
    }
  }

  lemma {:induction false} AnyMoreIsSome(pulls: seq<DomainPull>, n: nat)
    requires n <= |pulls|
    ensures AnyMore(pulls, n) <==> exists j :: 0 <= j < n && pulls[j].hasMore
  {
    if n > 0 {
      AnyMoreIsSome(pulls, n - 1);
    }
  }

  lemma {:induction false} ClampIsEarliest(pulls: seq<DomainPull>, n: nat, since: int)
    requires n <= |pulls| && AnyMore(pulls, n)
    ensures forall j :: 0 <= j < n && pulls[j].hasMore ==> Clamp(pulls, n, since) <= pulls[j].watermark
    ensures exists j :: 0 <= j < n && pulls[j].hasMore && Clamp(pulls, n, since) == pulls[j].watermark
  {
    AnyMoreIsSome(pulls, n);
    AnyMoreIsSome(pulls, n - 1);
    if AnyMore(pulls, n - 1) {
      ClampIsEarliest(pulls, n - 1, since);
      var k :| 0 <= k < n - 1 && pulls[k].hasMore && Clamp(pulls, n - 1, since) == pulls[k].watermark;
    }
  }

  lemma {:induction false} AdvanceIsLatest(pulls: seq<DomainPull>, n: nat, since: int)
    requires n <= |pulls|
    ensures Advance(pulls, n, since) >= since
    ensures forall j :: 0 <= j < n ==> pulls[j].watermark <= Advance(pulls, n, since)
    ensures Advance(pulls, n, since) == since || exists j :: 0 <= j < n && pulls[j].watermark == Advance(pulls, n, since)
  {
    if n > 0 {
      AdvanceIsLatest(pulls, n - 1, since);
    }
  }

  lemma NextBounds(cat: Catalogue, ds: seq<Domain>, since: int, limit: nat, d: Domain)
    requires d in ds
    ensures Finished(cat, ds, since, limit) ==>
              !Delta(cat, d, since, limit).hasMore && Delta(cat, d, since, limit).watermark <= Next(cat, ds, since, limit)
    ensures Delta(cat, d, since, limit).hasMore ==>
              !Finished(cat, ds, since, limit) && Next(cat, ds, since, limit) <= Delta(cat, d, since, limit).watermark
  {
    var pulls := Deltas(cat, ds, since, limit);
    var k :| 0 <= k < |ds| && ds[k] == d;
    assert pulls[k] == Delta(cat, d, since, limit);
    FinishedIs(cat, ds, since, limit);
    AnyMoreIsSome(pulls, |ds|);
    AdvanceIsLatest(pulls, |ds|, since);
    if AnyMore(pulls, |ds|) {
      ClampIsEarliest(pulls, |ds|, since);
    }
  }

  lemma ClampingDomain(cat: Catalogue, ds: seq<Domain>, since: int, limit: nat) returns (d: Domain)
    requires !Finished(cat, ds, since, limit)
    ensures d in ds && Delta(cat, d, since, limit).hasMore
    ensures Next(cat, ds, since, limit) == Delta(cat, d, since, limit).watermark
  {
    var pulls := Deltas(cat, ds, since, limit);
    FinishedIs(cat, ds, since, limit);
    ClampIsEarliest(pulls, |ds|, since);
    var k :| 0 <= k < |ds| && pulls[k].hasMore && Clamp(pulls, |ds|, since) == pulls[k].watermark;
    d := ds[k];
    assert pulls[k] == Delta(cat, d, since, limit);
  }

  lemma CursorNeverMovesBack(cat: Catalogue, ds: seq<Domain>, since: int, limit: nat)
    ensures Next(cat, ds, since, limit) >= since
  {
    AdvanceIsLatest(Deltas(cat, ds, since, limit), |ds|, since);
    FinishedIs(cat, ds, since, limit);
    if !Finished(cat, ds, since, limit) {
      var d := ClampingDomain(cat, ds, since, limit);
      StreamPageCarries(TableOf(cat, d), Upserts, since, limit);
    }
  }

  /** The next cursor: the earliest watermark of an unfinished domain, else the latest
      watermark of all, else the cursor itself. It never moves back. */
  lemma NextIs(cat: Catalogue, ds: seq<Domain>, since: int, limit: nat)
    ensures Next(cat, ds, since, limit) >= since
    ensures Finished(cat, ds, since, limit) <==> forall d :: d in ds ==> !Delta(cat, d, since, limit).hasMore
    ensures Finished(cat, ds, since, limit) ==>
              forall d :: d in ds ==> Delta(cat, d, since, limit).watermark <= Next(cat, ds, since, limit)
    ensures !Finished(cat, ds, since, limit) ==>
              && (forall d :: d in ds && Delta(cat, d, since, limit).hasMore
                    ==> Next(cat, ds, since, limit) <= Delta(cat, d, since, limit).watermark)
              && exists d :: d in ds && Delta(cat, d, since, limit).hasMore
                             && Next(cat, ds, since, limit) == Delta(cat, d, since, limit).watermark
  {
    CursorNeverMovesBack(cat, ds, since, limit);
    FinishedIs(cat, ds, since, limit);
    forall d | d in ds
      ensures Finished(cat, ds, since, limit) ==>
                !Delta(cat, d, since, limit).hasMore && Delta(cat, d, since, limit).watermark <= Next(cat, ds, since, limit)
      ensures Delta(cat, d, since, limit).hasMore ==>
                !Finished(cat, ds, since, limit) && Next(cat, ds, since, limit) <= Delta(cat, d, since, limit).watermark
    {
      NextBounds(cat, ds, since, limit, d);
    }
    if !Finished(cat, ds, since, limit) {
      var d := ClampingDomain(cat, ds, since, limit);
    }
  }

  // ---- the order of a response ------------------------------------------------------

  lemma {:induction false} ChangesOfPrefix(xs: seq<DomainPull>, ys: seq<DomainPull>, n: nat)
    requires n <= |ys|
    ensures AllChanges(xs + ys, |xs| + n) == AllChanges(xs, |xs|) + AllChanges(ys, n)
    decreases n
  {
    if n > 0 {
      ChangesOfPrefix(xs, ys, n - 1);
    } else {
      ChangesOfFirst(xs, ys, |xs|);
    }
  }

  lemma {:induction false} ChangesOfFirst(xs: seq<DomainPull>, ys: seq<DomainPull>, n: nat)
    requires n <= |xs|
    ensures AllChanges(xs + ys, n) == AllChanges(xs, n)
  {
    if n > 0 {
      ChangesOfFirst(xs, ys, n - 1);
    }
  }

  /** A request that names no domain is for all of them. */
  lemma RequestedIs(domains: seq<Domain>, d: Domain)
    ensures d in Requested(domains) <==> if domains == [] then !d.Unlisted? else d in domains
    ensures domains != [] ==> Requested(domains) == domains
  {
    OrderIsWhitelist(d);
  }

  /** Changes come domain by domain, in the order of the request. */
  lemma ResponseInRequestOrder(cat: Catalogue, first: seq<Domain>, rest: seq<Domain>, since: int, limit: nat)
    ensures Response(cat, first + rest, since, limit)
            == Response(cat, first, since, limit) + Response(cat, rest, since, limit)
  {
    var xs, ys := Deltas(cat, first, since, limit), Deltas(cat, rest, since, limit);
    DeltasAppend(cat, first, rest, since, limit);
    ChangesOfPrefix(xs, ys, |ys|);
    ResponseIs(cat, first, since, limit);
    ResponseIs(cat, rest, since, limit);
    ResponseIs(cat, first + rest, since, limit);
  }

  lemma DeltasAppend(cat: Catalogue, first: seq<Domain>, rest: seq<Domain>, since: int, limit: nat)
    ensures Deltas(cat, first + rest, since, limit) == Deltas(cat, first, since, limit) + Deltas(cat, rest, since, limit)
  {
  }

  lemma ResponseIs(cat: Catalogue, ds: seq<Domain>, since: int, limit: nat)
    ensures Response(cat, ds, since, limit) == AllChanges(Deltas(cat, ds, since, limit), |Deltas(cat, ds, since, limit)|)
  {
  }

  /** Upserts before deletes, and each in ascending stamp and id order. */
  ghost predicate InStampOrder(a: Change, b: Change, t: Table) {
    && a.id in t && b.id in t
    && (b.Upsert? ==> a.Upsert?)
    && (a.Upsert? == b.Upsert? ==>
          t[a.id].stamp < t[b.id].stamp || (t[a.id].stamp == t[b.id].stamp && a.id < b.id))
    && (a.Upsert? ==> a.row == t[a.id])
    && (b.Upsert? ==> b.row == t[b.id])
  }

  lemma DeltaInStampOrder(t: Table, d: Domain, since: int, limit: nat, j: nat, k: nat)
    requires j < k < |DomainDelta(t, d, since, limit).changes|
    ensures InStampOrder(DomainDelta(t, d, since, limit).changes[j], DomainDelta(t, d, since, limit).changes[k], t)
  {
    var ups, dels := StreamPage(t, Upserts, since, limit).rows, StreamPage(t, Deletes, since, limit).rows;
    PageAscends(t, Upserts, since, limit);
    PageAscends(t, Deletes, since, limit);
    var ops, gone, n := UpsertOps(d, ups), DeleteOps(d, dels), |ups|;
    var all := DomainDelta(t, d, since, limit).changes;
    assert all == ops || all == ops + gone;
    if k < n {
      assert all[j] == Upsert(d, ups[j].id, ups[j].row) && all[k] == Upsert(d, ups[k].id, ups[k].row);
    } else {
      assert all[k] == Delete(d, dels[k - n].id);
      if j >= n {
        assert all[j] == Delete(d, dels[j - n].id);
      }
    }
  }

  /** Within a domain, upserts come first, in ascending stamp and id order, then the deletes. */
  lemma ResponseInStampOrder(cat: Catalogue, d: Domain, since: int, limit: nat, j: nat, k: nat)
    requires j < k < |Response(cat, [d], since, limit)|
    ensures InStampOrder(Response(cat, [d], since, limit)[j], Response(cat, [d], since, limit)[k], TableOf(cat, d))
  {
    OneDomainResponse(cat, d, since, limit);
    DeltaInStampOrder(TableOf(cat, d), d, since, limit, j, k);
  }

  lemma OneDomainResponse(cat: Catalogue, d: Domain, since: int, limit: nat)
    ensures Response(cat, [d], since, limit) == DomainDelta(TableOf(cat, d), d, since, limit).changes
  {
    var pulls := Deltas(cat, [d], since, limit);
    assert AllChanges(pulls, 0) == [];
    assert AllChanges(pulls, 1) == AllChanges(pulls, 0) + pulls[0].changes;
  }

  lemma PageAscends(t: Table, s: Stream, since: int, limit: nat)
    ensures
      var rows := StreamPage(t, s, since, limit).rows;
      && (forall j, k :: 0 <= j < k < |rows| ==> Before(rows[j], rows[k]))
      && (forall j :: 0 <= j < |rows| ==> rows[j].id in t && rows[j].row == t[rows[j].id])
  {
    var sel := Selected(t, s, since);
    InOrderSorts(sel);
    var all, rows := InOrder(sel), StreamPage(t, s, since, limit).rows;
    assert rows <= all;
    forall j | 0 <= j < |rows| ensures rows[j].id in t && rows[j].row == t[rows[j].id] {
      assert rows[j] == all[j] && all[j] in sel;
    }
  }

  // ---- no gap -------------------------------------------------------------------

  /** The operation that tells a client about a row, where the domain has one. */
  ghost predicate Told(changes: seq<Change>, d: Domain, i: nat, r: Row) {
    && (r.standing.Visible? ==> Upsert(d, i, r) in changes)
    && (r.standing.SoftDeleted? && DeleteCapable(d) ==> Delete(d, i) in changes)
  }

  /** Every row of a requested domain stamped from the cursor up to the next cursor is
      among the changes. */
  ghost predicate NoGap(cat: Catalogue, ds: seq<Domain>, since: int, limit: nat) {
    forall d, i :: d in ds && i in TableOf(cat, d)
                   && since <= TableOf(cat, d)[i].stamp < Next(cat, ds, since, limit)
      ==> Told(Response(cat, ds, since, limit), d, i, TableOf(cat, d)[i])
  }

  /** Every unfinished stream reads at least as far as some unfinished domain's merged
      watermark: the guard the merge in pullDomain does not make. */
  ghost predicate Covered(cat: Catalogue, ds: seq<Domain>, since: int, limit: nat) {
    forall d, s :: d in ds && Serves(d, s) && Unfinished(TableOf(cat, d), s, since, limit)
      ==> exists u :: u in ds && Delta(cat, u, since, limit).hasMore
                      && Delta(cat, u, since, limit).watermark
                         <= StreamPage(TableOf(cat, d), s, since, limit).watermark
  }

  lemma UnfinishedStreamMeansMore(cat: Catalogue, d: Domain, since: int, limit: nat)
    ensures Delta(cat, d, since, limit).hasMore
            <==> exists s :: Serves(d, s) && Unfinished(TableOf(cat, d), s, since, limit)
  {
    StreamPageCarries(TableOf(cat, d), Upserts, since, limit);
    StreamPageCarries(TableOf(cat, d), Deletes, since, limit);
    assert Serves(d, Upserts);
    assert DeleteCapable(d) ==> Serves(d, Deletes);
  }

  lemma ToldBelowWatermark(cat: Catalogue, ds: seq<Domain>, since: int, limit: nat, d: Domain, i: nat)
    requires d in ds && i in TableOf(cat, d) && TableOf(cat, d)[i].stamp >= since
    requires
      var t := TableOf(cat, d);
      forall s :: Serves(d, s) && Unfinished(t, s, since, limit) ==> t[i].stamp < StreamPage(t, s, since, limit).watermark
    ensures Told(Response(cat, ds, since, limit), d, i, TableOf(cat, d)[i])
  {
    var t := TableOf(cat, d);
    var r := t[i];
    StreamPageCarries(t, Upserts, since, limit);
    StreamPageCarries(t, Deletes, since, limit);
    ResponseCarries(cat, ds, since, limit, Upsert(d, i, r));
    ResponseCarries(cat, ds, since, limit, Delete(d, i));
    if r.standing.Visible? {
      assert Serves(d, Upserts);
      assert Entry(i, r) in Selected(t, Upserts, since);
    }
    if r.standing.SoftDeleted? && DeleteCapable(d) {
      assert Serves(d, Deletes);
      assert Entry(i, r) in Selected(t, Deletes, since);
      assert Entry(i, r) in StreamPage(t, Deletes, since, limit).rows;
    }
  }

  /** A poll leaves no gap exactly when every unfinished stream was read as far as the
      next cursor. */
  lemma NoGapIff(cat: Catalogue, ds: seq<Domain>, since: int, limit: nat)
    ensures NoGap(cat, ds, since, limit) <==> Covered(cat, ds, since, limit)
  {
    NextIs(cat, ds, since, limit);
    if Covered(cat, ds, since, limit) {
      forall d, i | d in ds && i in TableOf(cat, d) && since <= TableOf(cat, d)[i].stamp < Next(cat, ds, since, limit)
        ensures Told(Response(cat, ds, since, limit), d, i, TableOf(cat, d)[i])
      {
        UnfinishedStreamMeansMore(cat, d, since, limit);
        ToldBelowWatermark(cat, ds, since, limit, d, i);
      }
    }
    if !Covered(cat, ds, since, limit) {
      var d, s :| d in ds && Serves(d, s) && Unfinished(TableOf(cat, d), s, since, limit)
        && forall u :: u in ds && Delta(cat, u, since, limit).hasMore
             ==> Delta(cat, u, since, limit).watermark > StreamPage(TableOf(cat, d), s, since, limit).watermark;
      SentinelIsSkipped(cat, ds, since, limit, d, s);
    }
  }

  lemma SentinelIsSkipped(cat: Catalogue, ds: seq<Domain>, since: int, limit: nat, d: Domain, s: Stream)
    requires d in ds && Serves(d, s) && Unfinished(TableOf(cat, d), s, since, limit)
    requires forall u :: u in ds && Delta(cat, u, since, limit).hasMore
               ==> Delta(cat, u, since, limit).watermark > StreamPage(TableOf(cat, d), s, since, limit).watermark
    ensures !NoGap(cat, ds, since, limit)
  {
    var t := TableOf(cat, d);
    NextIs(cat, ds, since, limit);
    UnfinishedStreamMeansMore(cat, d, since, limit);
    StreamPageCarries(t, s, since, limit);
    var e :| e in Selected(t, s, since) && e !in StreamPage(t, s, since, limit).rows
             && e.row.stamp == StreamPage(t, s, since, limit).watermark;
    ResponseCarries(cat, ds, since, limit, Upsert(d, e.id, e.row));
    ResponseCarries(cat, ds, since, limit, Delete(d, e.id));
    assert since <= t[e.id].stamp < Next(cat, ds, since, limit);
    if s.Deletes? {
      forall r ensures Entry(e.id, r) !in StreamPage(t, Deletes, since, limit).rows {
        assert Entry(e.id, r) in Selected(t, Deletes, since) ==> r == e.row;
      }
    }
    assert !Told(Response(cat, ds, since, limit), d, e.id, t[e.id]);
  }

  /** Domains without soft deletes are always read without a gap. */
  lemma UpsertOnlyDomainsHaveNoGap(cat: Catalogue, ds: seq<Domain>, since: int, limit: nat)
    requires forall d :: d in ds ==> !DeleteCapable(d)
    ensures NoGap(cat, ds, since, limit)
  {
    forall d, s | d in ds && Serves(d, s) && Unfinished(TableOf(cat, d), s, since, limit)
      ensures exists u :: u in ds && Delta(cat, u, since, limit).hasMore
                          && Delta(cat, u, since, limit).watermark
                             <= StreamPage(TableOf(cat, d), s, since, limit).watermark
    {
      UnfinishedStreamMeansMore(cat, d, since, limit);
      assert Delta(cat, d, since, limit).watermark <= StreamPage(TableOf(cat, d), s, since, limit).watermark;
    }
    NoGapIff(cat, ds, since, limit);
  }

  /** Delete-capable domains are too, as long as the merged watermark of each does not
      pass the watermark of a stream of it that still has more. */
  lemma MergedWatermarkBehindHasNoGap(cat: Catalogue, ds: seq<Domain>, since: int, limit: nat)
    requires forall d, s :: d in ds && Serves(d, s) && Unfinished(TableOf(cat, d), s, since, limit)
               ==> Delta(cat, d, since, limit).watermark <= StreamPage(TableOf(cat, d), s, since, limit).watermark
    ensures NoGap(cat, ds, since, limit)
  {
    forall d, s | d in ds && Serves(d, s) && Unfinished(TableOf(cat, d), s, since, limit)
      ensures Delta(cat, d, since, limit).hasMore
    {
      UnfinishedStreamMeansMore(cat, d, since, limit);
    }
    NoGapIff(cat, ds, since, limit);
  }

  /** A poll that reports nothing more has told the client about every row stamped from
      the cursor on. */
  lemma FinishedPollTellsAll(cat: Catalogue, ds: seq<Domain>, since: int, limit: nat, d: Domain, i: nat)
    requires Finished(cat, ds, since, limit)
    requires d in ds && i in TableOf(cat, d) && TableOf(cat, d)[i].stamp >= since
    ensures Told(Response(cat, ds, since, limit), d, i, TableOf(cat, d)[i])
  {
    NextIs(cat, ds, since, limit);
    UnfinishedStreamMeansMore(cat, d, since, limit);
    ToldBelowWatermark(cat, ds, since, limit, d, i);
  }
}
