/** Catching up with a catalogue that stands still: when polling makes progress, when it
    ends, and the inputs on which it does not. */
module SyncCatchUp {
  import opened Iteration
  import opened SyncCatalogue
  import opened SyncService
  import opened SyncPoll
  import opened SyncReplica

  /** The rows of a stream stamped exactly x. */
  function AtStamp(t: Table, s: Stream, since: int, x: int): set<Entry> {
    set e | e in Selected(t, s, since) && e.row.stamp == x
  }

  // ---- when the cursor stands still ---------------------------------------------------

  lemma {:induction false} ElementsOf(es: seq<Entry>)
    ensures |set e | e in es| <= |es|
    ensures Ascending(es) ==> |set e | e in es| == |es|
  {
    if es == [] {
      assert (set e | e in es) == {};
    } else {
      var front, last := es[..|es| - 1], es[|es| - 1];
      ElementsOf(front);
      assert es == front + [last];
      assert (set e | e in es) == (set e | e in front) + {last};
      if Ascending(es) {
        forall k | 0 <= k < |front| ensures front[k] != last {
          assert Before(es[k], es[|es| - 1]);
        }
      }
    }
  }

  lemma {:induction false} SubsetIsSmaller<T>(a: set<T>, b: set<T>)
    requires a <= b
    ensures |a| <= |b|
    ensures a != b ==> |a| < |b|
  {
    assert b == a + (b - a);
  }

  /** A stream's watermark stays at the cursor exactly when more rows than fit a page are
      stamped at it, or no row is stamped after it. */
  lemma HeldIff(t: Table, s: Stream, since: int, limit: nat)
    ensures StreamPage(t, s, since, limit).watermark == since
            <==> |AtStamp(t, s, since, since)| > limit || AtStamp(t, s, since, since) == Selected(t, s, since)
  {
    var sel, here, page := Selected(t, s, since), AtStamp(t, s, since, since), StreamPage(t, s, since, limit);
    StreamPageCarries(t, s, since, limit);
    if page.watermark > since {
      var shown := set e | e in page.rows;
      ElementsOf(page.rows);
      SubsetIsSmaller(here, shown);
      if here == sel {
        HorizonIsLatest(Query(t, s, since, limit + 1), since);
        InOrderSorts(sel);
      }
    } else if page.hasMore {
      ManyHeld(t, s, since, limit);
    } else {
      assert forall e :: e in sel ==> e in page.rows && e.row.stamp <= since;
      assert here == sel;
    }
  }

  lemma ManyHeld(t: Table, s: Stream, since: int, limit: nat)
    requires Unfinished(t, s, since, limit) && StreamPage(t, s, since, limit).watermark == since
    ensures |AtStamp(t, s, since, since)| > limit
  {
    var sel := Selected(t, s, since);
    var all, rows := InOrder(sel), Query(t, s, since, limit + 1);
    InOrderSorts(sel);
    assert rows == all[..limit + 1];
    HorizonIsLatest(rows, since);
    ElementsOf(rows);
    forall e | e in rows ensures e in AtStamp(t, s, since, since) {
      assert e in all;
    }
    SubsetIsSmaller((set e | e in rows), AtStamp(t, s, since, since));
  }

  /** More rows of the stream share the cursor's stamp than fit a page. */
  predicate Full(t: Table, s: Stream, since: int, limit: nat) {
    |AtStamp(t, s, since, since)| > limit
  }

  predicate Held(t: Table, s: Stream, since: int, limit: nat) {
    Full(t, s, since, limit) || AtStamp(t, s, since, since) == Selected(t, s, since)
  }

  /** Some stream of the domain is full at the cursor, and no stream of it would carry the
      merged watermark past the cursor. */
  predicate Jammed(t: Table, d: Domain, since: int, limit: nat) {
    && (Full(t, Upserts, since, limit) || (DeleteCapable(d) && Full(t, Deletes, since, limit)))
    && Held(t, Upserts, since, limit)
    && (DeleteCapable(d) ==> Held(t, Deletes, since, limit))
  }

  lemma FullMeansUnfinished(t: Table, s: Stream, since: int, limit: nat)
    ensures Full(t, s, since, limit) ==> StreamPage(t, s, since, limit).hasMore
    ensures Held(t, s, since, limit) && !Full(t, s, since, limit) ==> !StreamPage(t, s, since, limit).hasMore
    ensures Held(t, s, since, limit) <==> StreamPage(t, s, since, limit).watermark == since
    ensures StreamPage(t, s, since, limit).watermark >= since
  {
    HeldIff(t, s, since, limit);
    StreamPageCarries(t, s, since, limit);
    SubsetIsSmaller(AtStamp(t, s, since, since), Selected(t, s, since));
  }

  lemma JammedIff(t: Table, d: Domain, since: int, limit: nat)
    ensures Jammed(t, d, since, limit)
            <==> DomainDelta(t, d, since, limit).hasMore && DomainDelta(t, d, since, limit).watermark == since
  {
    FullMeansUnfinished(t, Upserts, since, limit);
    FullMeansUnfinished(t, Deletes, since, limit);
  }

  /** An unfinished poll leaves the cursor where it was exactly when a requested domain is
      jammed at it. */
  lemma StallIff(cat: Catalogue, ds: seq<Domain>, since: int, limit: nat)
    ensures !Finished(cat, ds, since, limit) && Next(cat, ds, since, limit) == since
            <==> exists d :: d in ds && Jammed(TableOf(cat, d), d, since, limit)
  {
    CursorNeverMovesBack(cat, ds, since, limit);
    if d :| d in ds && Jammed(TableOf(cat, d), d, since, limit) {
      JammedIff(TableOf(cat, d), d, since, limit);
      NextBounds(cat, ds, since, limit, d);
    }
    if !Finished(cat, ds, since, limit) && Next(cat, ds, since, limit) == since {
      var d := ClampingDomain(cat, ds, since, limit);
      JammedIff(TableOf(cat, d), d, since, limit);
    }
  }

  lemma StallStep(w: World, ds: seq<Domain>, limit: nat, d: Domain)
    requires d in ds && Jammed(TableOf(w.cat, d), d, w.cursor, limit)
    ensures var v := Polled(w, ds, limit); v.cat == w.cat && v.cursor == w.cursor && d !in v.current
  {
    StallIff(w.cat, ds, w.cursor, limit);
    JammedMeansMore(w.cat, ds, w.cursor, limit, d);
  }

  lemma JammedMeansMore(cat: Catalogue, ds: seq<Domain>, since: int, limit: nat, d: Domain)
    requires Jammed(TableOf(cat, d), d, since, limit)
    ensures d !in Exhausted(cat, ds, since, limit)
  {
    JammedIff(TableOf(cat, d), d, since, limit);
    ExhaustedIs(cat, ds, since, limit, d);
  }

  /** A client that stalls once stalls for good: over any run whose edits leave the jam in place
      and whose polls ask for the domain with pages no larger, the cursor does not move and the
      domain is never reported complete. */
  lemma {:induction false} StallIsForever(w: World, turns: seq<Turn>, d: Domain, limit: nat)
    requires Jammed(TableOf(w.cat, d), d, w.cursor, limit)
    requires forall turn :: turn in turns ==>
               && (turn.Edit? ==> Jammed(TableOf(turn.catalogue, d), d, w.cursor, limit))
               && (turn.Poll? ==> d in Requested(turn.domains) && turn.limit <= limit)
    ensures Run(w, turns).cursor == w.cursor
    ensures turns != [] ==> d !in Run(w, turns).current
    decreases |turns|
  {
    if turns != [] {
      assert forall turn :: turn in turns[1..] ==> turn in turns;
      match turns[0] {
        case Edit(_) =>
        case Poll(domains, page) =>
          assert Jammed(TableOf(w.cat, d), d, w.cursor, page);
          StallStep(w, Requested(domains), page, d);
      }
      StallIsForever(Step(w, turns[0]), turns[1..], d, limit);
    }
  }

  // ---- catching up ----------------------------------------------------------------------

  /** No stamp from the cursor on is shared by more rows of one stream than fit a page. */
  ghost predicate Sparse(cat: Catalogue, ds: seq<Domain>, since: int, limit: nat) {
    forall d, s, x :: d in ds && Serves(d, s) && x >= since ==> |AtStamp(TableOf(cat, d), s, since, x)| <= limit
  }

  /** The rows of the requested domains stamped at or after the cursor. */
  function Backlog(cat: Catalogue, ds: seq<Domain>, since: int): set<(Domain, nat)> {
    set d, i | d in ds && i in TableOf(cat, d) && TableOf(cat, d)[i].stamp >= since :: (d, i)
  }

  lemma SparseLater(cat: Catalogue, ds: seq<Domain>, since: int, later: int, limit: nat)
    requires Sparse(cat, ds, since, limit) && later >= since
    ensures Sparse(cat, ds, later, limit)
  {
    forall d, s, x | d in ds && Serves(d, s) && x >= later
      ensures |AtStamp(TableOf(cat, d), s, later, x)| <= limit
    {
      var t := TableOf(cat, d);
      assert AtStamp(t, s, later, x) == AtStamp(t, s, since, x);
    }
  }

  lemma FirstIsEarliest(rows: seq<Entry>, r: Entry)
    requires Ascending(rows) && r in rows
    ensures rows[0].row.stamp <= r.row.stamp
  {
    var k :| 0 <= k < |rows| && rows[k] == r;
    if k > 0 {
      assert Before(rows[0], rows[k]);
    }
  }

  /** On a sparse catalogue an unfinished stream has a row stamped before its watermark. */
  lemma EarlierRow(t: Table, s: Stream, since: int, limit: nat) returns (e: Entry)
    requires Unfinished(t, s, since, limit)
    requires forall x :: x >= since ==> |AtStamp(t, s, since, x)| <= limit
    ensures e in Selected(t, s, since) && e.row.stamp < StreamPage(t, s, since, limit).watermark
  {
    var sel := Selected(t, s, since);
    var all, rows := InOrder(sel), Query(t, s, since, limit + 1);
    InOrderSorts(sel);
    HorizonIsLatest(rows, since);
    assert rows == all[..limit + 1];
    e := rows[0];
    assert e in all;
    forall r | r in rows ensures r in sel {
      assert r in all;
    }
    ManyAtHorizon(t, s, since, rows, StreamPage(t, s, since, limit).watermark);
  }

  /** Ordered rows that start at their latest stamp are all stamped so. */
  lemma ManyAtHorizon(t: Table, s: Stream, since: int, rows: seq<Entry>, x: int)
    requires Ascending(rows) && rows != []
    requires forall r :: r in rows ==> r in Selected(t, s, since) && r.row.stamp <= x
    ensures rows[0].row.stamp == x ==> |AtStamp(t, s, since, x)| >= |rows|
  {
    if rows[0].row.stamp == x {
      forall r | r in rows ensures r in AtStamp(t, s, since, x) {
        FirstIsEarliest(rows, r);
      }
      ElementsOf(rows);
      SubsetIsSmaller((set r | r in rows), AtStamp(t, s, since, x));
    }
  }

  /** On a sparse catalogue every unfinished poll strictly shrinks the backlog. */
  lemma PollShrinksBacklog(cat: Catalogue, ds: seq<Domain>, since: int, limit: nat)
    requires Sparse(cat, ds, since, limit) && !Finished(cat, ds, since, limit)
    ensures Next(cat, ds, since, limit) > since
    ensures Backlog(cat, ds, Next(cat, ds, since, limit)) < Backlog(cat, ds, since)
    ensures |Backlog(cat, ds, Next(cat, ds, since, limit))| < |Backlog(cat, ds, since)|
  {
    var next := Next(cat, ds, since, limit);
    var d := ClampingDomain(cat, ds, since, limit);
    var t := TableOf(cat, d);
    UnfinishedStreamMeansMore(cat, d, since, limit);
    var s :| Serves(d, s) && Unfinished(t, s, since, limit);
    var e := EarlierRow(t, s, since, limit);
    assert StreamPage(t, s, since, limit).watermark <= next;
    assert (d, e.id) in Backlog(cat, ds, since) && (d, e.id) !in Backlog(cat, ds, next);
    CursorNeverMovesBack(cat, ds, since, limit);
    SubsetIsSmaller(Backlog(cat, ds, next), Backlog(cat, ds, since));
  }

  /** The client's step while the catalogue stands still; After(Poller(ds, limit), w, k) is the
      world after k polls. */
  function Poller(ds: seq<Domain>, limit: nat): World -> World { (w: World) => Polled(w, ds, limit) }

  function Complete(ds: seq<Domain>): World -> bool { (w: World) => CaughtUp(w, ds) }

  ghost function Agreeing(ds: seq<Domain>): World -> bool { (w: World) => Agrees(w.replica, w.cat, w.cursor, ds) }

  ghost function Mirroring(ds: seq<Domain>): World -> bool { (w: World) => Mirrors(w.replica, w.cat, ds) }

  /** The next poll misses no row. */
  ghost function Hearing(ds: seq<Domain>, limit: nat): World -> bool { (w: World) => NothingMissed(w, ds, limit, ds) }

  ghost function SparseFrom(ds: seq<Domain>, limit: nat): World -> bool { (w: World) => Sparse(w.cat, ds, w.cursor, limit) }

  function Behind(ds: seq<Domain>): World -> nat { (w: World) => |Backlog(w.cat, ds, w.cursor)| }

  lemma CatchUpStep(w: World, ds: seq<Domain>, limit: nat)
    requires Sparse(w.cat, ds, w.cursor, limit) && !CaughtUp(Polled(w, ds, limit), ds)
    ensures
      var after := Polled(w, ds, limit);
      Sparse(after.cat, ds, after.cursor, limit)
      && |Backlog(after.cat, ds, after.cursor)| < |Backlog(w.cat, ds, w.cursor)|
  {
    CaughtUpIff(w, ds, limit);
    PollShrinksBacklog(w.cat, ds, w.cursor, limit);
    SparseLater(w.cat, ds, w.cursor, Next(w.cat, ds, w.cursor, limit), limit);
  }

  /** Catch-up: polling a sparse catalogue that stands still reports nothing more for the first
      time after at most one poll per backlog row plus one, gaps or not. */
  lemma CatchUpEnds(w: World, ds: seq<Domain>, limit: nat) returns (k: nat)
    requires SparseFrom(ds, limit)(w)
    ensures 1 <= k <= Behind(ds)(w) + 1
    ensures Complete(ds)(After(Poller(ds, limit), w, k))
    ensures forall j: nat :: 1 <= j < k ==> !Complete(ds)(After(Poller(ds, limit), w, j))
  {
    forall v: World | SparseFrom(ds, limit)(v) && !Complete(ds)(Poller(ds, limit)(v))
      ensures SparseFrom(ds, limit)(Poller(ds, limit)(v)) && Behind(ds)(Poller(ds, limit)(v)) < Behind(ds)(v)
    {
      CatchUpStep(v, ds, limit);
    }
    k := StepsEnd(Poller(ds, limit), Complete(ds), SparseFrom(ds, limit), Behind(ds), w);
  }

  lemma PollersAgree(ds: seq<Domain>, limit: nat)
    ensures forall v: World {:trigger Poller(ds, limit)(v)} ::
              Agreeing(ds)(Poller(ds, limit)(v)) <==> Agreeing(ds)(v) && Hearing(ds, limit)(v)
  {
    forall v: World ensures Agreeing(ds)(Poller(ds, limit)(v)) <==> Agreeing(ds)(v) && Hearing(ds, limit)(v) {
      PollAgreesIff(v, ds, limit, ds);
    }
  }

  lemma PollersMirror(ds: seq<Domain>, limit: nat)
    ensures forall v: World {:trigger Poller(ds, limit)(v)} ::
              Complete(ds)(Poller(ds, limit)(v)) ==> (Mirroring(ds)(Poller(ds, limit)(v)) <==> Agreeing(ds)(v))
  {
    forall v: World | Complete(ds)(Poller(ds, limit)(v))
      ensures Mirroring(ds)(Poller(ds, limit)(v)) <==> Agreeing(ds)(v)
    {
      CaughtUpIff(v, ds, limit);
      FinishedPollMirrors(v, ds, limit, ds);
    }
  }

  /** Agreement after k polls is agreement at the start and none of them having missed a row:
      what one poll misses no later one makes good. */
  lemma AgreesAfterIff(w: World, ds: seq<Domain>, limit: nat, k: nat)
    ensures Agreeing(ds)(After(Poller(ds, limit), w, k))
            <==> Agreeing(ds)(w) && forall j: nat :: j < k ==> Hearing(ds, limit)(After(Poller(ds, limit), w, j))
  {
    PollersAgree(ds, limit);
    StepsKeepIff(Poller(ds, limit), Agreeing(ds), Hearing(ds, limit), w, k);
  }

  /** A client that has caught up by polling a catalogue that stands still mirrors it if and only
      if it agreed at the start and none of the polls before the last missed a row of it. */
  lemma CaughtUpMirrorsIff(w: World, ds: seq<Domain>, limit: nat, k: nat)
    requires k >= 1 && Complete(ds)(After(Poller(ds, limit), w, k))
    ensures Mirroring(ds)(After(Poller(ds, limit), w, k))
            <==> Agreeing(ds)(w) && forall j: nat :: j < k - 1 ==> Hearing(ds, limit)(After(Poller(ds, limit), w, j))
  {
    PollersAgree(ds, limit);
    PollersMirror(ds, limit);
    OutcomeIff(Poller(ds, limit), Complete(ds), Mirroring(ds), Agreeing(ds), Hearing(ds, limit), w, k);
  }

  /** A poll that asks for all of the client's domains and leaves no gap misses nothing. */
  lemma CoveredMissesNothing(w: World, ds: seq<Domain>, limit: nat)
    requires Covered(w.cat, ds, w.cursor, limit)
    ensures Hearing(ds, limit)(w)
  {
    NarrowPollIff(w, ds, limit, ds);
  }

  /** The next poll leaves no gap. */
  ghost function Gapless(ds: seq<Domain>, limit: nat): World -> bool { (w: World) => Covered(w.cat, ds, w.cursor, limit) }

  /** No gap at the cursors the polls visit is enough. */
  lemma GaplessCatchUpMirrors(w: World, ds: seq<Domain>, limit: nat, k: nat)
    requires Agreeing(ds)(w) && k >= 1 && Complete(ds)(After(Poller(ds, limit), w, k))
    requires forall j: nat :: j < k - 1 ==> Gapless(ds, limit)(After(Poller(ds, limit), w, j))
    ensures Mirroring(ds)(After(Poller(ds, limit), w, k))
  {
    forall j: nat | j < k - 1 ensures Hearing(ds, limit)(After(Poller(ds, limit), w, j)) {
      CoveredMissesNothing(After(Poller(ds, limit), w, j), ds, limit);
    }
    CaughtUpMirrorsIff(w, ds, limit, k);
  }

  lemma UpsertOnlyMissNothing(ds: seq<Domain>, limit: nat)
    requires forall d :: d in ds ==> !DeleteCapable(d)
    ensures forall v: World :: Hearing(ds, limit)(v)
  {
    forall v: World ensures Hearing(ds, limit)(v) {
      UpsertOnlyDomainsHaveNoGap(v.cat, ds, v.cursor, limit);
      NoGapIff(v.cat, ds, v.cursor, limit);
      CoveredMissesNothing(v, ds, limit);
    }
  }

  /** Domains without soft deletes need no further condition. */
  lemma UpsertOnlyCatchUpEnds(w: World, ds: seq<Domain>, limit: nat) returns (k: nat)
    requires Agreeing(ds)(w) && SparseFrom(ds, limit)(w)
    requires forall d :: d in ds ==> !DeleteCapable(d)
    ensures 1 <= k <= Behind(ds)(w) + 1
    ensures Complete(ds)(After(Poller(ds, limit), w, k))
    ensures Mirroring(ds)(After(Poller(ds, limit), w, k))
  {
    k := CatchUpEnds(w, ds, limit);
    UpsertOnlyMissNothing(ds, limit);
    CaughtUpMirrorsIff(w, ds, limit, k);
  }

  // ---- the conditions are needed ----------------------------------------------------------

  /** n categories updated in one transaction share a stamp. */
  function OneStampTable(n: nat): Table { map i: nat | 1 <= i <= n :: CategoryRow(i) }

  function CategoryRow(id: nat): Row { Row(5, Visible, id) }

  lemma {:induction false} OneStampRows(n: nat)
    ensures |OneStampTable(n).Keys| == n
  {
    if n == 0 {
      assert OneStampTable(n).Keys == {};
    } else {
      OneStampRows(n - 1);
      assert OneStampTable(n).Keys == OneStampTable(n - 1).Keys + {n};
    }
  }

  lemma {:induction false} DistinctIdsCount(es: set<Entry>, ids: set<nat>)
    requires Keyed(es) && forall i :: i in ids <==> exists e :: e in es && e.id == i
    ensures |es| == |ids|
    decreases |es|
  {
    if es == {} {
      assert ids == {};
    } else {
      var e :| e in es;
      DistinctIdsCount(es - {e}, ids - {e.id});
    }
  }

  /** For every page size, limit + 1 rows with one stamp jam the protocol: a client at that
      stamp polls for ever, with pages of that size or less. */
  lemma EqualStampsStall(limit: nat, w: World, turns: seq<Turn>)
    requires w.cat == map[Categories := OneStampTable(limit + 1)] && w.cursor == 5
    requires forall turn :: turn in turns ==>
               turn.Poll? && Categories in Requested(turn.domains) && turn.limit <= limit
    ensures Run(w, turns).cursor == 5
    ensures turns != [] ==> Categories !in Run(w, turns).current
  {
    var t := OneStampTable(limit + 1);
    OneStampRows(limit + 1);
    assert TableOf(w.cat, Categories) == t;
    var here := AtStamp(t, Upserts, 5, 5);
    assert forall i :: i in t.Keys ==> Entry(i, t[i]) in here;
    DistinctIdsCount(here, t.Keys);
    assert here == Selected(t, Upserts, 5);
    StallIsForever(w, turns, Categories, limit);
  }

  /** Two published events and one deleted much later. */
  const LATE_DELETE: Table := map[1 := Row(1, Visible, 0), 2 := Row(2, Visible, 0), 3 := Row(10, SoftDeleted, 0)]

  /** With one row per page the first poll shows event 1 only, has more to show, and yet
      its merged watermark is the delete's. */
  lemma LateDeletePage(t: Table, limit: nat)
    requires t == LATE_DELETE && limit == 1
    ensures
      && Unfinished(t, Upserts, 0, limit)
      && StreamPage(t, Upserts, 0, limit).watermark == 2
      && Entry(2, t[2]) !in StreamPage(t, Upserts, 0, limit).rows
      && DomainDelta(t, Events, 0, limit).hasMore
      && DomainDelta(t, Events, 0, limit).watermark >= 10
  {
    var first, second, gone := Entry(1, t[1]), Entry(2, t[2]), Entry(3, t[3]);
    assert Selected(t, Upserts, 0) == {first, second};
    assert Selected(t, Deletes, 0) == {gone};
    StreamPageCarries(t, Upserts, 0, limit);
    StreamPageCarries(t, Deletes, 0, limit);
    var page := StreamPage(t, Upserts, 0, limit);
    assert |page.rows| == 1 && page.rows[0] in page.rows;
  }

  /** The late delete's watermark carries the cursor past the second event, which never
      reaches the client although it stays published, whatever it polls for afterwards. */
  lemma LateDeleteLosesEvent(w: World, ds: seq<Domain>, limit: nat, turns: seq<Turn>)
    requires ds == [Events] && limit == 1
    requires w.cat == map[Events := LATE_DELETE] && w.replica == map[] && w.cursor == 0
    requires forall turn :: turn in turns ==> turn.Poll?
    ensures (Events, 2) !in Run(Polled(w, ds, limit), turns).replica
  {
    LateDeleteSkips(w, ds, limit);
    var v := Polled(w, ds, limit);
    GapIsPermanent(v, turns, Events, 2, TableOf(v.cat, Events)[2]);
  }

  /** The catalogue of the example is sparse, so catching up ends, and the client starts out
      agreeing: the gap alone is what keeps it from mirroring. */
  lemma LateDeleteIsSparse(cat: Catalogue)
    requires cat == map[Events := LATE_DELETE]
    ensures Sparse(cat, [Events], 0, 1) && Agrees(map[], cat, 0, [Events])
    ensures LATE_DELETE[2].standing.Visible?
  {
    var t := LATE_DELETE;
    forall d, s, x | d in [Events] && Serves(d, s) && x >= 0
      ensures |AtStamp(TableOf(cat, d), s, 0, x)| <= 1
    {
      var all := {Entry(1, t[1]), Entry(2, t[2]), Entry(3, t[3])};
      var one := AtStamp(t, s, 0, x);
      if e :| e in one {
        assert forall f :: f in one ==> f in all;
        assert one == {e};
      }
    }
  }

  /** The first poll of the example leaves a gap. */
  lemma LateDeleteGap(cat: Catalogue, ds: seq<Domain>, limit: nat)
    requires cat == map[Events := LATE_DELETE] && ds == [Events] && limit == 1
    ensures Next(cat, ds, 0, limit) >= 10 && !NoGap(cat, ds, 0, limit)
  {
    LateDeletePage(TableOf(cat, Events), limit);
    NextIs(cat, ds, 0, limit);
    NoGapIff(cat, ds, 0, limit);
    assert TableOf(cat, Events) == LATE_DELETE;
    assert Serves(Events, Upserts);
  }

  lemma LateDeleteSkips(w: World, ds: seq<Domain>, limit: nat)
    requires ds == [Events] && limit == 1
    requires w.cat == map[Events := LATE_DELETE] && w.replica == map[] && w.cursor == 0
    ensures
      var v := Polled(w, ds, limit);
      && (Events, 2) !in v.replica
      && 2 in TableOf(v.cat, Events) && TableOf(v.cat, Events)[2].stamp < v.cursor
  {
    LateDeletePage(TableOf(w.cat, Events), limit);
    LateDeleteGap(w.cat, ds, limit);
    ResponseCarries(w.cat, ds, 0, limit, Upsert(Events, 2, LATE_DELETE[2]));
    ResponseAt(w.replica, w.cat, ds, 0, limit, Events, 2);
  }

  /** On that catalogue polling ends with nothing more to report, and the client still lacks the
      event. */
  lemma LateDeleteEndsWrong(w: World, ds: seq<Domain>, limit: nat) returns (k: nat)
    requires ds == [Events] && limit == 1
    requires w.cat == map[Events := LATE_DELETE] && w.replica == map[] && w.cursor == 0
    ensures Agreeing(ds)(w) && 1 <= k <= Behind(ds)(w) + 1
    ensures Complete(ds)(After(Poller(ds, limit), w, k))
    ensures !Mirroring(ds)(After(Poller(ds, limit), w, k))
  {
    LateDeleteStarts(w, ds, limit);
    k := CatchUpEnds(w, ds, limit);
    assert After(Poller(ds, limit), w, 0) == w;
    assert After(Poller(ds, limit), w, 1) == Poller(ds, limit)(After(Poller(ds, limit), w, 0));
    CaughtUpMirrorsIff(w, ds, limit, k);
  }

  lemma LateDeleteStarts(w: World, ds: seq<Domain>, limit: nat)
    requires ds == [Events] && limit == 1
    requires w.cat == map[Events := LATE_DELETE] && w.replica == map[] && w.cursor == 0
    ensures Agreeing(ds)(w) && SparseFrom(ds, limit)(w) && !Hearing(ds, limit)(w)
    ensures !Complete(ds)(Poller(ds, limit)(w))
  {
    LateDeleteIsSparse(w.cat);
    LateDeleteMisses(w, ds, limit);
    LateDeleteGoesOn(w, ds, limit);
  }

  lemma LateDeleteGoesOn(w: World, ds: seq<Domain>, limit: nat)
    requires ds == [Events] && limit == 1
    requires w.cat == map[Events := LATE_DELETE] && w.cursor == 0
    ensures !CaughtUp(Polled(w, ds, limit), ds)
  {
    LateDeletePage(TableOf(w.cat, Events), limit);
    CaughtUpIff(w, ds, limit);
    NextIs(w.cat, ds, w.cursor, limit);
  }

  lemma LateDeleteMisses(w: World, ds: seq<Domain>, limit: nat)
    requires ds == [Events] && limit == 1
    requires w.cat == map[Events := LATE_DELETE] && w.replica == map[] && w.cursor == 0
    ensures !NothingMissed(w, ds, limit, ds)
  {
    LateDeleteGap(w.cat, ds, limit);
    LateDeleteSkips(w, ds, limit);
    PollAt(w, ds, limit, Events, 2);
    assert Surfaced(TableOf(w.cat, Events), Events, 2);
  }
}
