/** Whole runs of the sync protocol: a client replica that applies one response after
    another while the catalogue changes under it. */
module SyncReplica {
  import opened SyncCatalogue
  import opened SyncService
  import opened SyncPoll

  type Replica = map<(Domain, nat), Row>

  function Apply(rep: Replica, ch: Change): Replica {
    match ch
    case Upsert(d, i, r) => rep[(d, i) := r]
    case Delete(d, i) => rep - {(d, i)}
  }

  function ApplyAll(rep: Replica, changes: seq<Change>): Replica {
    if changes == [] then rep else Apply(ApplyAll(rep, changes[..|changes| - 1]), changes[|changes| - 1])
  }

  /** What a batch does to one row, when every operation on that row is the same one. */
  lemma {:induction false} ApplyAllAt(rep: Replica, changes: seq<Change>, op: Change)
    requires forall ch :: ch in changes && ch.domain == op.domain && ch.id == op.id ==> ch == op
    ensures
      var k, after := (op.domain, op.id), ApplyAll(rep, changes);
      && (op in changes && op.Upsert? ==> k in after && after[k] == op.row)
      && (op in changes && op.Delete? ==> k !in after)
      && (op !in changes ==> (k in after <==> k in rep) && (k in rep ==> after[k] == rep[k]))
  {
    if changes != [] {
      var front, last := changes[..|changes| - 1], changes[|changes| - 1];
      assert changes == front + [last];
      ApplyAllAt(rep, front, op);
    }
  }

  // ---- agreement ------------------------------------------------------------------

  /** The server announces the row to clients, as an upsert or as a delete. */
  predicate Surfaced(t: Table, d: Domain, i: nat) {
    i in t && (t[i].standing.Visible? || (t[i].standing.SoftDeleted? && DeleteCapable(d)))
  }

  /** Below the cursor the replica is right about the row; above it, it may be stale; it
      never holds a row that was never announced. */
  predicate AgreesAt(rep: Replica, t: Table, cursor: int, d: Domain, i: nat) {
    if !Surfaced(t, d, i) then (d, i) !in rep
    else if t[i].stamp >= cursor then true
    else if t[i].standing.Visible? then (d, i) in rep && rep[(d, i)] == t[i]
    else (d, i) !in rep
  }

  ghost predicate AgreesIn(rep: Replica, t: Table, cursor: int, d: Domain) {
    forall i :: AgreesAt(rep, t, cursor, d, i)
  }

  ghost predicate Agrees(rep: Replica, cat: Catalogue, cursor: int, ds: seq<Domain>) {
    forall d :: d in ds ==> AgreesIn(rep, TableOf(cat, d), cursor, d)
  }

  predicate MirrorsAt(rep: Replica, t: Table, d: Domain, i: nat) {
    && ((d, i) in rep <==> i in t && t[i].standing.Visible?)
    && ((d, i) in rep ==> rep[(d, i)] == t[i])
  }

  ghost predicate MirrorsIn(rep: Replica, t: Table, d: Domain) {
    forall i :: MirrorsAt(rep, t, d, i)
  }

  /** The replica holds exactly the visible rows of the domains. */
  ghost predicate Mirrors(rep: Replica, cat: Catalogue, ds: seq<Domain>) {
    forall d :: d in ds ==> MirrorsIn(rep, TableOf(cat, d), d)
  }

  /** A client that starts with nothing, before every stamp, agrees. */
  lemma EmptyReplicaAgrees(cat: Catalogue, cursor: int, ds: seq<Domain>)
    requires forall d, i :: d in ds && i in TableOf(cat, d) ==> TableOf(cat, d)[i].stamp >= cursor
    ensures Agrees(map[], cat, cursor, ds)
  {
  }

  /** The effect of one response on one row of a requested domain: the row's current
      state if it is told, nothing otherwise. */
  lemma ResponseAt(rep: Replica, cat: Catalogue, ds: seq<Domain>, since: int, limit: nat, d: Domain, i: nat)
    requires d in ds
    ensures
      var t, k := TableOf(cat, d), (d, i);
      var after := ApplyAll(rep, Response(cat, ds, since, limit));
      && (!Surfaced(t, d, i) || t[i].stamp < since ==>
            (k in after <==> k in rep) && (k in rep ==> after[k] == rep[k]))
      && (Surfaced(t, d, i) && Told(Response(cat, ds, since, limit), d, i, t[i]) ==>
            (k in after <==> t[i].standing.Visible?) && (k in after ==> after[k] == t[i]))
      && (Surfaced(t, d, i) && !Told(Response(cat, ds, since, limit), d, i, t[i]) ==>
            (k in after <==> k in rep) && (k in rep ==> after[k] == rep[k]))
  {
    var t := TableOf(cat, d);
    var changes := Response(cat, ds, since, limit);
    var op := if i in t && t[i].standing.Visible? then Upsert(d, i, t[i]) else Delete(d, i);
    forall ch | ch in changes && ch.domain == d && ch.id == i
      ensures ch == op && Surfaced(t, d, i) && t[i].stamp >= since
    {
      ResponseCarries(cat, ds, since, limit, ch);
      StreamPageCarries(t, Upserts, since, limit);
      StreamPageCarries(t, Deletes, since, limit);
      match ch
      case Upsert(_, _, r) =>
        assert Entry(i, r) in Selected(t, Upserts, since);
      case Delete(_, _) =>
        var r :| Entry(i, r) in StreamPage(t, Deletes, since, limit).rows;
        assert Entry(i, r) in Selected(t, Deletes, since);
    }
    ApplyAllAt(rep, changes, op);
  }

  /** A response says nothing of a domain that was not asked for. */
  lemma ResponseElsewhere(rep: Replica, cat: Catalogue, ds: seq<Domain>, since: int, limit: nat, d: Domain, i: nat)
    requires d !in ds
    ensures
      var k, after := (d, i), ApplyAll(rep, Response(cat, ds, since, limit));
      (k in after <==> k in rep) && (k in rep ==> after[k] == rep[k])
  {
    var changes, op := Response(cat, ds, since, limit), Delete(d, i);
    forall ch | ch in changes ensures ch.domain != d {
      ResponseCarries(cat, ds, since, limit, ch);
    }
    ResponseCarries(cat, ds, since, limit, op);
    ApplyAllAt(rep, changes, op);
  }

  // ---- one poll -------------------------------------------------------------------

  /** `current` are the domains the last turn was a poll of and reported complete. */
  datatype World = World(cat: Catalogue, replica: Replica, cursor: int, current: set<Domain>)

  /** The requested domains that has_more does not name. */
  function Exhausted(cat: Catalogue, ds: seq<Domain>, since: int, limit: nat): set<Domain> {
    set d | d in ds && d !in MoreOf(cat, ds, since, limit)
  }

  lemma ExhaustedIs(cat: Catalogue, ds: seq<Domain>, since: int, limit: nat, d: Domain)
    ensures d in Exhausted(cat, ds, since, limit) <==> d in ds && !Delta(cat, d, since, limit).hasMore
  {
    MoreOfIs(cat, ds, since, limit, d);
  }

  function Polled(w: World, ds: seq<Domain>, limit: nat): World {
    World(w.cat,
          ApplyAll(w.replica, Response(w.cat, ds, w.cursor, limit)),
          Next(w.cat, ds, w.cursor, limit),
          Exhausted(w.cat, ds, w.cursor, limit))
  }

  /** The last turn was a poll that had nothing more of any of these domains. */
  predicate CaughtUp(w: World, ds: seq<Domain>) {
    forall d :: d in ds ==> d in w.current
  }

  lemma CaughtUpIff(w: World, ds: seq<Domain>, limit: nat)
    ensures CaughtUp(Polled(w, ds, limit), ds) <==> Finished(w.cat, ds, w.cursor, limit)
  {
    forall d ensures d in MoreOf(w.cat, ds, w.cursor, limit) ==> d in ds {
      MoreOfIs(w.cat, ds, w.cursor, limit, d);
    }
  }

  /** The poll tells the client about the row. */
  ghost predicate Announced(w: World, asked: seq<Domain>, limit: nat, d: Domain, i: nat) {
    && d in asked
    && Surfaced(TableOf(w.cat, d), d, i)
    && TableOf(w.cat, d)[i].stamp >= w.cursor
    && Told(Response(w.cat, asked, w.cursor, limit), d, i, TableOf(w.cat, d)[i])
  }

  /** A poll puts an announced row right and leaves any other as it was. */
  lemma PollAt(w: World, asked: seq<Domain>, limit: nat, d: Domain, i: nat)
    ensures
      var k, t, after := (d, i), TableOf(w.cat, d), Polled(w, asked, limit).replica;
      && (Announced(w, asked, limit, d, i) ==> MirrorsAt(after, t, d, i))
      && (!Announced(w, asked, limit, d, i) ==> (k in after <==> k in w.replica) && (k in w.replica ==> after[k] == w.replica[k]))
  {
    if d in asked {
      ResponseAt(w.replica, w.cat, asked, w.cursor, limit, d, i);
    } else {
      ResponseElsewhere(w.replica, w.cat, asked, w.cursor, limit, d, i);
    }
  }

  /** Every row of the client's domains that the cursor passes is announced, or was right on
      the replica already. */
  ghost predicate NothingMissed(w: World, asked: seq<Domain>, limit: nat, ds: seq<Domain>) {
    forall d, i :: d in ds && Surfaced(TableOf(w.cat, d), d, i)
                   && w.cursor <= TableOf(w.cat, d)[i].stamp < Next(w.cat, asked, w.cursor, limit) ==>
      Announced(w, asked, limit, d, i) || MirrorsAt(w.replica, TableOf(w.cat, d), d, i)
  }

  lemma PollAgreesAt(w: World, asked: seq<Domain>, limit: nat, d: Domain, i: nat)
    ensures
      var t, next, after := TableOf(w.cat, d), Next(w.cat, asked, w.cursor, limit), Polled(w, asked, limit).replica;
      AgreesAt(after, t, next, d, i)
      <==> && AgreesAt(w.replica, t, w.cursor, d, i)
           && (Surfaced(t, d, i) && w.cursor <= t[i].stamp < next ==>
                 Announced(w, asked, limit, d, i) || MirrorsAt(w.replica, t, d, i))
  {
    PollAt(w, asked, limit, d, i);
    CursorNeverMovesBack(w.cat, asked, w.cursor, limit);
  }

  /** The replica agrees after a poll exactly when it agreed before and the poll missed
      nothing; it never becomes right about a row it was wrong about below the cursor. */
  lemma PollAgreesIff(w: World, asked: seq<Domain>, limit: nat, ds: seq<Domain>)
    ensures
      var after := Polled(w, asked, limit);
      Agrees(after.replica, after.cat, after.cursor, ds)
      <==> Agrees(w.replica, w.cat, w.cursor, ds) && NothingMissed(w, asked, limit, ds)
  {
    var after := Polled(w, asked, limit);
    forall d, i | d in ds
      ensures AgreesAt(after.replica, TableOf(w.cat, d), after.cursor, d, i)
              <==> && AgreesAt(w.replica, TableOf(w.cat, d), w.cursor, d, i)
                   && (Surfaced(TableOf(w.cat, d), d, i) && w.cursor <= TableOf(w.cat, d)[i].stamp < after.cursor ==>
                         Announced(w, asked, limit, d, i) || MirrorsAt(w.replica, TableOf(w.cat, d), d, i))
    {
      PollAgreesAt(w, asked, limit, d, i);
    }
    if Agrees(after.replica, after.cat, after.cursor, ds) {
      forall d | d in ds ensures AgreesIn(w.replica, TableOf(w.cat, d), w.cursor, d) {
        assert AgreesIn(after.replica, TableOf(w.cat, d), after.cursor, d);
      }
      forall d, i | d in ds && Surfaced(TableOf(w.cat, d), d, i) && w.cursor <= TableOf(w.cat, d)[i].stamp < after.cursor
        ensures Announced(w, asked, limit, d, i) || MirrorsAt(w.replica, TableOf(w.cat, d), d, i)
      {
        assert AgreesIn(after.replica, TableOf(w.cat, d), after.cursor, d);
        assert AgreesAt(after.replica, TableOf(w.cat, d), after.cursor, d, i);
      }
    }
    if Agrees(w.replica, w.cat, w.cursor, ds) && NothingMissed(w, asked, limit, ds) {
      forall d | d in ds ensures AgreesIn(after.replica, TableOf(w.cat, d), after.cursor, d) {
        assert AgreesIn(w.replica, TableOf(w.cat, d), w.cursor, d);
      }
    }
  }

  /** Rows of the client's other domains that the cursor passes are right on the replica. */
  ghost predicate UnaskedAreRight(w: World, asked: seq<Domain>, limit: nat, ds: seq<Domain>) {
    forall d, i :: d in ds && d !in asked && Surfaced(TableOf(w.cat, d), d, i)
                   && w.cursor <= TableOf(w.cat, d)[i].stamp < Next(w.cat, asked, w.cursor, limit) ==>
      MirrorsAt(w.replica, TableOf(w.cat, d), d, i)
  }

  /** A poll without a gap that asks for some domains only: it misses nothing of the client's
      domains exactly when the rows the one cursor passes in the others were right already. */
  lemma NarrowPollIff(w: World, asked: seq<Domain>, limit: nat, ds: seq<Domain>)
    requires Covered(w.cat, asked, w.cursor, limit)
    ensures NothingMissed(w, asked, limit, ds) <==> UnaskedAreRight(w, asked, limit, ds)
  {
    NoGapIff(w.cat, asked, w.cursor, limit);
  }

  /** Of a domain the poll reports complete, every row stamped from the cursor on is announced:
      the replica mirrors the domain afterwards exactly when it agreed before. */
  lemma ExhaustedMirrorsIff(w: World, asked: seq<Domain>, limit: nat, d: Domain)
    requires d in Exhausted(w.cat, asked, w.cursor, limit)
    ensures MirrorsIn(Polled(w, asked, limit).replica, TableOf(w.cat, d), d)
            <==> AgreesIn(w.replica, TableOf(w.cat, d), w.cursor, d)
  {
    var t, after := TableOf(w.cat, d), Polled(w, asked, limit).replica;
    ExhaustedIs(w.cat, asked, w.cursor, limit, d);
    UnfinishedStreamMeansMore(w.cat, d, w.cursor, limit);
    forall i: nat ensures MirrorsAt(after, t, d, i) <==> AgreesAt(w.replica, t, w.cursor, d, i) {
      PollAt(w, asked, limit, d, i);
      if i in t && t[i].stamp >= w.cursor {
        ToldBelowWatermark(w.cat, asked, w.cursor, limit, d, i);
      }
    }
  }

  /** A poll that reports nothing more leaves the replica equal to the visible catalogue of the
      client's domains if and only if it agreed before. */
  lemma FinishedPollMirrors(w: World, asked: seq<Domain>, limit: nat, ds: seq<Domain>)
    requires forall d :: d in ds ==> d in asked
    requires Finished(w.cat, asked, w.cursor, limit)
    ensures Mirrors(Polled(w, asked, limit).replica, w.cat, ds) <==> Agrees(w.replica, w.cat, w.cursor, ds)
  {
    NextIs(w.cat, asked, w.cursor, limit);
    forall d | d in ds
      ensures MirrorsIn(Polled(w, asked, limit).replica, TableOf(w.cat, d), d)
              <==> AgreesIn(w.replica, TableOf(w.cat, d), w.cursor, d)
    {
      ExhaustedMirrorsIff(w, asked, limit, d);
    }
  }

  // ---- runs -----------------------------------------------------------------------

  datatype Turn =
    | Edit(catalogue: Catalogue)
    | Poll(domains: seq<Domain>, limit: nat)

  function Step(w: World, turn: Turn): World {
    match turn
    case Edit(cat) => w.(cat := cat, current := {})
    case Poll(domains, limit) => Polled(w, Requested(domains), limit)
  }

  /** A change to an announced row, or one that announces it, is stamped no earlier than
      the client's cursor and leaves the row announced: rows leave the public view only
      by soft delete. */
  predicate LegalAt(before: Table, after: Table, cursor: int, d: Domain, i: nat) {
    || (i in before && i in after && before[i] == after[i])
    || (Surfaced(after, d, i) && after[i].stamp >= cursor)
    || (!Surfaced(before, d, i) && !Surfaced(after, d, i))
  }

  /** ds are the domains the client mirrors; a poll may ask for any domains. */
  ghost predicate LegalTurn(w: World, turn: Turn, ds: seq<Domain>) {
    match turn
    case Edit(cat) =>
      forall d, i :: d in ds ==> LegalAt(TableOf(w.cat, d), TableOf(cat, d), w.cursor, d, i)
    case Poll(domains, limit) => NothingMissed(w, Requested(domains), limit, ds)
  }

  function Run(w: World, turns: seq<Turn>): World
    decreases |turns|
  {
    if turns == [] then w else Run(Step(w, turns[0]), turns[1..])
  }

  ghost predicate LegalRun(w: World, turns: seq<Turn>, ds: seq<Domain>)
    decreases |turns|
  {
    turns == [] || (LegalTurn(w, turns[0], ds) && LegalRun(Step(w, turns[0]), turns[1..], ds))
  }

  /** The replica agrees, and mirrors each domain the last poll reported complete. */
  ghost predicate InStep(w: World, ds: seq<Domain>) {
    && Agrees(w.replica, w.cat, w.cursor, ds)
    && forall d :: d in ds && d in w.current ==> MirrorsIn(w.replica, TableOf(w.cat, d), d)
  }

  lemma PollKeepsAgreement(w: World, asked: seq<Domain>, limit: nat, ds: seq<Domain>)
    requires Agrees(w.replica, w.cat, w.cursor, ds) && NothingMissed(w, asked, limit, ds)
    ensures InStep(Polled(w, asked, limit), ds)
  {
    var after := Polled(w, asked, limit);
    PollAgreesIff(w, asked, limit, ds);
    forall d | d in ds && d in after.current ensures MirrorsIn(after.replica, TableOf(w.cat, d), d) {
      ExhaustedMirrorsIff(w, asked, limit, d);
    }
  }

  lemma EditKeepsAgreement(w: World, cat: Catalogue, ds: seq<Domain>)
    requires Agrees(w.replica, w.cat, w.cursor, ds) && LegalTurn(w, Edit(cat), ds)
    ensures InStep(Step(w, Edit(cat)), ds)
  {
    forall d, i | d in ds ensures AgreesAt(w.replica, TableOf(cat, d), w.cursor, d, i) {
      assert AgreesIn(w.replica, TableOf(w.cat, d), w.cursor, d);
      assert AgreesAt(w.replica, TableOf(w.cat, d), w.cursor, d, i);
      assert LegalAt(TableOf(w.cat, d), TableOf(cat, d), w.cursor, d, i);
    }
  }

  /** Convergence: along every legal run the replica agrees with the catalogue below its
      cursor, and after each poll it mirrors exactly every domain of the client's that the
      poll reported complete. Page size and requested domains may differ from poll to poll. */
  lemma {:induction false} RunsConverge(w: World, turns: seq<Turn>, ds: seq<Domain>)
    requires InStep(w, ds) && LegalRun(w, turns, ds)
    ensures InStep(Run(w, turns), ds)
    decreases |turns|
  {
    if turns != [] {
      match turns[0] {
        case Edit(cat) => EditKeepsAgreement(w, cat, ds);
        case Poll(domains, limit) => PollKeepsAgreement(w, Requested(domains), limit, ds);
      }
      RunsConverge(Step(w, turns[0]), turns[1..], ds);
    }
  }

  /** A fresh client converges: it needs no more than to start before every stamp. */
  lemma FreshClientConverges(cat: Catalogue, cursor: int, turns: seq<Turn>, ds: seq<Domain>)
    requires forall d, i :: d in ds && i in TableOf(cat, d) ==> TableOf(cat, d)[i].stamp >= cursor
    requires LegalRun(World(cat, map[], cursor, {}), turns, ds)
    ensures InStep(Run(World(cat, map[], cursor, {}), turns), ds)
  {
    EmptyReplicaAgrees(cat, cursor, ds);
    RunsConverge(World(cat, map[], cursor, {}), turns, ds);
  }

  // ---- rows a client cannot get right again --------------------------------------------

  /** A row that leaves the public view by other means than a soft delete, as an unpublished
      event or a removed comment does, is never taken off a replica that holds it: it lingers,
      unchanged, until the server announces the row again. */
  lemma {:induction false} VanishedRowLingers(w: World, turns: seq<Turn>, d: Domain, i: nat)
    requires (d, i) in w.replica && !Surfaced(TableOf(w.cat, d), d, i)
    requires forall turn :: turn in turns && turn.Edit? ==> !Surfaced(TableOf(turn.catalogue, d), d, i)
    ensures (d, i) in Run(w, turns).replica && Run(w, turns).replica[(d, i)] == w.replica[(d, i)]
    decreases |turns|
  {
    if turns != [] {
      assert forall turn :: turn in turns[1..] ==> turn in turns;
      match turns[0] {
        case Edit(_) =>
        case Poll(domains, limit) => PollAt(w, Requested(domains), limit, d, i);
      }
      VanishedRowLingers(Step(w, turns[0]), turns[1..], d, i);
    }
  }

  /** A gap is never repaired: a row below the cursor that the replica lacks stays away
      for as long as the row itself is not touched. */
  lemma {:induction false} GapIsPermanent(w: World, turns: seq<Turn>, d: Domain, i: nat, r: Row)
    requires i in TableOf(w.cat, d) && TableOf(w.cat, d)[i] == r && r.stamp < w.cursor && (d, i) !in w.replica
    requires forall turn :: turn in turns && turn.Edit? ==>
               i in TableOf(turn.catalogue, d) && TableOf(turn.catalogue, d)[i] == r
    ensures (d, i) !in Run(w, turns).replica
    decreases |turns|
  {
    if turns != [] {
      assert forall turn :: turn in turns[1..] ==> turn in turns;
      match turns[0] {
        case Edit(_) =>
        case Poll(domains, limit) =>
          PollAt(w, Requested(domains), limit, d, i);
          CursorNeverMovesBack(w.cat, Requested(domains), w.cursor, limit);
      }
      GapIsPermanent(Step(w, turns[0]), turns[1..], d, i, r);
    }
  }

  /** A poll for some domains carries the one cursor past rows of the others: a row so passed
      that the replica lacks is lost for every run that does not touch it. */
  lemma NarrowPollLoses(w: World, asked: seq<Domain>, limit: nat, turns: seq<Turn>, d: Domain, i: nat, r: Row)
    requires d !in asked && i in TableOf(w.cat, d) && TableOf(w.cat, d)[i] == r && (d, i) !in w.replica
    requires r.stamp < Next(w.cat, asked, w.cursor, limit)
    requires forall turn :: turn in turns && turn.Edit? ==>
               i in TableOf(turn.catalogue, d) && TableOf(turn.catalogue, d)[i] == r
    ensures (d, i) !in Run(Polled(w, asked, limit), turns).replica
  {
    PollAt(w, asked, limit, d, i);
    GapIsPermanent(Polled(w, asked, limit), turns, d, i, r);
  }

  /** A venue older than the newest event: a first poll for events alone, whatever its page
      size, loses the venue although every later poll may ask for all domains. */
  lemma EventsFirstLosesVenue(w: World, limit: nat, asked: seq<Domain>, turns: seq<Turn>)
    requires w == World(map[Events := map[1 := Row(5, Visible, 0)], Venues := map[1 := Row(3, Visible, 0)]], map[], 0, {})
    requires asked == [Events]
    requires forall turn :: turn in turns ==> turn.Poll?
    ensures (Venues, 1) !in Run(Polled(w, asked, limit), turns).replica
  {
    var t, e := TableOf(w.cat, Events), Entry(1, Row(5, Visible, 0));
    assert TableOf(w.cat, Venues) == map[1 := Row(3, Visible, 0)] && t == map[1 := Row(5, Visible, 0)];
    OneRowPage(t, e, limit);
    NextIs(w.cat, asked, w.cursor, limit);
    assert Delta(w.cat, Events, w.cursor, limit).watermark >= 5;
    NarrowPollLoses(w, asked, limit, turns, Venues, 1, Row(3, Visible, 0));
  }

  lemma OneRowPage(t: Table, e: Entry, limit: nat)
    requires t == map[e.id := e.row] && e.row.standing.Visible? && e.row.stamp >= 0
    ensures StreamPage(t, Upserts, 0, limit).watermark >= e.row.stamp
  {
    StreamPageCarries(t, Upserts, 0, limit);
    assert e.id in t && Entry(e.id, t[e.id]) == e;
    assert e in Selected(t, Upserts, 0);
    assert forall f :: f in Selected(t, Upserts, 0) ==> f == e;
  }
}
