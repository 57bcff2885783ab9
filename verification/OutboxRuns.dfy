/** Several email workers, crashes and lapsing leases. */
module OutboxRuns {
  import opened Outbox

  /** A worker and a job it has claimed and not yet reported. */
  datatype Hold = Hold(worker: nat, job: Job)

  datatype World = World(rows: seq<Row>, logs: seq<Log>, holds: set<Hold>)

  datatype Event =
    | Enqueue(maxAttempts: int, at: int)
    | Claim(worker: nat, batch: nat, at: int)
    | Report(hold: Hold, result: Result, at: int)
    | Crash(worker: nat, at: int)

  function Claimed(rows: seq<Row>, worker: nat, batch: nat, at: int): set<Hold> {
    set i | 0 <= i < |rows| && i in Chosen(rows, at, batch, |rows|) :: Hold(worker, JobFor(rows, i, at + LEASE))
  }

  function Step(w: World, e: Event, base: nat): World {
    match e
    case Enqueue(maxAttempts, at) =>
      w.(rows := w.rows + [Row(Pending, 0, maxAttempts, at)])
    case Claim(worker, batch, at) =>
      World(Leased(w.rows, Chosen(w.rows, at, batch, |w.rows|), at + LEASE), w.logs,
            w.holds + Claimed(w.rows, worker, batch, at))
    case Report(hold, result, at) =>
      if hold !in w.holds || hold.job.id >= |w.rows| then w
      else
        var id := hold.job.id;
        World(w.rows[id := Reported(w.rows[id], hold.job, result, base, at)],
              w.logs + [LogOf(w.rows[id], hold.job, result, base, at)],
              w.holds - {hold})
    case Crash(worker, _) =>
      w.(holds := set h | h in w.holds && h.worker != worker)
  }

  function Run(w: World, events: seq<Event>, base: nat): World {
    if events == [] then w else Step(Run(w, events[..|events| - 1], base), events[|events| - 1], base)
  }

  /** Recorded outcomes of a row. */
  function Outcomes(logs: seq<Log>, id: nat): nat {
    if logs == [] then 0
    else Outcomes(logs[..|logs| - 1], id) + if logs[|logs| - 1].id == id then 1 else 0
  }

  function SentLogs(logs: seq<Log>, id: nat): nat {
    if logs == [] then 0
    else SentLogs(logs[..|logs| - 1], id) + if logs[|logs| - 1].id == id && logs[|logs| - 1].status.Sent? then 1 else 0
  }

  /** The retry delays scheduled for a row so far. */
  function Scheduled(logs: seq<Log>, id: nat): int {
    if logs == [] then 0
    else Scheduled(logs[..|logs| - 1], id) + if logs[|logs| - 1].id == id then logs[|logs| - 1].delay else 0
  }

  lemma LogAppended(logs: seq<Log>, l: Log, id: nat)
    ensures Outcomes(logs + [l], id) == Outcomes(logs, id) + if l.id == id then 1 else 0
    ensures SentLogs(logs + [l], id) == SentLogs(logs, id) + if l.id == id && l.status.Sent? then 1 else 0
    ensures Scheduled(logs + [l], id) == Scheduled(logs, id) + if l.id == id then l.delay else 0
  {
    assert (logs + [l])[..|logs|] == logs;
  }

  /** What a claim does to each row, and whom it hands the row to: the rows it takes are leased
      for 300 seconds and cannot be taken again before that. */
  lemma ClaimIs(w: World, worker: nat, batch: nat, at: int, base: nat, i: nat)
    requires i < |w.rows|
    ensures
      var taken := w.rows[i].status.Pending? && w.rows[i].nextRetryAt <= at && Claimable(w.rows, at, i) < batch;
      var after := Step(w, Claim(worker, batch, at), base);
      var job := Job(i, w.rows[i].attempts, w.rows[i].maxAttempts, at + 300);
      && |after.rows| == |w.rows| && after.logs == w.logs
      && after.rows[i] == (if taken then w.rows[i].(nextRetryAt := at + 300) else w.rows[i])
      && (taken ==> Hold(worker, job) in after.holds)
      && (forall h :: h in after.holds && h.job.id == i && h !in w.holds ==> taken && h == Hold(worker, job))
  {
    ChosenIff(w.rows, at, batch, |w.rows|, i);
  }

  // ---- the invariant -----------------------------------------------------------------------

  predicate Live(h: Hold, t: int) { t < h.job.leaseEnd }

  /** A row's counters agree with its log, and it is pending exactly while it has attempts
      left and was not delivered. */
  ghost predicate RowSound(w: World, id: nat, base: nat)
    requires id < |w.rows|
  {
    var r := w.rows[id];
    && r.maxAttempts >= 1
    && Outcomes(w.logs, id) <= r.maxAttempts
    && SentLogs(w.logs, id) == (if r.status.Sent? then 1 else 0)
    && (r.status.Pending? ==>
          && r.attempts < r.maxAttempts
          && Outcomes(w.logs, id) == r.attempts
          && Scheduled(w.logs, id) == TotalDelay(base, r.attempts))
    && (r.status.Failed? ==> r.attempts == r.maxAttempts)
  }

  /** A hold whose lease runs names a pending row as the table has it. */
  predicate HoldSound(w: World, h: Hold, t: int) {
    && h.job.id < |w.rows|
    && (Live(h, t) ==>
          && w.rows[h.job.id].status.Pending?
          && w.rows[h.job.id].nextRetryAt == h.job.leaseEnd
          && w.rows[h.job.id].attempts == h.job.attempts
          && w.rows[h.job.id].maxAttempts == h.job.maxAttempts)
  }

  /** No row is held by two running leases. */
  ghost predicate Exclusive(w: World, t: int) {
    forall g, h :: g in w.holds && h in w.holds && Live(g, t) && Live(h, t) && g.job.id == h.job.id ==> g == h
  }

  ghost predicate Inv(w: World, t: int, base: nat) {
    && (forall id :: 0 <= id < |w.rows| ==> RowSound(w, id, base))
    && (forall h :: h in w.holds ==> HoldSound(w, h, t))
    && (forall id :: |w.rows| <= id ==> Outcomes(w.logs, id) == SentLogs(w.logs, id) == Scheduled(w.logs, id) == 0)
    && Exclusive(w, t)
  }

  /** Queued with at least one attempt; outcomes land before their lease lapses. */
  predicate OnTime(e: Event) {
    && (e.Enqueue? ==> e.maxAttempts >= 1)
    && (e.Report? ==> Live(e.hold, e.at))
  }

  lemma EnqueueKeeps(w: World, e: Event, t: int, base: nat)
    requires Inv(w, t, base) && e.Enqueue? && OnTime(e) && t <= e.at
    ensures Inv(Step(w, e, base), e.at, base)
  {
    var end := Step(w, e, base);
    forall id | 0 <= id < |end.rows| ensures RowSound(end, id, base) {
      if id < |w.rows| {
        assert RowSound(w, id, base);
      }
    }
    forall h | h in end.holds ensures HoldSound(end, h, e.at) {
      assert HoldSound(w, h, t);
    }
  }

  lemma ClaimKeeps(w: World, e: Event, t: int, base: nat)
    requires Inv(w, t, base) && e.Claim? && t <= e.at
    ensures Inv(Step(w, e, base), e.at, base)
  {
    var end := Step(w, e, base);
    var ids := Chosen(w.rows, e.at, e.batch, |w.rows|);
    ChosenAreDue(w.rows, e.at, e.batch, |w.rows|);
    forall id | 0 <= id < |end.rows| ensures RowSound(end, id, base) {
      assert RowSound(w, id, base);
    }
    forall h | h in end.holds ensures HoldSound(end, h, e.at) {
      if h in w.holds {
        assert HoldSound(w, h, t);
      }
    }
    forall g, h | g in end.holds && h in end.holds && Live(g, e.at) && Live(h, e.at) && g.job.id == h.job.id
      ensures g == h
    {
      assert HoldSound(end, g, e.at) && HoldSound(end, h, e.at);
      if g in w.holds { assert HoldSound(w, g, t); }
      if h in w.holds { assert HoldSound(w, h, t); }
    }
  }

  lemma ReportKeeps(w: World, e: Event, t: int, base: nat)
    requires Inv(w, t, base) && e.Report? && OnTime(e) && t <= e.at
    ensures Inv(Step(w, e, base), e.at, base)
  {
    var end := Step(w, e, base);
    if e.hold in w.holds {
      assert HoldSound(w, e.hold, t);
      var job := e.hold.job;
      var l := LogOf(w.rows[job.id], job, e.result, base, e.at);
      assert RowSound(w, job.id, base);
      forall id: nat
        ensures Outcomes(end.logs, id) == Outcomes(w.logs, id) + if job.id == id then 1 else 0
        ensures SentLogs(end.logs, id) == SentLogs(w.logs, id) + if job.id == id && l.status.Sent? then 1 else 0
        ensures Scheduled(end.logs, id) == Scheduled(w.logs, id) + if job.id == id then l.delay else 0
      {
        LogAppended(w.logs, l, id);
      }
      forall id | 0 <= id < |end.rows| ensures RowSound(end, id, base) {
        assert RowSound(w, id, base);
      }
      forall h | h in end.holds ensures HoldSound(end, h, e.at) {
        assert HoldSound(w, h, t);
      }
    } else {
      forall h | h in end.holds ensures HoldSound(end, h, e.at) {
        assert HoldSound(w, h, t);
      }
    }
  }

  lemma CrashKeeps(w: World, e: Event, t: int, base: nat)
    requires Inv(w, t, base) && e.Crash? && t <= e.at
    ensures Inv(Step(w, e, base), e.at, base)
  {
    var end := Step(w, e, base);
    forall id | 0 <= id < |end.rows| ensures RowSound(end, id, base) {
      assert RowSound(w, id, base);
    }
    forall h | h in end.holds ensures HoldSound(end, h, e.at) {
      assert HoldSound(w, h, t);
    }
  }

  ghost predicate InOrder(events: seq<Event>, from: int) {
    forall i, j :: 0 <= i <= j < |events| ==> from <= events[i].at <= events[j].at
  }

  function EndOf(events: seq<Event>, from: int): int {
    if events == [] then from else events[|events| - 1].at
  }

  /** Lease safety: over any run of workers, crashes and lapses in which every recorded
      outcome lands in time, the invariant holds at every point: no row is held by two
      running leases, a sent row has exactly one 'sent' log entry, and at most max_attempts
      outcomes are recorded of a row. */
  lemma {:induction false} RunKeeps(w: World, events: seq<Event>, t: int, base: nat)
    requires Inv(w, t, base) && InOrder(events, t) && forall i :: 0 <= i < |events| ==> OnTime(events[i])
    ensures Inv(Run(w, events, base), EndOf(events, t), base)
  {
    if events != [] {
      var front, e := events[..|events| - 1], events[|events| - 1];
      RunKeeps(w, front, t, base);
      var mid, s := Run(w, front, base), EndOf(front, t);
      match e {
        case Enqueue(_, _) => EnqueueKeeps(mid, e, s, base);
        case Claim(_, _, _) => ClaimKeeps(mid, e, s, base);
        case Report(_, _, _) => ReportKeeps(mid, e, s, base);
        case Crash(_, _) => CrashKeeps(mid, e, s, base);
      }
    }
  }

  lemma TerminalStep(w: World, e: Event, t: int, base: nat, id: nat)
    requires Inv(w, t, base) && OnTime(e) && t <= e.at
    requires id < |w.rows| && !w.rows[id].status.Pending?
    ensures id < |Step(w, e, base).rows| && Step(w, e, base).rows[id] == w.rows[id]
    ensures Outcomes(Step(w, e, base).logs, id) == Outcomes(w.logs, id)
    ensures forall h :: h in Step(w, e, base).holds && h.job.id == id ==> h in w.holds
  {
    match e
    case Claim(_, batch, at) =>
      ChosenAreDue(w.rows, at, batch, |w.rows|);
    case Report(hold, result, at) =>
      if hold in w.holds {
        assert HoldSound(w, hold, t);
        LogAppended(w.logs, LogOf(w.rows[hold.job.id], hold.job, result, base, at), id);
      }
    case Enqueue(_, _) =>
    case Crash(_, _) =>
  }

  /** Sent and failed are terminal: over any such run the row is never touched or claimed again
      and no further outcome of it is recorded. */
  lemma {:induction false} TerminalStays(w: World, events: seq<Event>, t: int, base: nat, id: nat)
    requires Inv(w, t, base) && InOrder(events, t) && forall i :: 0 <= i < |events| ==> OnTime(events[i])
    requires id < |w.rows| && !w.rows[id].status.Pending?
    ensures id < |Run(w, events, base).rows| && Run(w, events, base).rows[id] == w.rows[id]
    ensures Outcomes(Run(w, events, base).logs, id) == Outcomes(w.logs, id)
    ensures forall h :: h in Run(w, events, base).holds && h.job.id == id ==> h in w.holds
  {
    if events != [] {
      var front, e := events[..|events| - 1], events[|events| - 1];
      TerminalStays(w, front, t, base, id);
      RunKeeps(w, front, t, base);
      TerminalStep(Run(w, front, base), e, EndOf(front, t), base, id);
    }
  }

  /** Dead letters stay dead: a row whose holder reports a permanent failure in time is failed
      with its attempts used up, and over any such run from then on it stays so and no worker
      ever holds it again. */
  lemma PermanentIsFinal(w: World, hold: Hold, at: int, events: seq<Event>, t: int, base: nat)
    requires Inv(w, t, base) && hold in w.holds && t <= at && Live(hold, at)
    requires InOrder(events, at) && forall i :: 0 <= i < |events| ==> OnTime(events[i])
    ensures
      var end, id := Run(Step(w, Report(hold, Permanent, at), base), events, base), hold.job.id;
      && id < |end.rows|
      && end.rows[id].status.Failed? && end.rows[id].attempts == end.rows[id].maxAttempts
      && forall h :: h in end.holds && h.job.id == id ==> h in w.holds && h != hold && !Live(h, at)
  {
    var id := hold.job.id;
    assert HoldSound(w, hold, t);
    assert RowSound(w, id, base);
    ReportKeeps(w, Report(hold, Permanent, at), t, base);
    var mid := Step(w, Report(hold, Permanent, at), base);
    ReportedIs(w.rows[id], hold.job, Permanent, base, at);
    TerminalStays(mid, events, at, base, id);
    forall h | h in mid.holds && h.job.id == id ensures !Live(h, at) {
      assert HoldSound(mid, h, at);
    }
  }

  /** Each recorded failure raises attempts, and after max_attempts recorded outcomes the
      row is sent or failed; until then its retries have been scheduled at the backoff's
      total. */
  lemma OutcomesSettle(w: World, t: int, base: nat, id: nat)
    requires Inv(w, t, base) && id < |w.rows|
    ensures Outcomes(w.logs, id) == w.rows[id].maxAttempts ==> !w.rows[id].status.Pending?
    ensures w.rows[id].status.Pending? ==>
              var k := Outcomes(w.logs, id);
              && k == w.rows[id].attempts < w.rows[id].maxAttempts
              && Scheduled(w.logs, id) == base * (if k <= 7 then Pow2(k) - 1 else 127 + 64 * (k - 7))
  {
    assert RowSound(w, id, base);
    TotalDelayIs(base, w.rows[id].attempts);
  }

  const EMPTY := World([], [], {})

  /** The whole of it, from an empty outbox. */
  lemma OutboxSafe(events: seq<Event>, base: nat, id: nat)
    requires InOrder(events, 0) && forall i :: 0 <= i < |events| ==> OnTime(events[i])
    requires id < |Run(EMPTY, events, base).rows|
    ensures
      var w := Run(EMPTY, events, base);
      && Exclusive(w, EndOf(events, 0))
      && SentLogs(w.logs, id) == (if w.rows[id].status.Sent? then 1 else 0)
      && Outcomes(w.logs, id) <= w.rows[id].maxAttempts
  {
    RunKeeps(EMPTY, events, 0, base);
    assert RowSound(Run(EMPTY, events, base), id, base);
  }

  // ---- late outcomes -----------------------------------------------------------------------

  /** In any state, on time or not, a sent row stops being sent exactly when some worker
      still holding a job for it reports a failure: MarkFailed does not look at the status. */
  lemma SentSurvivesIff(w: World, e: Event, base: nat, id: nat)
    requires id < |w.rows| && w.rows[id].status.Sent?
    ensures id < |Step(w, e, base).rows|
    ensures Step(w, e, base).rows[id].status.Sent?
            <==> !(e.Report? && e.hold in w.holds && e.hold.job.id == id && !e.result.Delivered?)
  {
    match e
    case Claim(_, batch, at) => ChosenAreDue(w.rows, at, batch, |w.rows|);
    case Report(_, _, _) =>
    case Enqueue(_, _) =>
    case Crash(_, _) =>
  }

  const SLOW := Hold(1, Job(0, 0, 3, LEASE))
  const QUICK := Hold(2, Job(0, 0, 3, 2 * LEASE))

  /** A row claimed a second time after the first worker's lease lapsed. */
  lemma LeasesOverlap(base: nat)
    ensures Run(EMPTY, [] + [Enqueue(3, 0)] + [Claim(1, 10, 0)] + [Claim(2, 10, LEASE)], base)
            == World([Row(Pending, 0, 3, 2 * LEASE)], [], {SLOW, QUICK})
  {
    var r0, r1, r2 := [Row(Pending, 0, 3, 0)], [Row(Pending, 0, 3, LEASE)], [Row(Pending, 0, 3, 2 * LEASE)];
    OneRowClaim(r0, 0, 10);
    OneRowClaim(r1, LEASE, 10);
    var w1 := Step(EMPTY, Enqueue(3, 0), base);
    assert w1 == World(r0, [], {});
    var w2 := Step(w1, Claim(1, 10, 0), base);
    assert w2 == World(r1, [], {SLOW}) by {
      assert Leased(r0, [0], LEASE) == r1;
      assert Claimed(r0, 1, 10, 0) == {SLOW};
    }
    assert Step(w2, Claim(2, 10, LEASE), base) == World(r2, [], {SLOW, QUICK}) by {
      assert Leased(r1, [0], 2 * LEASE) == r2;
      assert Claimed(r1, 2, 10, LEASE) == {QUICK};
    }
    RunLast(EMPTY, [], Enqueue(3, 0), base);
    RunLast(EMPTY, [] + [Enqueue(3, 0)], Claim(1, 10, 0), base);
    RunLast(EMPTY, [] + [Enqueue(3, 0)] + [Claim(1, 10, 0)], Claim(2, 10, LEASE), base);
  }

  lemma DeliveredThenFailed(w: World, base: nat)
    requires w == World([Row(Pending, 0, 3, 2 * LEASE)], [], {SLOW, QUICK})
    ensures
      var end := Step(Step(w, Report(QUICK, Delivered, LEASE + 1), base), Report(SLOW, Retryable, LEASE + 2), base);
      end.rows == [Row(Pending, 1, 3, LEASE + 2 + base)] && SentLogs(end.logs, 0) == 1
  {
    var mid := Step(w, Report(QUICK, Delivered, LEASE + 1), base);
    assert mid.rows == [Row(Sent, 0, 3, 2 * LEASE)] && SLOW in mid.holds && mid.logs == [] + [Log(0, Sent, 0)];
    assert Pow2(0) == 1 && Backoff(base, 1) == base;
    var end := Step(mid, Report(SLOW, Retryable, LEASE + 2), base);
    assert end.logs == mid.logs + [Log(0, Pending, base)];
    LogAppended([], Log(0, Sent, 0), 0);
    LogAppended(mid.logs, Log(0, Pending, base), 0);
  }

  /** A slow worker's late failure puts a delivered email back in the queue: the row is
      pending again although its 'sent' entry is in the log, and the next claim takes it. */
  lemma LateFailureUnsends(before: seq<Event>, sent: Event, late: Event, base: nat)
    requires before == [] + [Enqueue(3, 0)] + [Claim(1, 10, 0)] + [Claim(2, 10, LEASE)]
    requires sent == Report(QUICK, Delivered, LEASE + 1) && late == Report(SLOW, Retryable, LEASE + 2)
    ensures
      var w := Run(EMPTY, before + [sent] + [late], base);
      && OnTime(sent) && !OnTime(late)
      && w.rows == [Row(Pending, 1, 3, LEASE + 2 + base)]
      && SentLogs(w.logs, 0) == 1
  {
    LeasesOverlap(base);
    DeliveredThenFailed(Run(EMPTY, before, base), base);
    RunLast(EMPTY, before, sent, base);
    RunLast(EMPTY, before + [sent], late, base);
  }

  /** The run is in time order. */
  lemma LateFailureInOrder(before: seq<Event>, sent: Event, late: Event)
    requires before == [] + [Enqueue(3, 0)] + [Claim(1, 10, 0)] + [Claim(2, 10, LEASE)]
    requires sent == Report(QUICK, Delivered, LEASE + 1) && late == Report(SLOW, Retryable, LEASE + 2)
    ensures InOrder(before + [sent] + [late], 0)
  {
    AppendInOrder([] + [Enqueue(3, 0)], Claim(1, 10, 0), 0);
    AppendInOrder([] + [Enqueue(3, 0)] + [Claim(1, 10, 0)], Claim(2, 10, LEASE), 0);
    AppendInOrder(before, sent, 0);
    AppendInOrder(before + [sent], late, 0);
  }

  lemma AppendInOrder(events: seq<Event>, e: Event, from: int)
    requires InOrder(events, from) && EndOf(events, from) <= e.at
    ensures InOrder(events + [e], from)
  {
    var all := events + [e];
    forall i, j | 0 <= i <= j < |all| ensures from <= all[i].at <= all[j].at {
      if j == |events| && i < j {
        assert from <= events[i].at <= events[|events| - 1].at;
      }
    }
  }

  lemma OneRowClaim(rows: seq<Row>, at: int, batch: nat)
    requires |rows| == 1 && Due(rows[0], at) && batch > 0
    ensures Chosen(rows, at, batch, 1) == [0]
  {
    assert Chosen(rows, at, batch, 0) == [];
  }

  lemma RunLast(w: World, events: seq<Event>, e: Event, base: nat)
    ensures Run(w, events + [e], base) == Step(Run(w, events, base), e, base)
  {
    assert (events + [e])[..|events|] == events;
  }
}
