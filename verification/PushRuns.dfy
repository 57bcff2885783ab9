/** Several push workers, crashes and lapsing leases. */
module PushRuns {
  import opened Prelude
  import Outbox
  import opened Push

  /** A worker and a notification it has claimed and not yet finished with. */
  datatype Hold = Hold(worker: nat, job: Job)

  /** A finished round: whether it sent to any device and whether its outcome reached the table. */
  datatype Round = Round(id: nat, sent: bool, recorded: bool)

  datatype World = World(rows: seq<Row>, devices: seq<Device>, holds: set<Hold>, rounds: seq<Round>)

  datatype Event =
    | Notify(user: nat, at: int)
    | Register(device: Device, at: int)
    | Claim(worker: nat, batch: nat, at: int)
    | Dispatch(hold: Hold, reachable: bool, answer: string -> Answer, recorded: bool, at: int)
    | Crash(worker: nat, at: int)

  /** PUSH_MAX_ATTEMPTS and PUSH_RETRY_BASE_DELAY. */
  datatype Config = Config(maxAttempts: int, base: nat)

  function Claimed(rows: seq<Row>, worker: nat, batch: nat, at: int): set<Hold> {
    set i | 0 <= i < |rows| && i in Chosen(rows, at, batch, |rows|) :: Hold(worker, JobFor(rows, i, at + LEASE))
  }

  function Listed(w: World, e: Event): Option<seq<Device>>
    requires e.Dispatch?
  {
    if e.reachable then Some(OfUser(w.devices, e.hold.job.user)) else None
  }

  function RoundOf(w: World, e: Event): Round
    requires e.Dispatch?
  {
    Round(e.hold.job.id, e.reachable && OfUser(w.devices, e.hold.job.user) != [], e.recorded)
  }

  function Step(w: World, e: Event, c: Config): World {
    match e
    case Notify(user, at) =>
      w.(rows := w.rows + [Row(user, None, 0, at, None)])
    case Register(device, _) =>
      w.(devices := WithoutToken(w.devices, device.token) + [device])
    case Claim(worker, batch, at) =>
      w.(rows := Leased(w.rows, Chosen(w.rows, at, batch, |w.rows|), at + LEASE),
         holds := w.holds + Claimed(w.rows, worker, batch, at))
    case Dispatch(hold, reachable, answer, recorded, at) =>
      if hold !in w.holds || hold.job.id >= |w.rows| then w
      else
        var id := hold.job.id;
        var listed := OfUser(w.devices, hold.job.user);
        World(if recorded then w.rows[id := Marked(w.rows[id], hold.job, Listed(w, e), answer, c.maxAttempts, c.base, at)] else w.rows,
              if reachable then Pruned(w.devices, listed, answer, |listed|) else w.devices,
              w.holds - {hold},
              w.rounds + [RoundOf(w, e)])
    case Crash(worker, _) =>
      w.(holds := set h | h in w.holds && h.worker != worker)
  }

  function Run(w: World, events: seq<Event>, c: Config): World {
    if events == [] then w else Step(Run(w, events[..|events| - 1], c), events[|events| - 1], c)
  }

  const EMPTY := World([], [], {}, [])

  /** What a claim does to each notification, and whom it hands it to: it is leased for 300
      seconds, and its other fields stay. */
  lemma ClaimIs(w: World, worker: nat, batch: nat, at: int, c: Config, i: nat)
    requires i < |w.rows|
    ensures
      var r := w.rows[i];
      var taken := && r.dispatchedAt.None? && r.nextDispatchAt <= at && (r.leaseAt.None? || r.leaseAt.value <= at)
                   && Ready(w.rows, at, i) < batch;
      var after := Step(w, Claim(worker, batch, at), c);
      var job := Job(i, r.user, r.attempts, at + 300);
      && |after.rows| == |w.rows| && after.devices == w.devices && after.rounds == w.rounds
      && after.rows[i] == (if taken then r.(leaseAt := Some(at + 300)) else r)
      && (taken ==> Hold(worker, job) in after.holds)
      && (forall h :: h in after.holds && h.job.id == i && h !in w.holds ==> taken && h == Hold(worker, job))
  {
    ChosenIff(w.rows, at, batch, |w.rows|, i);
  }

  // ---- dispatched stays dispatched -----------------------------------------------------------

  /** No step, however late, clears dispatched_at, and no claim takes a dispatched row. */
  lemma DispatchedStays(w: World, e: Event, c: Config, id: nat)
    requires id < |w.rows| && w.rows[id].dispatchedAt.Some?
    ensures id < |Step(w, e, c).rows| && Step(w, e, c).rows[id].dispatchedAt.Some?
    ensures forall h :: h in Step(w, e, c).holds && h.job.id == id ==> h in w.holds
  {
    match e
    case Claim(_, batch, at) => ChosenAreClaimable(w.rows, at, batch, |w.rows|);
    case Notify(_, _) =>
    case Register(_, _) =>
    case Dispatch(_, _, _, _, _) =>
    case Crash(_, _) =>
  }

  /** Over any run, with slow workers, lapsed leases and late outcomes: once dispatched_at is
      set it stays set and no worker ever claims the notification again. */
  lemma {:induction false} NeverClaimedAgain(w: World, events: seq<Event>, c: Config, id: nat)
    requires id < |w.rows| && w.rows[id].dispatchedAt.Some?
    ensures id < |Run(w, events, c).rows| && Run(w, events, c).rows[id].dispatchedAt.Some?
    ensures forall h :: h in Run(w, events, c).holds && h.job.id == id ==> h in w.holds
  {
    if events != [] {
      NeverClaimedAgain(w, events[..|events| - 1], c, id);
      DispatchedStays(Run(w, events[..|events| - 1], c), events[|events| - 1], c, id);
    }
  }

  // ---- how often a notification is sent --------------------------------------------------------

  /** Rounds that sent something and recorded their outcome. */
  function Sends(rounds: seq<Round>, id: nat): nat {
    if rounds == [] then 0
    else Sends(rounds[..|rounds| - 1], id)
         + if rounds[|rounds| - 1] == Round(id, true, true) then 1 else 0
  }

  /** Rounds that sent something and died before recording it. */
  function Lost(rounds: seq<Round>, id: nat): nat {
    if rounds == [] then 0
    else Lost(rounds[..|rounds| - 1], id)
         + if rounds[|rounds| - 1] == Round(id, true, false) then 1 else 0
  }

  function Sending(rounds: seq<Round>, id: nat): nat {
    if rounds == [] then 0
    else Sending(rounds[..|rounds| - 1], id)
         + if rounds[|rounds| - 1].id == id && rounds[|rounds| - 1].sent then 1 else 0
  }

  lemma {:induction false} SendingSplits(rounds: seq<Round>, id: nat)
    ensures Sending(rounds, id) == Sends(rounds, id) + Lost(rounds, id)
  {
    if rounds != [] {
      SendingSplits(rounds[..|rounds| - 1], id);
    }
  }

  predicate Live(h: Hold, t: int) { t < h.job.leaseEnd }

  function Most(c: Config): nat { if c.maxAttempts >= 1 then c.maxAttempts else 1 }

  ghost predicate RowSound(w: World, id: nat, c: Config)
    requires id < |w.rows|
  {
    && Sends(w.rounds, id) <= Most(c)
    && (w.rows[id].dispatchedAt.None? ==> Sends(w.rounds, id) <= w.rows[id].attempts && Sends(w.rounds, id) < Most(c))
  }

  /** A hold whose lease runs names an undispatched row as the table has it. */
  predicate HoldSound(w: World, h: Hold, t: int) {
    && h.job.id < |w.rows|
    && (Live(h, t) ==>
          && w.rows[h.job.id].dispatchedAt.None?
          && w.rows[h.job.id].leaseAt == Some(h.job.leaseEnd)
          && w.rows[h.job.id].attempts == h.job.attempts)
  }

  ghost predicate Exclusive(w: World, t: int) {
    forall g, h :: g in w.holds && h in w.holds && Live(g, t) && Live(h, t) && g.job.id == h.job.id ==> g == h
  }

  ghost predicate Inv(w: World, t: int, c: Config) {
    && (forall id :: 0 <= id < |w.rows| ==> RowSound(w, id, c))
    && (forall h :: h in w.holds ==> HoldSound(w, h, t))
    && (forall id :: |w.rows| <= id ==> Sends(w.rounds, id) == 0)
    && Exclusive(w, t)
  }

  /** Outcomes land before their lease lapses, or never. */
  predicate OnTime(e: Event) { e.Dispatch? && e.recorded ==> Live(e.hold, e.at) }

  lemma RoundAppended(rounds: seq<Round>, r: Round, id: nat)
    ensures Sends(rounds + [r], id) == Sends(rounds, id) + if r == Round(id, true, true) then 1 else 0
    ensures Sending(rounds + [r], id) == Sending(rounds, id) + if r.id == id && r.sent then 1 else 0
  {
    assert (rounds + [r])[..|rounds|] == rounds;
  }

  lemma ClaimKeeps(w: World, e: Event, t: int, c: Config)
    requires Inv(w, t, c) && e.Claim? && t <= e.at
    ensures Inv(Step(w, e, c), e.at, c)
  {
    var end := Step(w, e, c);
    ChosenAreClaimable(w.rows, e.at, e.batch, |w.rows|);
    forall id | 0 <= id < |end.rows| ensures RowSound(end, id, c) {
      assert RowSound(w, id, c);
    }
    forall h | h in end.holds ensures HoldSound(end, h, e.at) {
      if h in w.holds {
        assert HoldSound(w, h, t);
      }
    }
    forall g, h | g in end.holds && h in end.holds && Live(g, e.at) && Live(h, e.at) && g.job.id == h.job.id
      ensures g == h
    {
      assert HoldSound(end, g, e.at) && HoldSound(end, h, e.at);
      if g in w.holds { assert HoldSound(w, g, t); }
      if h in w.holds { assert HoldSound(w, h, t); }
    }
  }

  lemma DispatchKeeps(w: World, e: Event, t: int, c: Config)
    requires Inv(w, t, c) && e.Dispatch? && OnTime(e) && t <= e.at
    ensures Inv(Step(w, e, c), e.at, c)
  {
    var end := Step(w, e, c);
    forall h | h in w.holds ensures HoldSound(w, h, e.at) {
      assert HoldSound(w, h, t);
    }
    if e.hold in w.holds {
      forall id: nat
        ensures Sends(end.rounds, id) == Sends(w.rounds, id) + if RoundOf(w, e) == Round(id, true, true) then 1 else 0
      {
        RoundAppended(w.rounds, RoundOf(w, e), id);
      }
      forall id | 0 <= id < |end.rows| ensures RowSound(end, id, c) {
        assert RowSound(w, id, c);
      }
      forall h | h in end.holds ensures HoldSound(end, h, e.at) {
        assert HoldSound(w, h, e.at) && HoldSound(w, e.hold, e.at);
      }
    }
  }

  lemma OtherKeeps(w: World, e: Event, t: int, c: Config)
    requires Inv(w, t, c) && (e.Notify? || e.Register? || e.Crash?) && t <= e.at
    ensures Inv(Step(w, e, c), e.at, c)
  {
    var end := Step(w, e, c);
    forall id | 0 <= id < |end.rows| ensures RowSound(end, id, c) {
      if id < |w.rows| {
        assert RowSound(w, id, c);
      }
    }
    forall h | h in end.holds ensures HoldSound(end, h, e.at) {
      assert HoldSound(w, h, t);
    }
  }

  ghost predicate InOrder(events: seq<Event>, from: int) {
    forall i, j :: 0 <= i <= j < |events| ==> from <= events[i].at <= events[j].at
  }

  function EndOf(events: seq<Event>, from: int): int {
    if events == [] then from else events[|events| - 1].at
  }

  lemma {:induction false} RunKeeps(w: World, events: seq<Event>, t: int, c: Config)
    requires Inv(w, t, c) && InOrder(events, t) && forall i :: 0 <= i < |events| ==> OnTime(events[i])
    ensures Inv(Run(w, events, c), EndOf(events, t), c)
  {
    if events != [] {
      var front, e := events[..|events| - 1], events[|events| - 1];
      RunKeeps(w, front, t, c);
      var mid, s := Run(w, front, c), EndOf(front, t);
      match e {
        case Claim(_, _, _) => ClaimKeeps(mid, e, s, c);
        case Dispatch(_, _, _, _, _) => DispatchKeeps(mid, e, s, c);
        case Notify(_, _) => OtherKeeps(mid, e, s, c);
        case Register(_, _) => OtherKeeps(mid, e, s, c);
        case Crash(_, _) => OtherKeeps(mid, e, s, c);
      }
    }
  }

  /** At most PUSH_MAX_ATTEMPTS rounds send a notification to anyone (one, if the setting is
      below one), plus one for each worker that died between sending and recording, whatever
      mix of failed device queries, retries, crashes and workers the run has. While it is
      undispatched no two running leases share it and at least one sending round is left. */
  lemma SendsAreBounded(events: seq<Event>, c: Config, id: nat)
    requires InOrder(events, 0) && forall i :: 0 <= i < |events| ==> OnTime(events[i])
    requires id < |Run(EMPTY, events, c).rows|
    ensures
      var w := Run(EMPTY, events, c);
      && Exclusive(w, EndOf(events, 0))
      && Sending(w.rounds, id) <= Most(c) + Lost(w.rounds, id)
      && (w.rows[id].dispatchedAt.None? ==> Sending(w.rounds, id) < Most(c) + Lost(w.rounds, id))
  {
    RunKeeps(EMPTY, events, 0, c);
    var w := Run(EMPTY, events, c);
    assert RowSound(w, id, c);
    SendingSplits(w.rounds, id);
  }

  // ---- where the bound stops ---------------------------------------------------------------

  /** Whatever the workers do and however often, a notification whose recorded rounds all failed
      to list its devices is never given up on, whatever PUSH_MAX_ATTEMPTS is. */
  lemma {:induction false} UnlistedIsNeverDispatched(w: World, events: seq<Event>, c: Config, id: nat)
    requires id < |w.rows| && w.rows[id].dispatchedAt.None?
    requires forall i :: 0 <= i < |events| && events[i].Dispatch? && events[i].recorded && events[i].hold.job.id == id
               ==> !events[i].reachable
    ensures id < |Run(w, events, c).rows| && Run(w, events, c).rows[id].dispatchedAt.None?
  {
    if events != [] {
      UnlistedIsNeverDispatched(w, events[..|events| - 1], c, id);
    }
  }

  function Unlisted(user: nat, attempts: nat, due: int, answer: string -> Answer): Event {
    Dispatch(Hold(1, Job(0, user, attempts, due + LEASE)), false, answer, true, due)
  }

  /** The one notification, waiting for its next attempt. */
  predicate Waiting(w: World, user: nat, attempts: nat, due: int) {
    w.rows == [Row(user, None, attempts, due, None)] && w.holds == {}
  }

  predicate Fails(e: Event) { e.Claim? || (e.Dispatch? && !e.reachable && e.recorded && OnTime(e)) }

  /** Claims, and failed device queries recorded in time, up to some moment. */
  ghost predicate FailingRounds(events: seq<Event>, start: int, end: int) {
    && InOrder(events, start)
    && EndOf(events, start) <= end
    && (forall k :: 0 <= k < |events| ==> Fails(events[k]))
  }

  /** A run of such rounds from w that leaves the notification waiting. */
  ghost predicate StillWaiting(w: World, events: seq<Event>, start: int, c: Config, user: nat, attempts: nat, due: int) {
    FailingRounds(events, start, due) && Waiting(Run(w, events, c), user, attempts, due)
  }

  /** Such rounds go on for ever: after any number of recorded ones the notification is still
      undispatched and due again after one more backoff. The comment on MarkDispatchFailed
      describes a stop that nothing implements. */
  lemma FailedListsNeverGiveUp(w: World, user: nat, start: int, c: Config, batch: nat, answer: string -> Answer, n: nat)
    returns (events: seq<Event>)
    requires Waiting(w, user, 0, start) && batch >= 1
    ensures StillWaiting(w, events, start, c, user, n, Schedule(start, c.base)(n))
  {
    ScheduleSteps(start, c.base);
    events := FailingRoundsGoOn(w, user, start, c, batch, answer, Schedule(start, c.base), n);
  }

  /** When the attempt after k failures is due. */
  function Schedule(start: int, base: nat): nat -> int { (k: nat) => start + Outbox.TotalDelay(base, k) }

  lemma ScheduleSteps(start: int, base: nat)
    ensures Schedule(start, base)(0) == start
    ensures forall k: nat :: Schedule(start, base)(k + 1) == Schedule(start, base)(k) + Outbox.Backoff(base, k + 1)
  {
  }

  lemma {:induction false} FailingRoundsGoOn(w: World, user: nat, start: int, c: Config, batch: nat,
                                             answer: string -> Answer, due: nat -> int, n: nat)
    returns (events: seq<Event>)
    requires Waiting(w, user, 0, start) && batch >= 1
    requires due(0) == start && forall k: nat :: due(k + 1) == due(k) + Outbox.Backoff(c.base, k + 1)
    ensures StillWaiting(w, events, start, c, user, n, due(n))
  {
    if n == 0 {
      events := [];
    } else {
      var before := FailingRoundsGoOn(w, user, start, c, batch, answer, due, n - 1);
      assert due(n - 1 + 1) == due(n);
      events := OneMoreRound(w, before, start, due(n - 1), due(n), user, n, c, batch, answer);
    }
  }

  lemma OneMoreRound(w: World, before: seq<Event>, start: int, due: int, next: int, user: nat, n: nat, c: Config,
                     batch: nat, answer: string -> Answer)
    returns (events: seq<Event>)
    requires n >= 1 && batch >= 1 && next == due + Outbox.Backoff(c.base, n)
    requires StillWaiting(w, before, start, c, user, n - 1, due)
    ensures StillWaiting(w, events, start, c, user, n, next)
  {
    events := before + [Claim(1, batch, due)] + [Unlisted(user, n - 1, due, answer)];
    RoundAfter(w, before, user, n - 1, due, next, c, batch, answer);
    AppendFails(before, Claim(1, batch, due), start, due);
    AppendFails(before + [Claim(1, batch, due)], Unlisted(user, n - 1, due, answer), start, due);
  }

  lemma AppendFails(events: seq<Event>, e: Event, start: int, due: int)
    requires FailingRounds(events, start, due) && Fails(e) && e.at == due
    ensures FailingRounds(events + [e], start, due)
  {
    AppendInOrder(events, e, start);
  }

  lemma RoundAfter(w: World, events: seq<Event>, user: nat, attempts: nat, due: int, next: int, c: Config, batch: nat,
                   answer: string -> Answer)
    requires Waiting(Run(w, events, c), user, attempts, due) && batch >= 1
    requires next == due + Outbox.Backoff(c.base, attempts + 1)
    ensures Waiting(Run(w, events + [Claim(1, batch, due)] + [Unlisted(user, attempts, due, answer)], c),
                    user, attempts + 1, next)
  {
    var claim, round := Claim(1, batch, due), Unlisted(user, attempts, due, answer);
    FailingRound(Run(w, events, c), user, attempts, due, next, c, batch, answer, claim, round);
    RunTwo(w, events, claim, round, c);
  }

  lemma RunTwo(w: World, events: seq<Event>, a: Event, b: Event, c: Config)
    ensures Run(w, events + [a] + [b], c) == Step(Step(Run(w, events, c), a, c), b, c)
  {
    RunLast(w, events, a, c);
    RunLast(w, events + [a], b, c);
  }

  lemma FailingRound(w: World, user: nat, attempts: nat, due: int, next: int, c: Config, batch: nat, answer: string -> Answer,
                     claim: Event, round: Event)
    requires Waiting(w, user, attempts, due) && batch >= 1
    requires next == due + Outbox.Backoff(c.base, attempts + 1)
    requires claim == Claim(1, batch, due) && round == Unlisted(user, attempts, due, answer)
    ensures Waiting(Step(Step(w, claim, c), round, c), user, attempts + 1, next)
  {
    var hold := Hold(1, Job(0, user, attempts, due + LEASE));
    OneRowClaim(w.rows, due, batch);
    var mid := Step(w, claim, c);
    assert mid.rows == [Row(user, None, attempts, due, Some(due + LEASE))];
    assert 0 in [0] && Hold(1, JobFor(w.rows, 0, due + LEASE)) == hold;
    assert Claimed(w.rows, 1, batch, due) == {hold};
    assert mid.holds == {} + {hold};
  }

  const SLOW := Hold(1, Job(0, 7, 0, LEASE))
  const QUICK := Hold(2, Job(0, 7, 0, 2 * LEASE))
  const PHONE := Device("t", 7)

  /** A notification two workers have claimed, the first one's lease having lapsed. */
  function Overlapped(): World {
    World([Row(7, None, 0, 0, Some(2 * LEASE))], [PHONE], {SLOW, QUICK}, [])
  }

  lemma LeasesOverlap(c: Config)
    ensures Run(EMPTY, [] + [Register(PHONE, 0)] + [Notify(7, 0)] + [Claim(1, 1, 0)] + [Claim(2, 1, LEASE)], c) == Overlapped()
  {
    var r0 := Row(7, None, 0, 0, None);
    var r1, r2 := r0.(leaseAt := Some(LEASE)), r0.(leaseAt := Some(2 * LEASE));
    OneRowClaim([r0], 0, 1);
    OneRowClaim([r1], LEASE, 1);
    var w2 := Step(Step(EMPTY, Register(PHONE, 0), c), Notify(7, 0), c);
    assert w2 == World([r0], [PHONE], {}, []);
    var w3 := Step(w2, Claim(1, 1, 0), c);
    assert w3 == World([r1], [PHONE], {SLOW}, []) by {
      assert Leased([r0], [0], LEASE) == [r1];
      assert Claimed([r0], 1, 1, 0) == {SLOW};
    }
    assert Step(w3, Claim(2, 1, LEASE), c) == Overlapped() by {
      assert Leased([r1], [0], 2 * LEASE) == [r2];
      assert Claimed([r1], 2, 1, LEASE) == {QUICK};
    }
    RunTwo(EMPTY, [], Register(PHONE, 0), Notify(7, 0), c);
    RunTwo(EMPTY, [] + [Register(PHONE, 0)] + [Notify(7, 0)], Claim(1, 1, 0), Claim(2, 1, LEASE), c);
  }

  lemma SendsFrom(w: World, h: Hold, yes: string -> Answer, at: int, c: Config)
    requires h in w.holds && h.job.user == 7 && h.job.id < |w.rows| && w.devices == [PHONE]
    requires yes(PHONE.token).Accepted?
    ensures
      var end := Step(w, Dispatch(h, true, yes, true, at), c);
      && |end.rows| == |w.rows| && end.devices == [PHONE] && end.holds == w.holds - {h}
      && end.rounds == w.rounds + [Round(h.job.id, true, true)]
  {
    assert OfUser([PHONE], 7) == [PHONE] by { assert [PHONE][..0] == []; }
    assert Pruned([PHONE], [PHONE], yes, 1) == Pruned([PHONE], [PHONE], yes, 0);
  }

  /** Late outcomes break the bound: with one attempt allowed, two workers whose leases overlap
      in time both send. */
  lemma LateWorkersSendTwice(before: seq<Event>, yes: string -> Answer, first: Event, second: Event, c: Config)
    requires before == [] + [Register(PHONE, 0)] + [Notify(7, 0)] + [Claim(1, 1, 0)] + [Claim(2, 1, LEASE)]
    requires yes(PHONE.token).Accepted? && c.maxAttempts == 1
    requires first == Dispatch(QUICK, true, yes, true, LEASE) && second == Dispatch(SLOW, true, yes, true, LEASE)
    ensures OnTime(first) && !OnTime(second)
    ensures Sending(Run(EMPTY, before + [first] + [second], c).rounds, 0) == 2
  {
    LeasesOverlap(c);
    var mid := Step(Overlapped(), first, c);
    SendsFrom(Overlapped(), QUICK, yes, LEASE, c);
    SendsFrom(mid, SLOW, yes, LEASE, c);
    RoundAppended([], Round(0, true, true), 0);
    RoundAppended(mid.rounds, Round(0, true, true), 0);
    RunLast(EMPTY, before, first, c);
    RunLast(EMPTY, before + [first], second, c);
    assert mid.rounds == [] + [Round(0, true, true)];
  }

  /** The run is in time order. */
  lemma LateWorkersInOrder(before: seq<Event>, yes: string -> Answer, first: Event, second: Event)
    requires before == [] + [Register(PHONE, 0)] + [Notify(7, 0)] + [Claim(1, 1, 0)] + [Claim(2, 1, LEASE)]
    requires first == Dispatch(QUICK, true, yes, true, LEASE) && second == Dispatch(SLOW, true, yes, true, LEASE)
    ensures InOrder(before + [first] + [second], 0)
  {
    AppendInOrder([] + [Register(PHONE, 0)] + [Notify(7, 0)], Claim(1, 1, 0), 0);
    AppendInOrder([] + [Register(PHONE, 0)] + [Notify(7, 0)] + [Claim(1, 1, 0)], Claim(2, 1, LEASE), 0);
    AppendInOrder(before, first, 0);
    AppendInOrder(before + [first], second, 0);
  }

  lemma AppendInOrder(events: seq<Event>, e: Event, from: int)
    requires InOrder(events, from) && EndOf(events, from) <= e.at
    ensures InOrder(events + [e], from)
  {
    var all := events + [e];
    forall i, j | 0 <= i <= j < |all| ensures from <= all[i].at <= all[j].at {
      if j == |events| && i < j {
        assert from <= events[i].at <= events[|events| - 1].at;
      }
    }
  }

  lemma OneRowClaim(rows: seq<Row>, at: int, batch: nat)
    requires |rows| == 1 && Claimable(rows[0], at) && batch >= 1
    ensures Chosen(rows, at, batch, 1) == [0]
  {
    assert Chosen(rows, at, batch, 0) == [];
  }

  lemma RunLast(w: World, events: seq<Event>, e: Event, c: Config)
    ensures Run(w, events + [e], c) == Step(Run(w, events, c), e, c)
  {
    assert (events + [e])[..|events|] == events;
  }
}
