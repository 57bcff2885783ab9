/** Push dispatch: leased claims of notifications, one send per device, retries. */
module Push {
  import opened Prelude
  import Outbox

  datatype Row = Row(user: nat, dispatchedAt: Option<int>, attempts: nat, nextDispatchAt: int, leaseAt: Option<int>)

  datatype Device = Device(token: string, user: nat)

  /** A claimed notification as the worker remembers it. */
  datatype Job = Job(id: nat, user: nat, attempts: nat, leaseEnd: int)

  datatype Answer = Accepted | InvalidToken | Refused

  const LEASE: int := 300

  predicate Claimable(r: Row, now: int) {
    && r.dispatchedAt.None?
    && r.nextDispatchAt <= now
    && (r.leaseAt.Some? ==> r.leaseAt.value <= now)
  }

  /** Rows are kept in creation order: the ids a claim takes are the first claimable ones. */
  function Chosen(rows: seq<Row>, now: int, batch: nat, n: nat): seq<nat>
    requires n <= |rows|
  {
    if n == 0 then []
    else
      var c := Chosen(rows, now, batch, n - 1);
      if |c| < batch && Claimable(rows[n - 1], now) then c + [n - 1] else c
  }

  function Leased(rows: seq<Row>, ids: seq<nat>, until: int): seq<Row> {
    seq(|rows|, i requires 0 <= i < |rows| => if i in ids then rows[i].(leaseAt := Some(until)) else rows[i])
  }

  function JobFor(rows: seq<Row>, id: nat, until: int): Job
    requires id < |rows|
  {
    Job(id, rows[id].user, rows[id].attempts, until)
  }

  /** A claim takes claimable rows only, at most a batch of them, and skips one only when the
      batch is full of older ones. */
  lemma {:induction false} ChosenAreClaimable(rows: seq<Row>, now: int, batch: nat, n: nat)
    requires n <= |rows|
    ensures |Chosen(rows, now, batch, n)| <= batch
    ensures forall k :: 0 <= k < |Chosen(rows, now, batch, n)| ==>
              Chosen(rows, now, batch, n)[k] < n && Claimable(rows[Chosen(rows, now, batch, n)[k]], now)
    ensures forall i: nat :: i < n && Claimable(rows[i], now) && i !in Chosen(rows, now, batch, n)
              ==> |Chosen(rows, now, batch, n)| == batch && forall c :: c in Chosen(rows, now, batch, n) ==> c < i
  {
    if n > 0 {
      ChosenAreClaimable(rows, now, batch, n - 1);
    }
  }

  /** The notifications a claim at a time could take, among the first n. */
  function Ready(rows: seq<Row>, now: int, n: nat): nat
    requires n <= |rows|
  {
    if n == 0 then 0
    else
      var r := rows[n - 1];
      Ready(rows, now, n - 1)
      + if r.dispatchedAt.None? && r.nextDispatchAt <= now && (r.leaseAt.None? || r.leaseAt.value <= now) then 1 else 0
  }

  /** A notification is taken exactly when it is undispatched, its time has come, no lease on it
      runs, and fewer than a batch of older ones are in its way. */
  lemma {:induction false} ChosenIff(rows: seq<Row>, now: int, batch: nat, n: nat, i: nat)
    requires n <= |rows|
    ensures i in Chosen(rows, now, batch, n)
            <==> && i < n && rows[i].dispatchedAt.None? && rows[i].nextDispatchAt <= now
                 && (rows[i].leaseAt.None? || rows[i].leaseAt.value <= now)
                 && Ready(rows, now, i) < batch
    ensures |Chosen(rows, now, batch, n)| == if Ready(rows, now, n) < batch then Ready(rows, now, n) else batch
  {
    if n > 0 {
      ChosenIff(rows, now, batch, n - 1, i);
    }
  }

  // ---- one dispatch ------------------------------------------------------------------------

  function OfUser(devices: seq<Device>, user: nat): seq<Device> {
    if devices == [] then []
    else OfUser(devices[..|devices| - 1], user)
         + if devices[|devices| - 1].user == user then [devices[|devices| - 1]] else []
  }

  /** Sends that count towards a retry, among the first n devices. */
  function Pending(listed: seq<Device>, answer: string -> Answer, n: nat): nat
    requires n <= |listed|
  {
    if n == 0 then 0 else Pending(listed, answer, n - 1) + if answer(listed[n - 1].token).Refused? then 1 else 0
  }

  function WithoutToken(devices: seq<Device>, token: string): seq<Device> {
    if devices == [] then []
    else WithoutToken(devices[..|devices| - 1], token)
         + if devices[|devices| - 1].token != token then [devices[|devices| - 1]] else []
  }

  /** The registry after the loop's prunes for the first n devices. */
  function Pruned(devices: seq<Device>, listed: seq<Device>, answer: string -> Answer, n: nat): seq<Device>
    requires n <= |listed|
  {
    if n == 0 then devices
    else
      var rest := Pruned(devices, listed, answer, n - 1);
      if answer(listed[n - 1].token).InvalidToken? then WithoutToken(rest, listed[n - 1].token) else rest
  }

  /** Whether the round ends the notification for good. */
  predicate Finished(listed: seq<Device>, answer: string -> Answer, attempts: nat, maxAttempts: int) {
    listed == [] || Pending(listed, answer, |listed|) == 0 || attempts + 1 >= maxAttempts
  }

  function Dispatched(r: Row, now: int): Row {
    r.(dispatchedAt := Some(now), leaseAt := None, nextDispatchAt := now)
  }

  /** MarkDispatchFailed: it leaves dispatched_at as it was. */
  function Retried(r: Row, attempts: nat, next: int): Row {
    r.(attempts := attempts, nextDispatchAt := next, leaseAt := None)
  }

  /** What a round writes; `listed` is None when the device query failed. */
  function Marked(r: Row, job: Job, listed: Option<seq<Device>>, answer: string -> Answer,
                  maxAttempts: int, base: nat, now: int): Row
  {
    if listed.Some? && Finished(listed.value, answer, job.attempts, maxAttempts) then Dispatched(r, now)
    else Retried(r, job.attempts + 1, now + Outbox.Backoff(base, job.attempts + 1))
  }

  class Queue {
    var rows: seq<Row>
    var devices: seq<Device>

    constructor ()
      ensures rows == [] && devices == []
    {
      rows, devices := [], [];
    }

    method ClaimForDispatch(batch: nat, now: int) returns (jobs: seq<Job>)
      modifies this`rows
      ensures rows == Leased(old(rows), Chosen(old(rows), now, batch, |old(rows)|), now + LEASE)
      ensures |jobs| == |Chosen(old(rows), now, batch, |old(rows)|)|
      ensures forall k :: 0 <= k < |jobs| ==>
                jobs[k].id == Chosen(old(rows), now, batch, |old(rows)|)[k]
                && jobs[k].id < |old(rows)|
                && jobs[k] == JobFor(old(rows), jobs[k].id, now + LEASE)
    {
      jobs := [];
      for i := 0 to |rows|
        invariant |rows| == |old(rows)|
        invariant |jobs| == |Chosen(old(rows), now, batch, i)|
        invariant forall k :: 0 <= k < |jobs| ==>
                    jobs[k].id == Chosen(old(rows), now, batch, i)[k]
                    && jobs[k].id < i
                    && jobs[k] == JobFor(old(rows), jobs[k].id, now + LEASE)
        invariant forall j :: 0 <= j < i ==>
                    rows[j] == if j in Chosen(old(rows), now, batch, i) then old(rows)[j].(leaseAt := Some(now + LEASE)) else old(rows)[j]
        invariant forall j :: i <= j < |rows| ==> rows[j] == old(rows)[j]
      {
        ghost var chosen := Chosen(old(rows), now, batch, i);
        if |jobs| < batch && Claimable(rows[i], now) {
          jobs := jobs + [JobFor(rows, i, now + LEASE)];
          rows := rows[i := rows[i].(leaseAt := Some(now + LEASE))];
        }
        ChosenAreClaimable(old(rows), now, batch, i);
        assert i !in chosen;
      }
      ChosenAreClaimable(old(rows), now, batch, |old(rows)|);
      assert rows == Leased(old(rows), Chosen(old(rows), now, batch, |old(rows)|), now + LEASE);
    }

    method MarkDispatched(id: nat, now: int)
      requires id < |rows|
      modifies this`rows
      ensures rows == old(rows)[id := Dispatched(old(rows)[id], now)]
    {
      rows := rows[id := rows[id].(dispatchedAt := Some(now), leaseAt := None, nextDispatchAt := now)];
    }

    method MarkDispatchFailed(id: nat, attempts: nat, next: int)
      requires id < |rows|
      modifies this`rows
      ensures rows == old(rows)[id := Retried(old(rows)[id], attempts, next)]
    {
      rows := rows[id := rows[id].(attempts := attempts, nextDispatchAt := next, leaseAt := None)];
    }

    method ListByUser(user: nat) returns (listed: seq<Device>)
      ensures listed == OfUser(devices, user)
    {
      listed := [];
      for i := 0 to |devices|
        invariant listed == OfUser(devices[..i], user)
      {
        assert devices[..i + 1][..i] == devices[..i];
        if devices[i].user == user {
          listed := listed + [devices[i]];
        }
      }
      assert devices[..|devices|] == devices;
    }

    method DeleteByToken(token: string)
      modifies this`devices
      ensures devices == WithoutToken(old(devices), token)
    {
      var kept := [];
      for i := 0 to |devices|
        invariant kept == WithoutToken(devices[..i], token)
      {
        assert devices[..i + 1][..i] == devices[..i];
        if devices[i].token != token {
          kept := kept + [devices[i]];
        }
      }
      assert devices[..|devices|] == devices;
      devices := kept;
    }

    /** One round: list, send to every device, prune, and record. `reachable` says whether the
        device query succeeds. */
    method DispatchNotification(job: Job, reachable: bool, answer: string -> Answer, maxAttempts: int, base: nat, now: int)
      requires job.id < |rows|
      modifies this
      ensures rows == old(rows)[job.id := Marked(old(rows)[job.id], job,
                                                 if reachable then Some(OfUser(old(devices), job.user)) else None,
                                                 answer, maxAttempts, base, now)]
      ensures devices == if !reachable then old(devices)
                         else Pruned(old(devices), OfUser(old(devices), job.user), answer, |OfUser(old(devices), job.user)|)
    {
      if !reachable {
        MarkDispatchFailed(job.id, job.attempts + 1, now + Outbox.Backoff(base, job.attempts + 1));
        return;
      }
      var listed := ListByUser(job.user);
      if |listed| == 0 {
        MarkDispatched(job.id, now);
        return;
      }
      var pending := 0;
      for i := 0 to |listed|
        invariant rows == old(rows)
        invariant pending == Pending(listed, answer, i)
        invariant devices == Pruned(old(devices), listed, answer, i)
      {
        match answer(listed[i].token) {
          case Accepted =>
          case InvalidToken => DeleteByToken(listed[i].token);
          case Refused => pending := pending + 1;
        }
      }
      if pending == 0 || job.attempts + 1 >= maxAttempts {
        MarkDispatched(job.id, now);
        return;
      }
      MarkDispatchFailed(job.id, job.attempts + 1, now + Outbox.Backoff(base, job.attempts + 1));
    }
  }

  // ---- pruning -------------------------------------------------------------------------------

  /** The registry's unique constraint. */
  ghost predicate UniqueTokens(devices: seq<Device>) {
    forall i, j :: 0 <= i < j < |devices| ==> devices[i].token != devices[j].token
  }

  lemma {:induction false} OfUserHolds(devices: seq<Device>, user: nat, d: Device)
    ensures d in OfUser(devices, user) <==> d in devices && d.user == user
  {
    if devices != [] {
      var front := devices[..|devices| - 1];
      OfUserHolds(front, user, d);
      assert devices == front + [devices[|devices| - 1]];
    }
  }

  lemma {:induction false} WithoutTokenHolds(devices: seq<Device>, token: string, d: Device)
    ensures d in WithoutToken(devices, token) <==> d in devices && d.token != token
  {
    if devices != [] {
      var front := devices[..|devices| - 1];
      WithoutTokenHolds(front, token, d);
      assert devices == front + [devices[|devices| - 1]];
    }
  }

  lemma {:induction false} PrunedHolds(devices: seq<Device>, listed: seq<Device>, answer: string -> Answer, n: nat, d: Device)
    requires n <= |listed|
    ensures d in Pruned(devices, listed, answer, n)
            <==> d in devices && (answer(d.token).InvalidToken? ==> forall i :: 0 <= i < n ==> listed[i].token != d.token)
  {
    if n > 0 {
      PrunedHolds(devices, listed, answer, n - 1, d);
      WithoutTokenHolds(Pruned(devices, listed, answer, n - 1), listed[n - 1].token, d);
    }
  }

  /** A round unregisters exactly the recipient's devices whose token the provider calls
      invalid, and no other user's. */
  lemma PruneIsExact(devices: seq<Device>, user: nat, answer: string -> Answer, d: Device)
    requires UniqueTokens(devices)
    ensures
      var listed := OfUser(devices, user);
      d in Pruned(devices, listed, answer, |listed|)
      <==> d in devices && !(d.user == user && answer(d.token).InvalidToken?)
  {
    var listed := OfUser(devices, user);
    PrunedHolds(devices, listed, answer, |listed|, d);
    OfUserHolds(devices, user, d);
    forall i | 0 <= i < |listed| && d in devices && listed[i].token == d.token ensures listed[i] == d {
      OfUserHolds(devices, user, listed[i]);
    }
  }

  lemma {:induction false} PendingIsZero(listed: seq<Device>, answer: string -> Answer, n: nat)
    requires n <= |listed|
    ensures Pending(listed, answer, n) == 0 <==> forall i :: 0 <= i < n ==> !answer(listed[i].token).Refused?
  {
    if n > 0 {
      PendingIsZero(listed, answer, n - 1);
    }
  }

  /** What a round writes. It ends the notification when its devices could be listed and either
      none of them refused or the attempts are used up; otherwise the next round waits
      base * 2^min(attempts, 6). Either way the lease is given back. */
  lemma RoundIs(r: Row, job: Job, devices: seq<Device>, reachable: bool, answer: string -> Answer,
                maxAttempts: int, base: nat, now: int)
    ensures
      var after := Marked(r, job, if reachable then Some(OfUser(devices, job.user)) else None, answer, maxAttempts, base, now);
      after == if reachable && ((forall d :: d in devices && d.user == job.user ==> !answer(d.token).Refused?)
                                || job.attempts + 1 >= maxAttempts)
               then r.(dispatchedAt := Some(now), leaseAt := None, nextDispatchAt := now)
               else r.(attempts := job.attempts + 1, leaseAt := None,
                       nextDispatchAt := now + base * Outbox.Pow2(if job.attempts < 6 then job.attempts else 6))
  {
    var of := OfUser(devices, job.user);
    NoneRefusedIff(devices, job.user, answer);
    assert Outbox.Backoff(base, job.attempts + 1) == base * Outbox.Pow2(if job.attempts < 6 then job.attempts else 6);
  }

  lemma NoneRefusedIff(devices: seq<Device>, user: nat, answer: string -> Answer)
    ensures Pending(OfUser(devices, user), answer, |OfUser(devices, user)|) == 0
            <==> forall d :: d in devices && d.user == user ==> !answer(d.token).Refused?
  {
    var of := OfUser(devices, user);
    PendingIsZero(of, answer, |of|);
    forall d: Device ensures d in of <==> d in devices && d.user == user {
      OfUserHolds(devices, user, d);
    }
    assert forall i :: 0 <= i < |of| ==> of[i] in of;
  }

  /** A round records the notification as dispatched exactly when its devices could be listed
      and either none of them refused or the attempts are used up. */
  lemma DispatchedIff(r: Row, job: Job, devices: seq<Device>, reachable: bool, answer: string -> Answer,
                      maxAttempts: int, base: nat, now: int)
    requires r.dispatchedAt.None?
    ensures
      var listed := if reachable then Some(OfUser(devices, job.user)) else None;
      Marked(r, job, listed, answer, maxAttempts, base, now).dispatchedAt.Some?
      <==> reachable
           && ((forall d :: d in devices && d.user == job.user ==> !answer(d.token).Refused?)
               || job.attempts + 1 >= maxAttempts)
  {
    RoundIs(r, job, devices, reachable, answer, maxAttempts, base, now);
  }
}
