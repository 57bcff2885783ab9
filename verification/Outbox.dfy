/** The email outbox: leased claims, retries with backoff, dead-lettering. */
module Outbox {

  datatype Status = Pending | Sent | Failed

  datatype Row = Row(status: Status, attempts: nat, maxAttempts: int, nextRetryAt: int)

  /** One email_logs entry. The delay to the scheduled retry is kept for the statements
      about schedules; the table does not store it. */
  datatype Log = Log(id: nat, status: Status, delay: int)

  /** A claimed row as the worker remembers it. */
  datatype Job = Job(id: nat, attempts: nat, maxAttempts: int, leaseEnd: int)

  datatype Result = Delivered | Retryable | Permanent

  const LEASE: int := 300

  function Min(a: int, b: int): int { if a < b then a else b }

  function Pow2(n: nat): nat { if n == 0 then 1 else 2 * Pow2(n - 1) }

  /** The delay before the retry that follows the given attempt. */
  function Backoff(base: nat, attempt: nat): nat
    requires attempt >= 1
  {
    base * Pow2(Min(attempt - 1, 6))
  }

  predicate Due(r: Row, now: int) { r.status.Pending? && r.nextRetryAt <= now }

  /** Rows are kept in creation order, so the ids a claim takes are the first due ones. */
  function Chosen(rows: seq<Row>, now: int, batch: nat, n: nat): seq<nat>
    requires n <= |rows|
  {
    if n == 0 then []
    else
      var c := Chosen(rows, now, batch, n - 1);
      if |c| < batch && Due(rows[n - 1], now) then c + [n - 1] else c
  }

  function Leased(rows: seq<Row>, ids: seq<nat>, until: int): seq<Row> {
    seq(|rows|, i requires 0 <= i < |rows| => if i in ids then rows[i].(nextRetryAt := until) else rows[i])
  }

  function JobFor(rows: seq<Row>, id: nat, until: int): Job
    requires id < |rows|
  {
    Job(id, rows[id].attempts, rows[id].maxAttempts, until)
  }

  /** A claim takes due rows only, at most a batch, and the oldest: a due row is left only
      when the batch is full of older ones. */
  lemma {:induction false} ChosenAreDue(rows: seq<Row>, now: int, batch: nat, n: nat)
    requires n <= |rows|
    ensures |Chosen(rows, now, batch, n)| <= batch
    ensures forall k :: 0 <= k < |Chosen(rows, now, batch, n)| ==>
              Chosen(rows, now, batch, n)[k] < n && Due(rows[Chosen(rows, now, batch, n)[k]], now)
    ensures forall i: nat :: i < n && Due(rows[i], now) && i !in Chosen(rows, now, batch, n)
              ==> |Chosen(rows, now, batch, n)| == batch && forall c :: c in Chosen(rows, now, batch, n) ==> c < i
  {
    if n > 0 {
      ChosenAreDue(rows, now, batch, n - 1);
    }
  }

  /** The rows a claim at a time could take, among the first n. */
  function Claimable(rows: seq<Row>, now: int, n: nat): nat
    requires n <= |rows|
  {
    if n == 0 then 0
    else Claimable(rows, now, n - 1) + if rows[n - 1].status.Pending? && rows[n - 1].nextRetryAt <= now then 1 else 0
  }

  /** A row is taken exactly when it is pending, its time has come, and fewer than a batch of
      older rows are in its way. */
  lemma {:induction false} ChosenIff(rows: seq<Row>, now: int, batch: nat, n: nat, i: nat)
    requires n <= |rows|
    ensures i in Chosen(rows, now, batch, n)
            <==> i < n && rows[i].status.Pending? && rows[i].nextRetryAt <= now && Claimable(rows, now, i) < batch
    ensures |Chosen(rows, now, batch, n)| == if Claimable(rows, now, n) < batch then Claimable(rows, now, n) else batch
  {
    if n > 0 {
      ChosenIff(rows, now, batch, n - 1, i);
    }
  }

  /** What MarkFailed writes: no guard on the row's current status. */
  function FailedRow(r: Row, attempts: nat, maxAttempts: int, next: int): Row {
    r.(attempts := attempts, nextRetryAt := next, status := if attempts >= maxAttempts then Failed else Pending)
  }

  /** What the worker asks MarkFailed for: a later retry, or the terminal count. */
  function RecordedFailure(job: Job, retryable: bool, base: nat, now: int): (nat, int) {
    var attempt := job.attempts + 1;
    if attempt < job.maxAttempts && retryable then (attempt, now + Backoff(base, attempt))
    else (if job.maxAttempts > 0 then job.maxAttempts else 0, now)
  }

  /** sendOne's effect on the row. */
  function Reported(r: Row, job: Job, result: Result, base: nat, now: int): Row {
    match result
    case Delivered => r.(status := Sent)
    case Retryable => var (a, next) := RecordedFailure(job, true, base, now); FailedRow(r, a, job.maxAttempts, next)
    case Permanent => var (a, next) := RecordedFailure(job, false, base, now); FailedRow(r, a, job.maxAttempts, next)
  }

  function LogOf(r: Row, job: Job, result: Result, base: nat, now: int): Log {
    var after := Reported(r, job, result, base, now);
    Log(job.id, after.status, if after.status.Pending? then after.nextRetryAt - now else 0)
  }

  /** The outcome of one send. Delivered rows are sent; a retryable failure that leaves an
      attempt is retried after base * 2^min(attempts, 6); every other failure is final, with
      the attempts used up. The log entry says the same. */
  lemma ReportedIs(r: Row, job: Job, result: Result, base: nat, now: int)
    ensures
      var after, log := Reported(r, job, result, base, now), LogOf(r, job, result, base, now);
      var delay := base * Pow2(if job.attempts < 6 then job.attempts else 6);
      && after.maxAttempts == r.maxAttempts
      && log == Log(job.id, after.status, if after.status.Pending? then delay else 0)
      && (if result.Delivered? then after == r.(status := Sent)
          else if result.Retryable? && job.attempts + 1 < job.maxAttempts then
            after.status.Pending? && after.attempts == job.attempts + 1 && after.nextRetryAt == now + delay
          else after.status.Failed? && after.attempts == (if job.maxAttempts > 0 then job.maxAttempts else 0) && after.nextRetryAt == now)
  {
    assert Backoff(base, job.attempts + 1) == base * Pow2(if job.attempts < 6 then job.attempts else 6);
  }

  class Table {
    var rows: seq<Row>
    var logs: seq<Log>

    constructor ()
      ensures rows == [] && logs == []
    {
      rows, logs := [], [];
    }

    method ClaimBatch(batch: nat, now: int) returns (jobs: seq<Job>)
      modifies this`rows
      ensures rows == Leased(old(rows), Chosen(old(rows), now, batch, |old(rows)|), now + LEASE)
      ensures |jobs| == |Chosen(old(rows), now, batch, |old(rows)|)|
      ensures forall k :: 0 <= k < |jobs| ==>
                jobs[k].id == Chosen(old(rows), now, batch, |old(rows)|)[k]
                && jobs[k].id < |old(rows)|
                && jobs[k] == JobFor(old(rows), jobs[k].id, now + LEASE)
    {
      jobs := [];
      for i := 0 to |rows|
        invariant |rows| == |old(rows)|
        invariant |jobs| == |Chosen(old(rows), now, batch, i)|
        invariant forall k :: 0 <= k < |jobs| ==>
                    jobs[k].id == Chosen(old(rows), now, batch, i)[k]
                    && jobs[k].id < i
                    && jobs[k] == JobFor(old(rows), jobs[k].id, now + LEASE)
        invariant forall j :: 0 <= j < i ==>
                    rows[j] == if j in Chosen(old(rows), now, batch, i) then old(rows)[j].(nextRetryAt := now + LEASE) else old(rows)[j]
        invariant forall j :: i <= j < |rows| ==> rows[j] == old(rows)[j]
      {
        ghost var chosen := Chosen(old(rows), now, batch, i);
        if |jobs| < batch && Due(rows[i], now) {
          jobs := jobs + [JobFor(rows, i, now + LEASE)];
          rows := rows[i := rows[i].(nextRetryAt := now + LEASE)];
        }
        ChosenAreDue(old(rows), now, batch, i);
        assert i !in chosen;
      }
      ChosenAreDue(old(rows), now, batch, |old(rows)|);
      assert rows == Leased(old(rows), Chosen(old(rows), now, batch, |old(rows)|), now + LEASE);
    }

    method MarkSent(id: nat)
      requires id < |rows|
      modifies this
      ensures rows == old(rows)[id := old(rows)[id].(status := Sent)]
      ensures logs == old(logs) + [Log(id, Sent, 0)]
    {
      rows := rows[id := rows[id].(status := Sent)];
      logs := logs + [Log(id, Sent, 0)];
    }

    method MarkFailed(id: nat, attempts: nat, maxAttempts: int, next: int, now: int)
      requires id < |rows|
      modifies this
      ensures rows == old(rows)[id := FailedRow(old(rows)[id], attempts, maxAttempts, next)]
      ensures logs == old(logs) + [Log(id, rows[id].status, if attempts >= maxAttempts then 0 else next - now)]
    {
      var status := Pending;
      if attempts >= maxAttempts {
        status := Failed;
      }
      rows := rows[id := rows[id].(attempts := attempts, nextRetryAt := next, status := status)];
      logs := logs + [Log(id, status, if status.Pending? then next - now else 0)];
    }

    method SendOne(job: Job, result: Result, base: nat, now: int)
      requires job.id < |rows|
      modifies this
      ensures rows == old(rows)[job.id := Reported(old(rows)[job.id], job, result, base, now)]
      ensures logs == old(logs) + [LogOf(old(rows)[job.id], job, result, base, now)]
    {
      if result.Delivered? {
        MarkSent(job.id);
        return;
      }
      var attempt := job.attempts + 1;
      if attempt < job.maxAttempts && result.Retryable? {
        var next := now + Backoff(base, attempt);
        MarkFailed(job.id, attempt, job.maxAttempts, next, now);
        return;
      }
      var last: nat := if job.maxAttempts > 0 then job.maxAttempts else 0;
      MarkFailed(job.id, last, job.maxAttempts, now, now);
    }
  }

  // ---- the schedule ----------------------------------------------------------------------

  /** The delays scheduled by the first k retryable failures of a row. */
  function TotalDelay(base: nat, k: nat): nat {
    if k == 0 then 0 else TotalDelay(base, k - 1) + Backoff(base, k)
  }

  /** The same sum in units of the base delay. */
  function DelayUnits(k: nat): nat {
    if k == 0 then 0 else DelayUnits(k - 1) + Pow2(Min(k - 1, 6))
  }

  lemma {:induction false} DelayIsUnits(base: nat, k: nat)
    ensures TotalDelay(base, k) == base * DelayUnits(k)
  {
    if k > 0 {
      DelayIsUnits(base, k - 1);
      Distribute(base, DelayUnits(k - 1), Pow2(Min(k - 1, 6)));
    }
  }

  lemma Distribute(b: nat, x: nat, y: nat)
    ensures b * (x + y) == b * x + b * y
  {
  }

  lemma {:induction false} UnitsAre(k: nat)
    ensures k <= 7 ==> DelayUnits(k) == Pow2(k) - 1
    ensures k >= 7 ==> DelayUnits(k) == 127 + 64 * (k - 7)
  {
    assert Pow2(6) == 64 && Pow2(7) == 128;
    if k > 0 {
      UnitsAre(k - 1);
    }
  }

  /** Doubling up to the seventh failure, 64 base delays each from then on. */
  lemma TotalDelayIs(base: nat, k: nat)
    ensures TotalDelay(base, k) == base * (if k <= 7 then Pow2(k) - 1 else 127 + 64 * (k - 7))
  {
    DelayIsUnits(base, k);
    UnitsAre(k);
  }
}
