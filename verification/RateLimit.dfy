/** The fixed-window rate limiter, its janitor, and the middleware that consults it. */
module RateLimit {
  import opened Prelude

  /** Times and durations are in nanoseconds, as in Go. */
  const SECOND: int := 1_000_000_000

  datatype Bucket = Bucket(windowStart: int, window: int, count: nat)

  type Buckets = map<string, Bucket>

  function Positive(d: int): int { if d <= 0 then SECOND else d }

  predicate Elapsed(b: Bucket, now: int) { now >= b.windowStart + b.window }

  datatype Answer = Answer(allowed: bool, retry: int)

  /** What Allow answers for a key, given its bucket. */
  function Verdict(b: Option<Bucket>, limit: int, window: int, now: int): Answer {
    if limit <= 0 then Answer(false, Positive(window))
    else if b.None? || Elapsed(b.value, now) || b.value.count < limit then Answer(true, 0)
    else Answer(false, Positive(b.value.windowStart + b.value.window - now))
  }

  /** The key's bucket afterwards. */
  function After(b: Option<Bucket>, limit: int, window: int, now: int): Option<Bucket> {
    if limit <= 0 then b
    else if b.None? || Elapsed(b.value, now) then Some(Bucket(now, window, 1))
    else if b.value.count < limit then Some(b.value.(count := b.value.count + 1))
    else b
  }

  function Lookup(m: Buckets, key: string): Option<Bucket> {
    if key in m then Some(m[key]) else None
  }

  function Allowed(m: Buckets, key: string, limit: int, window: int, now: int): Buckets {
    var b := After(Lookup(m, key), limit, window, now);
    if b.Some? then m[key := b.value] else m
  }

  function Pruned(m: Buckets, now: int): Buckets {
    map k | k in m && !Elapsed(m[k], now) :: m[k]
  }

  /** One call: admitted when the key has no bucket, its window is over, or its window has room,
      and never by a limit that is not positive. An admitted call is counted in a new window of
      its own length or in the running one; a denied one changes nothing and is told when the
      window ends, or the window's length, or a second. */
  lemma CallIs(m: Buckets, key: string, limit: int, window: int, now: int)
    ensures
      var over := key !in m || m[key].windowStart + m[key].window <= now;
      var answer, after := Verdict(Lookup(m, key), limit, window, now), Allowed(m, key, limit, window, now);
      && (answer.allowed <==> limit > 0 && (over || m[key].count < limit))
      && (if answer.allowed then
            && answer.retry == 0
            && after == m[key := if over then Bucket(now, window, 1) else m[key].(count := m[key].count + 1)]
          else
            && answer.retry > 0
            && answer.retry == (if limit > 0 then m[key].windowStart + m[key].window - now
                                else if window > 0 then window else 1_000_000_000)
            && after == m)
  {
    assert key in m ==> m[key := m[key]] == m;
  }

  class Limiter {
    var buckets: Buckets

    constructor ()
      ensures buckets == map[]
    {
      buckets := map[];
    }

    method Allow(key: string, limit: int, window: int, now: int) returns (allowed: bool, retry: int)
      modifies this
      ensures Answer(allowed, retry) == Verdict(Lookup(old(buckets), key), limit, window, now)
      ensures buckets == Allowed(old(buckets), key, limit, window, now)
    {
      if limit <= 0 {
        return false, Positive(window);
      }
      if key !in buckets {
        buckets := buckets[key := Bucket(now, window, 1)];
        return true, 0;
      }
      var b := buckets[key];
      if now >= b.windowStart + b.window {
        buckets := buckets[key := Bucket(now, window, 1)];
        return true, 0;
      }
      if b.count < limit {
        buckets := buckets[key := b.(count := b.count + 1)];
        return true, 0;
      }
      return false, Positive(b.windowStart + b.window - now);
    }

    /** The janitor's sweep visits the keys in any order. */
    method Prune(now: int)
      modifies this
      ensures buckets == Pruned(old(buckets), now)
    {
      var todo := buckets.Keys;
      while todo != {}
        invariant todo <= buckets.Keys <= old(buckets).Keys
        invariant forall k :: k in buckets ==> buckets[k] == old(buckets)[k]
        invariant forall k :: k in buckets && k !in todo ==> !Elapsed(buckets[k], now)
        invariant forall k :: k in old(buckets) && k !in buckets ==> Elapsed(old(buckets)[k], now)
        decreases |todo|
      {
        var k :| k in todo;
        todo := todo - {k};
        if Elapsed(buckets[k], now) {
          buckets := buckets - {k};
        }
      }
      assert buckets == Pruned(old(buckets), now);
    }
  }

  // ---- runs -------------------------------------------------------------------------------

  datatype Event =
    | Call(key: string, limit: int, window: int, at: int)
    | Sweep(at: int)

  function Step(m: Buckets, e: Event): Buckets {
    match e
    case Call(key, limit, window, at) => Allowed(m, key, limit, window, at)
    case Sweep(at) => Pruned(m, at)
  }

  ghost predicate InOrder(events: seq<Event>, from: int) {
    forall i, j :: 0 <= i <= j < |events| ==> from <= events[i].at <= events[j].at
  }

  predicate Grants(m: Buckets, e: Event, key: string) {
    e.Call? && e.key == key && Verdict(Lookup(m, key), e.limit, e.window, e.at).allowed
  }

  /** Allowed calls on a key stamped from `from` up to but not including `to`. */
  function Granted(m: Buckets, events: seq<Event>, key: string, from: int, to: int): nat
    decreases |events|
  {
    if events == [] then 0
    else
      var e := events[0];
      (if Grants(m, e, key) && from <= e.at < to then 1 else 0) + Granted(Step(m, e), events[1..], key, from, to)
  }

  // ---- the sliding-interval bound ---------------------------------------------------------

  /** Every call on the key uses a limit of at most L and a window of at least W. */
  ghost predicate Uses(events: seq<Event>, key: string, L: nat, W: int) {
    forall i :: 0 <= i < |events| && events[i].Call? && events[i].key == key
      ==> events[i].limit <= L && events[i].window >= W
  }

  /** An upper bound on the grants still to come in [s, s+W) from time t on. */
  function Room(b: Option<Bucket>, t: int, s: int, L: nat, W: int): int {
    if t >= s + W then 0
    else if b.None? then (if t >= s then L else 2 * L - 1)
    else
      var left := if b.value.count < L then L - b.value.count else 0;
      if b.value.windowStart >= s then left
      else if b.value.windowStart + b.value.window > s then left + L
      else if t >= s then L
      else 2 * L - 1
  }

  lemma RoomCall(b: Option<Bucket>, limit: int, window: int, at: int, t: int, s: int, L: nat, W: int)
    requires L >= 1 && W > 0 && limit <= L && window >= W && t <= at
    requires b.Some? ==> b.value.window >= W && b.value.count >= 1 && b.value.windowStart <= t
    ensures
      var grant := if Verdict(b, limit, window, at).allowed && s <= at < s + W then 1 else 0;
      grant + Room(After(b, limit, window, at), at, s, L, W) <= Room(b, t, s, L, W)
  {
  }

  lemma RoomIdle(b: Option<Bucket>, at: int, t: int, s: int, L: nat, W: int)
    requires L >= 1 && W > 0 && t <= at
    requires b.Some? ==> b.value.window >= W && b.value.count >= 1 && b.value.windowStart <= t
    ensures Room(b, at, s, L, W) <= Room(b, t, s, L, W)
    ensures b.Some? && Elapsed(b.value, at) ==> Room(None, at, s, L, W) <= Room(b, t, s, L, W)
  {
  }

  /** The key's bucket, if it has one, was opened by a call on it no later than t. */
  predicate Opened(m: Buckets, key: string, t: int, W: int) {
    key in m ==> m[key].window >= W && m[key].count >= 1 && m[key].windowStart <= t
  }

  lemma {:induction false} RoomHolds(m: Buckets, events: seq<Event>, key: string, t: int, s: int, L: nat, W: int)
    requires L >= 1 && W > 0 && Uses(events, key, L, W) && InOrder(events, t) && Opened(m, key, t, W)
    ensures Granted(m, events, key, s, s + W) <= Room(Lookup(m, key), t, s, L, W)
    decreases |events|
  {
    if events == [] {
      RoomIdle(Lookup(m, key), t, t, s, L, W);
    } else {
      var e, rest := events[0], events[1..];
      assert Uses(rest, key, L, W) && InOrder(rest, e.at);
      RoomHolds(Step(m, e), rest, key, e.at, s, L, W);
      if e.Call? && e.key == key {
        RoomCall(Lookup(m, key), e.limit, e.window, e.at, t, s, L, W);
      } else {
        RoomIdle(Lookup(m, key), e.at, t, s, L, W);
      }
    }
  }

  /** Rate bound: with times in order, limits at most L and windows at least W on a key,
      sweeps and calls on other keys anywhere in between, no interval of length W sees more
      than 2L - 1 allowed calls on it. */
  lemma RateBound(events: seq<Event>, key: string, t: int, s: int, L: nat, W: int)
    requires L >= 1 && W > 0 && Uses(events, key, L, W) && InOrder(events, t)
    ensures Granted(map[], events, key, s, s + W) <= 2 * L - 1
  {
    RoomHolds(map[], events, key, t, s, L, W);
  }

  // ---- no call is denied without cause ------------------------------------------------------

  lemma {:induction false} GrantedWiden(m: Buckets, events: seq<Event>, key: string, s: int, from: int, to: int)
    requires from <= s
    ensures Granted(m, events, key, s, to) <= Granted(m, events, key, from, to)
    decreases |events|
  {
    if events != [] {
      GrantedWiden(Step(m, events[0]), events[1..], key, s, from, to);
    }
  }

  /** What a bucket counted before the run, if the run's last window was open by then. */
  function Carried(b: Option<Bucket>, windowStart: int): int {
    if b.Some? && b.value.windowStart == windowStart then b.value.count else 0
  }

  predicate Narrow(m: Buckets, key: string, t: int, W: int) {
    key in m ==> m[key].window <= W && m[key].windowStart <= t && m[key].count >= 0
  }

  /** A bucket counts no more calls than were allowed since its window opened. */
  lemma {:induction false} CountsAreGrants(m: Buckets, events: seq<Event>, key: string, t: int, W: int, to: int)
    requires InOrder(events, t) && Narrow(m, key, t, W)
    requires forall i :: 0 <= i < |events| ==> events[i].at < to
    requires forall i :: 0 <= i < |events| && events[i].Call? && events[i].key == key ==> events[i].window <= W
    ensures key in Run(m, events) ==>
              && Run(m, events)[key].window <= W
              && Run(m, events)[key].count
                 <= Granted(m, events, key, Run(m, events)[key].windowStart, to)
                    + Carried(Lookup(m, key), Run(m, events)[key].windowStart)
    decreases |events|
  {
    if events != [] {
      assert forall i :: 0 <= i < |events| - 1 ==> events[1..][i] == events[i + 1];
      CountsAreGrants(Step(m, events[0]), events[1..], key, events[0].at, W, to);
    }
  }

  /** A caller is denied by a positive limit only after that many calls on its key were allowed
      within the last window. */
  lemma DenialMeansFull(events: seq<Event>, key: string, limit: int, window: int, t: int, now: int, W: int)
    requires InOrder(events, t) && forall i :: 0 <= i < |events| ==> events[i].at <= now
    requires forall i :: 0 <= i < |events| && events[i].Call? && events[i].key == key ==> events[i].window <= W
    requires limit > 0 && !Verdict(Lookup(Run(map[], events), key), limit, window, now).allowed
    ensures Granted(map[], events, key, now - W + 1, now + 1) >= limit
  {
    CountsAreGrants(map[], events, key, t, W, now + 1);
    var b := Run(map[], events)[key];
    GrantedWiden(map[], events, key, b.windowStart, now - W + 1, now + 1);
  }

  // ---- the bound is reached -----------------------------------------------------------------

  function Calls(n: nat, limit: int, window: int, at: int): seq<Event> {
    if n == 0 then [] else [Call("k", limit, window, at)] + Calls(n - 1, limit, window, at)
  }

  lemma {:induction false} GrantedSplit(m: Buckets, a: seq<Event>, b: seq<Event>, s: int, to: int)
    ensures Granted(m, a + b, "k", s, to) == Granted(m, a, "k", s, to) + Granted(Run(m, a), b, "k", s, to)
    decreases |a|
  {
    if a == [] {
      assert a + b == b;
    } else {
      assert (a + b)[1..] == a[1..] + b && (a + b)[0] == a[0];
      GrantedSplit(Step(m, a[0]), a[1..], b, s, to);
    }
  }

  function Run(m: Buckets, events: seq<Event>): Buckets
    decreases |events|
  {
    if events == [] then m else Run(Step(m, events[0]), events[1..])
  }

  lemma {:induction false} CallsFill(m: Buckets, n: nat, L: nat, W: int, at: int, s: int, to: int)
    requires "k" in m && !Elapsed(m["k"], at) && m["k"].count + n <= L && s <= at < to
    ensures Granted(m, Calls(n, L, W, at), "k", s, to) == n
    ensures Run(m, Calls(n, L, W, at)) == m["k" := m["k"].(count := m["k"].count + n)]
    decreases n
  {
    if n > 0 {
      var e, rest := Call("k", L, W, at), Calls(n - 1, L, W, at);
      assert Calls(n, L, W, at)[0] == e && Calls(n, L, W, at)[1..] == rest;
      var next := Step(m, e);
      CallsFill(next, n - 1, L, W, at, s, to);
    } else {
      assert m["k" := m["k"].(count := m["k"].count + 0)] == m;
    }
  }

  /** One call opening a window, L - 1 filling it at its very end, L more opening the next. */
  function Burst(L: nat, W: int): seq<Event>
    requires L >= 1
  {
    Filling(L, W, 0, W - 1) + Filling(L, W, W, W)
  }

  function Filling(L: nat, W: int, at: int, end: int): seq<Event>
    requires L >= 1
  {
    [Call("k", L, W, at)] + Calls(L - 1, L, W, end)
  }

  lemma FullWindow(m: Buckets, L: nat, W: int, at: int, end: int, s: int, to: int)
    requires L >= 1 && at <= end < at + W && s <= end < to && ("k" in m ==> Elapsed(m["k"], at))
    ensures
      && Granted(m, Filling(L, W, at, end), "k", s, to) == (if s <= at then 1 else 0) + (L - 1)
      && Run(m, Filling(L, W, at, end)) == m["k" := Bucket(at, W, L)]
  {
    var open, fill := [Call("k", L, W, at)], Calls(L - 1, L, W, end);
    var begun := m["k" := Bucket(at, W, 1)];
    OneCall(m, L, W, at, s, to);
    CallsFill(begun, L - 1, L, W, end, s, to);
    GrantedSplit(m, open, fill, s, to);
    RunSplit(m, open, fill);
    assert begun["k" := Bucket(at, W, 1 + (L - 1))] == m["k" := Bucket(at, W, L)];
  }

  lemma {:induction false} RunSplit(m: Buckets, a: seq<Event>, b: seq<Event>)
    ensures Run(m, a + b) == Run(Run(m, a), b)
    decreases |a|
  {
    if a == [] {
      assert a + b == b;
    } else {
      assert (a + b)[1..] == a[1..] + b && (a + b)[0] == a[0];
      RunSplit(Step(m, a[0]), a[1..], b);
    }
  }

  /** For every limit and every window of two ticks or more some run reaches 2L - 1. */
  lemma RateBoundIsReached(L: nat, W: int)
    requires L >= 1 && W >= 2
    ensures Granted(map[], Burst(L, W), "k", W - 1, W - 1 + W) == 2 * L - 1
  {
    BurstFills(map[], L, W);
  }

  lemma BurstFills(m: Buckets, L: nat, W: int)
    requires L >= 1 && W >= 2 && "k" !in m
    ensures Granted(m, Burst(L, W), "k", W - 1, W - 1 + W) == 2 * L - 1
  {
    var first, second := Filling(L, W, 0, W - 1), Filling(L, W, W, W);
    FullWindow(m, L, W, 0, W - 1, W - 1, W - 1 + W);
    FullWindow(m["k" := Bucket(0, W, L)], L, W, W, W, W - 1, W - 1 + W);
    GrantedSplit(m, first, second, W - 1, W - 1 + W);
  }

  lemma OneCall(m: Buckets, L: nat, W: int, at: int, s: int, to: int)
    requires L >= 1 && ("k" in m ==> Elapsed(m["k"], at))
    ensures
      var one := [Call("k", L, W, at)];
      && Granted(m, one, "k", s, to) == (if s <= at < to then 1 else 0)
      && Run(m, one) == m["k" := Bucket(at, W, 1)]
  {
    var e := Call("k", L, W, at);
    assert [e][1..] == [];
    assert Granted(Step(m, e), [e][1..], "k", s, to) == 0;
  }

  // ---- the janitor is invisible ----------------------------------------------------------

  /** What every call of a run is answered. */
  function Answers(m: Buckets, events: seq<Event>): seq<Answer>
    decreases |events|
  {
    if events == [] then []
    else
      var e := events[0];
      (if e.Call? then [Verdict(Lookup(m, e.key), e.limit, e.window, e.at)] else [])
      + Answers(Step(m, e), events[1..])
  }

  function CallsOnly(events: seq<Event>): seq<Event> {
    if events == [] then []
    else (if events[0].Call? then [events[0]] else []) + CallsOnly(events[1..])
  }

  /** swept is m with some buckets dropped that are spent by time t. */
  ghost predicate SweptTo(m: Buckets, swept: Buckets, t: int) {
    && (forall k :: k in swept ==> k in m && m[k] == swept[k])
    && (forall k :: k in m && k !in swept ==> Elapsed(m[k], t))
  }

  lemma SweptStep(m: Buckets, swept: Buckets, e: Event, t: int)
    requires SweptTo(m, swept, t) && t <= e.at
    ensures e.Call? ==>
              && Verdict(Lookup(m, e.key), e.limit, e.window, e.at) == Verdict(Lookup(swept, e.key), e.limit, e.window, e.at)
              && SweptTo(Step(m, e), Step(swept, e), e.at)
    ensures e.Sweep? ==> SweptTo(m, Step(swept, e), e.at)
  {
  }

  lemma {:induction false} SweepsDoNotShow(m: Buckets, swept: Buckets, events: seq<Event>, t: int)
    requires SweptTo(m, swept, t) && InOrder(events, t)
    ensures Answers(m, CallsOnly(events)) == Answers(swept, events)
    decreases |events|
  {
    if events != [] {
      var e, rest := events[0], events[1..];
      assert InOrder(rest, e.at);
      SweptStep(m, swept, e, t);
      if e.Call? {
        assert CallsOnly(events)[1..] == CallsOnly(rest);
        SweepsDoNotShow(Step(m, e), Step(swept, e), rest, e.at);
      } else {
        assert CallsOnly(events) == CallsOnly(rest);
        SweepsDoNotShow(m, Step(swept, e), rest, e.at);
      }
    }
  }

  /** Whenever the janitor runs, callers get the answers and waits they would get from a
      limiter that never forgets. */
  lemma JanitorIsInvisible(events: seq<Event>, t: int)
    requires InOrder(events, t)
    ensures Answers(map[], events) == Answers(map[], CallsOnly(events))
  {
    SweepsDoNotShow(map[], map[], events, t);
  }

  /** Calls read the clock before they wait for the lock, so a sweep may run between. A call
      dated `now` that a sweep dated s came before is answered otherwise if and only if its
      bucket is full, over at s and not over at now. */
  lemma LateSweepIff(m: Buckets, key: string, limit: int, window: int, s: int, now: int)
    ensures Verdict(Lookup(Pruned(m, s), key), limit, window, now) != Verdict(Lookup(m, key), limit, window, now)
            <==> limit > 0 && key in m && m[key].count >= limit && Elapsed(m[key], s) && !Elapsed(m[key], now)
  {
  }

  /** Times out of order break it: a sweep dated later than the calls after it frees a full
      bucket early. */
  lemma LateSweepShows()
    ensures
      var events := [Call("k", 1, 10, 0), Sweep(10), Call("k", 1, 10, 5)];
      Answers(map[], events) != Answers(map[], CallsOnly(events))
  {
    var a, b, c := Call("k", 1, 10, 0), Sweep(10), Call("k", 1, 10, 5);
    var events := [a, b, c];
    var m := map["k" := Bucket(0, 10, 1)];
    assert events[1..] == [b, c] && events[1..][1..] == [c] && [c][1..] == [] && [a, c][1..] == [c];
    assert CallsOnly([c]) == [c] + CallsOnly([c][1..]);
    assert CallsOnly([b, c]) == [] + CallsOnly([b, c][1..]) && [b, c][1..] == [c];
    assert CallsOnly(events) == [a, c];
    assert Step(map[], a) == m && Step(m, b) == map[];
    assert Answers(map[], [c]) == [Answer(true, 0)] + Answers(Step(map[], c), [c][1..]);
    assert Answers(m, [c]) == [Answer(false, 5)] + Answers(Step(m, c), [c][1..]);
    assert Answers(map[], events) == [Answer(true, 0)] + Answers(m, [b, c]);
    assert Answers(m, [b, c]) == [] + Answers(map[], [c]);
    assert Answers(map[], [a, c]) == [Answer(true, 0)] + Answers(m, [c]);
    assert Answers(map[], events)[1] == Answer(true, 0);
    assert Answers(map[], [a, c])[1] == Answer(false, 5);
  }

  // ---- Retry-After ----------------------------------------------------------------------------

  /** The header value: the wait rounded up to whole seconds, at least one. */
  function RetryAfter(wait: int): int {
    var up := (wait + SECOND - 1) / SECOND;
    if up < 1 then 1 else up
  }

  /** For a caller denied by a positive limit who does nothing else, the advertised value is
      the least whole number of seconds after which the call is allowed. */
  lemma RetryAfterIsExact(m: Buckets, key: string, limit: int, window: int, now: int, n: nat)
    requires limit > 0 && !Verdict(Lookup(m, key), limit, window, now).allowed
    ensures Allowed(m, key, limit, window, now) == m
    ensures Verdict(Lookup(m, key), limit, window, now + n * SECOND).allowed
            <==> n >= RetryAfter(Verdict(Lookup(m, key), limit, window, now).retry)
  {
    assert m[key := m[key]] == m;
    var wait := Verdict(Lookup(m, key), limit, window, now).retry;
    assert wait == m[key].windowStart + m[key].window - now > 0;
    CeilDivide(wait, n);
  }

  lemma CeilDivide(wait: int, n: int)
    requires wait > 0
    ensures n * SECOND >= wait <==> n >= RetryAfter(wait)
  {
    var up := (wait + SECOND - 1) / SECOND;
    assert up * SECOND <= wait + SECOND - 1 < up * SECOND + SECOND;
    if n >= up {
      assert n * SECOND >= up * SECOND;
    } else {
      assert n * SECOND <= up * SECOND - SECOND;
    }
  }

  // ---- the middleware ---------------------------------------------------------------------

  /** One dimension of a route; the key extractor may not apply to a request. */
  datatype Check = Check(limit: int, window: int, key: Option<string>)

  /** The limiter after the first n checks of one request: every check is counted, even
      after another has denied. */
  function Checked(m: Buckets, checks: seq<Check>, now: int, n: nat): Buckets
    requires n <= |checks|
  {
    if n == 0 then m
    else
      var c, before := checks[n - 1], Checked(m, checks, now, n - 1);
      if c.key.None? then before else Allowed(before, c.key.value, c.limit, c.window, now)
  }

  /** Whether check k denies the request. */
  predicate Denies(m: Buckets, checks: seq<Check>, now: int, k: nat)
    requires k < |checks|
  {
    var c := checks[k];
    c.key.Some? && !Verdict(Lookup(Checked(m, checks, now, k), c.key.value), c.limit, c.window, now).allowed
  }

  function WaitOf(m: Buckets, checks: seq<Check>, now: int, k: nat): int
    requires k < |checks| && checks[k].key.Some?
  {
    var c := checks[k];
    Verdict(Lookup(Checked(m, checks, now, k), c.key.value), c.limit, c.window, now).retry
  }

  /** RateLimit: denied if any check denies, with the longest wait of those that do. */
  method Guard(l: Limiter, checks: seq<Check>, now: int) returns (denied: bool, retry: int)
    modifies l
    ensures l.buckets == Checked(old(l.buckets), checks, now, |checks|)
    ensures denied <==> exists k :: 0 <= k < |checks| && Denies(old(l.buckets), checks, now, k)
    ensures forall k :: 0 <= k < |checks| && Denies(old(l.buckets), checks, now, k)
              ==> WaitOf(old(l.buckets), checks, now, k) <= retry
    ensures denied ==> exists k :: 0 <= k < |checks| && Denies(old(l.buckets), checks, now, k)
                         && retry == WaitOf(old(l.buckets), checks, now, k)
  {
    denied, retry := false, 0;
    for i := 0 to |checks|
      invariant l.buckets == Checked(old(l.buckets), checks, now, i)
      invariant denied <==> exists k :: 0 <= k < i && Denies(old(l.buckets), checks, now, k)
      invariant forall k :: 0 <= k < i && Denies(old(l.buckets), checks, now, k)
                  ==> WaitOf(old(l.buckets), checks, now, k) <= retry
      invariant !denied ==> retry == 0
      invariant denied ==> exists k :: 0 <= k < i && Denies(old(l.buckets), checks, now, k)
                             && retry == WaitOf(old(l.buckets), checks, now, k)
    {
      var c := checks[i];
      if c.key.Some? {
        var allowed, after := l.Allow(c.key.value, c.limit, c.window, now);
        assert allowed <==> !Denies(old(l.buckets), checks, now, i);
        if !allowed {
          denied := true;
          assert after == WaitOf(old(l.buckets), checks, now, i) > 0;
          if after > retry {
            retry := after;
          }
        }
      }
    }
  }

  /** No two checks of the request count on one key; a check may not apply at all. */
  ghost predicate DistinctKeys(checks: seq<Check>) {
    forall j, k :: 0 <= j < k < |checks| && checks[j].key.Some? ==> checks[j].key != checks[k].key
  }

  /** With distinct keys each check sees the bucket the request found. */
  lemma {:induction false} CheckedAt(m: Buckets, checks: seq<Check>, now: int, n: nat, k: nat)
    requires DistinctKeys(checks) && n <= |checks| && k < |checks| && checks[k].key.Some?
    ensures
      var c := checks[k];
      Lookup(Checked(m, checks, now, n), c.key.value)
      == if k < n then After(Lookup(m, c.key.value), c.limit, c.window, now) else Lookup(m, c.key.value)
  {
    if n > 0 {
      CheckedAt(m, checks, now, n - 1, k);
      if k < n - 1 {
        assert checks[k].key != checks[n - 1].key;
      } else if k > n - 1 {
        assert checks[n - 1].key != checks[k].key;
      }
    }
  }

  /** The first request that follows a denied one, with nothing in between. */
  ghost predicate Passes(m: Buckets, checks: seq<Check>, now: int) {
    forall k :: 0 <= k < |checks| ==> !Denies(m, checks, now, k)
  }

  /** A check that will not hold a retry up: it does not apply to the request, or its limit is
      positive and, if it admitted the request, it still has room or its window ends in time. */
  predicate ClearBy(m: Buckets, checks: seq<Check>, now: int, later: int, k: nat)
    requires k < |checks|
  {
    var c := checks[k];
    c.key.Some? ==>
      && c.limit > 0
      && (!Denies(m, checks, now, k) ==>
            var b := After(Lookup(m, c.key.value), c.limit, c.window, now);
            b.Some? && (Elapsed(b.value, later) || b.value.count < c.limit))
  }

  lemma RetryCheck(m: Buckets, checks: seq<Check>, now: int, wait: int, k: nat)
    requires DistinctKeys(checks) && k < |checks|
    requires Denies(m, checks, now, k) ==> WaitOf(m, checks, now, k) <= wait
    ensures
      var later, after := now + RetryAfter(wait) * SECOND, Checked(m, checks, now, |checks|);
      !Denies(after, checks, later, k) <==> ClearBy(m, checks, now, later, k)
  {
    var c, later, after := checks[k], now + RetryAfter(wait) * SECOND, Checked(m, checks, now, |checks|);
    if c.key.None? {
      return;
    }
    CheckedAt(m, checks, now, k, k);
    CheckedAt(m, checks, now, |checks|, k);
    CheckedAt(after, checks, later, k, k);
    if c.limit > 0 && Denies(m, checks, now, k) {
      var own := WaitOf(m, checks, now, k);
      RetryAfterMonotone(own, wait);
      CeilDivide(own, RetryAfter(wait));
    }
  }

  /** Retrying after the advertised time passes exactly when every check is clear by then: a
      check that admitted its last call with the denied request still denies. */
  lemma RetryPassesIff(m: Buckets, checks: seq<Check>, now: int, wait: int)
    requires DistinctKeys(checks)
    requires forall k :: 0 <= k < |checks| && Denies(m, checks, now, k) ==> WaitOf(m, checks, now, k) <= wait
    ensures
      var later, after := now + RetryAfter(wait) * SECOND, Checked(m, checks, now, |checks|);
      Passes(after, checks, later) <==> forall k :: 0 <= k < |checks| ==> ClearBy(m, checks, now, later, k)
  {
    var later, after := now + RetryAfter(wait) * SECOND, Checked(m, checks, now, |checks|);
    forall k | 0 <= k < |checks|
      ensures !Denies(after, checks, later, k) <==> ClearBy(m, checks, now, later, k)
    {
      RetryCheck(m, checks, now, wait, k);
    }
  }

  /** One check alone: the retry passes whenever its limit is positive. */
  lemma SingleCheckRetryPasses(m: Buckets, c: Check, now: int)
    requires c.key.Some? && c.limit > 0 && Denies(m, [c], now, 0)
    ensures Passes(Checked(m, [c], now, 1), [c], now + RetryAfter(WaitOf(m, [c], now, 0)) * SECOND)
  {
    RetryPassesIff(m, [c], now, WaitOf(m, [c], now, 0));
  }

  /** With an IP and an account check under one rule the advertised wait can be too short: here
      the IP check admits its last call together with the denied request. */
  lemma TwoChecksCanStillDeny()
    ensures
      var checks := [Check(1, 10 * SECOND, Some("ip:a")), Check(1, 10 * SECOND, Some("email:b"))];
      var m := map["email:b" := Bucket(0, 10 * SECOND, 1)];
      && Denies(m, checks, SECOND, 1) && !Denies(m, checks, SECOND, 0)
      && !Passes(Checked(m, checks, SECOND, 2), checks, SECOND + RetryAfter(WaitOf(m, checks, SECOND, 1)) * SECOND)
  {
    var ip, account := Check(1, 10 * SECOND, Some("ip:a")), Check(1, 10 * SECOND, Some("email:b"));
    var checks := [ip, account];
    var m := map["email:b" := Bucket(0, 10 * SECOND, 1)];
    assert "ip:a"[0] != "email:b"[0];
    assert checks[0].key != checks[1].key;
    CheckedAt(m, checks, SECOND, 1, 1);
    var wait := WaitOf(m, checks, SECOND, 1);
    assert wait == 9 * SECOND;
    RetryCheck(m, checks, SECOND, wait, 0);
  }

  lemma RetryAfterMonotone(a: int, b: int)
    requires a <= b
    ensures RetryAfter(a) <= RetryAfter(b)
  {
  }
}
