/** The admin console's single-flight refresh, in front of the rotating backend. */
module SingleFlight {
  import opened Prelude
  import Sessions

  datatype Pair = Pair(access: string, refresh: string)

  /** One call to the backend's refresh endpoint: awaiting its response, holding it, and the
      promise resolved. `pair` is None when the call failed or its response lacked a token. */
  datatype Flight =
    | Calling(key: string)
    | Answered(key: string, pair: Option<Pair>)
    | Settled(key: string, pair: Option<Pair>)

  datatype Phase = Trying | Waiting(flight: nat) | Retrying | Done

  /** One withRetry call: the cookie pair it read, where it is, the attempts it has made, the
      status the first one failed with, and the pair it was handed for its second. */
  datatype Request = Request(pair: Pair, phase: Phase, attempts: nat, first: int, got: Option<Pair>)

  /** The module-level state of the console. */
  class Console {
    var inFlight: map<string, nat>
    var flights: seq<Flight>

    constructor ()
      ensures inFlight == map[] && flights == []
    {
      inFlight, flights := map[], [];
    }

    /** refreshPair up to its await: the flight the caller waits for. */
    method RefreshPair(key: string) returns (flight: nat)
      modifies this
      ensures (inFlight, flights, flight) == Joined(old(inFlight), old(flights), key)
    {
      if key in inFlight {
        return inFlight[key];
      }
      flights := flights + [Calling(key)];
      flight := |flights| - 1;
      inFlight := inFlight[key := flight];
    }

    /** The flight's promise resolves or rejects; `finally` drops its key. */
    method Settle(flight: nat)
      requires flight < |flights| && flights[flight].Answered?
      modifies this
      ensures inFlight == old(inFlight) - {old(flights)[flight].key}
      ensures flights == old(flights)[flight := Settled(old(flights)[flight].key, old(flights)[flight].pair)]
    {
      inFlight := inFlight - {flights[flight].key};
      flights := flights[flight := Settled(flights[flight].key, flights[flight].pair)];
    }
  }

  function Joined(inFlight: map<string, nat>, flights: seq<Flight>, key: string): (map<string, nat>, seq<Flight>, nat) {
    if key in inFlight then (inFlight, flights, inFlight[key])
    else (inFlight[key := |flights|], flights + [Calling(key)], |flights|)
  }

  datatype World = World(backend: Sessions.World, inFlight: map<string, nat>, flights: seq<Flight>, requests: seq<Request>)

  const EMPTY := World(Sessions.EMPTY, map[], [], [])

  datatype Event =
    /** A request reads its cookies and makes its first attempt. */
    | Arrive(pair: Pair)
    /** The current attempt of a request comes back: `failure` is None on success, the status of
        a BackendError, or 0 for any other error. */
    | Respond(request: nat, failure: Option<int>)
    /** The backend serves a flight's call. The access token is what the response carries, and
        `delivered` is false when the response is lost. */
    | Serve(flight: nat, found: bool, newToken: string, access: string, delivered: bool, lifetime: int, now: int)
    | Settle(flight: nat)
    /** A request waiting for a settled flight goes on. */
    | Resume(request: nat)
    /** Anything else the backend does, for other clients or other console processes. */
    | Elsewhere(event: Sessions.Event)

  function Served(w: World, e: Event): Option<Pair>
    requires e.Serve? && e.flight < |w.flights|
  {
    if Sessions.Rotates(w.backend.rows, w.flights[e.flight].key, e.found, e.newToken, e.now)
       && e.delivered && e.access != "" && e.newToken != ""
    then Some(Pair(e.access, e.newToken)) else None
  }

  function Step(w: World, e: Event): World {
    match e
    case Arrive(pair) =>
      w.(requests := w.requests + [Request(pair, Trying, 1, 0, None)])
    case Respond(r, failure) =>
      if r >= |w.requests| then w
      else
        var request := w.requests[r];
        if request.phase.Retrying? then w.(requests := w.requests[r := request.(phase := Done)])
        else if !request.phase.Trying? then w
        else if failure != Some(401) || request.pair.refresh == "" then
          w.(requests := w.requests[r := request.(phase := Done, first := if failure.Some? then failure.value else 200)])
        else
          var (inFlight, flights, f) := Joined(w.inFlight, w.flights, request.pair.refresh);
          World(w.backend, inFlight, flights, w.requests[r := request.(phase := Waiting(f), first := 401)])
    case Serve(f, found, newToken, _, _, lifetime, now) =>
      if f >= |w.flights| || !w.flights[f].Calling? then w
      else
        var key := w.flights[f].key;
        w.(backend := Sessions.Step(w.backend, Sessions.RefreshWith(key, found, newToken, lifetime, now)),
           flights := w.flights[f := Answered(key, Served(w, e))])
    case Settle(f) =>
      if f >= |w.flights| || !w.flights[f].Answered? then w
      else
        w.(inFlight := w.inFlight - {w.flights[f].key},
           flights := w.flights[f := Settled(w.flights[f].key, w.flights[f].pair)])
    case Resume(r) =>
      if r >= |w.requests| || !w.requests[r].phase.Waiting? then w
      else
        var request := w.requests[r];
        var f := request.phase.flight;
        if f >= |w.flights| || !w.flights[f].Settled? then w
        else
          w.(requests := w.requests[r := if w.flights[f].pair.None? then request.(phase := Done)
                                         else request.(phase := Retrying, attempts := 2, got := w.flights[f].pair)])
    case Elsewhere(event) =>
      w.(backend := Sessions.Step(w.backend, event))
  }

  function Run(w: World, events: seq<Event>): World {
    if events == [] then w else Step(Run(w, events[..|events| - 1]), events[|events| - 1])
  }

  // ---- the invariant -------------------------------------------------------------------------

  /** The map holds exactly the unsettled flights. */
  ghost predicate Pending(inFlight: map<string, nat>, flights: seq<Flight>) {
    && (forall k :: k in inFlight ==>
          inFlight[k] < |flights| && flights[inFlight[k]].key == k && !flights[inFlight[k]].Settled?)
    && (forall f :: 0 <= f < |flights| && !flights[f].Settled? ==>
          flights[f].key in inFlight && inFlight[flights[f].key] == f)
  }

  /** Of one key only the newest flight can be unsettled. */
  ghost predicate Newest(flights: seq<Flight>) {
    forall f, g :: 0 <= f < g < |flights| && flights[f].key == flights[g].key ==> flights[f].Settled?
  }

  predicate Carries(f: Flight) { !f.Calling? && f.pair.Some? }

  /** A flight's pair is the one its key was rotated to, for the same user. */
  ghost predicate Rotated(b: Sessions.World, f: Flight)
    requires Carries(f)
  {
    var token := f.pair.value.refresh;
    && f.pair.value.access != "" && token != ""
    && (f.key, token) in b.rotations
    && f.key in b.rows && b.rows[f.key].revokedAt.Some?
    && token in b.rows && b.rows[token].user == b.rows[f.key].user
  }

  /** A flight that brought a pair back spent its key, and no other flight did. */
  ghost predicate SpentOnce(w: World) {
    && (forall f :: 0 <= f < |w.flights| && Carries(w.flights[f]) ==> Rotated(w.backend, w.flights[f]))
    && (forall f, g :: 0 <= f < g < |w.flights| && w.flights[f].key == w.flights[g].key ==>
          !Carries(w.flights[f]) || !Carries(w.flights[g]))
  }

  /** At most two attempts; the second one only after a 401 on a non-empty refresh token, with
      the pair some flight of that token brought. */
  ghost predicate RequestSound(w: World, q: Request) {
    && 1 <= q.attempts <= 2
    && (q.phase.Waiting? ==> q.phase.flight < |w.flights| && w.flights[q.phase.flight].key == q.pair.refresh)
    && (q.phase.Waiting? || q.attempts == 2 ==> q.first == 401 && q.pair.refresh != "")
    && (q.phase.Waiting? || q.phase.Trying? ==> q.attempts == 1)
    && (q.attempts == 2 <==> q.got.Some?)
    && (q.got.Some? ==> exists f :: 0 <= f < |w.flights| && Carries(w.flights[f]) && w.flights[f].Settled?
                                    && w.flights[f].key == q.pair.refresh && w.flights[f].pair == q.got)
  }

  ghost predicate Inv(w: World) {
    && Pending(w.inFlight, w.flights)
    && Newest(w.flights)
    && SpentOnce(w)
    && (forall r :: 0 <= r < |w.requests| ==> RequestSound(w, w.requests[r]))
  }

  lemma JoinKeeps(inFlight: map<string, nat>, flights: seq<Flight>, key: string)
    requires Pending(inFlight, flights) && Newest(flights)
    ensures var (i, fs, f) := Joined(inFlight, flights, key);
            && Pending(i, fs) && Newest(fs)
            && f < |fs| && fs[f].key == key
  {
  }

  lemma SettleKeeps(inFlight: map<string, nat>, flights: seq<Flight>, f: nat, next: Flight)
    requires Pending(inFlight, flights) && Newest(flights) && f < |flights| && flights[f].Answered?
    requires next == Settled(flights[f].key, flights[f].pair)
    ensures Pending(inFlight - {flights[f].key}, flights[f := next]) && Newest(flights[f := next])
  {
  }

  lemma AnswerKeeps(inFlight: map<string, nat>, flights: seq<Flight>, f: nat, next: Flight)
    requires Pending(inFlight, flights) && Newest(flights) && f < |flights| && flights[f].Calling?
    requires next.Answered? && next.key == flights[f].key
    ensures Pending(inFlight, flights[f := next]) && Newest(flights[f := next])
  {
  }

  lemma PendingKept(w: World, e: Event)
    requires Pending(w.inFlight, w.flights) && Newest(w.flights)
    ensures Pending(Step(w, e).inFlight, Step(w, e).flights) && Newest(Step(w, e).flights)
  {
    match e
    case Respond(r, _) =>
      if r < |w.requests| {
        JoinKeeps(w.inFlight, w.flights, w.requests[r].pair.refresh);
      }
    case Serve(f, _, _, _, _, _, _) =>
      if f < |w.flights| && w.flights[f].Calling? {
        AnswerKeeps(w.inFlight, w.flights, f, Step(w, e).flights[f]);
      }
    case Settle(f) =>
      if f < |w.flights| && w.flights[f].Answered? {
        SettleKeeps(w.inFlight, w.flights, f, Step(w, e).flights[f]);
      }
    case Arrive(_) =>
    case Resume(_) =>
    case Elsewhere(_) =>
  }

  lemma RotatedStays(b: Sessions.World, e: Sessions.Event, f: Flight)
    requires Carries(f) && Rotated(b, f)
    ensures Rotated(Sessions.Step(b, e), f)
  {
  }

  /** What the backend's answer to a flight is: the pair of the new token, when its key could
      be rotated and the response arrived whole. */
  lemma AnswerIs(w: World, e: Event)
    requires e.Serve? && e.flight < |w.flights| && w.flights[e.flight].Calling?
    ensures
      var key, after := w.flights[e.flight].key, Step(w, e);
      var rotated := after.backend.rotations != w.backend.rotations;
      && (rotated ==> after.backend.rotations == w.backend.rotations + [(key, e.newToken)])
      && after.flights == w.flights[e.flight := Answered(key,
           if rotated && e.delivered && e.access != "" && e.newToken != "" then Some(Pair(e.access, e.newToken)) else None)]
  {
  }

  lemma AnswerRotated(w: World, e: Event)
    requires e.Serve? && e.flight < |w.flights| && w.flights[e.flight].Calling?
    ensures
      var f := Step(w, e).flights[e.flight];
      Carries(f) ==> Rotated(Step(w, e).backend, f) && f.key in w.backend.rows && w.backend.rows[f.key].revokedAt.None?
  {
    AnswerIs(w, e);
    var b := Step(w, e).backend.rotations;
    if b != w.backend.rotations {
      assert b[|b| - 1] == (w.flights[e.flight].key, e.newToken);
    }
  }

  lemma SpentOnceKept(w: World, e: Event)
    requires SpentOnce(w)
    ensures SpentOnce(Step(w, e))
  {
    var end := Step(w, e);
    forall f | 0 <= f < |end.flights| && Carries(end.flights[f]) ensures Rotated(end.backend, end.flights[f]) {
      if f < |w.flights| && Carries(w.flights[f]) {
        assert end.flights[f].key == w.flights[f].key && end.flights[f].pair == w.flights[f].pair;
        BackendKeeps(w, e, w.flights[f]);
      } else {
        AnswerRotated(w, e);
      }
    }
    if e.Serve? && e.flight < |w.flights| && w.flights[e.flight].Calling? {
      AnswerRotated(w, e);
    }
  }

  lemma BackendKeeps(w: World, e: Event, f: Flight)
    requires Carries(f) && Rotated(w.backend, f)
    ensures Rotated(Step(w, e).backend, f)
  {
    match e
    case Serve(g, found, newToken, _, _, lifetime, now) =>
      if g < |w.flights| {
        RotatedStays(w.backend, Sessions.RefreshWith(w.flights[g].key, found, newToken, lifetime, now), f);
      }
    case Elsewhere(event) => RotatedStays(w.backend, event, f);
    case Arrive(_) =>
    case Respond(_, _) =>
    case Settle(_) =>
    case Resume(_) =>
  }

  /** Flights keep their key and, once settled, their pair. */
  lemma FlightsStay(w: World, e: Event, f: nat)
    requires f < |w.flights|
    ensures f < |Step(w, e).flights| && Step(w, e).flights[f].key == w.flights[f].key
    ensures w.flights[f].Settled? ==> Step(w, e).flights[f] == w.flights[f]
  {
  }

  lemma RequestKept(w: World, e: Event, r: nat)
    requires Pending(w.inFlight, w.flights) && r < |Step(w, e).requests|
    requires r < |w.requests| ==> RequestSound(w, w.requests[r])
    ensures RequestSound(Step(w, e), Step(w, e).requests[r])
  {
    if r < |w.requests| {
      var q := w.requests[r];
      if q.phase.Waiting? {
        FlightsStay(w, e, q.phase.flight);
      }
      if q.got.Some? {
        var f :| 0 <= f < |w.flights| && Carries(w.flights[f]) && w.flights[f].Settled?
                 && w.flights[f].key == q.pair.refresh && w.flights[f].pair == q.got;
        FlightsStay(w, e, f);
      }
    }
  }

  lemma {:induction false} RunKeeps(w: World, events: seq<Event>)
    requires Inv(w)
    ensures Inv(Run(w, events))
  {
    if events != [] {
      RunKeeps(w, events[..|events| - 1]);
      var mid, e := Run(w, events[..|events| - 1]), events[|events| - 1];
      PendingKept(mid, e);
      SpentOnceKept(mid, e);
      forall r | 0 <= r < |Step(mid, e).requests| ensures RequestSound(Step(mid, e), Step(mid, e).requests[r]) {
        RequestKept(mid, e, r);
      }
    }
  }

  // ---- what the console promises ---------------------------------------------------------------

  /** Any two requests handed a pair for the same refresh token are handed the same pair, over
      any run and however the backend is used meanwhile, and it is the pair that token was rotated
      to, for the same user; each request attempts its call at most twice, and twice only after a
      401 with a refresh token. */
  lemma SharedPair(events: seq<Event>, r: nat, s: nat)
    requires r < |Run(EMPTY, events).requests| && s < |Run(EMPTY, events).requests|
    ensures
      var w := Run(EMPTY, events);
      var p, q := w.requests[r], w.requests[s];
      && (p.got.Some? && q.got.Some? && p.pair.refresh == q.pair.refresh ==> p.got == q.got)
      && (p.got.Some? ==>
            var rows, token := w.backend.rows, p.got.value.refresh;
            && (p.pair.refresh, token) in w.backend.rotations
            && p.pair.refresh in rows && token in rows && rows[token].user == rows[p.pair.refresh].user)
      && p.attempts <= 2
      && (p.attempts == 2 <==> p.got.Some?)
      && (p.attempts == 2 ==> p.first == 401 && p.pair.refresh != "")
  {
    RunKeeps(EMPTY, events);
    var w := Run(EMPTY, events);
    assert RequestSound(w, w.requests[r]) && RequestSound(w, w.requests[s]);
  }

  /** Requests that overlap one pending refresh cause no further backend call: all that wait on
      a key wait for its one unsettled flight, and a 401 while it is unsettled joins it. */
  lemma OverlapJoins(events: seq<Event>, f: nat, r: nat)
    requires f < |Run(EMPTY, events).flights| && !Run(EMPTY, events).flights[f].Settled?
    requires r < |Run(EMPTY, events).requests| && Run(EMPTY, events).requests[r].pair.refresh == Run(EMPTY, events).flights[f].key
    requires Run(EMPTY, events).requests[r].phase.Trying? && Run(EMPTY, events).flights[f].key != ""
    ensures
      var w := Run(EMPTY, events);
      var next := Step(w, Respond(r, Some(401)));
      && next.flights == w.flights && next.backend == w.backend
      && next.requests[r].phase == Waiting(f)
  {
    RunKeeps(EMPTY, events);
  }

  /** While a flight is unsettled no later flight of its key exists and every earlier one is
      settled: the requests overlapping a pending refresh make exactly one backend call. */
  lemma OneCallWhilePending(events: seq<Event>, f: nat, g: nat)
    requires f < |Run(EMPTY, events).flights| && !Run(EMPTY, events).flights[f].Settled?
    requires g < |Run(EMPTY, events).flights| && Run(EMPTY, events).flights[g].key == Run(EMPTY, events).flights[f].key
    ensures g <= f
    ensures g < f ==> Run(EMPTY, events).flights[g].Settled?
  {
    RunKeeps(EMPTY, events);
  }

  /** A lost response strands the session: once the backend has rotated a key no later flight of
      that key brings a pair, so its requests end without a second attempt. */
  lemma LostResponseStrands(w: World, e: Event, events: seq<Event>, later: Event)
    requires e.Serve? && e.flight < |w.flights| && w.flights[e.flight].Calling? && !e.delivered
    requires Sessions.Rotates(w.backend.rows, w.flights[e.flight].key, e.found, e.newToken, e.now)
    requires later.Serve? && later.flight < |Run(Step(w, e), events).flights|
    requires Run(Step(w, e), events).flights[later.flight].key == w.flights[e.flight].key
    ensures Step(w, e).flights[e.flight] == Answered(w.flights[e.flight].key, None)
    ensures Served(Run(Step(w, e), events), later) == None
  {
    RevokedStays(Step(w, e), events, w.flights[e.flight].key);
  }

  lemma {:induction false} RevokedStays(w: World, events: seq<Event>, token: string)
    requires token in w.backend.rows && w.backend.rows[token].revokedAt.Some?
    ensures token in Run(w, events).backend.rows && Run(w, events).backend.rows[token].revokedAt.Some?
  {
    if events != [] {
      RevokedStays(w, events[..|events| - 1], token);
    }
  }
}
