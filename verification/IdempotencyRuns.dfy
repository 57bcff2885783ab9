/** Any interleaving of retries: requests open transactions, block on each other's
    uncommitted rows, and commit or roll back in any order. */
module IdempotencyRuns {
  import opened Idempotency

  /** A transaction that has reaped and inserted but not yet ended. */
  datatype Tx = Tx(slot: Slot, hash: Bytes, reaped: set<Slot>, at: int)

  datatype Answer = Answer(slot: Slot, hash: Bytes, reply: Reply)

  datatype Server = Server(keys: map<Slot, Record>, open: map<nat, Tx>, effects: seq<Effect>, answers: seq<Answer>)

  /** Arrive runs Create (and Get); Finish is the handler's end with commit or rollback;
      Abort is a crash of the request. */
  datatype Event =
    | Arrive(tx: nat, slot: Slot, hash: Bytes, at: int)
    | Finish(tx: nat, code: int, body: Bytes)
    | Abort(tx: nat)

  /** Create waits for an uncommitted insert of the same slot and for an uncommitted
      delete of a row it would reap too. */
  predicate Blocked(s: Server, slot: Slot, at: int) {
    exists t :: t in s.open && (s.open[t].slot == slot || s.open[t].reaped * ExpiredSlots(s.keys, slot.0, at) != {})
  }

  function Step(s: Server, e: Event): Server {
    match e
    case Arrive(tx, slot, hash, at) =>
      if tx in s.open || Blocked(s, slot, at) then s
      else
        var reaped := ExpiredSlots(s.keys, slot.0, at);
        var live := s.keys - reaped;
        if slot in live then
          var reply := ReplyTo(live[slot], hash);
          s.(keys := if CodeOf(reply) < 400 then live else s.keys, answers := s.answers + [Answer(slot, hash, reply)])
        else s.(open := s.open[tx := Tx(slot, hash, reaped, at)])
    case Finish(tx, code, body) =>
      if tx !in s.open then s
      else
        var t := s.open[tx];
        var done := s.(open := s.open - {tx}, answers := s.answers + [Answer(t.slot, t.hash, Fresh(code, body))]);
        if code >= 400 then done
        else
          done.(keys := (s.keys - t.reaped)[t.slot := Record(t.hash, Completed, code, body, t.at + TTL)],
                effects := s.effects + [Effect(t.slot, t.hash)])
    case Abort(tx) =>
      s.(open := s.open - {tx})
  }

  function Run(s: Server, events: seq<Event>): Server {
    if events == [] then s else Step(Run(s, events[..|events| - 1]), events[|events| - 1])
  }

  /** An uninterrupted request is Arrive then Finish: it does what the middleware does on
      its own. */
  lemma AloneRefines(s: Server, tx: nat, slot: Slot, hash: Bytes, code: int, body: Bytes, at: int)
    requires s.open == map[]
    ensures
      var end := Step(Step(s, Arrive(tx, slot, hash, at)), Finish(tx, code, body));
      var (keys, effects, reply) := ServedAlone(s.keys, s.effects, slot, hash, code, body, at);
      end == Server(keys, map[], effects, s.answers + [Answer(slot, hash, reply)])
  {
    var mid := Step(s, Arrive(tx, slot, hash, at));
    var live := s.keys - ExpiredSlots(s.keys, slot.0, at);
    if slot !in live {
      assert mid.open - {tx} == map[];
    }
  }

  // ---- exactly once ---------------------------------------------------------------------------

  function Applied(effects: seq<Effect>, slot: Slot): nat {
    if effects == [] then 0
    else Applied(effects[..|effects| - 1], slot) + if effects[|effects| - 1].slot == slot then 1 else 0
  }

  lemma AppliedAppend(effects: seq<Effect>, e: Effect, slot: Slot)
    ensures Applied(effects + [e], slot) == Applied(effects, slot) + if e.slot == slot then 1 else 0
  {
    assert (effects + [e])[..|effects|] == effects;
  }

  /** Nobody reaps the slot's record: every request of its user arrives before it expires. */
  predicate WithinLifetime(s: Server, e: Event, slot: Slot) {
    e.Arrive? && e.slot.0 == slot.0 && slot in s.keys ==> e.at <= s.keys[slot].expiresAt
  }

  ghost predicate LivesThrough(s: Server, events: seq<Event>, slot: Slot) {
    forall n :: 0 <= n < |events| ==> WithinLifetime(Run(s, events[..n]), events[n], slot)
  }

  /** The answer agrees with the slot's one record: a success is the record's response to
      the record's request; another request is refused. */
  predicate AnswerFits(a: Answer, slot: Slot, keys: map<Slot, Record>) {
    a.slot == slot ==>
      && !a.reply.KeyInProgress?
      && (CodeOf(a.reply) < 400 ==>
            slot in keys && a.hash == keys[slot].hash && CodeOf(a.reply) == keys[slot].code && BodyOf(a.reply) == keys[slot].body)
      && (a.reply.KeyReused? ==> slot in keys && a.hash != keys[slot].hash)
      && (a.reply.Replayed? ==> slot in keys && a.hash == keys[slot].hash)
  }

  function BodyOf(r: Reply): Bytes {
    match r
    case Fresh(_, body) => body
    case Replayed(_, body) => body
    case KeyReused => []
    case KeyInProgress => []
  }

  ghost predicate OneRecord(s: Server, slot: Slot) {
    && (forall k :: k in s.keys ==> s.keys[k].status == Completed && s.keys[k].code < 400)
    && (forall t :: t in s.open && s.open[t].slot == slot ==> slot !in s.keys)
    && (forall t, u :: t in s.open && u in s.open && s.open[t].slot == slot && s.open[u].slot == slot ==> t == u)
    && (forall t :: t in s.open ==> slot !in s.open[t].reaped)
    && Applied(s.effects, slot) == (if slot in s.keys then 1 else 0)
    && (slot in s.keys ==> exists n :: 0 <= n < |s.effects| && s.effects[n] == Effect(slot, s.keys[slot].hash))
    && (forall n :: 0 <= n < |s.answers| ==> AnswerFits(s.answers[n], slot, s.keys))
  }

  lemma ArriveKeeps(s: Server, e: Event, slot: Slot)
    requires e.Arrive? && OneRecord(s, slot) && WithinLifetime(s, e, slot)
    ensures OneRecord(Step(s, e), slot)
  {
    var end := Step(s, e);
    var live := s.keys - ExpiredSlots(s.keys, e.slot.0, e.at);
    if e.tx !in s.open && !Blocked(s, e.slot, e.at) {
      assert slot in s.keys <==> slot in live;
      if e.slot in live {
        forall n | 0 <= n < |end.answers| ensures AnswerFits(end.answers[n], slot, end.keys) {
          if n < |s.answers| {
            assert end.answers[n] == s.answers[n];
          }
        }
      } else {
        forall t, u | t in end.open && u in end.open && end.open[t].slot == slot && end.open[u].slot == slot
          ensures t == u
        {
        }
      }
    }
  }

  lemma FinishKeeps(s: Server, e: Event, slot: Slot)
    requires e.Finish? && OneRecord(s, slot)
    ensures OneRecord(Step(s, e), slot)
  {
    var end := Step(s, e);
    if e.tx in s.open {
      var t := s.open[e.tx];
      if e.code < 400 {
        AppliedAppend(s.effects, Effect(t.slot, t.hash), slot);
        assert end.effects[|s.effects|] == Effect(t.slot, t.hash);
        if t.slot != slot && slot in s.keys {
          var n :| 0 <= n < |s.effects| && s.effects[n] == Effect(slot, s.keys[slot].hash);
          assert end.effects[n] == s.effects[n];
        }
      }
      forall n | 0 <= n < |end.answers| ensures AnswerFits(end.answers[n], slot, end.keys) {
        if n < |s.answers| {
          assert end.answers[n] == s.answers[n];
        }
      }
    }
  }

  lemma StepKeeps(s: Server, e: Event, slot: Slot)
    requires OneRecord(s, slot) && WithinLifetime(s, e, slot)
    ensures OneRecord(Step(s, e), slot)
  {
    match e
    case Arrive(_, _, _, _) => ArriveKeeps(s, e, slot);
    case Finish(_, _, _) => FinishKeeps(s, e, slot);
    case Abort(_) =>
  }

  lemma {:induction false} RunKeeps(s: Server, events: seq<Event>, slot: Slot)
    requires OneRecord(s, slot) && LivesThrough(s, events, slot)
    ensures OneRecord(Run(s, events), slot)
  {
    if events != [] {
      var front := events[..|events| - 1];
      forall n | 0 <= n < |front| ensures WithinLifetime(Run(s, front[..n]), front[n], slot) {
        assert front[..n] == events[..n];
        assert WithinLifetime(Run(s, events[..n]), events[n], slot);
      }
      RunKeeps(s, front, slot);
      assert WithinLifetime(Run(s, events[..|front|]), events[|front|], slot);
      StepKeeps(Run(s, front), events[|front|], slot);
    }
  }

  const EMPTY := Server(map[], map[], [], [])

  /** Exactly once: over any interleaving of requests, retries and crashes within the key's
      lifetime, the effects of a slot are applied at most once, exactly once if any request
      on it was answered with success, and then every success on the slot is the same
      response to the same request, and no request is ever told the key is in progress. */
  lemma ExactlyOnce(events: seq<Event>, slot: Slot, m: nat, n: nat)
    requires LivesThrough(EMPTY, events, slot)
    requires
      var answers := Run(EMPTY, events).answers;
      m < |answers| && n < |answers| && answers[m].slot == slot && answers[n].slot == slot
    ensures
      var end := Run(EMPTY, events);
      var a, b := end.answers[m], end.answers[n];
      && Applied(end.effects, slot) <= 1
      && !a.reply.KeyInProgress?
      && (CodeOf(a.reply) < 400 ==> Applied(end.effects, slot) == 1)
      && (CodeOf(a.reply) < 400 && CodeOf(b.reply) < 400 ==>
            a.hash == b.hash && CodeOf(a.reply) == CodeOf(b.reply) && BodyOf(a.reply) == BodyOf(b.reply))
      && (CodeOf(a.reply) < 400 && b.reply.KeyReused? ==> b.hash != a.hash)
      && (CodeOf(a.reply) < 400 && b.reply.Replayed? ==> b.hash == a.hash)
  {
    RunKeeps(EMPTY, events, slot);
    var end := Run(EMPTY, events);
    assert AnswerFits(end.answers[m], slot, end.keys) && AnswerFits(end.answers[n], slot, end.keys);
  }

  /** Once a slot holds its record, a request on it within the lifetime gets through at
      once: the same request gets the stored response, any other gets 409 and changes
      nothing. */
  lemma SettledSlotAnswers(s: Server, tx: nat, slot: Slot, hash: Bytes, at: int)
    requires OneRecord(s, slot) && slot in s.keys && at <= s.keys[slot].expiresAt
    requires tx !in s.open && !Blocked(s, slot, at)
    ensures
      var end, rec := Step(s, Arrive(tx, slot, hash, at)), s.keys[slot];
      && end.effects == s.effects && end.open == s.open
      && (hash == rec.hash ==> end.answers == s.answers + [Answer(slot, hash, Replayed(rec.code, rec.body))])
      && (hash != rec.hash ==> end == s.(answers := s.answers + [Answer(slot, hash, KeyReused)]))
  {
  }

  /** A request that ends at 400 or above, or never ends, leaves neither effect nor record. */
  lemma FailureLeavesNothing(s: Server, e: Event)
    requires e.Abort? || (e.Finish? && e.code >= 400)
    ensures Step(s, e).keys == s.keys && Step(s, e).effects == s.effects
    ensures e.tx !in Step(s, e).open
    ensures forall t :: t != e.tx ==> (t in Step(s, e).open <==> t in s.open)
  {
  }

  /** Past its lifetime a key protects nothing: the same request is applied again. */
  lemma ExpiredKeyRunsAgain(slot: Slot, hash: Bytes, body: Bytes)
    ensures
      var again := [Arrive(1, slot, hash, 0), Finish(1, 201, body), Arrive(2, slot, hash, TTL + 1), Finish(2, 201, body)];
      && Applied(Run(EMPTY, again).effects, slot) == 2
      && !LivesThrough(EMPTY, again, slot)
  {
    var a := Arrive(1, slot, hash, 0);
    var b := Finish(1, 201, body);
    var c := Arrive(2, slot, hash, TTL + 1);
    var d := Finish(2, 201, body);
    var again := [a, b, c, d];
    var s1, s2 := Step(EMPTY, a), Step(Step(EMPTY, a), b);
    var rec := Record(hash, Completed, 201, body, TTL);
    assert ExpiredSlots(EMPTY.keys, slot.0, 0) == {};
    assert s1.open == map[1 := Tx(slot, hash, {}, 0)];
    assert s2.keys == map[slot := rec] && s2.open == map[];
    assert ExpiredSlots(s2.keys, slot.0, TTL + 1) == {slot};
    var s3 := Step(s2, c);
    assert s3.open == map[2 := Tx(slot, hash, {slot}, TTL + 1)];
    var s4 := Step(s3, d);
    RunFour(EMPTY, a, b, c, d);
    AppliedAppend([], Effect(slot, hash), slot);
    AppliedAppend([Effect(slot, hash)], Effect(slot, hash), slot);
    assert s2.effects == [] + [Effect(slot, hash)] && s4.effects == [Effect(slot, hash)] + [Effect(slot, hash)];
    assert !WithinLifetime(Run(EMPTY, again[..2]), again[2], slot);
  }

  lemma RunFour(s: Server, a: Event, b: Event, c: Event, d: Event)
    ensures Run(s, [a, b, c, d]) == Step(Step(Step(Step(s, a), b), c), d)
    ensures Run(s, [a, b, c, d][..2]) == Step(Step(s, a), b)
  {
    var all := [a, b, c, d];
    assert all[..3] == [a, b, c] && all[..2] == [a, b] && all[..3][..2] == [a, b];
    assert all[..2][..1] == [a] && all[..2][..1][..0] == [];
    assert Run(s, [a]) == Step(Run(s, [a][..0]), a);
    assert Run(s, [a, b]) == Step(Run(s, [a, b][..1]), b);
    assert Run(s, [a, b, c]) == Step(Run(s, [a, b, c][..2]), c);
    assert [a, b, c][..2] == [a, b] && [a, b][..1] == [a] && [a][..0] == [];
  }
}
