/** The Idempotency-Key middleware and its store, inside the request transaction. */
module Idempotency {
  import opened Prelude

  type Bytes = seq<bv8>

  const NUL: Bytes := [0]

  /** What idempotencyHash digests. SHA-256 is taken to be collision free, so the digest
      of a request is represented by this pre-image. */
  function PreImage(operation: Bytes, body: Bytes): Bytes {
    operation + NUL + body
  }

  /** The digest tells requests apart when neither operation holds a NUL byte, and when neither
      body does, as no JSON text can: the separator is the first NUL then, or the last. */
  lemma PreImageInjective(op1: Bytes, body1: Bytes, op2: Bytes, body2: Bytes)
    requires (0 !in op1 && 0 !in op2) || (0 !in body1 && 0 !in body2)
    ensures PreImage(op1, body1) == PreImage(op2, body2) <==> op1 == op2 && body1 == body2
  {
    var p, q := PreImage(op1, body1), PreImage(op2, body2);
    assert p[|op1|] == 0 && forall i :: |op1| < i < |p| ==> p[i] == body1[i - |op1| - 1];
    assert q[|op2|] == 0 && forall i :: |op2| < i < |q| ==> q[i] == body2[i - |op2| - 1];
    assert forall i :: 0 <= i < |op1| ==> p[i] == op1[i];
    assert forall i :: 0 <= i < |op2| ==> q[i] == op2[i];
    if p == q {
      assert |op1| == |op2|;
      assert p[..|op1|] == op1 && q[..|op2|] == op2;
      assert p[|op1| + 1..] == body1 && q[|op2| + 1..] == body2;
    }
  }

  /** A digest is its request's own if and only if the request holds no NUL byte. */
  lemma SharedDigestIff(op: Bytes, body: Bytes)
    ensures (exists op2, body2 :: op2 != op && PreImage(op2, body2) == PreImage(op, body)) <==> 0 in op || 0 in body
  {
    if k :| 0 <= k < |op| && op[k] == 0 {
      var op2, body2 := op[..k], op[k + 1..] + NUL + body;
      assert op == op2 + NUL + op[k + 1..];
      assert PreImage(op2, body2) == PreImage(op, body);
    } else if k :| 0 <= k < |body| && body[k] == 0 {
      var op2, body2 := op + NUL + body[..k], body[k + 1..];
      assert body == body[..k] + NUL + body2;
      assert PreImage(op2, body2) == PreImage(op, body);
    } else {
      forall op2: Bytes, body2: Bytes | PreImage(op2, body2) == PreImage(op, body) ensures op2 == op {
        OnlyOneNul(op, body, op2, body2);
      }
    }
  }

  lemma OnlyOneNul(op: Bytes, body: Bytes, op2: Bytes, body2: Bytes)
    requires 0 !in op && 0 !in body && PreImage(op2, body2) == PreImage(op, body)
    ensures op2 == op
  {
    var p := PreImage(op, body);
    assert p[|op2|] == 0 by { assert PreImage(op2, body2)[|op2|] == 0; }
    assert forall i :: 0 <= i < |op| ==> p[i] == op[i];
    assert forall i :: |op| < i < |p| ==> p[i] == body[i - |op| - 1];
    assert |op2| == |op|;
    assert op == p[..|op|] && op2 == PreImage(op2, body2)[..|op2|];
  }

  /** A route with one path segment left open: what stands before and after it. */
  function Route(before: Bytes, id: Bytes, after: Bytes): Bytes { before + id + after }

  /** On every such route two requests share a digest: the path is decoded, so its open segment
      may hold an escaped NUL and escaped slashes, and the other request's body a raw NUL. */
  lemma RouteCollides(before: Bytes, after: Bytes, id: Bytes, mid: Bytes, body: Bytes)
    ensures
      var long := id + after + NUL + mid;
      && PreImage(Route(before, id, after), mid + after + NUL + body) == PreImage(Route(before, long, after), body)
      && Route(before, id, after) != Route(before, long, after)
  {
    var long := id + after + NUL + mid;
    assert PreImage(Route(before, id, after), mid + after + NUL + body)
           == before + id + after + NUL + mid + after + NUL + body;
    assert PreImage(Route(before, long, after), body) == before + id + after + NUL + mid + after + NUL + body;
    assert |Route(before, id, after)| != |Route(before, long, after)|;
  }

  // ---- the store ------------------------------------------------------------------------

  datatype KeyStatus = InProgress | Completed

  datatype Record = Record(hash: Bytes, status: KeyStatus, code: int, body: Bytes, expiresAt: int)

  /** A user and a client-supplied key. */
  type Slot = (nat, string)

  const TTL: int := 24 * 60 * 60

  function ExpiredSlots(keys: map<Slot, Record>, user: nat, now: int): set<Slot> {
    set s | s in keys && s.0 == user && keys[s].expiresAt < now
  }

  /** Create: reap the user's expired keys, then insert unless the slot is taken. */
  function Created(keys: map<Slot, Record>, slot: Slot, hash: Bytes, now: int): map<Slot, Record> {
    var live := keys - ExpiredSlots(keys, slot.0, now);
    if slot in live then live else live[slot := Record(hash, InProgress, 0, [], now + TTL)]
  }

  function CompletedWith(keys: map<Slot, Record>, slot: Slot, code: int, body: Bytes): map<Slot, Record> {
    if slot in keys then keys[slot := keys[slot].(status := Completed, code := code, body := body)] else keys
  }

  /** What a request is answered with. */
  datatype Reply =
    | Fresh(code: int, body: Bytes)
    | Replayed(code: int, body: Bytes)
    | KeyReused
    | KeyInProgress

  function CodeOf(r: Reply): int {
    match r
    case Fresh(code, _) => code
    case Replayed(code, _) => code
    case KeyReused => 409
    case KeyInProgress => 409
  }

  function ReplyTo(rec: Record, hash: Bytes): Reply {
    match rec.status
    case Completed => if rec.hash == hash then Replayed(rec.code, rec.body) else KeyReused
    case InProgress => KeyInProgress
  }

  datatype Effect = Effect(slot: Slot, hash: Bytes)

  // ---- one request on its own ---------------------------------------------------------------

  /** A request nobody else interleaves with: the handler would answer code and body and,
      with it, have the effect. */
  function ServedAlone(keys: map<Slot, Record>, effects: seq<Effect>, slot: Slot, hash: Bytes,
                       code: int, body: Bytes, now: int): (map<Slot, Record>, seq<Effect>, Reply)
  {
    var live := keys - ExpiredSlots(keys, slot.0, now);
    if slot in live then
      var reply := ReplyTo(live[slot], hash);
      if CodeOf(reply) < 400 then (live, effects, reply) else (keys, effects, reply)
    else if code < 400 then
      (CompletedWith(Created(keys, slot, hash, now), slot, code, body), effects + [Effect(slot, hash)], Fresh(code, body))
    else (keys, effects, Fresh(code, body))
  }

  /** A record of the slot's user that a request at this moment drops. */
  predicate Stale(keys: map<Slot, Record>, slot: Slot, s: Slot, now: int)
    requires s in keys
  {
    s.0 == slot.0 && keys[s].expiresAt < now
  }

  /** The five answers. While a record of the slot lives, the request it was made for is given
      the stored response, any other is refused with 409, and nothing runs. Without one the
      handler runs: a success is recorded for a day and its effect kept, a failure leaves nothing.
      What commits also drops the stale records of that user, and no other record. */
  lemma ServedAloneIs(keys: map<Slot, Record>, effects: seq<Effect>, slot: Slot, hash: Bytes, code: int, body: Bytes, now: int)
    ensures
      var (after, done, reply) := ServedAlone(keys, effects, slot, hash, code, body, now);
      && (forall s :: s != slot && s in after ==> s in keys && after[s] == keys[s])
      && (forall s :: s != slot && s in keys && s !in after ==> Stale(keys, slot, s, now))
      && (CodeOf(reply) < 400 ==> forall s :: s != slot && s in keys && Stale(keys, slot, s, now) ==> s !in after)
      && (CodeOf(reply) >= 400 ==> after == keys && done == effects)
      && (if slot in keys && !(keys[slot].expiresAt < now) then
            var rec := keys[slot];
            && done == effects && slot in after && after[slot] == rec
            && (if rec.status.InProgress? then reply.KeyInProgress? && CodeOf(reply) == 409
                else if rec.hash != hash then reply.KeyReused? && CodeOf(reply) == 409
                else reply == Replayed(rec.code, rec.body) && CodeOf(reply) == rec.code)
          else
            && reply == Fresh(code, body) && CodeOf(reply) == code
            && (code < 400 ==>
                  && done == effects + [Effect(slot, hash)]
                  && slot in after && after[slot] == Record(hash, Completed, code, body, now + 86_400)))
  {
  }

  class Repository {
    var keys: map<Slot, Record>
    var effects: seq<Effect>

    constructor ()
      ensures keys == map[] && effects == []
    {
      keys, effects := map[], [];
    }

    method Create(slot: Slot, hash: Bytes, now: int) returns (created: bool)
      modifies this`keys
      ensures keys == Created(old(keys), slot, hash, now)
      ensures created <==> slot !in old(keys) || slot in ExpiredSlots(old(keys), slot.0, now)
    {
      var reaped := set s | s in keys && s.0 == slot.0 && keys[s].expiresAt < now;
      keys := keys - reaped;
      created := slot !in keys;
      if created {
        keys := keys[slot := Record(hash, InProgress, 0, [], now + TTL)];
      }
    }

    method Get(slot: Slot) returns (rec: Option<Record>)
      ensures rec == if slot in keys then Some(keys[slot]) else None
    {
      rec := if slot in keys then Some(keys[slot]) else None;
    }

    method Complete(slot: Slot, code: int, body: Bytes)
      modifies this`keys
      ensures keys == CompletedWith(old(keys), slot, code, body)
    {
      if slot in keys {
        keys := keys[slot := keys[slot].(status := Completed, code := code, body := body)];
      }
    }

    /** The guarded handler inside BeginRequestTx: commit below 400, roll back otherwise. */
    method Serve(slot: Slot, hash: Bytes, code: int, body: Bytes, now: int) returns (reply: Reply)
      modifies this
      ensures (keys, effects, reply) == ServedAlone(old(keys), old(effects), slot, hash, code, body, now)
    {
      var keys0, effects0 := keys, effects;
      var created := Create(slot, hash, now);
      if !created {
        var existing := Get(slot);
        reply := ReplyTo(existing.value, hash);
      } else {
        var rec := new Recorder();
        rec.WriteHeader(code);
        rec.Write(body);
        WholeResponse(code, body);
        effects := effects + [Effect(slot, hash)];
        if rec.status < 400 {
          Complete(slot, rec.status, rec.body);
        }
        reply := Fresh(rec.status, rec.body);
      }
      if CodeOf(reply) >= 400 {
        keys, effects := keys0, effects0;
      }
    }
  }

  // ---- the recorder -------------------------------------------------------------------------

  datatype Write = Header(code: int) | Chunk(bytes: Bytes)

  /** The status bufferingRecorder ends up with: the first header written, or 200. */
  function RecordedCode(ws: seq<Write>): int {
    if ws == [] then 200 else if ws[0].Header? then ws[0].code else RecordedCode(ws[1..])
  }

  function RecordedBody(ws: seq<Write>): Bytes {
    if ws == [] then [] else
      var front, last := ws[..|ws| - 1], ws[|ws| - 1];
      if last.Chunk? then RecordedBody(front) + last.bytes else RecordedBody(front)
  }

  lemma WholeResponse(code: int, body: Bytes)
    ensures RecordedCode([] + [Header(code)] + [Chunk(body)]) == code
    ensures RecordedBody([] + [Header(code)] + [Chunk(body)]) == body
  {
    var ws := [] + [Header(code)] + [Chunk(body)];
    assert ws[..1] == [Header(code)];
    assert RecordedBody(ws[..1]) == RecordedBody(ws[..1][..0]);
  }

  class Recorder {
    var status: int
    var wroteHeader: bool
    var body: Bytes
    ghost var written: seq<Write>

    ghost predicate Valid()
      reads this
    {
      && status == RecordedCode(written)
      && body == RecordedBody(written)
      && (wroteHeader <==> exists i :: 0 <= i < |written| && written[i].Header?)
    }

    constructor ()
      ensures Valid() && written == []
    {
      status, wroteHeader, body, written := 200, false, [], [];
    }

    method WriteHeader(code: int)
      requires Valid()
      modifies this
      ensures Valid() && written == old(written) + [Header(code)]
    {
      HeaderAppended(written, Header(code));
      if !wroteHeader {
        wroteHeader := true;
        status := code;
      }
      written := written + [Header(code)];
      assert written[|written| - 1].Header?;
      assert written[..|written| - 1] == old(written);
      assert forall i :: 0 <= i < |old(written)| ==> written[i] == old(written)[i];
    }

    method Write(bytes: Bytes)
      requires Valid()
      modifies this
      ensures Valid() && written == old(written) + [Chunk(bytes)]
    {
      HeaderAppended(written, Chunk(bytes));
      body := body + bytes;
      written := written + [Chunk(bytes)];
      assert written[..|written| - 1] == old(written);
      assert forall i :: 0 <= i < |old(written)| ==> written[i] == old(written)[i];
    }
  }

  lemma {:induction false} HeaderAppended(ws: seq<Write>, w: Write)
    ensures RecordedCode(ws + [w])
            == if (exists i :: 0 <= i < |ws| && ws[i].Header?) || w.Chunk? then RecordedCode(ws) else w.code
  {
    if ws == [] {
      assert ws + [w] == [w];
      assert [w][1..] == [];
    } else {
      assert (ws + [w])[1..] == ws[1..] + [w];
      HeaderAppended(ws[1..], w);
      if exists i :: 0 <= i < |ws| && ws[i].Header? {
        var i :| 0 <= i < |ws| && ws[i].Header?;
        if i > 0 { assert ws[1..][i - 1].Header?; }
      }
    }
  }
}
