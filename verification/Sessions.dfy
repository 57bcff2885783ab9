/** Sessions and refresh-token rotation. Rows are keyed by the token's hash, which is unique. */
module Sessions {
  import opened Prelude
  import Text

  datatype Session = Session(user: nat, expiresAt: int, revokedAt: Option<int>)

  type Rows = map<string, Session>

  /** What a caller of login or refresh is told. */
  datatype Reply = Issued(token: string) | InvalidToken | Failed

  predicate Active(rows: Rows, token: string, now: int) {
    token in rows && rows[token].revokedAt.None? && rows[token].expiresAt > now
  }

  function Unrevoked(rows: Rows): set<string> { set t | t in rows && rows[t].revokedAt.None? }

  function RevokedRows(rows: Rows, token: string, now: int): Rows {
    if token in rows && rows[token].revokedAt.None? then rows[token := rows[token].(revokedAt := Some(now))] else rows
  }

  predicate Blank(token: string) { Text.TrimSpace(token) == "" }

  /** Whether a refresh goes through: its own token active, its user readable and the new
      token not taken. */
  predicate Rotates(rows: Rows, token: string, found: bool, newToken: string, now: int) {
    Active(rows, token, now) && found && newToken !in rows
  }

  // ---- what each request does to the table ---------------------------------------------------

  datatype Event =
    | LoginAs(user: nat, newToken: string, lifetime: int, now: int)
    | RefreshWith(token: string, found: bool, newToken: string, lifetime: int, now: int)
    | LogoutOf(token: string, now: int)

  function RowsAfter(rows: Rows, e: Event): Rows {
    match e
    case LoginAs(user, newToken, lifetime, now) =>
      if newToken in rows then rows else rows[newToken := Session(user, now + lifetime, None)]
    case RefreshWith(token, found, newToken, lifetime, now) =>
      if !Rotates(rows, token, found, newToken, now) then rows
      else rows[token := rows[token].(revokedAt := Some(now))]
               [newToken := Session(rows[token].user, now + lifetime, None)]
    case LogoutOf(token, now) => if Blank(token) then rows else RevokedRows(rows, token, now)
  }

  class Store {
    var rows: Rows

    constructor ()
      ensures rows == map[]
    {
      rows := map[];
    }

    method Create(user: nat, token: string, expiresAt: int) returns (ok: bool)
      modifies this
      ensures ok == (token !in old(rows))
      ensures rows == if ok then old(rows)[token := Session(user, expiresAt, None)] else old(rows)
    {
      if token in rows {
        return false;
      }
      rows := rows[token := Session(user, expiresAt, None)];
      return true;
    }

    method ConsumeForRotation(token: string, now: int) returns (session: Option<Session>)
      modifies this
      ensures session.Some? == Active(old(rows), token, now)
      ensures session.Some? ==> session.value == old(rows)[token].(revokedAt := Some(now))
      ensures rows == if session.Some? then old(rows)[token := session.value] else old(rows)
    {
      if token !in rows || rows[token].revokedAt.Some? || rows[token].expiresAt <= now {
        return None;
      }
      rows := rows[token := rows[token].(revokedAt := Some(now))];
      return Some(rows[token]);
    }

    method Revoke(token: string, now: int)
      modifies this
      ensures rows == RevokedRows(old(rows), token, now)
    {
      if token in rows && rows[token].revokedAt.None? {
        rows := rows[token := rows[token].(revokedAt := Some(now))];
      }
    }

    method Login(user: nat, newToken: string, lifetime: int, now: int) returns (reply: Reply)
      modifies this
      ensures reply == if newToken in old(rows) then Failed else Issued(newToken)
      ensures rows == RowsAfter(old(rows), LoginAs(user, newToken, lifetime, now))
    {
      var ok := Create(user, newToken, now + lifetime);
      return if ok then Issued(newToken) else Failed;
    }

    /** The refresh handler inside its request transaction: anything but a new pair rolls back.
        `found` is whether the session's user can be read. */
    method Refresh(token: string, found: bool, newToken: string, lifetime: int, now: int) returns (reply: Reply)
      modifies this
      ensures reply.Issued? == Rotates(old(rows), token, found, newToken, now)
      ensures reply.Issued? ==> reply.token == newToken
      ensures reply.InvalidToken? == !Active(old(rows), token, now)
      ensures rows == RowsAfter(old(rows), RefreshWith(token, found, newToken, lifetime, now))
    {
      var before := rows;
      var session := ConsumeForRotation(token, now);
      if session.None? {
        rows := before;
        return InvalidToken;
      }
      if !found {
        rows := before;
        return Failed;
      }
      var ok := Create(session.value.user, newToken, now + lifetime);
      if !ok {
        rows := before;
        return Failed;
      }
      return Issued(newToken);
    }

    method Logout(token: string, now: int) returns (ok: bool)
      modifies this
      ensures ok == !Blank(token)
      ensures rows == RowsAfter(old(rows), LogoutOf(token, now))
    {
      if Text.TrimSpace(token) == "" {
        return false;
      }
      Revoke(token, now);
      return true;
    }
  }

  // ---- runs --------------------------------------------------------------------------------

  /** The table, with what the run so far did to it: the rotations in order, the tokens logged
      out, the successful logins, and the number of the login each token descends from. */
  datatype World = World(rows: Rows, rotations: seq<(string, string)>, loggedOut: set<string>,
                         logins: nat, roots: map<string, nat>)

  const EMPTY := World(map[], [], {}, 0, map[])

  /** One request on the table of the store, recorded. */
  function Step(w: World, e: Event): World {
    var after := w.(rows := RowsAfter(w.rows, e));
    match e
    case LoginAs(_, newToken, _, _) =>
      if newToken in w.rows then after
      else after.(logins := w.logins + 1, roots := w.roots[newToken := w.logins])
    case RefreshWith(token, found, newToken, _, now) =>
      if !Rotates(w.rows, token, found, newToken, now) then after
      else after.(rotations := w.rotations + [(token, newToken)],
                  roots := w.roots[newToken := if token in w.roots then w.roots[token] else w.logins])
    case LogoutOf(token, _) =>
      if Blank(token) || token !in Unrevoked(w.rows) then after
      else after.(loggedOut := w.loggedOut + {token})
  }

  function Run(w: World, events: seq<Event>): World {
    if events == [] then w else Step(Run(w, events[..|events| - 1]), events[|events| - 1])
  }

  function Consumed(rotations: seq<(string, string)>): set<string> {
    set i | 0 <= i < |rotations| :: rotations[i].0
  }

  /** No token is rotated twice. */
  ghost predicate RotatedOnce(rotations: seq<(string, string)>) {
    forall i, j :: 0 <= i < j < |rotations| ==> rotations[i].0 != rotations[j].0
  }

  /** Every token's place: unrevoked, rotated, or logged out, and never two of these. */
  ghost predicate Placed(w: World) {
    && w.loggedOut + Consumed(w.rotations) == w.rows.Keys - Unrevoked(w.rows)
    && w.loggedOut !! Consumed(w.rotations)
  }

  /** One unrevoked token for each login not logged out. */
  ghost predicate Counted(w: World) { |Unrevoked(w.rows)| + |w.loggedOut| == w.logins }

  /** No two unrevoked tokens from one login. */
  ghost predicate OnePerLogin(w: World) {
    && w.roots.Keys == w.rows.Keys
    && (forall t :: t in w.roots ==> w.roots[t] < w.logins)
    && (forall s, t :: s in Unrevoked(w.rows) && t in Unrevoked(w.rows) && w.roots[s] == w.roots[t] ==> s == t)
  }

  /** All tokens of one login are for one user. */
  ghost predicate OneUser(w: World)
    requires w.roots.Keys == w.rows.Keys
  {
    forall s, t :: s in w.rows && t in w.rows && w.roots[s] == w.roots[t] ==> w.rows[s].user == w.rows[t].user
  }

  ghost predicate Inv(w: World) {
    RotatedOnce(w.rotations) && Placed(w) && Counted(w) && OnePerLogin(w) && OneUser(w)
  }

  lemma ConsumedAppended(rotations: seq<(string, string)>, r: (string, string))
    ensures Consumed(rotations + [r]) == Consumed(rotations) + {r.0}
  {
    var all := rotations + [r];
    forall t | t in Consumed(rotations) ensures t in Consumed(all) {
      var i :| 0 <= i < |rotations| && rotations[i].0 == t;
      assert all[i] == rotations[i];
    }
    assert all[|rotations|] == r;
  }

  /** What a step does to the set of unrevoked tokens. */
  lemma UnrevokedAfter(w: World, e: Event)
    ensures
      var was := Unrevoked(w.rows);
      Unrevoked(Step(w, e).rows) ==
      match e
      case LoginAs(_, newToken, _, _) => if newToken in w.rows then was else was + {newToken}
      case RefreshWith(token, found, newToken, _, now) =>
        if Rotates(w.rows, token, found, newToken, now) then was - {token} + {newToken} else was
      case LogoutOf(token, _) => if Blank(token) then was else was - {token}
  {
  }

  lemma CountedKept(w: World, e: Event)
    requires Placed(w) && Counted(w)
    ensures Counted(Step(w, e))
  {
    UnrevokedAfter(w, e);
    match e
    case LoginAs(_, newToken, _, _) =>
    case RefreshWith(token, found, newToken, _, now) =>
      if Rotates(w.rows, token, found, newToken, now) {
        assert token in Unrevoked(w.rows) && newToken !in Unrevoked(w.rows);
      }
    case LogoutOf(token, _) =>
      if token in Unrevoked(w.rows) {
        assert token !in w.loggedOut;
      }
  }

  lemma PlacedKept(w: World, e: Event)
    requires Placed(w)
    ensures Placed(Step(w, e))
  {
    UnrevokedAfter(w, e);
    match e
    case LoginAs(_, _, _, _) =>
    case RefreshWith(token, found, newToken, _, now) =>
      if Rotates(w.rows, token, found, newToken, now) {
        assert token in Unrevoked(w.rows);
        ConsumedAppended(w.rotations, (token, newToken));
      }
    case LogoutOf(token, _) =>
  }

  lemma OncePerTokenKept(w: World, e: Event)
    requires Placed(w) && RotatedOnce(w.rotations)
    ensures RotatedOnce(Step(w, e).rotations)
  {
    if e.RefreshWith? && Rotates(w.rows, e.token, e.found, e.newToken, e.now) {
      assert e.token in Unrevoked(w.rows);
      assert e.token !in Consumed(w.rotations);
    }
  }

  lemma OnePerLoginKept(w: World, e: Event)
    requires OnePerLogin(w)
    ensures OnePerLogin(Step(w, e))
  {
    UnrevokedAfter(w, e);
    if e.RefreshWith? && Rotates(w.rows, e.token, e.found, e.newToken, e.now) {
      assert e.token in Unrevoked(w.rows);
    }
  }

  /** The token a row inherits its login and its user from. */
  function Parent(w: World, e: Event, t: string): string {
    if e.RefreshWith? && t !in w.rows then e.token else t
  }

  lemma Inherits(w: World, e: Event, t: string)
    requires w.roots.Keys == w.rows.Keys && t in Step(w, e).rows && t in Step(w, e).roots
    requires e.LoginAs? ==> t in w.rows
    ensures
      var p, after := Parent(w, e, t), Step(w, e);
      p in w.rows && after.roots[t] == w.roots[p] && after.rows[t].user == w.rows[p].user
  {
  }

  lemma OneUserKept(w: World, e: Event)
    requires OnePerLogin(w) && OneUser(w)
    ensures OnePerLogin(Step(w, e)) && OneUser(Step(w, e))
  {
    OnePerLoginKept(w, e);
    var after := Step(w, e);
    forall s, t | s in after.rows && t in after.rows && after.roots[s] == after.roots[t] && s != t
      ensures after.rows[s].user == after.rows[t].user
    {
      assert e.LoginAs? ==> s in w.rows && t in w.rows;
      Inherits(w, e, s);
      Inherits(w, e, t);
    }
  }

  lemma StepKeeps(w: World, e: Event)
    requires Inv(w)
    ensures Inv(Step(w, e))
  {
    CountedKept(w, e);
    PlacedKept(w, e);
    OncePerTokenKept(w, e);
    OneUserKept(w, e);
  }

  lemma {:induction false} RunKeeps(w: World, events: seq<Event>)
    requires Inv(w)
    ensures Inv(Run(w, events))
  {
    if events != [] {
      RunKeeps(w, events[..|events| - 1]);
      StepKeeps(Run(w, events[..|events| - 1]), events[|events| - 1]);
    }
  }

  /** Over any run of logins, refreshes and logouts: no token is rotated twice, the unrevoked
      sessions are as many as the logins not logged out, however often they were rotated, and
      each login's descendants are all of one user and at most one of them is unrevoked. */
  lemma SingleUse(events: seq<Event>)
    ensures
      var w := Run(EMPTY, events);
      && RotatedOnce(w.rotations)
      && Placed(w)
      && |Unrevoked(w.rows)| == w.logins - |w.loggedOut|
      && OnePerLogin(w)
      && OneUser(w)
  {
    assert Inv(EMPTY);
    RunKeeps(EMPTY, events);
  }

  /** A row's user and expiry never change, and a revoked row does not change at all. */
  lemma {:induction false} RowStays(w: World, events: seq<Event>, token: string)
    requires token in w.rows
    ensures
      var rows := Run(w, events).rows;
      && token in rows
      && rows[token] == w.rows[token].(revokedAt := rows[token].revokedAt)
      && (w.rows[token].revokedAt.Some? ==> rows[token] == w.rows[token])
  {
    if events != [] {
      RowStays(w, events[..|events| - 1], token);
    }
  }

  /** A consumed or revoked token is never accepted again: after any run a refresh with it
      changes nothing, and its revocation time stands. */
  lemma RevokedIsNeverAccepted(w: World, events: seq<Event>, token: string, found: bool, newToken: string, lifetime: int, now: int)
    requires token in w.rows && w.rows[token].revokedAt.Some?
    ensures Step(Run(w, events), RefreshWith(token, found, newToken, lifetime, now)) == Run(w, events)
    ensures !Active(Run(w, events).rows, token, now)
    ensures token in Run(w, events).rows && Run(w, events).rows[token] == w.rows[token]
  {
    RowStays(w, events, token);
  }

  // ---- expiry --------------------------------------------------------------------------------

  /** From its expiry on a token changes nothing, revoked or not. */
  lemma ExpiredIsRefused(w: World, token: string, found: bool, newToken: string, lifetime: int, now: int)
    requires token in w.rows && w.rows[token].expiresAt <= now
    ensures Step(w, RefreshWith(token, found, newToken, lifetime, now)) == w
  {
  }

  /** The token a request puts into the table, for its lifetime and the user it is for. */
  ghost predicate Issues(w: World, e: Event) {
    (e.LoginAs? || e.RefreshWith?) && e.newToken !in w.rows && e.newToken in Step(w, e).rows
  }

  /** A login puts its token in whenever it is unused. A refresh does whenever its new token is
      unused and the one it presents is on record, unexpired, unrevoked and of a readable user. */
  lemma IssuesIff(w: World, e: Event)
    requires e.LoginAs? || e.RefreshWith?
    ensures Issues(w, e)
            <==> && e.newToken !in w.rows
                 && (e.RefreshWith? ==>
                       e.found && e.token in w.rows && e.now < w.rows[e.token].expiresAt && w.rows[e.token].revokedAt.None?)
  {
  }

  /** A token's life, whatever comes between: issued at a time for a lifetime, it is for the
      user who logged in, or whose token was rotated, and it can be rotated exactly while that
      lifetime lasts and it was neither rotated nor logged out. */
  lemma TokenLife(w: World, e: Event, events: seq<Event>, unused: string, lifetime: int, now: int)
    requires Inv(w) && Issues(w, e)
    requires unused !in Run(Step(w, e), events).rows
    ensures
      var token, end := e.newToken, Run(Step(w, e), events);
      && token in end.rows
      && (e.LoginAs? ==> end.rows[token].user == e.user)
      && (e.RefreshWith? ==> e.token in w.rows && end.rows[token].user == w.rows[e.token].user)
      && (Issues(end, RefreshWith(token, true, unused, lifetime, now))
          <==> now < e.now + e.lifetime && token !in end.loggedOut && token !in Consumed(end.rotations))
  {
    IssuedRow(w, e);
    StepKeeps(w, e);
    RunKeeps(Step(w, e), events);
    RowStays(Step(w, e), events, e.newToken);
    RotatableIff(Run(Step(w, e), events), e.newToken, unused, lifetime, now);
  }

  lemma IssuedRow(w: World, e: Event)
    requires Issues(w, e)
    ensures e.RefreshWith? ==> e.token in w.rows
    ensures Step(w, e).rows[e.newToken] == Session(if e.LoginAs? then e.user else w.rows[e.token].user, e.now + e.lifetime, None)
  {
  }

  lemma RotatableIff(w: World, token: string, unused: string, lifetime: int, now: int)
    requires Placed(w) && token in w.rows && unused !in w.rows
    ensures Issues(w, RefreshWith(token, true, unused, lifetime, now))
            <==> now < w.rows[token].expiresAt && token !in w.loggedOut && token !in Consumed(w.rotations)
  {
    IssuesIff(w, RefreshWith(token, true, unused, lifetime, now));
    assert token in Unrevoked(w.rows) <==> token !in w.loggedOut + Consumed(w.rotations);
  }

  /** A rotation consumes the token presented and adds the new one; no other row moves. */
  lemma RotationIs(w: World, token: string, newToken: string, lifetime: int, now: int)
    requires Issues(w, RefreshWith(token, true, newToken, lifetime, now))
    ensures
      var after := Step(w, RefreshWith(token, true, newToken, lifetime, now));
      && token in w.rows && token != newToken
      && after.rows.Keys == w.rows.Keys + {newToken}
      && after.rows[token] == w.rows[token].(revokedAt := Some(now))
      && after.rows[newToken] == Session(w.rows[token].user, now + lifetime, None)
      && (forall t :: t in w.rows && t != token ==> after.rows[t] == w.rows[t])
      && after.rotations == w.rotations + [(token, newToken)]
  {
  }

  /** A logout revokes the row of its token at most, with its own time, and keeps the time of
      one revoked before; whitespace alone names no token. */
  lemma LogoutIs(w: World, token: string, now: int)
    ensures
      var after := Step(w, LogoutOf(token, now)).rows;
      && after.Keys == w.rows.Keys
      && (forall t :: t in w.rows && (t != token || Text.TrimSpace(t) == "" || w.rows[t].revokedAt.Some?) ==> after[t] == w.rows[t])
      && (token in w.rows && Text.TrimSpace(token) != "" && w.rows[token].revokedAt.None? ==>
            after[token] == w.rows[token].(revokedAt := Some(now)))
  {
  }

  /** A refresh that fails after its token was consumed leaves the token usable: the next
      refresh at that moment with a readable user and an unused new token goes through. It is
      refused exactly when the first would have been told the token is invalid. */
  lemma FailedRefreshKeepsToken(w: World, token: string, found: bool, newToken: string, other: string, lifetime: int, now: int)
    requires !Rotates(w.rows, token, found, newToken, now) && other !in w.rows
    ensures
      var after := Step(w, RefreshWith(token, found, newToken, lifetime, now));
      var again := Step(after, RefreshWith(token, true, other, lifetime, now));
      again.rotations == after.rotations + [(token, other)] <==> Active(w.rows, token, now)
  {
    var after := Step(w, RefreshWith(token, found, newToken, lifetime, now));
    if !Active(w.rows, token, now) {
      assert |after.rotations + [(token, other)]| != |after.rotations|;
    }
  }
}
