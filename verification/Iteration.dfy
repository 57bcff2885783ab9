/** Doing one step over and over. */
module Iteration {

  function Iterate<T>(f: T -> T, x: T, k: nat): T {
    if k == 0 then x else f(Iterate(f, x, k - 1))
  }

  /** The state after k steps. */
  function After<T>(f: T -> T, x: T, k: nat): T { Iterate(f, x, k) }

  lemma {:induction false} AfterFrom<T>(f: T -> T, x: T, k: nat)
    ensures After(f, x, k + 1) == After(f, f(x), k)
  {
    if k > 0 {
      AfterFrom(f, x, k - 1);
      assert After(f, x, k + 1) == f(After(f, x, k));
    } else {
      assert After(f, x, 1) == f(After(f, x, 0));
    }
  }

  lemma {:induction false} StepsKeep<T(!new)>(f: T -> T, same: T -> bool, x: T, k: nat)
    requires same(x) && forall y {:trigger f(y)} :: same(y) ==> same(f(y))
    ensures same(After(f, x, k))
  {
    if k > 0 {
      StepsKeep(f, same, x, k - 1);
    }
  }

  /** A property a step keeps exactly on fair states, and never restores, holds after k steps
      exactly when it held at first and every state on the way was fair. */
  lemma {:induction false} StepsKeepIff<T(!new)>(f: T -> T, good: T -> bool, fair: T -> bool, x: T, k: nat)
    requires forall y {:trigger f(y)} :: good(f(y)) <==> good(y) && fair(y)
    ensures good(After(f, x, k)) <==> good(x) && forall j: nat :: j < k ==> fair(After(f, x, j))
  {
    if k > 0 {
      StepsKeepIff(f, good, fair, x, k - 1);
      assert After(f, x, k) == f(After(f, x, k - 1));
    }
  }

  /** Steps that lower a rank until they are done are done after at most rank + 1 of them. */
  lemma {:induction false} StepsEnd<T(!new)>(f: T -> T, done: T -> bool, ok: T -> bool, rank: T -> nat, x: T)
    returns (k: nat)
    requires ok(x) && forall y {:trigger f(y)} :: ok(y) && !done(f(y)) ==> ok(f(y)) && rank(f(y)) < rank(y)
    ensures 1 <= k <= rank(x) + 1
    ensures done(After(f, x, k)) && forall j: nat :: 1 <= j < k ==> !done(After(f, x, j))
    decreases rank(x)
  {
    var m: nat := 0;
    if !done(f(x)) {
      m := StepsEnd(f, done, ok, rank, f(x));
    }
    k := m + 1;
    AfterFrom(f, x, m);
    forall j: nat | 1 <= j < k ensures !done(After(f, x, j)) {
      AfterFrom(f, x, j - 1);
    }
  }

  /** What a step's outcome says of the state before it, said of the last of k steps. */
  lemma LastStep<T(!new)>(f: T -> T, done: T -> bool, out: T -> bool, good: T -> bool, x: T, k: nat)
    requires forall y {:trigger f(y)} :: done(f(y)) ==> (out(f(y)) <==> good(y))
    requires k >= 1 && done(After(f, x, k))
    ensures out(After(f, x, k)) <==> good(After(f, x, k - 1))
  {
    assert After(f, x, k) == f(After(f, x, k - 1));
  }

  lemma OutcomeIff<T(!new)>(f: T -> T, done: T -> bool, out: T -> bool, good: T -> bool, fair: T -> bool, x: T, k: nat)
    requires forall y {:trigger f(y)} :: good(f(y)) <==> good(y) && fair(y)
    requires forall y {:trigger f(y)} :: done(f(y)) ==> (out(f(y)) <==> good(y))
    requires k >= 1 && done(After(f, x, k))
    ensures out(After(f, x, k)) <==> good(x) && forall j: nat :: j < k - 1 ==> fair(After(f, x, j))
  {
    LastStep(f, done, out, good, x, k);
    StepsKeepIff(f, good, fair, x, k - 1);
  }
}
