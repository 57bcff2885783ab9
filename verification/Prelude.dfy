/** Small shared definitions. */
module Prelude {
  datatype Option<+T> = None | Some(value: T)

  const TWO63: int := 0x8000_0000_0000_0000
  const TWO64: int := 0x1_0000_0000_0000_0000

  /** The int64 a Go expression of mathematical value x evaluates to. */
  function Wrap64(x: int): (w: int)
    ensures -TWO63 <= w < TWO63
  {
    var m := x % TWO64;
    if m >= TWO63 then m - TWO64 else m
  }

  /** Go's arithmetic is a ring homomorphism: wrapping early or late is the same. */
  lemma WrapAdd(a: int, b: int)
    ensures Wrap64(Wrap64(a) + Wrap64(b)) == Wrap64(a + b)
  {
    WrapCongruent(a);
    WrapCongruent(b);
    var ka, kb := (a - Wrap64(a)) / TWO64, (b - Wrap64(b)) / TWO64;
    assert a + b == Wrap64(a) + Wrap64(b) + (ka + kb) * TWO64;
    SameWrap(Wrap64(a) + Wrap64(b), ka + kb);
  }

  lemma WrapCongruent(x: int)
    ensures (x - Wrap64(x)) % TWO64 == 0
  {
    var k := x / TWO64;
    assert x == k * TWO64 + x % TWO64;
  }

  lemma SameWrap(x: int, k: int)
    ensures Wrap64(x + k * TWO64) == Wrap64(x)
  {
    assert (x + k * TWO64) % TWO64 == x % TWO64;
  }

  /** A wrapped value is the true one exactly when the true one fits. */
  lemma WrapExact(x: int)
    ensures Wrap64(x) == x <==> -TWO63 <= x < TWO63
  {
  }
}
