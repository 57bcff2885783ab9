/** Chapa's major-unit amounts: int64 minor units printed and parsed as decimal strings. */
module Money {
  import opened Prelude
  import opened Text

  const DECIMALS: nat := 2
  const SCALE: nat := 100

  function Pow10(n: nat): (p: nat)
    ensures p > 0
  {
    if n == 0 then 1 else 10 * Pow10(n - 1)
  }

  // ---- digits --------------------------------------------------------------------------------

  predicate AllDigits(s: string) { forall i :: 0 <= i < |s| ==> IsDigit(s[i]) }

  function DigitValue(c: char): nat { if IsDigit(c) then c as int - '0' as int else 0 }

  function DigitChar(d: nat): (c: char)
    requires d < 10
    ensures IsDigit(c) && DigitValue(c) == d
  {
    ('0' as int + d) as char
  }

  /** The number a string of digits denotes. */
  function Value(s: string): nat {
    if s == "" then 0 else 10 * Value(s[..|s| - 1]) + DigitValue(s[|s| - 1])
  }

  function Digits(n: nat): (s: string)
    ensures s != ""
  {
    if n < 10 then [DigitChar(n)] else Digits(n / 10) + [DigitChar(n % 10)]
  }

  /** strconv.FormatInt in base ten. */
  function Decimal(n: int): string { if n < 0 then "-" + Digits(-n) else Digits(n) }

  lemma {:induction false} DigitsRoundTrip(n: nat)
    ensures AllDigits(Digits(n)) && Value(Digits(n)) == n
    ensures Digits(n)[0] == '0' <==> n == 0
  {
    if n >= 10 {
      DigitsRoundTrip(n / 10);
      assert Digits(n)[..|Digits(n)| - 1] == Digits(n / 10);
    } else {
      assert Digits(n)[..0] == "";
    }
  }

  lemma {:induction false} ValueAppended(s: string, t: string)
    ensures Value(s + t) == Value(s) * Pow10(|t|) + Value(t)
  {
    if t == "" {
      assert s + t == s;
    } else {
      var front := t[..|t| - 1];
      ValueAppended(s, front);
      assert (s + t)[..|s + t| - 1] == s + front;
      TimesTen(Value(s), Pow10(|front|));
    }
  }

  lemma TimesTen(a: nat, p: nat)
    ensures a * (10 * p) == 10 * (a * p)
  {
  }

  lemma {:induction false} ValueBounded(s: string)
    ensures Value(s) < Pow10(|s|)
  {
    if s != "" {
      ValueBounded(s[..|s| - 1]);
    }
  }

  // ---- printing ------------------------------------------------------------------------------

  /** Go's division and remainder truncate towards zero. */
  function Divide(a: int, b: int): int
    requires b > 0
  {
    if a >= 0 then a / b else -((-a) / b)
  }

  function Modulo(a: int, b: int): int
    requires b > 0
  {
    if a >= 0 then a % b else -((-a) % b)
  }

  function Quot(a: int): int { Divide(a, SCALE) }

  function Rem(a: int): int { Modulo(a, SCALE) }

  lemma ScaleIs()
    ensures Pow10(0) == 1 && Pow10(1) == 10 && Pow10(DECIMALS) == SCALE
  {
    assert Pow10(1) == 10 * Pow10(0) && Pow10(2) == 10 * Pow10(1);
  }

  predicate Int64(n: int) { -TWO63 <= n < TWO63 }

  predicate IsZero(c: char) { c == '0' }

  function Zeros(n: nat): string { if n == 0 then "" else "0" + Zeros(n - 1) }

  function Fraction(frac: int, width: nat): string {
    var s := Decimal(frac);
    TrimRight(Zeros(if |s| < width then width - |s| else 0) + s, IsZero)
  }

  function Major(amount: int): string {
    var whole, frac := Quot(amount), Rem(amount);
    if frac == 0 then Decimal(whole) else Decimal(whole) + "." + Fraction(frac, DECIMALS)
  }

  method Int64Pow10(n: int) returns (v: int)
    ensures v == Wrap64(Pow10(if n > 0 then n else 0))
  {
    v := 1;
    var i := 0;
    while i < n
      invariant 0 <= i && (n > 0 ==> i <= n) && (n <= 0 ==> i == 0)
      invariant v == Wrap64(Pow10(i))
    {
      WrapTimesTen(Pow10(i));
      v := Wrap64(v * 10);
      i := i + 1;
    }
  }

  lemma WrapTimesTen(x: int)
    ensures Wrap64(Wrap64(x) * 10) == Wrap64(10 * x)
  {
    WrapCongruent(x);
    var k := (x - Wrap64(x)) / TWO64;
    assert 10 * x == Wrap64(x) * 10 + (10 * k) * TWO64;
    SameWrap(Wrap64(x) * 10, 10 * k);
  }

  method PadFraction(frac: int, width: nat) returns (s: string)
    ensures s == Fraction(frac, width)
  {
    s := Decimal(frac);
    ghost var start := s;
    ghost var k: nat := 0;
    while |s| < width
      invariant s == Zeros(k) + start
      invariant k == 0 || |s| <= width
      decreases width - |s|
    {
      s := "0" + s;
      k := k + 1;
    }
    ZerosLength(k);
    s := TrimRight(s, IsZero);
  }

  lemma ZerosLength(n: nat)
    ensures |Zeros(n)| == n
  {
  }

  method FormatMajor(amount: int) returns (s: string)
    requires Int64(amount)
    ensures s == Major(amount)
  {
    var scale := 1;
    for i := 0 to DECIMALS
      invariant scale == Pow10(i)
    {
      scale := scale * 10;
    }
    ScaleIs();
    var whole, frac := Divide(amount, scale), Modulo(amount, scale);
    if frac == 0 {
      return Decimal(whole);
    }
    var f := PadFraction(frac, DECIMALS);
    return Decimal(whole) + "." + f;
  }

  /** The output for amounts that are not negative: the whole part without leading zeros, then
      nothing, one digit or two, the last of them not a zero. */
  lemma MajorIsCanonical(n: nat)
    ensures Major(n) == Digits(n / 100) +
              if n % 100 == 0 then "" else if n % 10 == 0 then ['.', DigitChar(n / 10 % 10)]
              else ['.', DigitChar(n / 10 % 10), DigitChar(n % 10)]
    ensures Major(n)[0] == '0' <==> n < 100
  {
    DigitsRoundTrip(n / 100);
    if n % 100 != 0 {
      FractionDigits(n % 100);
      LowDigits(n);
      Join(Digits(n / 100), Fraction(n % 100, 2));
    }
  }

  lemma LowDigits(n: nat)
    ensures n % 100 / 10 == n / 10 % 10 && n % 100 % 10 == n % 10
  {
    var q, r := n / 100, n % 100;
    assert n == 10 * (10 * q + r / 10) + r % 10;
  }

  lemma Join(d: string, f: string)
    ensures d + "." + f == d + ("." + f)
  {
  }

  lemma FractionDigits(f: nat)
    requires 0 < f < 100
    ensures Fraction(f, 2) == if f % 10 == 0 then [DigitChar(f / 10)] else [DigitChar(f / 10), DigitChar(f % 10)]
  {
    var two := [DigitChar(f / 10), DigitChar(f % 10)];
    if f < 10 {
      assert Zeros(1) == "0" by { assert Zeros(0) == ""; }
      assert Zeros(1) + Digits(f) == two;
    } else {
      assert Digits(f / 10) == [DigitChar(f / 10)];
      assert Zeros(0) + Digits(f) == two;
    }
    assert Fraction(f, 2) == TrimRight(two, IsZero);
    if f % 10 == 0 {
      assert two[..1] == [DigitChar(f / 10)];
      assert TrimRight(two, IsZero) == TrimRight([DigitChar(f / 10)], IsZero);
    }
  }

  // ---- parsing ---------------------------------------------------------------------------------

  /** strconv.ParseInt in base ten, 64 bits. */
  function ParseInt(s: string): Option<int> {
    var neg := s != "" && s[0] == '-';
    var digits := if s != "" && s[0] in {'-', '+'} then s[1..] else s;
    if digits == "" || !AllDigits(digits) then None
    else
      var n: int := Value(digits);
      if neg then (if n <= TWO63 then Some(0 - n) else None)
      else if n < TWO63 then Some(n) else None
  }

  /** strings.SplitN(s, ".", 2): the text before the first point, and after it if there is one. */
  function Split(s: string): (string, Option<string>) {
    if s == "" then ("", None)
    else if s[0] == '.' then ("", Some(s[1..]))
    else
      var (head, tail) := Split(s[1..]);
      ([s[0]] + head, tail)
  }

  function Cut(f: string): string { if |f| > DECIMALS then f[..DECIMALS] else f }

  /** The hundredths a fraction's text denotes: its first two digits, or none at all when one of
      its first two characters is not a digit. */
  function Hundredths(f: string): nat {
    var c := Cut(f);
    if !AllDigits(c) || c == "" then 0 else if |c| == 1 then 10 * Value(c) else Value(c)
  }

  function Unsigned(s: string): Option<int> {
    var (head, tail) := Split(s);
    match ParseInt(head)
    case None => None
    case Some(whole) =>
      Some(Wrap64(Wrap64(whole * SCALE) + if tail.Some? then Hundredths(tail.value) else 0))
  }

  function Parsed(input: string): int {
    var s := TrimSpace(input);
    if s == "" then 0
    else if s[0] == '-' then
      (match Unsigned(s[1..]) case None => 0 case Some(v) => Wrap64(-v))
    else
      (match Unsigned(s) case None => 0 case Some(v) => v)
  }

  /** parseMajor's loops over the fraction: read up to two digits, forget them all at a
      character that is none, and scale. */
  method ReadHundredths(text: string) returns (frac: nat)
    ensures frac == Hundredths(text)
  {
    var f := text;
    if |f| > DECIMALS {
      f := f[..DECIMALS];
    }
    var cut := f;
    frac := 0;
    for i := 0 to |cut|
      invariant f == cut
      invariant AllDigits(cut[..i])
      invariant frac == Value(cut[..i])
    {
      if !IsDigit(f[i]) {
        frac := 0;
        f := "";
        break;
      }
      assert cut[..i + 1][..i] == cut[..i];
      frac := frac * 10 + DigitValue(f[i]);
    }
    assert cut[..|cut|] == cut;
    ghost var read := frac;
    for i := |f| to DECIMALS
      invariant frac == if i == |f| then read else if i == |f| + 1 then 10 * read else 100 * read
    {
      frac := frac * 10;
    }
  }

  method ParseMajor(input: string) returns (v: int)
    ensures v == Parsed(input)
    ensures Int64(v)
  {
    var s := TrimSpace(input);
    if s == "" {
      return 0;
    }
    var neg := false;
    if s[0] == '-' {
      neg := true;
      s := s[1..];
    }
    var (head, tail) := Split(s);
    var whole := ParseInt(head);
    if whole.None? {
      return 0;
    }
    var frac := 0;
    if tail.Some? {
      frac := ReadHundredths(tail.value);
    }
    var scale := Int64Pow10(DECIMALS);
    ScaleIs();
    WrapExact(SCALE);
    v := Wrap64(Wrap64(whole.value * scale) + frac);
    if neg {
      v := Wrap64(-v);
    }
  }

  lemma {:induction false} SplitAtPoint(head: string, tail: string)
    requires '.' !in head
    ensures Split(head) == (head, None)
    ensures Split(head + "." + tail) == (head, Some(tail))
  {
    if head == "" {
      assert head + "." + tail == "." + tail;
      assert ("." + tail)[1..] == tail;
    } else {
      SplitAtPoint(head[1..], tail);
      assert (head + "." + tail)[1..] == head[1..] + "." + tail;
      assert head == [head[0]] + head[1..];
    }
  }

  // ---- the round trip ----------------------------------------------------------------------------

  /** What the parser reads of a printed fraction: all of it, or none of a negative one. */
  lemma FractionRead(frac: int)
    requires -100 < frac < 100 && frac != 0
    ensures Fraction(frac, 2) != "" && IsDigit(Fraction(frac, 2)[|Fraction(frac, 2)| - 1])
    ensures Hundredths(Fraction(frac, 2)) == if frac > 0 then frac else 0
  {
    var s := Fraction(frac, 2);
    if frac > 0 {
      FractionDigits(frac);
      if |s| == 2 {
        TwoDigits(s);
      } else {
        assert s[..0] == "";
      }
    } else {
      NegativeFraction(-frac);
      assert !IsDigit(Cut(s)[0]);
    }
  }

  lemma TwoDigits(s: string)
    requires |s| == 2
    ensures Value(s) == 10 * DigitValue(s[0]) + DigitValue(s[1])
  {
    assert s[..1] == [s[0]] && [s[0]][..0] == "";
    assert Value([s[0]]) == DigitValue(s[0]);
  }

  lemma NegativeFraction(n: int)
    requires 0 < n < 100
    ensures var s := Fraction(-n, 2); |s| >= 2 && s[0] == '-' && IsDigit(s[|s| - 1])
  {
    var digits := Digits(n);
    DigitsRoundTrip(n);
    var s := "-" + digits;
    assert Zeros(0) + s == s;
    TrimRightIs(s, IsZero);
    var k := |TrimRight(s, IsZero)|;
    assert s[1] == digits[0] && !IsZero(s[1]);
    assert s[k - 1] == digits[k - 2];
  }

  lemma DigitsParse(n: nat)
    requires n < TWO63
    ensures ParseInt(Digits(n)) == Some(n) && '.' !in Digits(n)
  {
    DigitsRoundTrip(n);
  }

  /** What Unsigned makes of a whole part and a fraction, with the sum wrapped once. */
  lemma UnsignedOf(head: string, whole: nat, tail: string)
    requires '.' !in head && ParseInt(head) == Some(whole)
    ensures Unsigned(head) == Some(Wrap64(whole * 100))
    ensures Unsigned(head + "." + tail) == Some(Wrap64(whole * 100 + Hundredths(tail)))
  {
    SplitAtPoint(head, tail);
    HundredthsBounded(tail);
    SumWrapsOnce(whole * 100, 0);
    SumWrapsOnce(whole * 100, Hundredths(tail));
  }

  lemma SumWrapsOnce(a: int, b: int)
    requires 0 <= b < 100
    ensures Wrap64(Wrap64(a) + b) == Wrap64(a + b)
  {
    WrapAdd(a, b);
  }

  function Written(whole: nat, frac: int): string {
    if frac == 0 then Digits(whole) else Digits(whole) + "." + Fraction(frac, 2)
  }

  lemma UnsignedWritten(whole: nat, frac: int, v: nat)
    requires -100 < frac < 100 && whole < TWO63 && v == if frac > 0 then whole * 100 + frac else whole * 100
    ensures Unsigned(Written(whole, frac)) == Some(Wrap64(v))
  {
    if frac == 0 {
      UnsignedDigits(whole, "");
    } else {
      FractionRead(frac);
      UnsignedPoint(whole, frac, Fraction(frac, 2), v);
    }
  }

  lemma UnsignedPoint(whole: nat, frac: int, f: string, v: nat)
    requires frac != 0 && whole < TWO63 && f == Fraction(frac, 2) && v == whole * 100 + Hundredths(f)
    ensures Unsigned(Written(whole, frac)) == Some(Wrap64(v))
  {
    UnsignedDigits(whole, f);
  }

  lemma UnsignedDigits(whole: nat, f: string)
    requires whole < TWO63
    ensures Unsigned(Digits(whole)) == Some(Wrap64(whole * 100))
    ensures Unsigned(Digits(whole) + "." + f) == Some(Wrap64(whole * 100 + Hundredths(f)))
  {
    DigitsParse(whole);
    UnsignedOf(Digits(whole), whole, f);
  }

  lemma WrittenEnds(whole: nat, frac: int)
    requires -100 < frac < 100
    ensures var t := Written(whole, frac); t != "" && IsDigit(t[0]) && IsDigit(t[|t| - 1])
  {
    DigitsRoundTrip(whole);
    if frac != 0 {
      FractionRead(frac);
    }
  }

  lemma MajorIsWritten(n: int)
    ensures Major(n) == if Quot(n) < 0 then "-" + Written(-Quot(n), Rem(n)) else Written(Quot(n), Rem(n))
  {
    if Quot(n) < 0 && Rem(n) != 0 {
      var d, f := Digits(-Quot(n)), Fraction(Rem(n), 2);
      assert "-" + d + "." + f == "-" + (d + "." + f);
    }
  }

  lemma ParsedSigned(t: string, v: int)
    requires t != "" && IsDigit(t[0]) && IsDigit(t[|t| - 1])
    requires Unsigned(t) == Some(v)
    ensures Parsed(t) == v && Parsed("-" + t) == Wrap64(-v)
  {
    TrimKeeps(t, IsSpace);
    TrimKeeps("-" + t, IsSpace);
    assert ("-" + t)[1..] == t;
  }

  lemma QuotRem(n: int)
    ensures n == Quot(n) * 100 + Rem(n) && -100 < Rem(n) < 100
    ensures n >= 0 ==> Quot(n) >= 0 && Rem(n) >= 0
    ensures n < 0 ==> Quot(n) <= 0 && Rem(n) <= 0
  {
  }

  lemma InRange(v: int)
    requires 0 <= v < TWO63
    ensures Wrap64(v) == v && Wrap64(-v) == -v
  {
    WrapExact(v);
    WrapExact(-v);
  }

  lemma ParsedWritten(size: nat, frac: int, v: int)
    requires -100 < frac < 100 && 0 <= v < TWO63 && v == if frac > 0 then size * 100 + frac else size * 100
    ensures Parsed(Written(size, frac)) == v && Parsed("-" + Written(size, frac)) == -v
  {
    InRange(v);
    WrittenEnds(size, frac);
    UnsignedWritten(size, frac, v);
    ParsedSigned(Written(size, frac), v);
  }

  /** Printing an int64 amount and parsing it back loses exactly the hundredths of a negative
      amount, because the sign is printed a second time after the point ("-1.-5"). */
  lemma ParsedMajor(n: int)
    requires Int64(n)
    ensures Parsed(Major(n)) == if n >= 0 then n else n - Rem(n)
  {
    var whole, frac := Quot(n), Rem(n);
    QuotRem(n);
    MajorIsWritten(n);
    var size: nat := if whole < 0 then -whole else whole;
    ParsedWritten(size, frac, if frac > 0 then size * 100 + frac else size * 100);
  }

  /** The amounts that survive: those not negative, and the negative whole ones. */
  lemma RoundTripIff(n: int)
    requires Int64(n)
    ensures Parsed(Major(n)) == n <==> n >= 0 || n % 100 == 0
  {
    ParsedMajor(n);
    if n < 0 {
      WholeIff(n);
    }
  }

  lemma WholeIff(n: int)
    requires n < 0
    ensures Rem(n) == 0 <==> n % 100 == 0
  {
  }

  /** A negative amount with hundredths: they carry their own sign and lose their zeros, so five
      hundredths and fifty look the same. */
  lemma NegativeMajor(q: int, r: int)
    requires q >= 0 && 0 < r < 100
    ensures Major(-(100 * q + r)) == (if q == 0 then "0" else "-" + Digits(q)) + "." + ("-" + TrimRight(Digits(r), IsZero))
  {
    NegativeParts(q, r);
    NegativeFractionIs(r);
    MajorOf(-(100 * q + r), -q, -r);
    NegativeDecimal(q);
  }

  lemma NegativeParts(q: int, r: int)
    requires q >= 0 && 0 < r < 100
    ensures Quot(-(100 * q + r)) == -q && Rem(-(100 * q + r)) == -r
  {
  }

  lemma MajorOf(n: int, whole: int, frac: int)
    requires Quot(n) == whole && Rem(n) == frac && frac != 0
    ensures Major(n) == Decimal(whole) + "." + Fraction(frac, 2)
  {
  }

  lemma NegativeDecimal(q: int)
    requires q >= 0
    ensures Decimal(-q) == if q == 0 then "0" else "-" + Digits(q)
  {
    assert Digits(0) == "0" by { assert DigitChar(0) == '0'; }
  }

  lemma NegativeFractionIs(r: int)
    requires 0 < r < 100
    ensures Fraction(-r, 2) == "-" + TrimRight(Digits(r), IsZero)
  {
    var f := Digits(r);
    assert Zeros(0) + ("-" + f) == "-" + f;
    MinusStays(f);
  }

  lemma {:induction false} MinusStays(f: string)
    ensures TrimRight("-" + f, IsZero) == "-" + TrimRight(f, IsZero)
  {
    if f != "" && IsZero(f[|f| - 1]) {
      MinusStays(f[..|f| - 1]);
      assert ("-" + f)[..|f|] == "-" + f[..|f| - 1];
    }
  }

  // ---- the value of any decimal string --------------------------------------------------------------

  /** A hundred times the number written `whole.frac`, rounded down. */
  function Floor100(whole: string, frac: string): int {
    Value(whole + frac) * 100 / Pow10(|frac|)
  }

  lemma DivSum(q: int, r: int, p: int)
    requires p > 0
    ensures (q * p + r) / p == q + r / p
  {
    var d := r / p;
    assert r == d * p + r % p;
    assert q * p + r == (q + d) * p + r % p;
    DivUnique(q * p + r, q + d, r % p, p);
  }

  lemma DivUnique(x: int, q: int, r: int, p: int)
    requires p > 0 && x == q * p + r && 0 <= r < p
    ensures x / p == q
  {
    var d := x / p - q;
    assert x == (x / p) * p + x % p;
    assert d * p == r - x % p;
    Multiples(d, p);
  }

  lemma Multiples(d: int, p: int)
    requires p > 0
    ensures d >= 1 ==> d * p >= p
    ensures d <= -1 ==> d * p <= -p
  {
  }

  /** The fraction is cut, not rounded: two digits are a hundred times it, rounded down. */
  lemma HundredthsIsFloor(frac: string)
    requires AllDigits(frac)
    ensures Hundredths(frac) == Value(frac) * 100 / Pow10(|frac|)
  {
    if |frac| <= 2 {
      ShortFraction(frac, Value(frac), Pow10(|frac|));
    } else {
      assert frac == frac[..2] + frac[2..];
      LongFraction(frac[..2], frac[2..]);
    }
  }

  lemma ShortFraction(frac: string, v: nat, p: nat)
    requires |frac| <= 2 && AllDigits(frac) && v == Value(frac) && p == Pow10(|frac|)
    ensures p > 0 && Hundredths(frac) == v * 100 / p
  {
    ScaleIs();
    assert p == if |frac| == 0 then 1 else if |frac| == 1 then 10 else 100;
  }

  lemma LongFraction(a: string, b: string)
    requires |a| == 2 && AllDigits(a)
    ensures Hundredths(a + b) == Value(a + b) * 100 / Pow10(|a + b|)
  {
    assert Cut(a + b) == a;
    ValueAppended(a, b);
    ValueBounded(b);
    PowSum(|b|);
    TailFloor(Value(a), Value(b), Pow10(|b|));
  }

  lemma TailFloor(v: nat, w: nat, p: nat)
    requires w < p
    ensures (v * p + w) * 100 / (100 * p) == v
  {
    Reorder(v, p);
    DivUnique((v * p + w) * 100, v, w * 100, 100 * p);
  }

  lemma PowSum(n: nat)
    ensures Pow10(n + 2) == 100 * Pow10(n)
  {
    assert Pow10(n + 2) == 10 * Pow10(n + 1);
  }

  lemma FloorSplits(whole: string, frac: string)
    requires AllDigits(frac)
    ensures Floor100(whole, frac) == Value(whole) * 100 + Hundredths(frac)
  {
    var p := Pow10(|frac|);
    ValueAppended(whole, frac);
    HundredthsIsFloor(frac);
    assert Value(whole + frac) * 100 == (Value(whole) * 100) * p + Value(frac) * 100 by {
      Reorder(Value(whole), p);
    }
    DivSum(Value(whole) * 100, Value(frac) * 100, p);
  }

  lemma Reorder(w: nat, p: nat)
    ensures (w * p) * 100 == (w * 100) * p == w * (100 * p)
  {
  }

  /** What is read of a decimal string without a sign, before any wrap-around is judged. */
  lemma ParsedPlain(input: string, whole: string, frac: string, point: bool)
    requires AllDigits(whole) && AllDigits(frac) && (!point ==> frac == "")
    requires TrimSpace(input) == whole + (if point then "." + frac else "")
    ensures Parsed(input) == if whole == "" || Value(whole) >= TWO63 then 0
                             else Wrap64(Value(whole) * 100 + Hundredths(frac))
  {
    var s := TrimSpace(input);
    assert Hundredths("") == 0;
    SplitAtPoint(whole, frac);
    assert s == if point then whole + "." + frac else whole;
    assert s != "" ==> s[0] != '-';
    if whole != "" && Value(whole) < TWO63 {
      UnsignedOf(whole, Value(whole), frac);
    } else {
      assert ParseInt(whole) == None;
    }
  }

  /** A decimal string without a sign, spaces around it allowed, is parsed as a hundred times its
      value rounded down exactly when that fits an int64 and the string has a digit before its
      point (".5" is read as nothing); too large a number is read as zero or wraps. */
  lemma ParsedIsFloorIff(input: string, whole: string, frac: string, point: bool)
    requires AllDigits(whole) && AllDigits(frac) && (!point ==> frac == "")
    requires TrimSpace(input) == whole + (if point then "." + frac else "")
    ensures Parsed(input) == Floor100(whole, frac)
            <==> Floor100(whole, frac) == 0 || (whole != "" && Floor100(whole, frac) < TWO63)
  {
    ParsedPlain(input, whole, frac, point);
    FloorSplits(whole, frac);
    FitsIff(whole == "", Value(whole), Hundredths(frac), Floor100(whole, frac), Parsed(input));
  }

  /** A leading minus negates, in int64 arithmetic, whatever follows it. */
  lemma MinusNegates(t: string)
    requires t != "" && Cleared(t, IsSpace) && t[0] != '-'
    ensures Parsed("-" + t) == Wrap64(-Parsed(t))
  {
    TrimKeeps(t, IsSpace);
    TrimKeeps("-" + t, IsSpace);
    assert ("-" + t)[1..] == t;
  }

  /** A whole part that is empty or holds anything but digits is read as zero, whatever follows
      the point. */
  lemma BadWholeIsZero(input: string, whole: string, frac: string)
    requires '.' !in whole && TrimSpace(input) == whole + "." + frac
    requires whole == "" || (whole[0] !in {'-', '+'} && !AllDigits(whole))
    ensures Parsed(input) == 0
  {
    SplitAtPoint(whole, frac);
    assert (whole + "." + frac)[0] == if whole == "" then '.' else whole[0];
  }

  /** A character that is no digit among the first two after the point drops the fraction. */
  lemma BadFractionIsDropped(input: string, whole: string, frac: string, i: nat)
    requires whole != "" && AllDigits(whole) && Value(whole) < TWO63
    requires TrimSpace(input) == whole + "." + frac
    requires i < 2 && i < |frac| && !IsDigit(frac[i])
    ensures Parsed(input) == Wrap64(Value(whole) * 100)
  {
    assert Cut(frac)[i] == frac[i];
    UnsignedOf(whole, Value(whole), frac);
    assert (whole + "." + frac)[0] == whole[0];
  }

  lemma FitsIff(empty: bool, w: nat, h: nat, n: int, read: int)
    requires n == w * 100 + h
    requires empty ==> w == 0
    requires read == if empty || w >= TWO63 then 0 else Wrap64(n)
    ensures read == n <==> n == 0 || (!empty && n < TWO63)
  {
    WrapExact(n);
  }

  lemma HundredthsBounded(frac: string)
    ensures Hundredths(frac) < 100
  {
    ScaleIs();
    ValueBounded(Cut(frac));
  }
}
