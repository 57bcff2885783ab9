/** Go string helpers, on the characters of valid UTF-8 strings. */
module Text {

  /** Go's unicode.IsSpace. */
  predicate IsSpace(c: char) {
    c in {'\t', '\n', '\U{0B}', '\U{0C}', '\r', ' ', '\U{85}', '\U{A0}', '\U{1680}',
          '\U{2028}', '\U{2029}', '\U{202F}', '\U{205F}', '\U{3000}'}
    || '\U{2000}' <= c <= '\U{200A}'
  }

  predicate IsDigit(c: char) { '0' <= c <= '9' }

  function TrimLeft(s: string, cut: char -> bool): string {
    if s != "" && cut(s[0]) then TrimLeft(s[1..], cut) else s
  }

  function TrimRight(s: string, cut: char -> bool): string {
    if s != "" && cut(s[|s| - 1]) then TrimRight(s[..|s| - 1], cut) else s
  }

  function Trim(s: string, cut: char -> bool): string { TrimRight(TrimLeft(s, cut), cut) }

  function TrimSpace(s: string): string { Trim(s, IsSpace) }

  predicate Cleared(s: string, cut: char -> bool) {
    s == "" || (!cut(s[0]) && !cut(s[|s| - 1]))
  }

  /** Trim removes a cut prefix and a cut suffix, and leaves no cut character at either end. */
  lemma {:induction false} TrimLeftIs(s: string, cut: char -> bool)
    ensures var n := |s| - |TrimLeft(s, cut)|;
            && 0 <= n && TrimLeft(s, cut) == s[n..]
            && (forall i :: 0 <= i < n ==> cut(s[i]))
            && (n < |s| ==> !cut(s[n]))
  {
    if s != "" && cut(s[0]) {
      TrimLeftIs(s[1..], cut);
    }
  }

  lemma {:induction false} TrimRightIs(s: string, cut: char -> bool)
    ensures var n := |TrimRight(s, cut)|;
            && n <= |s| && TrimRight(s, cut) == s[..n]
            && (forall i :: n <= i < |s| ==> cut(s[i]))
            && (n > 0 ==> !cut(s[n - 1]))
  {
    if s != "" && cut(s[|s| - 1]) {
      TrimRightIs(s[..|s| - 1], cut);
    }
  }

  lemma TrimIs(s: string, cut: char -> bool) returns (i: nat, j: nat)
    ensures i <= j <= |s| && Trim(s, cut) == s[i..j]
    ensures forall k :: 0 <= k < i || j <= k < |s| ==> cut(s[k])
    ensures i < j ==> !cut(s[i]) && !cut(s[j - 1])
  {
    TrimLeftIs(s, cut);
    var t := TrimLeft(s, cut);
    TrimRightIs(t, cut);
    i := |s| - |t|;
    j := i + |TrimRight(t, cut)|;
    assert forall k :: i <= k < |s| ==> s[k] == t[k - i];
  }

  /** Nothing to trim, nothing trimmed. */
  lemma TrimKeeps(s: string, cut: char -> bool)
    requires Cleared(s, cut)
    ensures Trim(s, cut) == s
  {
  }
}
