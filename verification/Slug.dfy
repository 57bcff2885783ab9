/** Organizer slugs. */
module Slug {
  import opened Text

  predicate IsSlugChar(c: char) { 'a' <= c <= 'z' || IsDigit(c) }

  predicate IsDash(c: char) { c == '-' }

  /** unicode.ToLower as far as a slug can tell: the capitals with an ASCII lower case are
      mapped, the Kelvin sign and the dotted capital I among them; every other character
      stays outside a-z and 0-9 whatever its lower case is. */
  function LowerChar(c: char): char {
    if 'A' <= c <= 'Z' then (c as int - 'A' as int + 'a' as int) as char
    else if c == '\U{212A}' then 'k'
    else if c == '\U{130}' then 'i'
    else c
  }

  function Lower(s: string): (t: string)
    ensures |t| == |s|
  {
    seq(|s|, i requires 0 <= i < |s| => LowerChar(s[i]))
  }

  /** Replaces every maximal run of other characters by one dash; `inRun` says that the
      character before s was one of them. */
  function Collapse(s: string, inRun: bool): string {
    if s == "" then ""
    else if IsSlugChar(s[0]) then [s[0]] + Collapse(s[1..], false)
    else (if inRun then "" else "-") + Collapse(s[1..], true)
  }

  function Slugify(s: string): string { Trim(Collapse(Lower(TrimSpace(s)), false), IsDash) }

  function FirstNonEmpty(a: string, b: string): string { if TrimSpace(a) != "" then a else b }

  // ---- what a slug is ------------------------------------------------------------------------

  /** The maximal runs of slug characters. */
  function Words(s: string): (ws: seq<string>)
    ensures s != "" && IsSlugChar(s[0]) ==> ws != []
  {
    if s == "" then []
    else
      var ws := Words(s[1..]);
      if !IsSlugChar(s[0]) then ws
      else if |s| > 1 && IsSlugChar(s[1]) then [[s[0]] + ws[0]] + ws[1..]
      else [[s[0]]] + ws
  }

  function Join(ws: seq<string>): string {
    if ws == [] then "" else if |ws| == 1 then ws[0] else ws[0] + "-" + Join(ws[1..])
  }

  predicate IsWord(w: string) { w != "" && forall i :: 0 <= i < |w| ==> IsSlugChar(w[i]) }

  lemma {:induction false} WordsAreWords(s: string)
    ensures forall i :: 0 <= i < |Words(s)| ==> IsWord(Words(s)[i])
  {
    if s != "" {
      WordsAreWords(s[1..]);
    }
  }

  /** The dash Collapse leaves after the last word. */
  function Tail(s: string): string {
    if s != "" && !IsSlugChar(s[|s| - 1]) && Words(s) != [] then "-" else ""
  }

  lemma JoinNewWord(c: char, ws: seq<string>)
    requires ws != []
    ensures Join([[c]] + ws) == [c] + "-" + Join(ws)
  {
    var v := [[c]] + ws;
    assert |v| > 1 && v[0] == [c] && v[1..] == ws;
  }

  lemma JoinLongerWord(c: char, ws: seq<string>)
    requires ws != []
    ensures Join([[c] + ws[0]] + ws[1..]) == [c] + Join(ws)
  {
    var v := [[c] + ws[0]] + ws[1..];
    assert |v| == |ws| && v[0] == [c] + ws[0] && v[1..] == ws[1..];
    if |ws| > 1 {
      var rest := Join(ws[1..]);
      assert [c] + ws[0] + "-" + rest == [c] + (ws[0] + "-" + rest);
    }
  }

  lemma {:induction false} TailSteps(s: string)
    requires s != ""
    ensures Words(s[1..]) != [] ==> Tail(s) == Tail(s[1..])
    ensures Words(s[1..]) == [] && |s| > 1 ==> !IsSlugChar(s[|s| - 1])
  {
    if |s| > 1 {
      if Words(s[1..]) == [] {
        NoWords(s[1..]);
      }
      assert s[1..][|s| - 2] == s[|s| - 1];
    }
  }

  lemma {:induction false} NoWords(s: string)
    ensures Words(s) == [] <==> forall i :: 0 <= i < |s| ==> !IsSlugChar(s[i])
  {
    if s != "" {
      NoWords(s[1..]);
      if Words(s) == [] {
        assert forall i :: 0 < i < |s| ==> s[i] == s[1..][i - 1];
      } else if !IsSlugChar(s[0]) {
        var i :| 0 <= i < |s| - 1 && IsSlugChar(s[1..][i]);
        assert IsSlugChar(s[i + 1]);
      }
    }
  }

  function Spaced(s: string): string { Join(Words(s)) + Tail(s) }

  function Lead(s: string): string { if s != "" && !IsSlugChar(s[0]) then "-" else "" }

  lemma SpacedSteps(s: string)
    requires s != "" && IsSlugChar(s[0])
    ensures Spaced(s) == [s[0]] + (Lead(s[1..]) + Spaced(s[1..]))
  {
    TailSteps(s);
    if Words(s[1..]) == [] {
      OnlyWord(s);
    } else {
      JoinSteps(s);
      assert Join(Words(s)) + Tail(s) == [s[0]] + (Lead(s[1..]) + (Join(Words(s[1..])) + Tail(s[1..])));
    }
  }

  lemma OnlyWord(s: string)
    requires s != "" && IsSlugChar(s[0]) && Words(s[1..]) == []
    ensures Spaced(s) == [s[0]] + Lead(s[1..]) && Spaced(s[1..]) == ""
  {
    TailSteps(s);
    assert Words(s) == [[s[0]]] && Join([[s[0]]]) == [s[0]];
    assert Tail(s) == Lead(s[1..]);
  }

  lemma JoinSteps(s: string)
    requires s != "" && IsSlugChar(s[0]) && Words(s[1..]) != []
    ensures Join(Words(s)) == [s[0]] + (Lead(s[1..]) + Join(Words(s[1..])))
  {
    var ws, c := Words(s[1..]), s[0];
    if IsSlugChar(s[1]) {
      JoinLongerWord(c, ws);
    } else {
      JoinNewWord(c, ws);
      assert [c] + "-" + Join(ws) == [c] + ("-" + Join(ws));
    }
  }

  /** One pass over the string: its words joined by dashes, with a dash for what stands before
      the first of them and one for what stands after the last. */
  lemma {:induction false} CollapseIs(s: string, inRun: bool)
    ensures Collapse(s, inRun) == (if inRun then "" else Lead(s)) + Spaced(s)
  {
    if s != "" {
      if IsSlugChar(s[0]) {
        CollapseIs(s[1..], false);
        SpacedSteps(s);
      } else {
        CollapseIs(s[1..], true);
        TailSteps(s);
      }
    }
  }

  lemma {:induction false} JoinIsCleared(ws: seq<string>)
    requires forall i :: 0 <= i < |ws| ==> IsWord(ws[i])
    ensures Cleared(Join(ws), IsDash) && (Join(ws) == "" <==> ws == [])
  {
    if |ws| > 1 {
      JoinIsCleared(ws[1..]);
    } else if |ws| == 1 {
      assert IsWord(ws[0]);
    }
  }

  lemma TrimAround(lead: string, s: string, tail: string)
    requires lead in {"", "-"} && tail in {"", "-"} && Cleared(s, IsDash)
    requires s == "" ==> tail == ""
    ensures Trim(lead + s + tail, IsDash) == s
  {
    assert lead + s + tail == lead + (s + tail);
    DropLead(lead, s + tail);
    DropTail(s, tail);
  }

  lemma DropLead(lead: string, s: string)
    requires lead in {"", "-"} && (s == "" || !IsDash(s[0]))
    ensures TrimLeft(lead + s, IsDash) == s
  {
    if lead == "" {
      assert lead + s == s;
    } else {
      assert (lead + s)[1..] == s;
    }
  }

  lemma DropTail(s: string, tail: string)
    requires tail in {"", "-"} && (s == "" || !IsDash(s[|s| - 1]))
    ensures TrimRight(s + tail, IsDash) == s
  {
    if tail == "" {
      assert s + tail == s;
    } else {
      assert (s + tail)[..|s|] == s;
    }
  }

  lemma {:induction false} WordsWithout(s: string, i: nat, j: nat)
    requires i <= j <= |s|
    requires forall k :: 0 <= k < i || j <= k < |s| ==> !IsSlugChar(s[k])
    ensures Words(s) == Words(s[i..j])
    decreases |s|
  {
    if i > 0 {
      WordsWithout(s[1..], i - 1, j - 1);
      assert s[1..][i - 1..j - 1] == s[i..j];
    } else if j < |s| {
      DropLast(s);
      WordsWithout(s[..|s| - 1], i, j);
      assert s[..|s| - 1][i..j] == s[i..j];
    } else {
      assert s[i..j] == s;
    }
  }

  lemma {:induction false} DropLast(s: string)
    requires s != "" && !IsSlugChar(s[|s| - 1])
    ensures Words(s) == Words(s[..|s| - 1])
  {
    if |s| > 1 {
      DropLast(s[1..]);
      assert s[1..][..|s| - 2] == s[..|s| - 1][1..];
    }
  }

  /** A slug is the lower-cased name's runs of a-z and 0-9, in order, joined by single dashes. */
  lemma SlugIsJoinedWords(s: string)
    ensures Slugify(s) == Join(Words(Lower(s)))
  {
    var i, j := TrimIs(s, IsSpace);
    var t := Lower(TrimSpace(s));
    assert t == Lower(s)[i..j];
    forall k | 0 <= k < i || j <= k < |s| ensures !IsSlugChar(Lower(s)[k]) {
      assert IsSpace(s[k]);
    }
    WordsWithout(Lower(s), i, j);
    CollapseIs(t, false);
    WordsAreWords(t);
    JoinIsCleared(Words(t));
    assert Collapse(t, false) == Lead(t) + Join(Words(t)) + Tail(t);
    TrimAround(Lead(t), Join(Words(t)), Tail(t));
  }

  // ---- the normal form -------------------------------------------------------------------------

  /** Only a-z, 0-9 and single inner dashes. */
  predicate Normal(s: string) {
    && (forall i :: 0 <= i < |s| ==> IsSlugChar(s[i]) || s[i] == '-')
    && Cleared(s, IsDash)
    && (forall i :: 0 <= i < |s| - 1 ==> s[i] != '-' || s[i + 1] != '-')
  }

  lemma {:induction false} JoinIsNormal(ws: seq<string>)
    requires forall i :: 0 <= i < |ws| ==> IsWord(ws[i])
    ensures Normal(Join(ws))
  {
    if |ws| == 1 {
      assert IsWord(ws[0]);
    } else if |ws| > 1 {
      assert IsWord(ws[0]);
      JoinIsNormal(ws[1..]);
      JoinIsCleared(ws[1..]);
      NormalAfterWord(ws[0], Join(ws[1..]));
    }
  }

  lemma NormalAfterWord(w: string, rest: string)
    requires IsWord(w) && Normal(rest) && rest != ""
    ensures Normal(w + "-" + rest)
  {
    var n, s := |w|, w + "-" + rest;
    assert forall i :: 0 <= i < n ==> s[i] == w[i];
    assert forall i :: n < i < |s| ==> s[i] == rest[i - n - 1];
    assert s[n] == '-';
  }

  /** Single dashes are runs already. */
  lemma {:induction false} CollapseKeeps(s: string)
    requires forall i :: 0 <= i < |s| ==> IsSlugChar(s[i]) || s[i] == '-'
    requires forall i :: 0 <= i < |s| - 1 ==> s[i] != '-' || s[i + 1] != '-'
    ensures Collapse(s, false) == s
    ensures s != "" && IsSlugChar(s[0]) ==> Collapse(s, true) == s
  {
    if s != "" {
      CollapseKeeps(s[1..]);
      assert s == [s[0]] + s[1..];
      if s[0] == '-' && |s| > 1 {
        assert s[1] != '-' && s[1..][0] == s[1];
      }
    }
  }

  lemma NormalIsKept(s: string)
    requires Normal(s)
    ensures Slugify(s) == s
  {
    TrimKeeps(s, IsSpace);
    assert Lower(s) == s;
    CollapseKeeps(s);
    TrimKeeps(s, IsDash);
  }

  /** Slugs have the normal form, and exactly the strings in normal form are their own slug. */
  lemma FixedPointIff(s: string)
    ensures Normal(Slugify(s))
    ensures Slugify(s) == s <==> Normal(s)
  {
    SlugIsJoinedWords(s);
    WordsAreWords(Lower(s));
    JoinIsNormal(Words(Lower(s)));
    if Normal(s) {
      NormalIsKept(s);
    }
  }

  lemma SlugifyIsIdempotent(s: string)
    ensures Slugify(Slugify(s)) == Slugify(s)
  {
    FixedPointIff(s);
    FixedPointIff(Slugify(s));
  }

  /** A slug is empty exactly when no character of the name lower-cases into a-z or 0-9, as with
      a name written in Ethiopic script. */
  lemma EmptyIff(s: string)
    ensures Slugify(s) == "" <==> forall i :: 0 <= i < |s| ==> !IsSlugChar(LowerChar(s[i]))
  {
    SlugIsJoinedWords(s);
    WordsAreWords(Lower(s));
    JoinIsCleared(Words(Lower(s)));
    NoWords(Lower(s));
    assert forall i :: 0 <= i < |s| ==> Lower(s)[i] == LowerChar(s[i]);
  }

  /** The slug an application is stored under: of the name when the requested slug is nothing
      but whitespace, of the requested slug otherwise. */
  lemma RequestedSlug(slug: string, name: string)
    ensures Slugify(FirstNonEmpty(slug, name))
            == Slugify(if forall i :: 0 <= i < |slug| ==> IsSpace(slug[i]) then name else slug)
  {
    var i, j := TrimIs(slug, IsSpace);
  }

  /** A requested slug that is not blank is used even when nothing of it is left, so the name is
      not fallen back on. */
  lemma UnreadableSlugHidesName(slug: string, name: string)
    requires TrimSpace(slug) != "" && forall i :: 0 <= i < |slug| ==> !IsSlugChar(LowerChar(slug[i]))
    ensures Slugify(FirstNonEmpty(slug, name)) == ""
  {
    EmptyIff(slug);
  }
}
