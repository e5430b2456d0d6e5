/**
 * The pieces of Go's `strings` and `unicode` packages that the command-line
 * helpers rely on: white-space trimming, lower-casing and joining.
 */
module Text {

  /** Go's `unicode.IsSpace`: the Latin-1 spaces plus the Unicode White_Space runes. */
  predicate IsSpace(c: char) {
    || c == '\t' || c == '\n' || c == '\U{B}' || c == '\U{C}' || c == '\r' || c == ' '
    || c == '\U{85}' || c == '\U{A0}' || c == '\U{1680}'
    || ('\U{2000}' <= c <= '\U{200A}')
    || c == '\U{2028}' || c == '\U{2029}' || c == '\U{202F}' || c == '\U{205F}' || c == '\U{3000}'
  }

  predicate AllSpace(s: string) {
    forall i :: 0 <= i < |s| ==> IsSpace(s[i])
  }

  /** Drops the leading white space of `s`. */
  function TrimLeft(s: string): string {
    if s != [] && IsSpace(s[0]) then TrimLeft(s[1..]) else s
  }

  /** Drops the trailing white space of `s`. */
  function TrimRight(s: string): string {
    if s != [] && IsSpace(s[|s| - 1]) then TrimRight(s[..|s| - 1]) else s
  }

  /** TrimLeft keeps the longest suffix of `s` that does not start with a space. */
  lemma {:induction false} TrimLeftStrips(s: string)
    ensures var r := TrimLeft(s);
      && |r| <= |s| && r == s[|s| - |r|..]
      && AllSpace(s[..|s| - |r|])
      && (r == [] || !IsSpace(r[0]))
  {
    if s != [] && IsSpace(s[0]) {
      TrimLeftStrips(s[1..]);
      var r := TrimLeft(s);
      assert s[..|s| - |r|] == [s[0]] + s[1..][..|s| - 1 - |r|];
    }
  }

  /** TrimRight keeps the longest prefix of `s` that does not end in a space. */
  lemma {:induction false} TrimRightStrips(s: string)
    ensures var r := TrimRight(s);
      && |r| <= |s| && r == s[..|r|]
      && AllSpace(s[|r|..])
      && (r == [] || !IsSpace(r[|r| - 1]))
  {
    if s != [] && IsSpace(s[|s| - 1]) {
      var s' := s[..|s| - 1];
      TrimRightStrips(s');
      var r := TrimRight(s);
      assert s[|r|..] == s'[|r|..] + [s[|s| - 1]];
    }
  }

  /** Go's `strings.TrimSpace`. */
  function TrimSpace(s: string): string {
    TrimRight(TrimLeft(s))
  }

  function LowerChar(c: char): char {
    if 'A' <= c <= 'Z' then (c as int + 32) as char else c
  }

  function UpperChar(c: char): char {
    if 'a' <= c <= 'z' then (c as int - 32) as char else c
  }

  /** Go's `strings.ToLower`, restricted to the ASCII letters. */
  function ToLower(s: string): string {
    if s == [] then [] else [LowerChar(s[0])] + ToLower(s[1..])
  }

  /** Go's `strings.ToUpper`, restricted to the ASCII letters. */
  function ToUpper(s: string): (r: string)
    ensures |r| == |s|
    ensures forall i :: 0 <= i < |s| ==> r[i] == UpperChar(s[i])
  {
    if s == [] then [] else [UpperChar(s[0])] + ToUpper(s[1..])
  }

  /** Go's `strings.Join`. */
  function Join(parts: seq<string>, sep: string): string {
    if parts == [] then ""
    else if |parts| == 1 then parts[0]
    else parts[0] + sep + Join(parts[1..], sep)
  }

  /** `x` occurs in `s` starting at position `p`. */
  predicate OccursAt(x: string, s: string, p: int) {
    0 <= p && p + |x| <= |s| && s[p..p + |x|] == x
  }

  /** `x` occurs in `s` as a contiguous piece. */
  predicate Occurs(x: string, s: string) {
    exists p :: 0 <= p <= |s| && OccursAt(x, s, p)
  }

  /** Every part of a joined list occurs in the joined string. */
  lemma {:induction false} JoinHasParts(parts: seq<string>, sep: string)
    ensures forall i :: 0 <= i < |parts| ==> Occurs(parts[i], Join(parts, sep))
    decreases |parts|
  {
    if |parts| > 1 {
      var head, tail := parts[0] + sep, Join(parts[1..], sep);
      assert Join(parts, sep) == head + tail;
      JoinHasParts(parts[1..], sep);
      forall i | 0 <= i < |parts|
        ensures Occurs(parts[i], Join(parts, sep))
      {
        var x := parts[i];
        if i == 0 {
          assert (head + tail)[0..|x|] == x;
          assert OccursAt(x, head + tail, 0);
        } else {
          assert x == parts[1..][i - 1];
          var p :| 0 <= p <= |tail| && OccursAt(x, tail, p);
          assert (head + tail)[|head| + p..|head| + p + |x|] == x;
          assert OccursAt(x, head + tail, |head| + p);
        }
      }
    } else if |parts| == 1 {
      assert parts[0][0..|parts[0]|] == parts[0];
      assert OccursAt(parts[0], Join(parts, sep), 0);
    }
  }

  /** No string occurs twice. */
  predicate Distinct(xs: seq<string>) {
    forall i, j :: 0 <= i < j < |xs| ==> xs[i] != xs[j]
  }

  lemma {:induction false} TrimLeftOfSpaces(s: string)
    requires AllSpace(s)
    ensures TrimLeft(s) == []
  {
    if s != [] {
      TrimLeftOfSpaces(s[1..]);
    }
  }

  /** Leading white space never survives TrimLeft. */
  lemma {:induction false} TrimLeftSpacePrefix(w: string, s: string)
    requires AllSpace(w)
    ensures TrimLeft(w + s) == TrimLeft(s)
  {
    if w != [] {
      assert (w + s)[0] == w[0];
      assert (w + s)[1..] == w[1..] + s;
      assert TrimLeft(w + s) == TrimLeft(w[1..] + s);
      TrimLeftSpacePrefix(w[1..], s);
    } else {
      assert w + s == s;
    }
  }

  /** Once TrimLeft has reached a non-space it leaves the rest alone. */
  lemma {:induction false} TrimLeftAppend(s: string, t: string)
    requires TrimLeft(s) != []
    ensures TrimLeft(s + t) == TrimLeft(s) + t
  {
    assert s != [];
    assert (s + t)[0] == s[0];
    if IsSpace(s[0]) {
      assert (s + t)[1..] == s[1..] + t;
      TrimLeftAppend(s[1..], t);
    }
  }

  /** Trailing white space never survives TrimRight. */
  lemma {:induction false} TrimRightSpaceSuffix(s: string, w: string)
    requires AllSpace(w)
    ensures TrimRight(s + w) == TrimRight(s)
  {
    if w != [] {
      var w' := w[..|w| - 1];
      assert (s + w)[|s + w| - 1] == w[|w| - 1];
      assert (s + w)[..|s + w| - 1] == s + w';
      assert TrimRight(s + w) == TrimRight(s + w');
      TrimRightSpaceSuffix(s, w');
    } else {
      assert s + w == s;
    }
  }

  lemma AllSpaceConcat(a: string, b: string)
    requires AllSpace(a) && AllSpace(b)
    ensures AllSpace(a + b)
  {
  }

  /** A string TrimLeft empties is made of spaces only, and so is its extension by spaces. */
  lemma TrimLeftEmptied(s: string, w: string)
    requires TrimLeft(s) == [] && AllSpace(w)
    ensures TrimLeft(s + w) == []
  {
    TrimLeftStrips(s);
    assert s[..|s|] == s;
    AllSpaceConcat(s, w);
    TrimLeftOfSpaces(s + w);
  }

  /** Surrounding white space does not change what TrimSpace keeps. */
  lemma TrimSpacePadding(w1: string, s: string, w2: string)
    requires AllSpace(w1) && AllSpace(w2)
    ensures TrimSpace(w1 + s + w2) == TrimSpace(s)
  {
    calc {
      TrimLeft(w1 + s + w2);
      { assert w1 + s + w2 == w1 + (s + w2); }
      TrimLeft(w1 + (s + w2));
      { TrimLeftSpacePrefix(w1, s + w2); }
      TrimLeft(s + w2);
    }
    if TrimLeft(s) == [] {
      TrimLeftEmptied(s, w2);
    } else {
      TrimLeftAppend(s, w2);
      TrimRightSpaceSuffix(TrimLeft(s), w2);
    }
  }

  lemma UpperCharKeepsSpace(c: char)
    ensures IsSpace(UpperChar(c)) == IsSpace(c)
  {
  }

  lemma {:induction false} ToUpperSlice(s: string, i: nat, j: nat)
    requires i <= j <= |s|
    ensures ToUpper(s)[i..j] == ToUpper(s[i..j])
  {
    var u, v := ToUpper(s)[i..j], ToUpper(s[i..j]);
    assert |u| == |v|;
    forall k | 0 <= k < |u|
      ensures u[k] == v[k]
    {
      assert u[k] == UpperChar(s[i + k]);
    }
  }

  /** Upper-casing keeps spaces and non-spaces apart, so it commutes with TrimLeft. */
  lemma {:induction false} TrimLeftToUpper(s: string)
    ensures TrimLeft(ToUpper(s)) == ToUpper(TrimLeft(s))
  {
    if s != [] {
      var u := ToUpper(s);
      assert u == [UpperChar(s[0])] + ToUpper(s[1..]);
      UpperCharKeepsSpace(s[0]);
      if IsSpace(s[0]) {
        assert u[1..] == ToUpper(s[1..]);
        TrimLeftToUpper(s[1..]);
      }
    }
  }

  lemma {:induction false} TrimRightToUpper(s: string)
    ensures TrimRight(ToUpper(s)) == ToUpper(TrimRight(s))
  {
    if s != [] {
      var u := ToUpper(s);
      UpperCharKeepsSpace(s[|s| - 1]);
      if IsSpace(s[|s| - 1]) {
        ToUpperSlice(s, 0, |s| - 1);
        assert u[..|u| - 1] == ToUpper(s[..|s| - 1]);
        TrimRightToUpper(s[..|s| - 1]);
      }
    }
  }

  lemma {:induction false} ToLowerToUpper(s: string)
    ensures ToLower(ToUpper(s)) == ToLower(s)
  {
    if s != [] {
      ToLowerToUpper(s[1..]);
    }
  }

  /** Lower-casing the trimmed text of an upper-cased string gives what lower-casing the original gives. */
  lemma CaseFoldedTrim(s: string)
    ensures ToLower(TrimSpace(ToUpper(s))) == ToLower(TrimSpace(s))
  {
    TrimLeftToUpper(s);
    TrimRightToUpper(TrimLeft(s));
    ToLowerToUpper(TrimSpace(s));
  }
}
