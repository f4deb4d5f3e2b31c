/** Trimming, as `str::trim`, `trim_matches`, `trim_start_matches` and `trim_end_matches` do it. */
module Trimming {
  /** Drops the longest prefix whose elements all satisfy `p`. */
  function TrimStart<T>(p: T -> bool, s: seq<T>): (r: seq<T>)
    ensures |r| <= |s| && r == s[|s| - |r|..]
    ensures r == [] || !p(r[0])
  {
    if s == [] || !p(s[0]) then s else TrimStart(p, s[1..])
  }

  /** Drops the longest suffix whose elements all satisfy `p`. */
  function TrimEnd<T>(p: T -> bool, s: seq<T>): (r: seq<T>)
    ensures |r| <= |s| && r == s[..|r|]
    ensures r == [] || !p(r[|r| - 1])
  {
    if s == [] || !p(s[|s| - 1]) then s else TrimEnd(p, s[..|s| - 1])
  }

  function Trim<T>(p: T -> bool, s: seq<T>): (r: seq<T>)
    ensures r == [] || (!p(r[0]) && !p(r[|r| - 1]))
  {
    TrimEnd(p, TrimStart(p, s))
  }

  /** A text with clean ends is its own trimmed form. */
  lemma TrimOfClean<T>(p: T -> bool, s: seq<T>)
    requires s == [] || (!p(s[0]) && !p(s[|s| - 1]))
    ensures Trim(p, s) == s
  {
  }

  lemma {:induction false} TrimStartTakesOff<T>(p: T -> bool, a: seq<T>, s: seq<T>)
    requires forall i :: 0 <= i < |a| ==> p(a[i])
    ensures TrimStart(p, a + s) == TrimStart(p, s)
  {
    if a == [] {
      assert a + s == s;
    } else {
      assert (a + s)[1..] == a[1..] + s;
      TrimStartTakesOff(p, a[1..], s);
    }
  }

  lemma {:induction false} TrimEndTakesOff<T>(p: T -> bool, s: seq<T>, b: seq<T>)
    requires forall i :: 0 <= i < |b| ==> p(b[i])
    ensures TrimEnd(p, s + b) == TrimEnd(p, s)
  {
    if b == [] {
      assert s + b == s;
    } else {
      assert (s + b)[..|s + b| - 1] == s + b[..|b| - 1];
      TrimEndTakesOff(p, s, b[..|b| - 1]);
    }
  }

  /** Trimming takes off what can be trimmed at either end, and nothing else. */
  lemma TrimTakesOff<T>(p: T -> bool, a: seq<T>, s: seq<T>, b: seq<T>)
    requires forall i :: 0 <= i < |a| ==> p(a[i])
    requires forall i :: 0 <= i < |b| ==> p(b[i])
    requires s == [] || (!p(s[0]) && !p(s[|s| - 1]))
    ensures Trim(p, a + s + b) == s
  {
    assert a + s + b == a + (s + b);
    TrimStartTakesOff(p, a, s + b);
    if s == [] {
      assert s + b == b + [];
      TrimStartTakesOff(p, b, []);
    } else {
      TrimEndTakesOff(p, s, b);
    }
  }

  lemma InnerPart<T>(s: seq<T>, i: nat, n: nat)
    requires i + n <= |s|
    ensures s[i..][..n] == s[i..i + n]
  {
  }

  /** What is left is a part of the text. */
  lemma TrimIsPart<T>(p: T -> bool, s: seq<T>) returns (i: nat, j: nat)
    ensures i <= j <= |s| && Trim(p, s) == s[i..j]
  {
    var t := TrimStart(p, s);
    var r := TrimEnd(p, t);
    i, j := |s| - |t|, |s| - |t| + |r|;
    InnerPart(s, i, |r|);
  }

  /** One more trimmable element at the end changes nothing. */
  lemma {:induction false} TrimIgnoresLast<T>(p: T -> bool, s: seq<T>, c: T)
    requires p(c)
    ensures Trim(p, s + [c]) == Trim(p, s)
  {
    TrimStartOfAppend(p, s, c);
    var t := TrimStart(p, s);
    assert t != [] ==> (t + [c])[..|t + [c]| - 1] == t;
  }

  lemma {:induction false} TrimStartOfAppend<T>(p: T -> bool, s: seq<T>, c: T)
    requires p(c)
    ensures TrimStart(p, s + [c]) == if TrimStart(p, s) == [] then [] else TrimStart(p, s) + [c]
  {
    if s == [] {
      assert s + [c] == [c];
      assert [c][1..] == [];
    } else if p(s[0]) {
      assert (s + [c])[1..] == s[1..] + [c];
      TrimStartOfAppend(p, s[1..], c);
    }
  }

  /** The characters with Unicode's White_Space property, which `char::is_whitespace` tests. */
  predicate IsWhite(c: char) {
    '\U{9}' <= c <= '\U{D}' || c == ' ' || c == '\U{85}' || c == '\U{A0}' || c == '\U{1680}' ||
    '\U{2000}' <= c <= '\U{200A}' || c == '\U{2028}' || c == '\U{2029}' || c == '\U{202F}' ||
    c == '\U{205F}' || c == '\U{3000}'
  }

  /** They are these 25 characters. */
  lemma WhatIsWhite(c: char)
    ensures IsWhite(c) <==>
            c in "\t\n\U{B}\U{C}\r \U{85}\U{A0}\U{1680}\U{2000}\U{2001}\U{2002}\U{2003}\U{2004}\U{2005}" +
                 "\U{2006}\U{2007}\U{2008}\U{2009}\U{200A}\U{2028}\U{2029}\U{202F}\U{205F}\U{3000}"
  {
  }

  predicate IsSlash(c: char) {
    c == '/'
  }
}
