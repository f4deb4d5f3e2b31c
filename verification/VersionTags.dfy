/** What the numbers of a tag are, said of its characters. */
module VersionTags {
  import opened Arithmetic
  import opened Trimming
  import opened Version

  // ---- Cutting at separators -------------------------------------------------------------------------------

  predicate Cuts(c: char) {
    c == '.' || c == '-' || c == '+'
  }

  /** A separator cuts: what is before it and what is after it are split on their own. */
  lemma {:induction false} SplitAtSeparator(s: string, c: char, t: string)
    requires Cuts(c)
    ensures Split(s + [c] + t) == Split(s) + Split(t)
  {
    if t == "" {
      assert s + [c] + t == s + [c] && (s + [c])[..|s|] == s;
    } else {
      var n := |t| - 1;
      assert s + [c] + t == (s + [c] + t[..n]) + [t[n]];
      SplitAtSeparator(s, c, t[..n]);
      OneMore(s + [c] + t[..n], t[n]);
      OneMore(t[..n], t[n]);
      assert t == t[..n] + [t[n]];
      GrownAfter(Split(s), Split(t[..n]), t[n]);
    }
  }

  /** What one more character does to the pieces. */
  function Grown(pieces: seq<string>, x: char): seq<string>
    requires pieces != []
  {
    if Cuts(x) then pieces + [""] else pieces[..|pieces| - 1] + [pieces[|pieces| - 1] + [x]]
  }

  lemma OneMore(s: string, x: char)
    ensures Split(s + [x]) == Grown(Split(s), x)
  {
    assert (s + [x])[..|s|] == s;
  }

  lemma GrownAfter(a: seq<string>, b: seq<string>, x: char)
    requires b != []
    ensures Grown(a + b, x) == a + Grown(b, x)
  {
  }

  /** A text without a separator is one piece. */
  lemma {:induction false} OnePiece(d: string)
    requires forall i :: 0 <= i < |d| ==> !Cuts(d[i])
    ensures Split(d) == [d]
  {
    if d != "" {
      var n := |d| - 1;
      OnePiece(d[..n]);
      assert d == d[..n] + [d[n]];
      OneMore(d[..n], d[n]);
    }
  }

  // ---- Pieces that are numbers ---------------------------------------------------------------------------------

  lemma {:induction false} DigitsAre(d: string)
    ensures AllDigits(d) <==> forall i :: 0 <= i < |d| ==> '0' <= d[i] <= '9'
  {
    if d != "" {
      DigitsAre(d[..|d| - 1]);
    }
  }

  /** A number that fits in 64 bits counts, and a bigger one is passed over. */
  lemma NumberPiece(n: nat, rest: seq<string>)
    ensures Numbers([Decimal(n)] + rest) == (if n <= 0xFFFF_FFFF_FFFF_FFFF then [n] else []) + Numbers(rest)
  {
    DecimalReadsBack(n);
    assert ([Decimal(n)] + rest)[1..] == rest;
  }

  /** A piece that is empty or holds anything but digits ends the numbers. */
  lemma OtherPiece(piece: string, rest: seq<string>)
    requires piece == "" || exists i :: 0 <= i < |piece| && !('0' <= piece[i] <= '9')
    ensures Numbers([piece] + rest) == []
  {
    DigitsAre(piece);
  }

  function Pow10(k: nat): nat {
    if k == 0 then 1 else 10 * Pow10(k - 1)
  }

  /** Digits are read as decimal places. */
  lemma {:induction false} DecimalPlaces(c: char, d: string)
    requires '0' <= c <= '9' && AllDigits(d)
    ensures AllDigits([c] + d) && Value([c] + d) == (c as int - '0' as int) * Pow10(|d|) + Value(d)
  {
    if d == "" {
      assert [c] + d == [c] && [c][..0] == "";
      assert AllDigits("") && AllDigits([c]);
    } else {
      var n := |d| - 1;
      assert ([c] + d)[..|[c] + d| - 1] == [c] + d[..n] && ([c] + d)[|[c] + d| - 1] == d[n];
      DecimalPlaces(c, d[..n]);
    }
  }

  // ---- Whole tags ----------------------------------------------------------------------------------------------

  /** The numbers with a separator before each but the first. */
  function Joined(xs: seq<nat>, seps: seq<char>): string
    requires |xs| == |seps| + 1
  {
    if seps == [] then Decimal(xs[0]) else Decimal(xs[0]) + [seps[0]] + Joined(xs[1..], seps[1..])
  }

  predicate AllCut(seps: seq<char>) {
    forall i :: 0 <= i < |seps| ==> Cuts(seps[i])
  }

  predicate Small(xs: seq<nat>) {
    forall i :: 0 <= i < |xs| ==> xs[i] <= 0xFFFF_FFFF_FFFF_FFFF
  }

  /** What may follow the numbers: nothing, or a separator and a piece that is no number. */
  predicate Ends(end: string) {
    end == "" || (Cuts(end[0]) && (|end| == 1 || (!Cuts(end[1]) && !('0' <= end[1] <= '9')) || Cuts(end[1])))
  }

  lemma DecimalIsDigits(n: nat)
    ensures var d := Decimal(n); d != "" && forall i :: 0 <= i < |d| ==> '0' <= d[i] <= '9'
  {
    DecimalReadsBack(n);
    DigitsAre(Decimal(n));
  }

  /** The first piece begins where the text does, unless that is a separator or the end. */
  lemma {:induction false} FirstPiece(s: string)
    ensures s != "" && !Cuts(s[0]) ==> Split(s)[0] != "" && Split(s)[0][0] == s[0]
    ensures s == "" || Cuts(s[0]) ==> Split(s)[0] == ""
    ensures s != "" && Cuts(s[0]) ==> |Split(s)| > 1
  {
    if s != "" {
      var n := |s| - 1;
      FirstPiece(s[..n]);
      assert s == s[..n] + [s[n]];
      OneMore(s[..n], s[n]);
      FirstOfGrown(Split(s[..n]), s[n]);
    }
  }

  lemma FirstOfGrown(pieces: seq<string>, x: char)
    requires pieces != []
    ensures Grown(pieces, x)[0] == if |pieces| == 1 && !Cuts(x) then pieces[0] + [x] else pieces[0]
    ensures |Grown(pieces, x)| == if Cuts(x) then |pieces| + 1 else |pieces|
  {
  }

  lemma NumberAlone(n: nat)
    ensures Numbers(Split(Decimal(n))) == if n <= 0xFFFF_FFFF_FFFF_FFFF then [n] else []
  {
    DecimalIsDigits(n);
    OnePiece(Decimal(n));
    assert [Decimal(n)] == [Decimal(n)] + [];
    NumberPiece(n, []);
  }

  lemma NumberThen(n: nat, c: char, rest: string)
    requires Cuts(c)
    ensures Numbers(Split(Decimal(n) + [c] + rest)) ==
            (if n <= 0xFFFF_FFFF_FFFF_FFFF then [n] else []) + Numbers(Split(rest))
  {
    DecimalIsDigits(n);
    OnePiece(Decimal(n));
    SplitAtSeparator(Decimal(n), c, rest);
    NumberPiece(n, Split(rest));
  }

  lemma NoNumberFirst(rest: string)
    requires rest == "" || Cuts(rest[0]) || !('0' <= rest[0] <= '9')
    ensures Numbers(Split(rest)) == []
  {
    var pieces := Split(rest);
    FirstPiece(rest);
    NoNumberPiece(pieces);
  }

  lemma NoNumberPiece(pieces: seq<string>)
    requires pieces != [] && (pieces[0] == "" || !('0' <= pieces[0][0] <= '9'))
    ensures Numbers(pieces) == []
  {
    assert pieces == [pieces[0]] + pieces[1..];
    OtherPiece(pieces[0], pieces[1..]);
  }

  lemma EndSaysNothing(n: nat, end: string)
    requires Ends(end)
    ensures Numbers(Split(Decimal(n) + end)) == if n <= 0xFFFF_FFFF_FFFF_FFFF then [n] else []
  {
    if end == "" {
      assert Decimal(n) + end == Decimal(n);
      NumberAlone(n);
    } else {
      assert Decimal(n) + end == Decimal(n) + [end[0]] + end[1..];
      NoNumberFirst(end[1..]);
      NumberThen(n, end[0], end[1..]);
    }
  }

  lemma JoinedCons(xs: seq<nat>, seps: seq<char>, end: string)
    requires |xs| == |seps| + 1 && seps != []
    ensures Joined(xs, seps) + end == Decimal(xs[0]) + [seps[0]] + (Joined(xs[1..], seps[1..]) + end)
  {
  }

  lemma {:induction false} NumbersOfJoined(xs: seq<nat>, seps: seq<char>, end: string)
    requires |xs| == |seps| + 1 && AllCut(seps) && Small(xs) && Ends(end)
    ensures Numbers(Split(Joined(xs, seps) + end)) == xs
  {
    if seps == [] {
      EndSaysNothing(xs[0], end);
    } else {
      NumbersOfJoined(xs[1..], seps[1..], end);
      JoinedCons(xs, seps, end);
      NumberThen(xs[0], seps[0], Joined(xs[1..], seps[1..]) + end);
      assert xs == [xs[0]] + xs[1..];
    }
  }

  lemma JoinedStarts(xs: seq<nat>, seps: seq<char>)
    requires |xs| == |seps| + 1
    ensures Joined(xs, seps) != "" && '0' <= Joined(xs, seps)[0] <= '9'
  {
    DecimalIsDigits(xs[0]);
  }

  lemma TrimmedTag(w0: string, vs: string, body: string, w1: string)
    requires forall i :: 0 <= i < |w0| ==> IsWhite(w0[i])
    requires forall i :: 0 <= i < |w1| ==> IsWhite(w1[i])
    requires forall i :: 0 <= i < |vs| ==> vs[i] == 'v' || vs[i] == 'V'
    requires body != "" && '0' <= body[0] <= '9' && !IsWhite(body[|body| - 1])
    ensures TrimStart(IsV, Trim(IsWhite, w0 + (vs + body) + w1)) == body
  {
    EndsAreNotWhite(vs + body, body);
    TrimmedTwice(IsWhite, IsV, w0, vs, body, w1);
  }

  lemma EndsAreNotWhite(s: string, body: string)
    requires s != "" && body != "" && s[|s| - 1] == body[|body| - 1] && !IsWhite(body[|body| - 1])
    requires s[0] == 'v' || s[0] == 'V' || '0' <= s[0] <= '9'
    ensures !IsWhite(s[0]) && !IsWhite(s[|s| - 1])
  {
  }

  lemma TrimmedTwice<T>(p: T -> bool, q: T -> bool, a: seq<T>, front: seq<T>, body: seq<T>, b: seq<T>)
    requires forall i :: 0 <= i < |a| ==> p(a[i])
    requires forall i :: 0 <= i < |b| ==> p(b[i])
    requires forall i :: 0 <= i < |front| ==> q(front[i])
    requires body != [] && !q(body[0]) && !p((front + body)[0]) && !p((front + body)[|front + body| - 1])
    ensures TrimStart(q, Trim(p, a + (front + body) + b)) == body
  {
    TrimTakesOff(p, a, front + body, b);
    TrimStartTakesOff(q, front, body);
    assert TrimStart(q, body) == body;
  }

  /** White space around a tag and any number of `v`s before it come off; numbers may be joined by any separators; and
      they end at a piece that is no number, or at the end of the tag. */
  lemma WhatATagSays(w0: string, vs: string, xs: seq<nat>, seps: seq<char>, end: string, w1: string)
    requires forall i :: 0 <= i < |w0| ==> IsWhite(w0[i])
    requires forall i :: 0 <= i < |w1| ==> IsWhite(w1[i])
    requires forall i :: 0 <= i < |vs| ==> vs[i] == 'v' || vs[i] == 'V'
    requires |xs| == |seps| + 1 && AllCut(seps) && Small(xs) && Ends(end)
    requires end == "" || !IsWhite(end[|end| - 1])
    ensures Parts(w0 + (vs + (Joined(xs, seps) + end)) + w1) == xs
  {
    JoinedStarts(xs, seps);
    BodyEnds(xs, seps, end);
    NumbersOfJoined(xs, seps, end);
    TrimmedTag(w0, vs, Joined(xs, seps) + end, w1);
  }

  lemma {:induction false} BodyEnds(xs: seq<nat>, seps: seq<char>, end: string)
    requires |xs| == |seps| + 1 && (end == "" || !IsWhite(end[|end| - 1]))
    ensures var body := Joined(xs, seps) + end; body != "" && !IsWhite(body[|body| - 1])
  {
    if seps == [] {
      DecimalIsDigits(xs[0]);
    } else {
      BodyEnds(xs[1..], seps[1..], end);
    }
  }

  /** A number too big for 64 bits is passed over, and the next one takes its place. */
  lemma TooBigIsPassedOver(n: nat, m: nat)
    requires n > 0xFFFF_FFFF_FFFF_FFFF && m <= 0xFFFF_FFFF_FFFF_FFFF
    ensures Numbers(Split(Decimal(n) + "." + Decimal(m))) == [m]
  {
    assert Decimal(n) + "." + Decimal(m) == Decimal(n) + ['.'] + Decimal(m);
    NumberThen(n, '.', Decimal(m));
    NumberAlone(m);
  }
}
