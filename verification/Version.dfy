/** Comparing release tags by their numbers. */
module Version {
  import opened Arithmetic
  import opened Trimming

  // ---- From a tag to numbers --------------------------------------------------------------------------------

  predicate IsV(c: char) {
    c == 'v' || c == 'V'
  }

  predicate IsSeparator(c: char) {
    c == '.' || c == '-' || c == '+'
  }

  predicate IsDigit(c: char) {
    '0' <= c <= '9'
  }

  predicate AllDigits(s: string) {
    s == "" || (AllDigits(s[..|s| - 1]) && IsDigit(s[|s| - 1]))
  }

  /** `split` at the separators. */
  function Split(s: string): (r: seq<string>)
    ensures |r| > 0
  {
    if s == "" then [""]
    else
      var rest, c := Split(s[..|s| - 1]), s[|s| - 1];
      if IsSeparator(c) then rest + [""] else rest[|rest| - 1 := rest[|rest| - 1] + [c]]
  }

  function Value(s: string): nat
    requires AllDigits(s)
  {
    if s == "" then 0 else Value(s[..|s| - 1]) * 10 + (s[|s| - 1] as int - '0' as int)
  }

  /** Numbers up to the first piece that is not all digits; one too big for 64 bits is dropped. */
  function Numbers(pieces: seq<string>): seq<nat> {
    if pieces == [] || pieces[0] == "" || !AllDigits(pieces[0]) then []
    else (if Value(pieces[0]) <= U64_MAX then [Value(pieces[0])] else []) + Numbers(pieces[1..])
  }

  function Parts(raw: string): seq<nat> {
    Numbers(Split(TrimStart(IsV, Trim(IsWhite, raw))))
  }

  // ---- The order -------------------------------------------------------------------------------------------

  /** Component `i`, with zeros beyond the end. */
  function At(a: seq<nat>, i: nat): nat {
    if i < |a| then a[i] else 0
  }

  ghost predicate FirstDifference(a: seq<nat>, b: seq<nat>, i: nat) {
    At(a, i) != At(b, i) && forall j :: 0 <= j < i ==> At(a, j) == At(b, j)
  }

  /** Lexicographic order of the lists padded with zeros. */
  ghost predicate Greater(a: seq<nat>, b: seq<nat>) {
    exists i: nat :: FirstDifference(a, b, i) && At(a, i) > At(b, i)
  }

  method IsNewer(latest: string, current: string) returns (newer: bool)
    ensures newer <==> Greater(Parts(latest), Parts(current))
  {
    var a, b := Parts(latest), Parts(current);
    newer := Compare(a, b);
  }

  method Compare(a: seq<nat>, b: seq<nat>) returns (newer: bool)
    ensures newer <==> Greater(a, b)
  {
    if a == [] {
      return false;
    }
    for i := 0 to Max(|a|, |b|)
      invariant forall j :: 0 <= j < i ==> At(a, j) == At(b, j)
    {
      var x, y := At(a, i), At(b, i);
      if x != y {
        assert FirstDifference(a, b, i);
        FirstDifferenceIsUnique(a, b, i);
        return x > y;
      }
    }
    newer := false;
  }

  lemma FirstDifferenceIsUnique(a: seq<nat>, b: seq<nat>, i: nat)
    requires FirstDifference(a, b, i)
    ensures forall j: nat :: FirstDifference(a, b, j) ==> j == i
  {
  }

  /** The two lists are the same up to zeros at the end. */
  ghost predicate Tied(a: seq<nat>, b: seq<nat>) {
    forall i: nat :: At(a, i) == At(b, i)
  }

  lemma LeastDifference(a: seq<nat>, b: seq<nat>, i: nat) returns (d: nat)
    requires At(a, i) != At(b, i)
    ensures FirstDifference(a, b, d)
  {
    d := 0;
    while At(a, d) == At(b, d)
      invariant d <= i && forall j :: 0 <= j < d ==> At(a, j) == At(b, j)
      decreases i - d
    {
      d := d + 1;
    }
  }

  /** Of any two lists exactly one holds: the first is greater, the second is greater, or they are tied. */
  lemma ExactlyOneHolds(a: seq<nat>, b: seq<nat>)
    ensures Greater(a, b) || Greater(b, a) || Tied(a, b)
    ensures !(Greater(a, b) && Greater(b, a)) && !(Greater(a, b) && Tied(a, b))
    ensures !Greater(a, a)
  {
    if !Tied(a, b) {
      var i: nat :| At(a, i) != At(b, i);
      var d := LeastDifference(a, b, i);
      assert FirstDifference(b, a, d);
    }
    if i: nat :| FirstDifference(a, b, i) && At(a, i) > At(b, i) {
      assert FirstDifference(b, a, i);
      FirstDifferenceIsUnique(b, a, i);
    }
  }

  lemma GreaterIsTransitive(a: seq<nat>, b: seq<nat>, c: seq<nat>)
    requires Greater(a, b) && Greater(b, c)
    ensures Greater(a, c)
  {
    var i: nat :| FirstDifference(a, b, i) && At(a, i) > At(b, i);
    var j: nat :| FirstDifference(b, c, j) && At(b, j) > At(c, j);
    assert FirstDifference(a, c, if i <= j then i else j);
  }

  function DropZeros(a: seq<nat>): (r: seq<nat>)
    ensures |r| <= |a| && r == a[..|r|]
    ensures r == [] || r[|r| - 1] != 0
  {
    if a != [] && a[|a| - 1] == 0 then DropZeros(a[..|a| - 1]) else a
  }

  lemma {:induction false} DropZerosKeeps(a: seq<nat>, i: nat)
    ensures At(DropZeros(a), i) == At(a, i)
  {
    if a != [] && a[|a| - 1] == 0 {
      DropZerosKeeps(a[..|a| - 1], i);
    }
  }

  lemma LongerIsNotTied(x: seq<nat>, y: seq<nat>)
    requires x == [] || x[|x| - 1] != 0
    ensures |x| > |y| ==> exists i: nat :: At(x, i) != At(y, i)
  {
    if |x| > |y| {
      assert At(x, |x| - 1) != At(y, |x| - 1);
    }
  }

  /** Ties are exactly the lists that agree once their trailing zeros are dropped. */
  lemma TiedMeansSameUpToZeros(a: seq<nat>, b: seq<nat>)
    ensures Tied(a, b) <==> DropZeros(a) == DropZeros(b)
  {
    var x, y := DropZeros(a), DropZeros(b);
    forall i: nat ensures At(x, i) == At(a, i) && At(y, i) == At(b, i) {
      DropZerosKeeps(a, i);
      DropZerosKeeps(b, i);
    }
    if Tied(a, b) {
      LongerIsNotTied(x, y);
      LongerIsNotTied(y, x);
      forall i | 0 <= i < |x| ensures x[i] == y[i] {
        assert At(x, i) == At(y, i);
      }
    } else {
      var i: nat :| At(a, i) != At(b, i);
      assert At(x, i) != At(y, i);
    }
  }

  /** The early return on a tag without numbers is what the order says anyway. */
  lemma NothingIsNotNewer(b: seq<nat>)
    ensures !Greater([], b)
  {
  }

  // ---- Printing a version and reading it back ------------------------------------------------------------------

  function Decimal(n: nat): string {
    if n < 10 then [('0' as int + n) as char] else Decimal(n / 10) + [('0' as int + n % 10) as char]
  }

  lemma {:induction false} DecimalReadsBack(n: nat)
    ensures Decimal(n) != "" && AllDigits(Decimal(n)) && Value(Decimal(n)) == n
  {
    if n < 10 {
      var d := Decimal(n);
      assert d[..0] == "" && d[0] as int - '0' as int == n;
      assert AllDigits("") && IsDigit(d[0]);
    } else {
      DecimalReadsBack(n / 10);
      assert Decimal(n)[..|Decimal(n)| - 1] == Decimal(n / 10);
    }
  }

  function Dotted(xs: seq<nat>): string {
    if xs == [] then ""
    else if |xs| == 1 then Decimal(xs[0])
    else Dotted(xs[..|xs| - 1]) + "." + Decimal(xs[|xs| - 1])
  }

  function Print(xs: seq<nat>): string {
    "v" + Dotted(xs)
  }

  function Decimals(xs: seq<nat>): seq<string> {
    if xs == [] then [] else Decimals(xs[..|xs| - 1]) + [Decimal(xs[|xs| - 1])]
  }

  /** `d` joins the last piece. */
  function Joined(pieces: seq<string>, d: string): seq<string>
    requires pieces != []
  {
    pieces[..|pieces| - 1] + [pieces[|pieces| - 1] + d]
  }

  lemma JoinedTwice(pieces: seq<string>, d: string, e: string)
    requires pieces != []
    ensures Joined(Joined(pieces, d), e) == Joined(pieces, d + e)
  {
    var last := pieces[|pieces| - 1];
    assert (last + d) + e == last + (d + e);
  }

  lemma JoinedNothing(pieces: seq<string>)
    requires pieces != []
    ensures Joined(pieces, "") == pieces
  {
    assert pieces[|pieces| - 1] + "" == pieces[|pieces| - 1];
  }

  lemma SplitOfDigit(s: string, c: char)
    requires !IsSeparator(c)
    ensures Split(s + [c]) == Joined(Split(s), [c])
  {
    assert (s + [c])[..|s|] == s;
  }

  lemma {:induction false} SplitOfDigits(s: string, d: string)
    requires AllDigits(d)
    ensures Split(s + d) == Joined(Split(s), d)
  {
    if d == "" {
      assert s + d == s;
      JoinedNothing(Split(s));
    } else {
      var init, c := d[..|d| - 1], d[|d| - 1];
      SplitOfDigits(s, init);
      SplitOfMore(s, init, c);
      assert init + [c] == d;
    }
  }

  lemma SplitOfMore(s: string, d: string, c: char)
    requires Split(s + d) == Joined(Split(s), d) && !IsSeparator(c)
    ensures Split(s + (d + [c])) == Joined(Split(s), d + [c])
  {
    SplitOfDigit(s + d, c);
    JoinedTwice(Split(s), d, [c]);
    assert s + (d + [c]) == s + d + [c];
  }

  /** A dot and digits are one more piece. */
  lemma SplitOfNext(s: string, d: string)
    requires AllDigits(d)
    ensures Split(s + "." + d) == Split(s) + [d]
  {
    assert (s + ".")[..|s|] == s;
    SplitOfDigits(s + ".", d);
    assert Split(s + ".") == Split(s) + [""];
    assert "" + d == d;
  }

  lemma SplitOfOne(d: string)
    requires AllDigits(d)
    ensures Split(d) == [d]
  {
    SplitOfDigits("", d);
    assert "" + d == d && Split("") == [""];
    assert Joined([""], d) == [d];
  }

  lemma {:induction false} SplitOfDotted(xs: seq<nat>)
    requires xs != []
    ensures Split(Dotted(xs)) == Decimals(xs)
  {
    var n := |xs| - 1;
    DecimalReadsBack(xs[n]);
    if n == 0 {
      SplitOfOne(Decimal(xs[0]));
      assert xs[..0] == [];
    } else {
      SplitOfDotted(xs[..n]);
      SplitOfNext(Dotted(xs[..n]), Decimal(xs[n]));
    }
  }

  lemma {:induction false} DecimalsCons(xs: seq<nat>)
    requires xs != []
    ensures Decimals(xs) == [Decimal(xs[0])] + Decimals(xs[1..])
  {
    if |xs| > 1 {
      var n := |xs| - 1;
      DecimalsCons(xs[..n]);
      assert xs[..n][1..] == xs[1..][..n - 1];
    } else {
      assert xs[..0] == [] && xs[1..] == [];
    }
  }

  lemma {:induction false} NumbersOfDecimals(xs: seq<nat>)
    requires forall i :: 0 <= i < |xs| ==> xs[i] <= U64_MAX
    ensures Numbers(Decimals(xs)) == xs
  {
    if xs != [] {
      DecimalsCons(xs);
      DecimalReadsBack(xs[0]);
      assert Decimals(xs)[1..] == Decimals(xs[1..]);
      NumbersOfDecimals(xs[1..]);
    }
  }

  lemma {:induction false} DottedEnds(xs: seq<nat>)
    requires xs != []
    ensures var d := Dotted(xs); d != "" && IsDigit(d[0]) && IsDigit(d[|d| - 1])
  {
    var n := |xs| - 1;
    DecimalEnds(xs[n]);
    if n > 0 {
      DottedEnds(xs[..n]);
    }
  }

  lemma {:induction false} DecimalEnds(n: nat)
    ensures var d := Decimal(n); d != "" && IsDigit(d[0]) && IsDigit(d[|d| - 1])
  {
    if n >= 10 {
      DecimalEnds(n / 10);
    }
  }

  lemma DigitIsNotTrimmed(c: char)
    requires IsDigit(c) || c == 'v'
    ensures !IsWhite(c) && (c != 'v' ==> !IsV(c))
  {
  }

  lemma LeadingVIsDropped(d: string)
    requires d == "" || !IsV(d[0])
    ensures TrimStart(IsV, "v" + d) == d
  {
    assert ("v" + d)[1..] == d;
  }

  lemma TagIsTrimmed(d: string)
    requires d == "" || (IsDigit(d[0]) && IsDigit(d[|d| - 1]))
    ensures TrimStart(IsV, Trim(IsWhite, "v" + d)) == d
  {
    var t := "v" + d;
    assert t[|t| - 1] == if d == "" then 'v' else d[|d| - 1];
    DigitIsNotTrimmed(t[0]);
    DigitIsNotTrimmed(t[|t| - 1]);
    TrimOfClean(IsWhite, t);
    if d != "" { DigitIsNotTrimmed(d[0]); }
    LeadingVIsDropped(d);
  }

  /** A list of numbers printed as a tag reads back as itself. */
  lemma PrintReadsBack(xs: seq<nat>)
    requires forall i :: 0 <= i < |xs| ==> xs[i] <= U64_MAX
    ensures Parts(Print(xs)) == xs
  {
    if xs != [] {
      DottedEnds(xs);
      SplitOfDotted(xs);
      NumbersOfDecimals(xs);
    }
    TagIsTrimmed(Dotted(xs));
  }
}
