/** What a line of `sarca.conf` can hold: exactly the pairs with a clean key and a clean value. */
module ConfLimits {
  import opened Options
  import opened Trimming
  import opened ConfText
  import opened ConfEditor
  import opened Conf

  // ---- Parts of a text ----------------------------------------------------------------------------------------

  lemma {:induction false} NoLaterThan(s: string, c: char, j: nat)
    requires j < |s| && s[j] == c
    ensures IndexOf(s, c).Some? && IndexOf(s, c).value <= j
  {
    if j > 0 && s[0] != c {
      NoLaterThan(s[1..], c, j - 1);
    }
  }

  lemma PartIsOneLine(s: string, i: nat, j: nat)
    requires i <= j <= |s| && OneLine(s)
    ensures OneLine(s[i..j])
  {
    var r := IndexOf(s[i..j], '\n');
    if r.Some? {
      NoLaterThan(s, '\n', i + r.value);
    }
  }

  lemma TrimmedIsOneLine(s: string)
    requires OneLine(s)
    ensures OneLine(Trimmed(s))
  {
    var i, j := TrimIsPart(IsWhite, s);
    PartIsOneLine(s, i, j);
  }

  // ---- What is read is on one line -----------------------------------------------------------------------------

  ghost predicate PairOnOneLine(e: Option<Pair>) {
    e.Some? ==> OneLine(e.value.0) && OneLine(e.value.1)
  }

  lemma ParsedTrimmedIsOneLine(t: string)
    requires OneLine(t)
    ensures PairOnOneLine(ParseTrimmed(t))
  {
    var e := Equals(t);
    if e.Some? {
      PartIsOneLine(t, 0, e.value);
      TrimmedIsOneLine(t[..e.value]);
      PartIsOneLine(t, e.value + 1, |t|);
      assert t[e.value + 1..|t|] == t[e.value + 1..];
      TrimmedIsOneLine(t[e.value + 1..]);
      UnquotedIsOneLine(Trimmed(t[e.value + 1..]));
    }
  }

  lemma UnquotedIsOneLine(v: string)
    requires OneLine(v)
    ensures OneLine(Unquote(v)) && |Unquote(v)| <= |v|
  {
    if Unquote(v) != v {
      PartIsOneLine(v, 1, |v| - 1);
    }
  }

  lemma ParsedIsOneLine(line: string)
    requires OneLine(line)
    ensures PairOnOneLine(ParseConfLine(line))
  {
    TrimmedIsOneLine(line);
    ParsedTrimmedIsOneLine(Trimmed(line));
  }

  // ---- What reads back is clean --------------------------------------------------------------------------------

  /** What is known of a text `x` got by taking something off `s`: it is shorter, unless nothing was taken off. */
  predicate TakenFrom(x: string, s: string) {
    |x| <= |s| && (|x| == |s| ==> x == s)
  }

  lemma TrimmedIsShorter(s: string)
    ensures TakenFrom(Trimmed(s), s) && CleanEnds(Trimmed(s))
  {
    var i, j := TrimIsPart(IsWhite, s);
    if |Trimmed(s)| == |s| {
      assert s[i..j] == s;
    }
  }

  lemma TrimmedFront(l: string)
    requires l != "" && !IsWhite(l[0])
    ensures var n := |Trimmed(l)|; n <= |l| && Trimmed(l) == l[..n]
  {
    assert TrimStart(IsWhite, l) == l;
  }

  /** The parts a line was read as: its trimmed text `t`, the place `i` of the first `=`, and the value `x` before it
      was unquoted. */
  ghost predicate ReadAs(l: string, e: Pair, t: string, i: nat, x: string) {
    && (l != "" && !IsWhite(l[0]) ==> |t| <= |l| && t == l[..|t|])
    && i < |t| && t[0] != '#' && IndexOf(t, '=') == Some(i)
    && e.0 != "" && CleanEnds(e.0) && TakenFrom(e.0, t[..i])
    && CleanEnds(x) && TakenFrom(x, t[i + 1..]) && e.1 == Unquote(x)
  }

  lemma PartsRead(l: string, e: Pair) returns (t: string, i: nat, x: string)
    ensures ParseConfLine(l) == Some(e) ==> ReadAs(l, e, t, i, x)
  {
    t := Trimmed(l);
    if l != "" && !IsWhite(l[0]) { TrimmedFront(l); }
    i, x := PartsOfTrimmed(t, e);
  }

  lemma PartsOfTrimmed(t: string, e: Pair) returns (i: nat, x: string)
    ensures ParseTrimmed(t) == Some(e) ==>
              i < |t| && t[0] != '#' && IndexOf(t, '=') == Some(i) &&
              e.0 != "" && CleanEnds(e.0) && TakenFrom(e.0, t[..i]) &&
              CleanEnds(x) && TakenFrom(x, t[i + 1..]) && e.1 == Unquote(x)
  {
    i, x := 0, "";
    if Equals(t).Some? {
      i := Equals(t).value;
      x := Trimmed(t[i + 1..]);
      TrimmedIsShorter(t[..i]);
      TrimmedIsShorter(t[i + 1..]);
    }
  }

  /** A front part of a written line that holds an `=`, and none within the length of the key, has its first one right
      after the key. */
  lemma EqualsAfterKey(k: string, v: string, t: string, i: nat)
    requires |t| <= |k + "=" + v| && t == (k + "=" + v)[..|t|] && |k| <= i < |t|
    ensures IndexOf(t, '=') == Some(i) ==> i == |k| && t[..i] == k && IndexOf(k, '=').None?
  {
    assert t[|k|] == '=';
    NoLaterThan(t, '=', |k|);
    BeforeIndex(t, '=');
    assert t[..|k|] == k;
  }

  /** Nothing was trimmed or unquoted off the value, because it came back at its full length. */
  lemma NothingLost(rest: string, x: string, v: string)
    requires TakenFrom(x, rest) && v == Unquote(x) && |rest| <= |v|
    ensures rest == v && x == v && !Wrapped(v)
  {
    QuotesOff(x);
  }

  lemma ReadAsIsClean(kv: Pair, t: string, i: nat, x: string)
    requires ReadAs(kv.0 + "=" + kv.1, kv, t, i, x)
    ensures CleanKeyText(kv.0) && CleanEnds(kv.1) && !Wrapped(kv.1)
  {
    var l := kv.0 + "=" + kv.1;
    assert l[0] == kv.0[0];
    EqualsAfterKey(kv.0, kv.1, t, i);
    NothingLost(t[i + 1..], x, kv.1);
  }

  /** A clean key, but for line breaks. */
  predicate CleanKeyText(k: string) {
    k != "" && CleanEnds(k) && IndexOf(k, '=').None? && k[0] != '#'
  }

  lemma ReadBackIsClean(kv: Pair)
    ensures ParseConfLine(Line(kv)) == Some(kv) ==>
              CleanKeyText(kv.0) && CleanEnds(kv.1) && !Wrapped(kv.1)
  {
    var t, i, x := PartsRead(Line(kv), kv);
    if ReadAs(Line(kv), kv, t, i, x) {
      ReadAsIsClean(kv, t, i, x);
    }
  }

  // ---- Files of one line ---------------------------------------------------------------------------------------

  /** What a reader of lines must have for a file to hold only pairs of one line. */
  ghost predicate ReadsOneLine(parse: Parse) {
    && (forall l :: OneLine(l) ==> PairOnOneLine(parse(l)))
    && (forall l :: parse(StripCr(l)) == parse(l))
  }

  lemma {:induction false} LoadedIsOneLine(parse: Parse, lines: seq<string>)
    requires AllOneLine(lines) && ReadsOneLine(parse)
    ensures forall k :: k in FirstWins(Entries(parse, lines)) ==>
              OneLine(k) && OneLine(FirstWins(Entries(parse, lines))[k])
  {
    if lines != [] {
      var n := |lines| - 1;
      LoadedIsOneLine(parse, lines[..n]);
      assert PairOnOneLine(parse(lines[n]));
      FirstWinsOneMore(Entries(parse, lines[..n]), parse(lines[n]));
    }
  }

  lemma SaidByOne(parse: Parse, l: string)
    ensures FirstWins(Entries(parse, [l])) == match parse(l) case None => map[] case Some(e) => map[e.0 := e.1]
  {
    assert [l][..0] == [] && [] + OrNothing(parse(l)) == OrNothing(parse(l));
    FirstWinsOneMore([], parse(l));
  }

  lemma SameSingleton(a: Pair, b: Pair)
    ensures map[a.0 := a.1] == map[b.0 := b.1] <==> a == b
  {
    if map[a.0 := a.1] == map[b.0 := b.1] {
      assert b.0 in map[a.0 := a.1] && map[a.0 := a.1][b.0] == b.1;
    }
  }

  lemma HoldsItself(m: map<string, string>, kv: Pair)
    ensures m == map[kv.0 := kv.1] ==> kv.0 in m && m[kv.0] == kv.1
  {
  }

  lemma PartsOfOneLine(kv: Pair)
    ensures OneLine(Line(kv)) <==> OneLine(kv.0) && OneLine(kv.1)
  {
    assert "="[1..] == "";
    IndexOfAppend(kv.0, "=", '\n');
    IndexOfAppend(kv.0 + "=", kv.1, '\n');
  }

  lemma LineOfOne(l: string)
    requires OneLine(l)
    ensures Lines(l + "\n") == [StripCr(l)]
  {
    assert [l][1..] == [] && l + "\n" + "" == l + "\n";
    LinesOfTerminated([l]);
  }

  /** A file with the line written for a pair says that pair alone exactly when the line is one and is read so. */
  lemma WhatOneLineSays(parse: Parse, kv: Pair)
    requires ReadsOneLine(parse)
    ensures FirstWins(Entries(parse, Lines(Line(kv) + "\n"))) == map[kv.0 := kv.1] <==>
            OneLine(Line(kv)) && parse(Line(kv)) == Some(kv)
  {
    var l, said := Line(kv), FirstWins(Entries(parse, Lines(Line(kv) + "\n")));
    PartsOfOneLine(kv);
    HoldsItself(said, kv);
    if OneLine(l) {
      LineOfOne(l);
      SaidByOne(parse, StripCr(l));
      if parse(l).Some? { SameSingleton(kv, parse(l).value); }
    } else {
      LinesAreOneLine(l + "\n");
      LoadedIsOneLine(parse, Lines(l + "\n"));
    }
  }

  lemma LoaderReadsOneLine()
    ensures ReadsOneLine(ParseConfLine)
  {
    forall l | OneLine(l) ensures PairOnOneLine(ParseConfLine(l)) {
      ParsedIsOneLine(l);
    }
    forall l ensures ParseConfLine(StripCr(l)) == ParseConfLine(l) {
      StripCrParses(l);
    }
  }

  /** A file with the line written for a pair gives back that pair, and nothing else, exactly when the key and the
      value are clean. */
  lemma WhatAFileHolds(kv: Pair)
    ensures Load(Line(kv) + "\n") == map[kv.0 := kv.1] <==> CleanKey(kv.0) && CleanValue(kv.1)
  {
    LoaderReadsOneLine();
    WhatOneLineSays(ParseConfLine, kv);
    PartsOfOneLine(kv);
    ReadBackIsClean(kv);
    if CleanKey(kv.0) && CleanValue(kv.1) {
      LineParses(kv);
    }
  }
}
