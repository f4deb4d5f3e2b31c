/** What the loader and the editor make of a file, said of its characters and lines. */
module ConfReading {
  import opened Options
  import opened Trimming
  import opened ConfText
  import opened ConfEditor
  import opened Conf

  // ---- One line -----------------------------------------------------------------------------------------------

  predicate AllWhite(s: string) {
    forall i :: 0 <= i < |s| ==> IsWhite(s[i])
  }

  /** A key that is trimmed, not empty, without `=`, and not starting a comment. */
  predicate KeyText(k: string) {
    k != "" && CleanEnds(k) && '=' !in k && k[0] != '#'
  }

  lemma {:induction false} NotIn(s: string, c: char)
    ensures IndexOf(s, c).None? <==> c !in s
  {
    if s != "" && s[0] != c {
      NotIn(s[1..], c);
    }
  }

  lemma FirstEquals(k: string, w: string, rest: string)
    requires '=' !in k && '=' !in w
    ensures IndexOf(k + w + "=" + rest, '=') == Some(|k + w|)
  {
    NotIn(k + w, '=');
    IndexOfAppend(k + w, "=" + rest, '=');
    assert k + w + "=" + rest == (k + w) + ("=" + rest);
    assert ("=" + rest)[0] == '=';
  }

  lemma WhiteHasNoEquals(w: string)
    requires AllWhite(w)
    ensures '=' !in w
  {
  }

  lemma KeyPart(a: string, k: string, w: string)
    requires a == k + w && CleanEnds(k) && AllWhite(w)
    ensures Trimmed(a) == k
  {
    assert "" + k + w == a;
    TrimTakesOff(IsWhite, "", k, w);
  }

  lemma ValuePart(b: string, w: string, v: string)
    requires b == w + v && CleanEnds(v) && AllWhite(w)
    ensures Trimmed(b) == v
  {
    assert w + v + "" == b;
    TrimTakesOff(IsWhite, w, v, "");
  }

  lemma EqualsPart(t: string, k: string, w1: string, rest: string)
    requires KeyText(k) && AllWhite(w1) && t == k + w1 + "=" + rest
    ensures Splits(t, k + w1, rest)
  {
    WhiteHasNoEquals(w1);
    FirstEquals(k, w1, rest);
    assert t[0] == k[0];
  }

  lemma TrimmedAssignment(k: string, w1: string, w2: string, v: string)
    requires KeyText(k) && AllWhite(w1) && AllWhite(w2) && CleanEnds(v)
    ensures ParseTrimmed(k + w1 + "=" + w2 + v) == Some((k, if Wrapped(v) then v[1..|v| - 1] else v))
  {
    var t := k + w1 + "=" + w2 + v;
    assert t == k + w1 + "=" + (w2 + v);
    EqualsPart(t, k, w1, w2 + v);
    KeyPart(k + w1, k, w1);
    ValuePart(w2 + v, w2, v);
    QuotesOff(v);
    Assembled(t, k + w1, w2 + v);
  }

  lemma TrimmedNothing(k: string, w1: string)
    requires KeyText(k) && AllWhite(w1)
    ensures ParseTrimmed(k + w1 + "=") == Some((k, ""))
  {
    assert k + w1 + "=" == k + w1 + "=" + "" + "";
    TrimmedAssignment(k, w1, "", "");
  }

  /** White space around the key and around the value does not matter, and quotes around the value come off. */
  lemma WhatAnAssignmentSays(w0: string, k: string, w1: string, w2: string, v: string, w3: string)
    requires KeyText(k) && AllWhite(w0) && AllWhite(w1) && AllWhite(w2) && AllWhite(w3) && CleanEnds(v)
    ensures ParseConfLine(w0 + k + w1 + "=" + w2 + v + w3) == Some((k, if Wrapped(v) then v[1..|v| - 1] else v))
  {
    var l := w0 + k + w1 + "=" + w2 + v + w3;
    if v == "" {
      var t := k + w1 + "=";
      assert l == w0 + t + (w2 + w3);
      assert t[0] == k[0] && t[|t| - 1] == '=';
      TrimTakesOff(IsWhite, w0, t, w2 + w3);
      TrimmedNothing(k, w1);
    } else {
      var t := k + w1 + "=" + w2 + v;
      assert l == w0 + t + w3;
      assert t[0] == k[0] && t[|t| - 1] == v[|v| - 1];
      TrimTakesOff(IsWhite, w0, t, w3);
      TrimmedAssignment(k, w1, w2, v);
    }
  }

  /** So a value between quotes is the text between them, whatever it is. */
  lemma QuotesComeOff(k: string, v: string, q: char)
    requires KeyText(k) && (q == '"' || q == '\'')
    ensures ParseConfLine(k + "=" + [q] + v + [q]) == Some((k, v))
  {
    var x := Quoted(k, v, q);
    WhatAnAssignmentSays("", k, "", "", x, "");
  }

  lemma Quoted(k: string, v: string, q: char) returns (x: string)
    requires q == '"' || q == '\''
    ensures Wrapped(x) && CleanEnds(x) && x[1..|x| - 1] == v
    ensures "" + k + "" + "=" + "" + x + "" == k + "=" + [q] + v + [q]
  {
    x := [q] + v + [q];
  }

  /** Comments, however indented, blank lines and lines without `=` assign nothing, to the loader or the editor. */
  lemma WhatAssignsNothing(w: string, rest: string)
    requires AllWhite(w)
    ensures ParseConfLine(w + "#" + rest).None? && RawKey(w + "#" + rest).None?
    ensures ParseConfLine(w).None? && RawKey(w).None?
    ensures '=' !in rest ==> ParseConfLine(rest).None? && RawKey(rest).None?
  {
    CommentIsTrimmed(w, rest);
    NothingIn(w + "#" + rest, Trimmed(w + "#" + rest));
    BlankIsTrimmed(w);
    NothingIn(w, Trimmed(w));
    NoEqualsIsTrimmed(rest);
    NothingIn(rest, Trimmed(rest));
  }

  lemma NothingIn(line: string, t: string)
    requires t == Trimmed(line)
    ensures t == "" || t[0] == '#' || '=' !in t ==> ParseConfLine(line).None? && RawKey(line).None?
  {
    NotIn(t, '=');
  }

  lemma BlankIsTrimmed(w: string)
    requires AllWhite(w)
    ensures Trimmed(w) == ""
  {
    assert w + "" + "" == w;
    TrimTakesOff(IsWhite, w, "", "");
  }

  lemma NoEqualsIsTrimmed(s: string)
    ensures '=' !in s ==> '=' !in Trimmed(s)
  {
    var i, j := TrimIsPart(IsWhite, s);
  }

  lemma CommentIsTrimmed(w: string, rest: string)
    requires AllWhite(w)
    ensures var t := Trimmed(w + "#" + rest); t != "" && t[0] == '#'
  {
    assert w + "#" + rest == w + ("#" + rest);
    TrimStartTakesOff(IsWhite, w, "#" + rest);
    assert ("#" + rest)[0] == '#';
    HeadSurvives("#" + rest);
  }

  lemma {:induction false} HeadSurvives(s: string)
    requires s != "" && !IsWhite(s[0])
    ensures var t := TrimEnd(IsWhite, s); t != "" && t[0] == s[0]
  {
    if IsWhite(s[|s| - 1]) {
      HeadSurvives(s[..|s| - 1]);
    }
  }

  // ---- Many lines ----------------------------------------------------------------------------------------------

  /** Line `i` is the first that assigns `k`, and gives it `v`. */
  ghost predicate FirstAssigns(parse: Parse, lines: seq<string>, i: nat, k: string, v: string) {
    && i < |lines| && parse(lines[i]) == Some((k, v))
    && forall j :: 0 <= j < i ==> parse(lines[j]).None? || parse(lines[j]).value.0 != k
  }

  ghost predicate NoneAssigns(parse: Parse, lines: seq<string>, k: string) {
    forall j :: 0 <= j < |lines| ==> parse(lines[j]).None? || parse(lines[j]).value.0 != k
  }

  lemma FirstOfMore(parse: Parse, lines: seq<string>, line: string, i: nat, k: string, v: string)
    ensures FirstAssigns(parse, lines, i, k, v) ==> FirstAssigns(parse, lines + [line], i, k, v)
    ensures NoneAssigns(parse, lines, k) && parse(line) == Some((k, v)) ==>
              FirstAssigns(parse, lines + [line], |lines|, k, v)
    ensures NoneAssigns(parse, lines, k) && (parse(line).None? || parse(line).value.0 != k) ==>
              NoneAssigns(parse, lines + [line], k)
  {
  }

  lemma LoadOneMore(parse: Parse, lines: seq<string>, k: string)
    requires lines != []
    ensures var n := |lines| - 1;
            var m, e, m' := FirstWins(Entries(parse, lines[..n])), parse(lines[n]), FirstWins(Entries(parse, lines));
            && (k in m ==> k in m' && m'[k] == m[k])
            && (k !in m && k in m' ==> e == Some((k, m'[k])))
            && (k !in m && k !in m' ==> e.None? || e.value.0 != k)
  {
    FirstWinsOneMore(Entries(parse, lines[..|lines| - 1]), parse(lines[|lines| - 1]));
  }

  /** What is loaded for a key is what the first line that assigns it gives it, and no other key is loaded. */
  lemma {:induction false} FirstLineWins(parse: Parse, lines: seq<string>, k: string) returns (i: nat)
    ensures var m := FirstWins(Entries(parse, lines));
            if k in m then FirstAssigns(parse, lines, i, k, m[k]) else NoneAssigns(parse, lines, k)
  {
    i := 0;
    if lines != [] {
      var n := |lines| - 1;
      i := FirstLineWins(parse, lines[..n], k);
      LoadOneMore(parse, lines, k);
      assert lines == lines[..n] + [lines[n]];
      var m := FirstWins(Entries(parse, lines));
      FirstOfMore(parse, lines[..n], lines[n], i, k, if k in m then m[k] else "");
      if k !in FirstWins(Entries(parse, lines[..n])) {
        i := n;
      }
    }
  }

  /** File and environment together: what the environment has stays, and the rest is from the first line that
      assigns it. */
  lemma WhatIsLoaded(parse: Parse, lines: seq<string>, env: map<string, string>, k: string) returns (i: nat)
    ensures var after := FirstWins(Entries(parse, lines)) + env;
            if k in env then k in after && after[k] == env[k]
            else if k in after then FirstAssigns(parse, lines, i, k, after[k])
            else NoneAssigns(parse, lines, k)
  {
    i := FirstLineWins(parse, lines, k);
  }

  // ---- Line endings --------------------------------------------------------------------------------------------

  /** A line ends at `\n` or `\r\n`, neither of which is part of it; the last line may go without. */
  lemma WhereLinesEnd(line: string, rest: string)
    requires OneLine(line) && !EndsInCr(line)
    ensures Lines(line + "\n" + rest) == [line] + Lines(rest)
    ensures Lines(line + "\r\n" + rest) == [line] + Lines(rest)
    ensures Lines(line) == if line == "" then [] else [line]
  {
    LineEndsHere(line, rest);
    var crlf := line + "\r";
    IndexOfAppend(line, "\r", '\n');
    assert "\r"[1..] == "";
    LineEndsHere(crlf, rest);
    assert crlf + "\n" + rest == line + "\r\n" + rest;
    assert StripCr(crlf) == line;
  }

  // ---- What the editor writes ----------------------------------------------------------------------------------

  /** A line that assigns one of the keys becomes `key=value`, in its place. */
  lemma WhatIsRewritten(keyOf: KeyOf, lines: seq<string>, kvs: seq<Pair>, i: nat, j: nat)
    requires i < |lines| && j < |kvs| && DistinctKeys(kvs) && keyOf(lines[i]) == Some(kvs[j].0)
    ensures Upserted(keyOf, lines, kvs)[i] == kvs[j].0 + "=" + kvs[j].1
  {
    EditAt(keyOf, lines, kvs, i);
    RewriteGives(lines[i], kvs[j].0, kvs);
    DistinctValues(kvs);
  }

  /** Keys that no line assigns are appended, each as `key=value`, in the order given. */
  lemma {:induction false} WhatIsAppended(keyOf: KeyOf, lines: seq<string>, kvs: seq<Pair>, j: nat)
    requires j < |kvs| && forall i :: 0 <= i < |kvs| ==> !Assigned(keyOf, lines, kvs[i].0)
    ensures var m := Missing(keyOf, lines, kvs); |m| == |kvs| && m[j] == kvs[j].0 + "=" + kvs[j].1
    ensures Upserted(keyOf, lines, kvs) == Edit(keyOf, lines, kvs) + Missing(keyOf, lines, kvs)
  {
    var n := |kvs| - 1;
    if n > 0 {
      WhatIsAppended(keyOf, lines, kvs[..n], if j < n then j else 0);
    }
  }
}
