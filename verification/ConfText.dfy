/** Text files as lists of lines. */
module ConfText {
  import opened Options

  function IndexOf(s: string, c: char): (r: Option<nat>)
    ensures r.Some? ==> r.value < |s| && s[r.value] == c
  {
    if s == "" then None
    else if s[0] == c then Some(0)
    else
      var rest := IndexOf(s[1..], c);
      if rest.None? then None else Some(rest.value + 1)
  }

  function StripCr(line: string): string {
    if line != "" && line[|line| - 1] == '\r' then line[..|line| - 1] else line
  }

  predicate EndsInCr(line: string) {
    line != "" && line[|line| - 1] == '\r'
  }

  /** Lines end at `\n`, and one `\r` before it goes too; a last line may lack its ending. */
  function Lines(text: string): seq<string>
    decreases |text|
  {
    match IndexOf(text, '\n')
    case None => if text == "" then [] else [text]
    case Some(i) => [StripCr(text[..i])] + Lines(text[i + 1..])
  }

  function Join(lines: seq<string>): string {
    if lines == [] then ""
    else if |lines| == 1 then lines[0]
    else lines[0] + "\n" + Join(lines[1..])
  }

  predicate EndsInNewline(s: string) {
    s != "" && s[|s| - 1] == '\n'
  }

  function Render(lines: seq<string>): string {
    var out := Join(lines);
    if EndsInNewline(out) then out else out + "\n"
  }

  predicate OneLine(s: string) {
    IndexOf(s, '\n').None?
  }

  ghost predicate AllOneLine(lines: seq<string>) {
    forall i :: 0 <= i < |lines| ==> OneLine(lines[i])
  }

  // ---- Reading back what was written -----------------------------------------------------------------------

  /** Every line with its ending. */
  function Terminated(lines: seq<string>): string {
    if lines == [] then "" else lines[0] + "\n" + Terminated(lines[1..])
  }

  lemma {:induction false} IndexOfAppend(s: string, t: string, c: char)
    ensures IndexOf(s + t, c) ==
            if IndexOf(s, c).Some? then IndexOf(s, c)
            else if IndexOf(t, c).Some? then Some(|s| + IndexOf(t, c).value) else None
  {
    if s == "" {
      assert "" + t == t;
    } else {
      IndexOfAppend(s[1..], t, c);
      IndexOfCons(s[0], s[1..] + t, c);
      assert s + t == [s[0]] + (s[1..] + t);
    }
  }

  lemma IndexOfCons(x: char, s: string, c: char)
    ensures IndexOf([x] + s, c) ==
            if x == c then Some(0) else if IndexOf(s, c).Some? then Some(IndexOf(s, c).value + 1) else None
  {
    assert ([x] + s)[1..] == s;
  }

  /** The first newline after a line is its own. */
  lemma LineEndsHere(line: string, rest: string)
    requires OneLine(line)
    ensures IndexOf(line + "\n" + rest, '\n') == Some(|line|)
    ensures (line + "\n" + rest)[..|line|] == line && (line + "\n" + rest)[|line| + 1..] == rest
  {
    assert line + "\n" + rest == line + ("\n" + rest);
    assert ("\n" + rest)[0] == '\n';
    IndexOfAppend(line, "\n" + rest, '\n');
  }

  function Stripped(lines: seq<string>): (r: seq<string>)
    ensures |r| == |lines|
  {
    if lines == [] then [] else [StripCr(lines[0])] + Stripped(lines[1..])
  }

  lemma {:induction false} StrippedAt(lines: seq<string>, i: nat)
    requires i < |lines|
    ensures Stripped(lines)[i] == StripCr(lines[i])
  {
    if i > 0 {
      StrippedAt(lines[1..], i - 1);
    }
  }

  lemma {:induction false} LinesOfTerminated(lines: seq<string>)
    requires AllOneLine(lines)
    ensures Lines(Terminated(lines)) == Stripped(lines)
  {
    if lines != [] {
      LineEndsHere(lines[0], Terminated(lines[1..]));
      LinesOfTerminated(lines[1..]);
    }
  }

  lemma {:induction false} JoinIsTerminated(lines: seq<string>)
    requires lines != []
    ensures Join(lines) + "\n" == Terminated(lines)
  {
    if |lines| == 1 {
      assert lines[1..] == [] && lines[0] + "\n" + "" == lines[0] + "\n";
    } else {
      JoinIsTerminated(lines[1..]);
      assert Join(lines) + "\n" == lines[0] + "\n" + (Join(lines[1..]) + "\n");
    }
  }

  lemma {:induction false} NewlineHasAnIndex(s: string)
    requires OneLine(s)
    ensures !EndsInNewline(s)
  {
    if |s| > 1 {
      NewlineHasAnIndex(s[1..]);
      assert s[1..][|s| - 2] == s[|s| - 1];
    }
  }

  /** A last line with text keeps its newline; an empty last line after another is given up. */
  function Written(lines: seq<string>): seq<string> {
    if lines == [] then [""]
    else if |lines| > 1 && lines[|lines| - 1] == "" then lines[..|lines| - 1]
    else lines
  }

  lemma {:induction false} EndOfJoin(lines: seq<string>)
    requires AllOneLine(lines) && lines != []
    ensures EndsInNewline(Join(lines)) <==> |lines| > 1 && lines[|lines| - 1] == ""
    ensures |lines| > 1 && lines[|lines| - 1] == "" ==> Join(lines) == Terminated(lines[..|lines| - 1])
  {
    if |lines| == 1 {
      NewlineHasAnIndex(lines[0]);
    } else {
      var rest := lines[1..];
      EndOfJoin(rest);
      if |lines| == 2 {
        assert Join(rest) == lines[1];
        NewlineHasAnIndex(lines[1]);
        assert lines[..1][1..] == [];
      } else {
        assert lines[..|lines| - 1][1..] == rest[..|rest| - 1];
      }
      assert Join(lines) == lines[0] + "\n" + Join(rest);
    }
  }

  lemma RenderIsTerminated(lines: seq<string>)
    requires AllOneLine(lines)
    ensures Render(lines) == Terminated(Written(lines))
  {
    if lines == [] {
      assert [""][1..] == [];
    } else {
      EndOfJoin(lines);
      JoinIsTerminated(lines);
    }
  }

  /** What comes back after writing: the same lines, less one trailing `\r` each and one trailing blank line. */
  lemma LinesOfRender(lines: seq<string>)
    requires AllOneLine(lines)
    ensures Lines(Render(lines)) == Stripped(Written(lines))
  {
    RenderIsTerminated(lines);
    assert AllOneLine(Written(lines));
    LinesOfTerminated(Written(lines));
  }

  /** A line comes back less a trailing `\r`, unless it is the blank one given up at the end. */
  lemma LineComesBack(lines: seq<string>, i: nat)
    requires AllOneLine(lines) && i < |lines|
    ensures var back := Lines(Render(lines));
            if i < |back| then back[i] == StripCr(lines[i]) else i == |lines| - 1 && lines[i] == ""
  {
    LinesOfRender(lines);
    if i < |Written(lines)| {
      StrippedAt(Written(lines), i);
    }
  }

  lemma {:induction false} BeforeIndex(s: string, c: char)
    ensures IndexOf(s, c).Some? ==> IndexOf(s[..IndexOf(s, c).value], c).None?
  {
    if s != "" && s[0] != c {
      BeforeIndex(s[1..], c);
      var r := IndexOf(s, c);
      if r.Some? {
        assert s[..r.value][1..] == s[1..][..r.value - 1];
      }
    }
  }

  lemma StripCrKeepsOneLine(line: string)
    requires OneLine(line)
    ensures OneLine(StripCr(line))
  {
    if StripCr(line) != line {
      assert line == StripCr(line) + "\r";
      IndexOfAppend(StripCr(line), "\r", '\n');
    }
  }

  lemma {:induction false} LinesAreOneLine(text: string)
    ensures AllOneLine(Lines(text))
    decreases |text|
  {
    var r := IndexOf(text, '\n');
    if r.Some? {
      BeforeIndex(text, '\n');
      StripCrKeepsOneLine(text[..r.value]);
      LinesAreOneLine(text[r.value + 1..]);
    }
  }

  // ---- When rewriting a file as it stands keeps its text -------------------------------------------------------

  /** No line ends in `\r`, and a file of several lines does not end in a blank one. */
  predicate Stable(lines: seq<string>) {
    && (forall i :: 0 <= i < |lines| ==> StripCr(lines[i]) == lines[i])
    && !(|lines| > 1 && lines[|lines| - 1] == "")
  }

  lemma {:induction false} StrippedStable(lines: seq<string>)
    ensures Stripped(lines) == lines <==> forall i :: 0 <= i < |lines| ==> StripCr(lines[i]) == lines[i]
  {
    forall i | 0 <= i < |lines| ensures Stripped(lines)[i] == StripCr(lines[i]) {
      StrippedAt(lines, i);
    }
  }

  lemma StrippedIsOneLine(lines: seq<string>)
    requires AllOneLine(lines)
    ensures AllOneLine(Stripped(lines))
  {
    forall i | 0 <= i < |lines| ensures OneLine(Stripped(lines)[i]) {
      StrippedAt(lines, i);
      StripCrKeepsOneLine(lines[i]);
    }
  }

  lemma {:induction false} TerminatedIsInjective(a: seq<string>, b: seq<string>)
    requires AllOneLine(a) && AllOneLine(b) && Terminated(a) == Terminated(b)
    ensures a == b
  {
    if a != [] && b != [] {
      LineEndsHere(a[0], Terminated(a[1..]));
      LineEndsHere(b[0], Terminated(b[1..]));
      TerminatedIsInjective(a[1..], b[1..]);
    }
  }

  lemma RewritingKeepsText(lines: seq<string>)
    requires AllOneLine(lines) && lines != []
    ensures Render(Stripped(lines)) == Terminated(lines) <==> Stable(lines)
  {
    StrippedStable(lines);
    StrippedIsOneLine(lines);
    RenderIsTerminated(Stripped(lines));
    var w := Written(Stripped(lines));
    assert AllOneLine(w);
    if Terminated(w) == Terminated(lines) {
      TerminatedIsInjective(w, lines);
    }
  }
}
