/**
  `sarca.conf`: the editor and the loader with the parsers they actually use, from text to text.
 */
module Conf {
  import opened Options
  import opened Trimming
  import opened ConfText
  import opened ConfEditor

  function Trimmed(s: string): string {
    Trim(IsWhite, s)
  }

  /** Where the first `=` is in the trimmed text of a line that is neither blank nor a comment. */
  function Equals(t: string): (r: Option<nat>)
    ensures r.Some? ==> r.value < |t|
  {
    if t == "" || t[0] == '#' then None else IndexOf(t, '=')
  }

  function KeyOfTrimmed(t: string): Option<string> {
    match Equals(t)
    case None => None
    case Some(i) => Some(Trimmed(t[..i]))
  }

  /** The editor's view of a line: the key it assigns to, if it is an assignment. */
  function RawKey(line: string): Option<string> {
    KeyOfTrimmed(Trimmed(line))
  }

  function Unquote(v: string): string {
    if |v| >= 2 && v[0] == v[|v| - 1] && (v[0] == '"' || v[0] == '\'') then v[1..|v| - 1] else v
  }

  function ParseTrimmed(t: string): Option<Pair> {
    match Equals(t)
    case None => None
    case Some(i) =>
      var key := Trimmed(t[..i]);
      if key == "" then None else Some((key, Unquote(Trimmed(t[i + 1..]))))
  }

  /** The loader's view of a line. */
  function ParseConfLine(line: string): Option<Pair> {
    ParseTrimmed(Trimmed(line))
  }

  /** What a file says. */
  function Load(text: string): map<string, string> {
    FirstWins(Entries(ParseConfLine, Lines(text)))
  }

  function Upsert(text: string, kvs: seq<Pair>): string {
    Render(Upserted(RawKey, Lines(text), kvs))
  }

  /** `apply_conf_file`, from the text it reads: the file fills in what the environment does not have yet. */
  method ApplyConfFile(text: string, env: map<string, string>) returns (env': map<string, string>, applied: nat)
    ensures env' == Load(text) + env && applied == |env'| - |env|
  {
    env', applied := Apply(ParseConfLine, Lines(text), env);
  }

  /** `upsert_conf_keys_at`, from the text it reads to the text it writes. */
  method UpsertConfKeysAt(original: string, kvs: seq<Pair>) returns (out: string)
    ensures out == Upsert(original, kvs)
  {
    var lines := UpsertLines(RawKey, Lines(original), kvs);
    out := Join(lines);
    if !EndsInNewline(out) {
      out := out + "\n";
    }
  }

  // ---- Pairs that survive the trip ----------------------------------------------------------------------------

  /** Nothing to trim at either end. */
  predicate CleanEnds(s: string) {
    s == "" || (!IsWhite(s[0]) && !IsWhite(s[|s| - 1]))
  }

  lemma CleanEndsMeansTrimmed(s: string)
    ensures CleanEnds(s) <==> Trimmed(s) == s
  {
    if CleanEnds(s) {
      TrimOfClean(IsWhite, s);
    }
  }

  /** Trimmed, not empty, without `=` or a newline, and not starting a comment. */
  predicate CleanKey(k: string) {
    k != "" && CleanEnds(k) && IndexOf(k, '=').None? && OneLine(k) && k[0] != '#'
  }

  /** Trimmed, on one line, and not wrapped in matching quotes. */
  predicate CleanValue(v: string) {
    CleanEnds(v) && OneLine(v) && !Wrapped(v)
  }

  /** Between two quotes of a kind. */
  predicate Wrapped(v: string) {
    |v| >= 2 && ((v[0] == '"' && v[|v| - 1] == '"') || (v[0] == '\'' && v[|v| - 1] == '\''))
  }

  /** Quotes around a value come off, and nothing else does. */
  lemma QuotesOff(v: string)
    ensures Unquote(v) == if Wrapped(v) then v[1..|v| - 1] else v
  {
  }

  ghost predicate CleanPairs(kvs: seq<Pair>) {
    && DistinctKeys(kvs)
    && forall i :: 0 <= i < |kvs| ==> CleanKey(kvs[i].0) && CleanValue(kvs[i].1)
  }

  lemma EndsOfLine(kv: Pair)
    requires kv.0 != ""
    ensures var l := Line(kv);
            l[0] == kv.0[0] && l[|l| - 1] == if kv.1 == "" then '=' else kv.1[|kv.1| - 1]
  {
  }

  lemma LineHasCleanEnds(kv: Pair)
    requires kv.0 != "" && CleanEnds(kv.0) && CleanEnds(kv.1)
    ensures CleanEnds(Line(kv)) && Trimmed(Line(kv)) == Line(kv)
  {
    EndsOfLine(kv);
    CleanEndsMeansTrimmed(Line(kv));
  }

  /** The first `=` of `t` stands between `a` and `b`. */
  predicate Splits(t: string, a: string, b: string) {
    Equals(t) == Some(|a|) && t[..|a|] == a && t[|a| + 1..] == b
  }

  lemma LineSplits(kv: Pair)
    requires CleanKey(kv.0)
    ensures Splits(Line(kv), kv.0, kv.1)
  {
    assert Line(kv) == kv.0 + ("=" + kv.1);
    IndexOfAppend(kv.0, "=" + kv.1, '=');
    assert ("=" + kv.1)[0] == '=';
    EndsOfLine(kv);
  }

  /** The steps of reading an assignment whose key is spelled `a` and whose value is spelled `b`. */
  lemma Assembled(t: string, a: string, b: string)
    requires Splits(t, a, b)
    ensures KeyOfTrimmed(t) == Some(Trimmed(a))
    ensures Trimmed(a) != "" ==> ParseTrimmed(t) == Some((Trimmed(a), Unquote(Trimmed(b))))
  {
  }

  /** Both parsers read a written line as the pair it was written for. */
  lemma LineParses(kv: Pair)
    requires CleanKey(kv.0) && CleanValue(kv.1)
    ensures ParseConfLine(Line(kv)) == Some(kv) && RawKey(Line(kv)) == Some(kv.0)
  {
    LineHasCleanEnds(kv);
    LineSplits(kv);
    SplitLineParses(Line(kv), kv.0, kv.1);
  }

  lemma SplitLineParses(t: string, k: string, v: string)
    requires Trimmed(t) == t && Splits(t, k, v)
    requires k != "" && CleanEnds(k) && CleanEnds(v) && !Wrapped(v)
    ensures ParseConfLine(t) == Some((k, v)) && RawKey(t) == Some(k)
  {
    CleanEndsMeansTrimmed(k);
    CleanEndsMeansTrimmed(v);
    QuotesOff(v);
    Assembled(t, k, v);
  }

  lemma OneLineOfAppend(a: string, b: string)
    requires OneLine(a) && OneLine(b)
    ensures OneLine(a + b)
  {
    IndexOfAppend(a, b, '\n');
  }

  lemma LineIsOneLine(kv: Pair)
    requires OneLine(kv.0) && OneLine(kv.1)
    ensures OneLine(Line(kv))
  {
    assert "="[1..] == "";
    OneLineOfAppend(kv.0, "=");
    OneLineOfAppend(kv.0 + "=", kv.1);
  }

  lemma ParsersAgreeOn(l: string)
    ensures ParseConfLine(l).Some? ==> RawKey(l) == Some(ParseConfLine(l).value.0)
    ensures ParseConfLine(l).None? && RawKey(l).Some? ==> RawKey(l).value == ""
  {
  }

  lemma NoEmptyKey(kvs: seq<Pair>)
    requires CleanPairs(kvs)
    ensures "" !in MapOf(kvs)
  {
    MapOfMembers(kvs);
    forall i | 0 <= i < |kvs| ensures kvs[i].0 != "" {
    }
  }

  lemma ParsersAreCompatible(kvs: seq<Pair>)
    requires CleanPairs(kvs)
    ensures Compatible(RawKey, ParseConfLine, kvs)
  {
    NoEmptyKey(kvs);
    forall l ensures (ParseConfLine(l).Some? ==> RawKey(l) == Some(ParseConfLine(l).value.0)) &&
                     (ParseConfLine(l).None? && RawKey(l).Some? ==> RawKey(l).value !in MapOf(kvs)) {
      ParsersAgreeOn(l);
    }
    forall i | 0 <= i < |kvs| ensures ParseConfLine(Line(kvs[i])) == Some(kvs[i]) {
      LineParses(kvs[i]);
    }
  }

  // ---- Reading back the written file ---------------------------------------------------------------------------

  /** The `\r` that reading back may take off a line is one that trimming takes off anyway. */
  lemma StripCrIsTrimmed(l: string)
    ensures Trimmed(StripCr(l)) == Trimmed(l)
  {
    if StripCr(l) != l {
      assert l == StripCr(l) + ['\r'];
      TrimIgnoresLast(IsWhite, StripCr(l), '\r');
    }
  }

  lemma StripCrParses(l: string)
    ensures ParseConfLine(StripCr(l)) == ParseConfLine(l) && RawKey(StripCr(l)) == RawKey(l)
  {
    StripCrIsTrimmed(l);
  }

  lemma BlankParses()
    ensures ParseConfLine("").None? && RawKey("").None?
  {
    assert TrimStart(IsWhite, "") == "";
  }

  lemma UpsertedIsOneLine(lines: seq<string>, kvs: seq<Pair>)
    requires AllOneLine(lines) && CleanPairs(kvs)
    ensures AllOneLine(Upserted(RawKey, lines, kvs))
  {
    MapOfMembers(kvs);
    forall i | 0 <= i < |lines| ensures OneLine(Edit(RawKey, lines, kvs)[i]) {
      EditAt(RawKey, lines, kvs, i);
      if RawKey(lines[i]).Some? {
        WrittenLineIsOneLine(lines[i], RawKey(lines[i]).value, kvs);
      }
    }
    MissingIsOneLine(lines, kvs);
  }

  lemma WrittenLineIsOneLine(line: string, key: string, kvs: seq<Pair>)
    requires OneLine(line) && CleanPairs(kvs)
    ensures OneLine(Rewrite(line, Some(key), kvs))
  {
    RewriteGives(line, key, kvs);
    MapOfMembers(kvs);
    if key in MapOf(kvs) {
      var i :| 0 <= i < |kvs| && kvs[i] == (key, MapOf(kvs)[key]);
      LineIsOneLine(kvs[i]);
    }
  }

  lemma {:induction false} MissingIsOneLine(lines: seq<string>, kvs: seq<Pair>)
    requires CleanPairs(kvs)
    ensures AllOneLine(Missing(RawKey, lines, kvs))
  {
    if kvs != [] {
      var n := |kvs| - 1;
      assert CleanPairs(kvs[..n]);
      MissingIsOneLine(lines, kvs[..n]);
      LineIsOneLine(kvs[n]);
    }
  }

  /** Loading a file after an upsert gives its old values overridden by the new ones; and so, through the
      environment, what was set there before still wins over both. */
  lemma UpsertThenLoad(text: string, kvs: seq<Pair>, env: map<string, string>)
    requires CleanPairs(kvs)
    ensures Load(Upsert(text, kvs)) == Load(text) + MapOf(kvs)
    ensures Load(Upsert(text, kvs)) + env == Load(text) + MapOf(kvs) + env
  {
    var lines := Upserted(RawKey, Lines(text), kvs);
    LinesAreOneLine(text);
    UpsertedIsOneLine(Lines(text), kvs);
    LinesOfRender(lines);
    ParsersIgnoreEnds(kvs);
    EntriesOfWritten(ParseConfLine, lines);
    ParsersAreCompatible(kvs);
    LoadOfUpserted(RawKey, ParseConfLine, Lines(text), kvs);
  }

  /** A second upsert of the same pairs changes nothing that is loaded. */
  lemma UpsertTwiceLoadsTheSame(text: string, kvs: seq<Pair>)
    requires CleanPairs(kvs)
    ensures Load(Upsert(Upsert(text, kvs), kvs)) == Load(Upsert(text, kvs))
  {
    UpsertThenLoad(text, kvs, map[]);
    UpsertThenLoad(Upsert(text, kvs), kvs, map[]);
    assert Load(text) + MapOf(kvs) + MapOf(kvs) == Load(text) + MapOf(kvs);
  }

  /** Comments, blank lines and other assignments come back in place, up to the `\r` that reading takes off and
      the trailing blank line that writing gives up. */
  lemma OtherLinesComeBack(text: string, kvs: seq<Pair>, i: nat)
    requires CleanPairs(kvs) && i < |Lines(text)|
    requires RawKey(Lines(text)[i]).Some? ==> RawKey(Lines(text)[i]).value !in MapOf(kvs)
    ensures var back := Lines(Upsert(text, kvs));
            if i < |back| then back[i] == StripCr(Lines(text)[i]) else i == |Lines(text)| - 1 && Lines(text)[i] == ""
  {
    LinesAreOneLine(text);
    UpsertedIsOneLine(Lines(text), kvs);
    OtherLineComesBack(RawKey, Lines(text), kvs, i);
  }

  // ---- The text of a second upsert -----------------------------------------------------------------------------

  lemma CleanEndsHaveNoCr(s: string)
    requires CleanEnds(s)
    ensures StripCr(s) == s
  {
  }

  lemma WrittenLineHasNoCr(kv: Pair)
    requires kv.0 != "" && CleanEnds(kv.0) && CleanEnds(kv.1)
    ensures StripCr(Line(kv)) == Line(kv)
  {
    LineHasCleanEnds(kv);
    CleanEndsHaveNoCr(Line(kv));
  }

  lemma ParsersIgnoreEnds(kvs: seq<Pair>)
    requires CleanPairs(kvs)
    ensures IgnoresEnds(RawKey, ParseConfLine, kvs)
  {
    BlankParses();
    forall l ensures ParseConfLine(StripCr(l)) == ParseConfLine(l) && RawKey(StripCr(l)) == RawKey(l) {
      StripCrParses(l);
    }
    forall i | 0 <= i < |kvs| ensures StripCr(Line(kvs[i])) == Line(kvs[i]) {
      WrittenLineHasNoCr(kvs[i]);
    }
  }

  lemma WrittenFile(text: string, kvs: seq<Pair>) returns (lines: seq<string>)
    requires CleanPairs(kvs)
    ensures lines == Written(Upserted(RawKey, Lines(text), kvs)) && lines != [] && AllOneLine(lines)
    ensures Upsert(text, kvs) == Terminated(lines) && Lines(Upsert(text, kvs)) == Stripped(lines)
  {
    var first := Upserted(RawKey, Lines(text), kvs);
    LinesAreOneLine(text);
    UpsertedIsOneLine(Lines(text), kvs);
    LinesOfRender(first);
    RenderIsTerminated(first);
    lines := Written(first);
  }

  /** Repeating an upsert leaves the text alone exactly when the file the first one wrote has no line ending in
      `\r` and, if it has several lines, no blank one at the end. */
  lemma RewritingUpserted(text: string, kvs: seq<Pair>)
    requires CleanPairs(kvs)
    ensures Upsert(Upsert(text, kvs), kvs) == Upsert(text, kvs) <==>
            Stable(Written(Upserted(RawKey, Lines(text), kvs)))
  {
    var lines := WrittenFile(text, kvs);
    ParsersAreCompatible(kvs);
    ParsersIgnoreEnds(kvs);
    SecondUpsertIsIdle(RawKey, ParseConfLine, Lines(text), kvs);
    RewritingKeepsText(lines);
  }

  /** That can be told from the file before the first upsert: no line it keeps ends in `\r`, and, when every key is
      assigned already, a file of more than two lines does not end in two blank ones. */
  lemma SecondUpsertKeepsText(text: string, kvs: seq<Pair>)
    requires CleanPairs(kvs)
    ensures Upsert(Upsert(text, kvs), kvs) == Upsert(text, kvs) <==> Settled(RawKey, Lines(text), kvs)
  {
    RewritingUpserted(text, kvs);
    ParsersIgnoreEnds(kvs);
    StableMeansSettled(RawKey, Lines(text), kvs);
  }

  /** So a file ending in blank lines loses one at each upsert, even with nothing to write. */
  lemma BlankLinesAreEaten()
    ensures Upsert(Upsert("\n\n\n", []), []) != Upsert("\n\n\n", [])
  {
    var lines := Lines("\n\n\n");
    ThreeBlankLines();
    TwoTooMany(lines);
    SecondUpsertKeepsText("\n\n\n", []);
  }

  lemma ThreeBlankLines()
    ensures Lines("\n\n\n") == ["", "", ""]
  {
    assert "\n\n\n"[1..] == "\n\n" && "\n\n"[1..] == "\n" && "\n"[1..] == "";
  }

  lemma TwoTooMany(lines: seq<string>)
    requires lines == ["", "", ""]
    ensures !Settled(RawKey, lines, [])
  {
  }
}
