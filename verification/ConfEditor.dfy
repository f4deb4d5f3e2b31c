/**
  Editing a list of lines, and collecting what a list of lines says, each with its own way to read a
  line: `keyOf` is the editor's, `parse` the loader's.
 */
module ConfEditor {
  import opened ConfText
  import opened Options

  type Pair = (string, string)
  type KeyOf = string -> Option<string>
  type Parse = string -> Option<Pair>

  function Line(kv: Pair): string {
    kv.0 + "=" + kv.1
  }

  // ---- What lines say ---------------------------------------------------------------------------------------

  function OrNothing(e: Option<Pair>): seq<Pair> {
    if e.Some? then [e.value] else []
  }

  function Entries(parse: Parse, lines: seq<string>): seq<Pair> {
    if lines == [] then []
    else Entries(parse, lines[..|lines| - 1]) + OrNothing(parse(lines[|lines| - 1]))
  }

  /** The first entry of a key is the one that counts. */
  function FirstWins(es: seq<Pair>): map<string, string> {
    if es == [] then map[]
    else
      var m, e := FirstWins(es[..|es| - 1]), es[|es| - 1];
      if e.0 in m then m else m[e.0 := e.1]
  }

  /** Fills in what the environment does not have yet. */
  method Apply(parse: Parse, lines: seq<string>, env: map<string, string>)
    returns (env': map<string, string>, applied: nat)
    ensures env' == FirstWins(Entries(parse, lines)) + env
    ensures applied == |env'| - |env|
  {
    env', applied := env, 0;
    assert map[] + env == env;
    for i := 0 to |lines|
      invariant env' == FirstWins(Entries(parse, lines[..i])) + env
      invariant |env| + applied == |env'|
    {
      var parsed := parse(lines[i]);
      EntriesOneMore(parse, lines, i);
      FillInOneMore(Entries(parse, lines[..i]), parsed, env);
      if parsed.Some? && parsed.value.0 !in env' {
        env' := env'[parsed.value.0 := parsed.value.1];
        applied := applied + 1;
      }
    }
    assert lines[..|lines|] == lines;
  }

  lemma EntriesOneMore(parse: Parse, lines: seq<string>, i: nat)
    requires i < |lines|
    ensures Entries(parse, lines[..i + 1]) == Entries(parse, lines[..i]) + OrNothing(parse(lines[i]))
  {
    assert lines[..i + 1][..i] == lines[..i];
  }

  lemma {:induction false} EntriesPointwise(parse: Parse, a: seq<string>, b: seq<string>)
    requires |a| == |b| && forall i :: 0 <= i < |a| ==> parse(a[i]) == parse(b[i])
    ensures Entries(parse, a) == Entries(parse, b)
  {
    if a != [] {
      EntriesPointwise(parse, a[..|a| - 1], b[..|b| - 1]);
    }
  }

  lemma EntriesOfBlank(parse: Parse, lines: seq<string>)
    requires parse("").None?
    ensures Entries(parse, lines + [""]) == Entries(parse, lines)
  {
    assert (lines + [""])[..|lines|] == lines;
    assert Entries(parse, lines) + [] == Entries(parse, lines);
  }

  /** Writing lines and reading them back says the same, if neither a final `\r` nor a blank line matters. */
  lemma EntriesOfWritten(parse: Parse, lines: seq<string>)
    requires parse("").None? && forall l :: parse(StripCr(l)) == parse(l)
    ensures Entries(parse, Stripped(Written(lines))) == Entries(parse, lines)
  {
    var w := Written(lines);
    forall i | 0 <= i < |w| ensures parse(Stripped(w)[i]) == parse(w[i]) {
      StrippedAt(w, i);
    }
    EntriesPointwise(parse, Stripped(w), w);
    if lines == [] {
      EntriesOfBlank(parse, []);
    } else if w != lines {
      EntriesOfBlank(parse, w);
      assert lines == w + [""];
    }
  }

  lemma FirstWinsOneMore(es: seq<Pair>, e: Option<Pair>)
    ensures FirstWins(es + OrNothing(e)) ==
            if e.None? || e.value.0 in FirstWins(es) then FirstWins(es) else FirstWins(es)[e.value.0 := e.value.1]
  {
    if e.None? {
      assert es + [] == es;
    } else {
      assert (es + [e.value])[..|es|] == es;
    }
  }

  lemma FillInOneMore(es: seq<Pair>, e: Option<Pair>, env: map<string, string>)
    ensures var filled := FirstWins(es) + env;
            FirstWins(es + OrNothing(e)) + env ==
            if e.None? || e.value.0 in filled then filled else filled[e.value.0 := e.value.1]
  {
    FirstWinsOneMore(es, e);
    var m := FirstWins(es);
    if e.Some? && e.value.0 !in m {
      FillInNew(m, env, e.value.0, e.value.1);
    }
  }

  lemma FillInNew(m: map<string, string>, env: map<string, string>, key: string, value: string)
    requires key !in m
    ensures m[key := value] + env == if key in env then m + env else (m + env)[key := value]
  {
  }

  // ---- Editing -------------------------------------------------------------------------------------------------

  /** `line`, which assigns `key`, with the last pair of that key written into it, if there is one. */
  function Rewrite(line: string, key: Option<string>, kvs: seq<Pair>): string {
    if key.None? || kvs == [] then line
    else if kvs[|kvs| - 1].0 == key.value then Line(kvs[|kvs| - 1])
    else Rewrite(line, key, kvs[..|kvs| - 1])
  }

  function Edit(keyOf: KeyOf, lines: seq<string>, kvs: seq<Pair>): (r: seq<string>)
    ensures |r| == |lines|
  {
    if lines == [] then []
    else
      var n := |lines| - 1;
      Edit(keyOf, lines[..n], kvs) + [Rewrite(lines[n], keyOf(lines[n]), kvs)]
  }

  function Assigned(keyOf: KeyOf, lines: seq<string>, key: string): bool {
    lines != [] && (Assigned(keyOf, lines[..|lines| - 1], key) || keyOf(lines[|lines| - 1]) == Some(key))
  }

  /** The lines to append for the pairs that no line assigned. */
  function Missing(keyOf: KeyOf, lines: seq<string>, kvs: seq<Pair>): seq<string> {
    if kvs == [] then []
    else
      var kv := kvs[|kvs| - 1];
      Missing(keyOf, lines, kvs[..|kvs| - 1]) + if Assigned(keyOf, lines, kv.0) then [] else [Line(kv)]
  }

  function Upserted(keyOf: KeyOf, lines: seq<string>, kvs: seq<Pair>): seq<string> {
    Edit(keyOf, lines, kvs) + Missing(keyOf, lines, kvs)
  }

  /** One line of the file, tried against every pair. */
  method RewriteLine(line: string, key: Option<string>, kvs: seq<Pair>, found0: seq<bool>)
    returns (out: string, found: seq<bool>)
    requires |found0| == |kvs|
    ensures out == Rewrite(line, key, kvs)
    ensures |found| == |kvs| && forall j :: 0 <= j < |kvs| ==> found[j] == (found0[j] || key == Some(kvs[j].0))
  {
    out, found := line, found0;
    if key.None? {
      return;
    }
    for j := 0 to |kvs|
      invariant |found| == |kvs| && out == Rewrite(line, key, kvs[..j])
      invariant forall l :: 0 <= l < j ==> found[l] == (found0[l] || key == Some(kvs[l].0))
      invariant forall l :: j <= l < |kvs| ==> found[l] == found0[l]
    {
      assert kvs[..j + 1][..j] == kvs[..j];
      if key.value == kvs[j].0 {
        out := Line(kvs[j]);
        found := found[j := true];
      }
    }
    assert kvs[..|kvs|] == kvs;
  }

  ghost predicate FoundIn(found: seq<bool>, keyOf: KeyOf, lines: seq<string>, kvs: seq<Pair>) {
    |found| == |kvs| && forall j :: 0 <= j < |kvs| ==> found[j] == Assigned(keyOf, lines, kvs[j].0)
  }

  lemma FoundOneMore(found: seq<bool>, found': seq<bool>, keyOf: KeyOf, lines: seq<string>, i: nat, kvs: seq<Pair>)
    requires i < |lines| && FoundIn(found, keyOf, lines[..i], kvs) && |found'| == |kvs|
    requires forall j :: 0 <= j < |kvs| ==> found'[j] == (found[j] || keyOf(lines[i]) == Some(kvs[j].0))
    ensures FoundIn(found', keyOf, lines[..i + 1], kvs)
  {
    assert lines[..i + 1][..i] == lines[..i];
  }

  lemma ReplaceNext<T>(done: seq<T>, rest: seq<T>, x: T)
    requires rest != []
    ensures (done + rest)[|done| := x] == (done + [x]) + rest[1..]
  {
  }

  lemma EditOneMore(keyOf: KeyOf, lines: seq<string>, kvs: seq<Pair>, i: nat)
    requires i < |lines|
    ensures Edit(keyOf, lines[..i + 1], kvs) == Edit(keyOf, lines[..i], kvs) + [Rewrite(lines[i], keyOf(lines[i]), kvs)]
  {
    assert lines[..i + 1][..i] == lines[..i];
  }

  method RewriteLines(keyOf: KeyOf, given: seq<string>, kvs: seq<Pair>) returns (lines: seq<string>, found: seq<bool>)
    ensures lines == Edit(keyOf, given, kvs) && FoundIn(found, keyOf, given, kvs)
  {
    lines, found := given, seq(|kvs|, _ => false);
    assert [] + given[0..] == given;
    for i := 0 to |given|
      invariant FoundIn(found, keyOf, given[..i], kvs)
      invariant lines == Edit(keyOf, given[..i], kvs) + given[i..]
    {
      ghost var done, was := Edit(keyOf, given[..i], kvs), found;
      var line;
      line, found := RewriteLine(lines[i], keyOf(lines[i]), kvs, found);
      lines := lines[i := line];
      ReplaceNext(done, given[i..], line);
      EditOneMore(keyOf, given, kvs, i);
      FoundOneMore(was, found, keyOf, given, i, kvs);
      assert given[i..][1..] == given[i + 1..];
    }
    assert given[..|given|] == given;
    assert Edit(keyOf, given, kvs) + given[|given|..] == Edit(keyOf, given, kvs);
  }

  /** The pairs no line took are appended. */
  method UpsertLines(keyOf: KeyOf, given: seq<string>, kvs: seq<Pair>) returns (lines: seq<string>)
    ensures lines == Upserted(keyOf, given, kvs)
  {
    var found;
    lines, found := RewriteLines(keyOf, given, kvs);
    ghost var edited := lines;
    assert edited + [] == edited;
    for i := 0 to |kvs|
      invariant lines == edited + Missing(keyOf, given, kvs[..i])
    {
      assert kvs[..i + 1][..i] == kvs[..i];
      if !found[i] {
        lines := lines + [Line(kvs[i])];
      }
    }
    assert kvs[..|kvs|] == kvs;
  }

  // ---- The loader reads back what the editor wrote -------------------------------------------------------------

  /** The pairs as a map. */
  function MapOf(kvs: seq<Pair>): map<string, string> {
    if kvs == [] then map[] else MapOf(kvs[..|kvs| - 1])[kvs[|kvs| - 1].0 := kvs[|kvs| - 1].1]
  }

  ghost predicate DistinctKeys(kvs: seq<Pair>) {
    forall i, j :: 0 <= i < j < |kvs| ==> kvs[i].0 != kvs[j].0
  }

  /** What the two ways of reading a line must have in common. */
  ghost predicate Compatible(keyOf: KeyOf, parse: Parse, kvs: seq<Pair>) {
    && (forall l :: parse(l).Some? ==> keyOf(l) == Some(parse(l).value.0))
    && (forall l :: parse(l).None? && keyOf(l).Some? ==> keyOf(l).value !in MapOf(kvs))
    && (forall i :: 0 <= i < |kvs| ==> parse(Line(kvs[i])) == Some(kvs[i]))
  }

  lemma {:induction false} MapOfMembers(kvs: seq<Pair>)
    ensures forall k :: k in MapOf(kvs) ==> (k, MapOf(kvs)[k]) in kvs
    ensures forall i :: 0 <= i < |kvs| ==> kvs[i].0 in MapOf(kvs)
  {
    if kvs != [] {
      var n := |kvs| - 1;
      MapOfMembers(kvs[..n]);
      assert kvs == kvs[..n] + [kvs[n]];
    }
  }

  lemma {:induction false} RewriteGives(line: string, key: string, kvs: seq<Pair>)
    ensures Rewrite(line, Some(key), kvs) == if key in MapOf(kvs) then Line((key, MapOf(kvs)[key])) else line
  {
    if kvs != [] {
      RewriteGives(line, key, kvs[..|kvs| - 1]);
    }
  }

  function OverrideOne(e: Option<Pair>, m: map<string, string>): Option<Pair> {
    if e.Some? && e.value.0 in m then Some((e.value.0, m[e.value.0])) else e
  }

  function Override(es: seq<Pair>, m: map<string, string>): seq<Pair> {
    if es == [] then []
    else Override(es[..|es| - 1], m) + [OverrideOne(Some(es[|es| - 1]), m).value]
  }

  lemma ParseOfRewritten(keyOf: KeyOf, parse: Parse, kvs: seq<Pair>, line: string)
    requires Compatible(keyOf, parse, kvs)
    ensures parse(Rewrite(line, keyOf(line), kvs)) == OverrideOne(parse(line), MapOf(kvs))
  {
    if keyOf(line).Some? {
      var key := keyOf(line).value;
      RewriteGives(line, key, kvs);
      MapOfMembers(kvs);
      if key in MapOf(kvs) {
        var i :| 0 <= i < |kvs| && kvs[i] == (key, MapOf(kvs)[key]);
        assert parse(Line(kvs[i])) == Some(kvs[i]);
      }
    }
  }

  lemma OverrideOneMore(es: seq<Pair>, e: Option<Pair>, m: map<string, string>)
    ensures Override(es + OrNothing(e), m) == Override(es, m) + OrNothing(OverrideOne(e, m))
  {
    if e.Some? {
      assert (es + [e.value])[..|es|] == es;
    } else {
      assert es + [] == es && Override(es, m) + [] == Override(es, m);
    }
  }

  lemma {:induction false} EntriesOfEdit(keyOf: KeyOf, parse: Parse, lines: seq<string>, kvs: seq<Pair>)
    requires Compatible(keyOf, parse, kvs)
    ensures Entries(parse, Edit(keyOf, lines, kvs)) == Override(Entries(parse, lines), MapOf(kvs))
  {
    if lines != [] {
      var n := |lines| - 1;
      var edited, line := Edit(keyOf, lines[..n], kvs), Rewrite(lines[n], keyOf(lines[n]), kvs);
      EntriesOfEdit(keyOf, parse, lines[..n], kvs);
      ParseOfRewritten(keyOf, parse, kvs, lines[n]);
      OverrideOneMore(Entries(parse, lines[..n]), parse(lines[n]), MapOf(kvs));
      assert (edited + [line])[..n] == edited;
    }
  }

  lemma {:induction false} FirstWinsOfOverride(es: seq<Pair>, m: map<string, string>)
    ensures FirstWins(Override(es, m)) ==
            map k | k in FirstWins(es) :: if k in m then m[k] else FirstWins(es)[k]
  {
    if es != [] {
      var n := |es| - 1;
      FirstWinsOfOverride(es[..n], m);
      var o, e := Override(es[..n], m), OverrideOne(Some(es[n]), m).value;
      assert (o + [e])[..n] == o by { OverrideLength(es[..n], m); }
      assert e.0 == es[n].0;
    }
  }

  lemma {:induction false} OverrideLength(es: seq<Pair>, m: map<string, string>)
    ensures |Override(es, m)| == |es|
  {
    if es != [] {
      OverrideLength(es[..|es| - 1], m);
    }
  }

  lemma {:induction false} EntriesOfAppend(parse: Parse, a: seq<string>, b: seq<string>)
    ensures Entries(parse, a + b) == Entries(parse, a) + Entries(parse, b)
  {
    if b == [] {
      assert a + b == a;
    } else {
      assert (a + b)[..|a + b| - 1] == a + b[..|b| - 1];
      EntriesOfAppend(parse, a, b[..|b| - 1]);
    }
  }

  lemma {:induction false} FirstWinsOfAppend(a: seq<Pair>, b: seq<Pair>)
    ensures FirstWins(a + b) == FirstWins(b) + FirstWins(a)
  {
    if b == [] {
      assert a + b == a;
    } else {
      assert (a + b)[..|a + b| - 1] == a + b[..|b| - 1];
      FirstWinsOfAppend(a, b[..|b| - 1]);
    }
  }

  /** For the keys being written, the editor finds a line exactly when the loader has a value. */
  lemma {:induction false} AssignedIsLoaded(keyOf: KeyOf, parse: Parse, lines: seq<string>, kvs: seq<Pair>, key: string)
    requires Compatible(keyOf, parse, kvs) && key in MapOf(kvs)
    ensures Assigned(keyOf, lines, key) <==> key in FirstWins(Entries(parse, lines))
  {
    if lines != [] {
      var n := |lines| - 1;
      AssignedIsLoaded(keyOf, parse, lines[..n], kvs, key);
      FirstWinsOneMore(Entries(parse, lines[..n]), parse(lines[n]));
    }
  }

  lemma LastKeyIsNew(kvs: seq<Pair>)
    requires DistinctKeys(kvs) && kvs != []
    ensures kvs[|kvs| - 1].0 !in MapOf(kvs[..|kvs| - 1])
  {
    var init := kvs[..|kvs| - 1];
    MapOfMembers(init);
    forall i | 0 <= i < |init| ensures init[i].0 != kvs[|kvs| - 1].0 {
    }
  }

  /** The part of a map whose keys no line assigns. */
  ghost function Unassigned(keyOf: KeyOf, lines: seq<string>, m: map<string, string>): map<string, string> {
    map k | k in m && !Assigned(keyOf, lines, k) :: m[k]
  }

  lemma UnassignedGrows(keyOf: KeyOf, lines: seq<string>, m: map<string, string>, key: string, value: string)
    requires key !in m
    ensures Unassigned(keyOf, lines, m[key := value]) ==
            if Assigned(keyOf, lines, key) then Unassigned(keyOf, lines, m)
            else Unassigned(keyOf, lines, m)[key := value]
  {
  }

  lemma {:induction false} EntriesOfMissing(keyOf: KeyOf, parse: Parse, lines: seq<string>, kvs: seq<Pair>)
    requires DistinctKeys(kvs) && forall i :: 0 <= i < |kvs| ==> parse(Line(kvs[i])) == Some(kvs[i])
    ensures FirstWins(Entries(parse, Missing(keyOf, lines, kvs))) == Unassigned(keyOf, lines, MapOf(kvs))
  {
    if kvs != [] {
      var n := |kvs| - 1;
      var init, kv := kvs[..n], kvs[n];
      var before := Missing(keyOf, lines, init);
      EntriesOfMissing(keyOf, parse, lines, init);
      LastKeyIsNew(kvs);
      UnassignedGrows(keyOf, lines, MapOf(init), kv.0, kv.1);
      if Assigned(keyOf, lines, kv.0) {
        assert before + [] == before;
      } else {
        assert (before + [Line(kv)])[..|before|] == before;
        FirstWinsOneMore(Entries(parse, before), Some(kv));
      }
    }
  }

  lemma MergeMaps(was: map<string, string>, m: map<string, string>)
    ensures (map k | k in m && k !in was :: m[k]) + (map k | k in was :: if k in m then m[k] else was[k]) == was + m
  {
  }

  lemma UnassignedIsNew(keyOf: KeyOf, parse: Parse, lines: seq<string>, kvs: seq<Pair>)
    requires Compatible(keyOf, parse, kvs)
    ensures var was := FirstWins(Entries(parse, lines));
            Unassigned(keyOf, lines, MapOf(kvs)) == map k | k in MapOf(kvs) && k !in was :: MapOf(kvs)[k]
  {
    forall k | k in MapOf(kvs) ensures Assigned(keyOf, lines, k) <==> k in FirstWins(Entries(parse, lines)) {
      AssignedIsLoaded(keyOf, parse, lines, kvs, k);
    }
  }

  /** After an upsert, loading gives the old values overridden by the new pairs. */
  lemma LoadOfUpserted(keyOf: KeyOf, parse: Parse, lines: seq<string>, kvs: seq<Pair>)
    requires Compatible(keyOf, parse, kvs) && DistinctKeys(kvs)
    ensures FirstWins(Entries(parse, Upserted(keyOf, lines, kvs))) == FirstWins(Entries(parse, lines)) + MapOf(kvs)
  {
    var edited, missing := Edit(keyOf, lines, kvs), Missing(keyOf, lines, kvs);
    EntriesOfAppend(parse, edited, missing);
    FirstWinsOfAppend(Entries(parse, edited), Entries(parse, missing));
    EntriesOfEdit(keyOf, parse, lines, kvs);
    FirstWinsOfOverride(Entries(parse, lines), MapOf(kvs));
    EntriesOfMissing(keyOf, parse, lines, kvs);
    UnassignedIsNew(keyOf, parse, lines, kvs);
    MergeMaps(FirstWins(Entries(parse, lines)), MapOf(kvs));
  }

  /** Comments, blank lines and assignments to other keys stay where they are, as they are. */
  lemma OtherLinesSurvive(keyOf: KeyOf, lines: seq<string>, kvs: seq<Pair>, i: nat)
    requires i < |lines| && (keyOf(lines[i]).Some? ==> keyOf(lines[i]).value !in MapOf(kvs))
    ensures Upserted(keyOf, lines, kvs)[i] == lines[i]
  {
    EditAt(keyOf, lines, kvs, i);
    if keyOf(lines[i]).Some? {
      RewriteGives(lines[i], keyOf(lines[i]).value, kvs);
    }
  }

  lemma OtherLineComesBack(keyOf: KeyOf, lines: seq<string>, kvs: seq<Pair>, i: nat)
    requires i < |lines| && (keyOf(lines[i]).Some? ==> keyOf(lines[i]).value !in MapOf(kvs))
    requires AllOneLine(Upserted(keyOf, lines, kvs))
    ensures var back := Lines(Render(Upserted(keyOf, lines, kvs)));
            if i < |back| then back[i] == StripCr(lines[i]) else i == |lines| - 1 && lines[i] == ""
  {
    OtherLinesSurvive(keyOf, lines, kvs, i);
    LineComesBack(Upserted(keyOf, lines, kvs), i);
  }

  lemma {:induction false} EditAt(keyOf: KeyOf, lines: seq<string>, kvs: seq<Pair>, i: nat)
    requires i < |lines|
    ensures Edit(keyOf, lines, kvs)[i] == Rewrite(lines[i], keyOf(lines[i]), kvs)
  {
    if i < |lines| - 1 {
      EditAt(keyOf, lines[..|lines| - 1], kvs, i);
    }
  }

  // ---- Editing twice -------------------------------------------------------------------------------------------

  /** Every line with a key being written already has exactly the text the editor would write. */
  ghost predicate InPlace(keyOf: KeyOf, lines: seq<string>, kvs: seq<Pair>) {
    forall i :: 0 <= i < |lines| && keyOf(lines[i]).Some? && keyOf(lines[i]).value in MapOf(kvs) ==>
      lines[i] == Line((keyOf(lines[i]).value, MapOf(kvs)[keyOf(lines[i]).value]))
  }

  lemma {:induction false} EditOfInPlace(keyOf: KeyOf, lines: seq<string>, kvs: seq<Pair>)
    requires InPlace(keyOf, lines, kvs)
    ensures Edit(keyOf, lines, kvs) == lines
  {
    if lines != [] {
      var n := |lines| - 1;
      EditOfInPlace(keyOf, lines[..n], kvs);
      if keyOf(lines[n]).Some? {
        RewriteGives(lines[n], keyOf(lines[n]).value, kvs);
      }
    }
  }

  lemma {:induction false} MissingOfAssigned(keyOf: KeyOf, lines: seq<string>, kvs: seq<Pair>)
    requires forall i :: 0 <= i < |kvs| ==> Assigned(keyOf, lines, kvs[i].0)
    ensures Missing(keyOf, lines, kvs) == []
  {
    if kvs != [] {
      MissingOfAssigned(keyOf, lines, kvs[..|kvs| - 1]);
    }
  }

  ghost predicate KeysReadBack(keyOf: KeyOf, kvs: seq<Pair>) {
    forall i :: 0 <= i < |kvs| ==> keyOf(Line(kvs[i])) == Some(kvs[i].0)
  }

  lemma WrittenInPlace(keyOf: KeyOf, line: string, kvs: seq<Pair>)
    requires KeysReadBack(keyOf, kvs) && keyOf(line).Some? && keyOf(line).value in MapOf(kvs)
    ensures var key, out := keyOf(line).value, Rewrite(line, keyOf(line), kvs);
            keyOf(out) == Some(key) && out == Line((key, MapOf(kvs)[key]))
  {
    var key := keyOf(line).value;
    RewriteGives(line, key, kvs);
    MapOfMembers(kvs);
    var i :| 0 <= i < |kvs| && kvs[i] == (key, MapOf(kvs)[key]);
    assert keyOf(Line(kvs[i])) == Some(kvs[i].0);
  }

  lemma EditedInPlace(keyOf: KeyOf, lines: seq<string>, kvs: seq<Pair>)
    requires KeysReadBack(keyOf, kvs)
    ensures InPlace(keyOf, Edit(keyOf, lines, kvs), kvs)
  {
    var e := Edit(keyOf, lines, kvs);
    forall i | 0 <= i < |e| && keyOf(e[i]).Some? && keyOf(e[i]).value in MapOf(kvs)
      ensures e[i] == Line((keyOf(e[i]).value, MapOf(kvs)[keyOf(e[i]).value]))
    {
      EditAt(keyOf, lines, kvs, i);
      if keyOf(lines[i]).Some? {
        RewriteGives(lines[i], keyOf(lines[i]).value, kvs);
        if keyOf(lines[i]).value in MapOf(kvs) {
          WrittenInPlace(keyOf, lines[i], kvs);
        }
      }
    }
  }

  lemma {:induction false} MissingInPlace(keyOf: KeyOf, lines: seq<string>, kvs: seq<Pair>, all: seq<Pair>)
    requires KeysReadBack(keyOf, kvs)
    requires forall i :: 0 <= i < |kvs| ==> kvs[i].0 in MapOf(all) && MapOf(all)[kvs[i].0] == kvs[i].1
    ensures InPlace(keyOf, Missing(keyOf, lines, kvs), all)
  {
    if kvs != [] {
      MissingInPlace(keyOf, lines, kvs[..|kvs| - 1], all);
      assert keyOf(Line(kvs[|kvs| - 1])) == Some(kvs[|kvs| - 1].0);
    }
  }

  lemma {:induction false} DistinctValues(kvs: seq<Pair>)
    requires DistinctKeys(kvs)
    ensures forall i :: 0 <= i < |kvs| ==> kvs[i].0 in MapOf(kvs) && MapOf(kvs)[kvs[i].0] == kvs[i].1
  {
    if kvs != [] {
      DistinctValues(kvs[..|kvs| - 1]);
      LastKeyIsNew(kvs);
    }
  }

  /** Reading a line does not depend on a final `\r`, finds nothing in a blank one, and no written line ends in `\r`. */
  ghost predicate IgnoresEnds(keyOf: KeyOf, parse: Parse, kvs: seq<Pair>) {
    && parse("").None? && keyOf("").None?
    && (forall l :: parse(StripCr(l)) == parse(l) && keyOf(StripCr(l)) == keyOf(l))
    && (forall i :: 0 <= i < |kvs| ==> StripCr(Line(kvs[i])) == Line(kvs[i]))
  }

  lemma UpsertedInPlace(keyOf: KeyOf, lines: seq<string>, kvs: seq<Pair>)
    requires KeysReadBack(keyOf, kvs) && DistinctKeys(kvs)
    ensures InPlace(keyOf, Upserted(keyOf, lines, kvs), kvs)
  {
    EditedInPlace(keyOf, lines, kvs);
    DistinctValues(kvs);
    MissingInPlace(keyOf, lines, kvs, kvs);
  }

  lemma BackIsAssigned(keyOf: KeyOf, parse: Parse, lines: seq<string>, kvs: seq<Pair>)
    requires Compatible(keyOf, parse, kvs) && DistinctKeys(kvs) && IgnoresEnds(keyOf, parse, kvs)
    ensures var back := Stripped(Written(Upserted(keyOf, lines, kvs)));
            forall i :: 0 <= i < |kvs| ==> Assigned(keyOf, back, kvs[i].0)
  {
    var first := Upserted(keyOf, lines, kvs);
    LoadOfUpserted(keyOf, parse, lines, kvs);
    EntriesOfWritten(parse, first);
    MapOfMembers(kvs);
    forall i | 0 <= i < |kvs| ensures Assigned(keyOf, Stripped(Written(first)), kvs[i].0) {
      AssignedIsLoaded(keyOf, parse, Stripped(Written(first)), kvs, kvs[i].0);
    }
  }

  /** Upserting what was upserted, written and read back changes no line. */
  lemma SecondUpsertIsIdle(keyOf: KeyOf, parse: Parse, lines: seq<string>, kvs: seq<Pair>)
    requires Compatible(keyOf, parse, kvs) && DistinctKeys(kvs) && IgnoresEnds(keyOf, parse, kvs)
    ensures var back := Stripped(Written(Upserted(keyOf, lines, kvs)));
            Upserted(keyOf, back, kvs) == back
  {
    var first := Upserted(keyOf, lines, kvs);
    forall i | 0 <= i < |kvs| ensures keyOf(Line(kvs[i])) == Some(kvs[i].0) {
      assert parse(Line(kvs[i])) == Some(kvs[i]);
    }
    UpsertedInPlace(keyOf, lines, kvs);
    BackInPlace(keyOf, first, kvs);
    EditOfInPlace(keyOf, Stripped(Written(first)), kvs);
    BackIsAssigned(keyOf, parse, lines, kvs);
    MissingOfAssigned(keyOf, Stripped(Written(first)), kvs);
  }

  lemma BackInPlace(keyOf: KeyOf, lines: seq<string>, kvs: seq<Pair>)
    requires InPlace(keyOf, lines, kvs) && keyOf("").None?
    requires forall l :: keyOf(StripCr(l)) == keyOf(l)
    requires forall i :: 0 <= i < |kvs| ==> StripCr(Line(kvs[i])) == Line(kvs[i])
    ensures InPlace(keyOf, Stripped(Written(lines)), kvs)
  {
    var w := Written(lines);
    MapOfMembers(kvs);
    forall i | 0 <= i < |w| && keyOf(Stripped(w)[i]).Some? && keyOf(Stripped(w)[i]).value in MapOf(kvs)
      ensures Stripped(w)[i] == Line((keyOf(Stripped(w)[i]).value, MapOf(kvs)[keyOf(Stripped(w)[i]).value]))
    {
      StrippedAt(w, i);
      var key := keyOf(w[i]).value;
      assert w[i] == lines[i];
      var j :| 0 <= j < |kvs| && kvs[j] == (key, MapOf(kvs)[key]);
      assert StripCr(Line(kvs[j])) == Line(kvs[j]);
    }
  }

  // ---- When a second edit keeps the text, read off the file before the first -----------------------------------

  /** The editor will write over this line. */
  predicate Named(keyOf: KeyOf, line: string, kvs: seq<Pair>) {
    keyOf(line).Some? && keyOf(line).value in MapOf(kvs)
  }

  ghost predicate AllAssigned(keyOf: KeyOf, lines: seq<string>, kvs: seq<Pair>) {
    forall i :: 0 <= i < |kvs| ==> Assigned(keyOf, lines, kvs[i].0)
  }

  /** No line that is kept ends in `\r`; and if nothing is to be appended, the file, if longer than two lines, does not
      end in two blank ones. */
  ghost predicate Settled(keyOf: KeyOf, lines: seq<string>, kvs: seq<Pair>) {
    && (forall i :: 0 <= i < |lines| && !Named(keyOf, lines[i], kvs) ==> !EndsInCr(lines[i]))
    && !(AllAssigned(keyOf, lines, kvs) && |lines| > 2 && lines[|lines| - 1] == "" && lines[|lines| - 2] == "")
  }

  ghost predicate NoCr(lines: seq<string>) {
    forall i :: 0 <= i < |lines| ==> StripCr(lines[i]) == lines[i]
  }

  ghost predicate WritesNoCr(kvs: seq<Pair>) {
    forall i :: 0 <= i < |kvs| ==> StripCr(Line(kvs[i])) == Line(kvs[i])
  }

  lemma EditedLine(keyOf: KeyOf, lines: seq<string>, kvs: seq<Pair>, i: nat)
    requires i < |lines| && WritesNoCr(kvs) && keyOf("").None?
    ensures var l := Edit(keyOf, lines, kvs)[i];
            (l == "" <==> lines[i] == "") &&
            (StripCr(l) == l <==> Named(keyOf, lines[i], kvs) || StripCr(lines[i]) == lines[i])
  {
    EditAt(keyOf, lines, kvs, i);
    var key := keyOf(lines[i]);
    if key.Some? {
      RewriteGives(lines[i], key.value, kvs);
      if key.value in MapOf(kvs) {
        MapOfMembers(kvs);
        var j :| 0 <= j < |kvs| && kvs[j] == (key.value, MapOf(kvs)[key.value]);
        assert StripCr(Line(kvs[j])) == Line(kvs[j]);
      }
    }
  }

  lemma EditedHasNoCr(keyOf: KeyOf, lines: seq<string>, kvs: seq<Pair>)
    requires WritesNoCr(kvs) && keyOf("").None?
    ensures NoCr(Edit(keyOf, lines, kvs)) <==>
            forall i :: 0 <= i < |lines| && !Named(keyOf, lines[i], kvs) ==> StripCr(lines[i]) == lines[i]
  {
    forall i | 0 <= i < |lines|
      ensures StripCr(Edit(keyOf, lines, kvs)[i]) == Edit(keyOf, lines, kvs)[i] <==>
              Named(keyOf, lines[i], kvs) || StripCr(lines[i]) == lines[i]
    {
      EditedLine(keyOf, lines, kvs, i);
    }
  }

  lemma {:induction false} MissingHasNoCr(keyOf: KeyOf, lines: seq<string>, kvs: seq<Pair>)
    requires WritesNoCr(kvs)
    ensures NoCr(Missing(keyOf, lines, kvs))
  {
    if kvs != [] {
      var n := |kvs| - 1;
      MissingHasNoCr(keyOf, lines, kvs[..n]);
      assert StripCr(Line(kvs[n])) == Line(kvs[n]);
    }
  }

  lemma {:induction false} NothingMissing(keyOf: KeyOf, lines: seq<string>, kvs: seq<Pair>)
    ensures Missing(keyOf, lines, kvs) == [] <==> AllAssigned(keyOf, lines, kvs)
  {
    if kvs != [] {
      var n := |kvs| - 1;
      NothingMissing(keyOf, lines, kvs[..n]);
      assert AllAssigned(keyOf, lines, kvs) <==>
             AllAssigned(keyOf, lines, kvs[..n]) && Assigned(keyOf, lines, kvs[n].0);
    }
  }

  lemma {:induction false} MissingEndsInText(keyOf: KeyOf, lines: seq<string>, kvs: seq<Pair>)
    ensures var m := Missing(keyOf, lines, kvs); m != [] ==> m[|m| - 1] != ""
  {
    if kvs != [] {
      MissingEndsInText(keyOf, lines, kvs[..|kvs| - 1]);
      assert '=' in Line(kvs[|kvs| - 1]);
    }
  }

  /** The file the first edit writes is stable exactly when the file it was given is settled. */
  lemma StableMeansSettled(keyOf: KeyOf, lines: seq<string>, kvs: seq<Pair>)
    requires WritesNoCr(kvs) && keyOf("").None?
    ensures Stable(Written(Upserted(keyOf, lines, kvs))) <==> Settled(keyOf, lines, kvs)
  {
    var e, m := Edit(keyOf, lines, kvs), Missing(keyOf, lines, kvs);
    EditedHasNoCr(keyOf, lines, kvs);
    MissingHasNoCr(keyOf, lines, kvs);
    NothingMissing(keyOf, lines, kvs);
    MissingEndsInText(keyOf, lines, kvs);
    if m == [] {
      assert e + m == e;
      if |lines| > 0 { EditedLine(keyOf, lines, kvs, |lines| - 1); }
      if |lines| > 1 { EditedLine(keyOf, lines, kvs, |lines| - 2); }
      StableWritten(e);
    } else {
      StableAppended(e, m);
    }
  }

  lemma StableWritten(e: seq<string>)
    ensures Stable(Written(e)) <==> NoCr(e) && !(|e| > 2 && e[|e| - 1] == "" && e[|e| - 2] == "")
  {
    var w := Written(e);
    if e != [] && w != e {
      assert e == w + [""];
      assert forall i :: 0 <= i < |w| ==> e[i] == w[i];
      assert forall i :: 0 <= i < |e| ==> i < |w| || e[i] == "";
    }
  }

  lemma StableAppended(e: seq<string>, m: seq<string>)
    requires m != [] && m[|m| - 1] != "" && NoCr(m)
    ensures Stable(Written(e + m)) <==> NoCr(e)
  {
    var u := e + m;
    assert u[|u| - 1] == m[|m| - 1];
    assert forall i :: 0 <= i < |e| ==> u[i] == e[i];
    assert forall i :: |e| <= i < |u| ==> u[i] == m[i - |e|];
  }
}
