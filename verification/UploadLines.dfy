/** Reading one line of the progress stream as the code does, white space and newline included. */
module UploadLines {
  import opened ByteStrings
  import opened Options
  import opened Trimming
  import opened UploadStream

  /** ASCII white space. */
  predicate IsBlank(b: Byte) {
    9 <= b <= 13 || b == 32
  }

  /** `ndjson_phase_is` as it treats the bytes it is given: trimmed first, then parsed. */
  predicate TestedPhase(parser: Json, raw: Bytes, phase: Phase) {
    var ev := parser(Trim(IsBlank, raw));
    ev.Some? && ev.value.phase == phase
  }

  /** `ndjson_error_message` as it treats one piece: what is blank is passed over. */
  function TestedError(parser: Json, piece: Bytes): Option<string> {
    var line := Trim(IsBlank, piece);
    if line == [] then None else ErrorOf(parser(line))
  }

  /** What the parser makes of a trimmed line. */
  function Reading(parser: Json): Json {
    (line: Bytes) => parser(Trim(IsBlank, line))
  }

  /** The phase test may look at the line with its newline or without it. */
  lemma PhaseTestReadsTheLine(parser: Json, raw: Bytes, phase: Phase)
    ensures TestedPhase(parser, raw, phase) <==> PhaseIs(Reading(parser), raw, phase)
  {
    TrimmingDropsTheNewline(IsBlank, raw);
  }

  /** Nothing blank is JSON, so the error test need not pass it over. */
  lemma ErrorTestReadsTheLine(parser: Json, piece: Bytes)
    requires parser([]).None?
    ensures TestedError(parser, piece) == LineError(Reading(parser), piece)
  {
    TrimmingDropsTheNewline(IsBlank, piece);
    assert Reading(parser)(Bare(piece)) == parser(Trim(IsBlank, piece));
  }

  /** Trimming takes the newline off in any case. */
  lemma TrimmingDropsTheNewline(p: Byte -> bool, line: Bytes)
    requires p(NL)
    ensures Trim(p, line) == Trim(p, Bare(line))
  {
    if Bare(line) != line {
      var b := line[..|line| - 1];
      assert line == b + [NL];
      TrimIgnoresLast(p, b, NL);
    }
  }
}
