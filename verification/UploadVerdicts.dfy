/** What an upload's progress stream comes to, said of its lines one by one. */
module UploadVerdicts {
  import opened ByteStrings
  import opened Options
  import opened UploadStream

  // ---- Lines ------------------------------------------------------------------------------------------------

  /** Lines with their newlines put back. */
  function Unlines(lines: seq<Bytes>): Bytes {
    if lines == [] then [] else lines[0] + [NL] + Unlines(lines[1..])
  }

  ghost predicate NoNewline(lines: seq<Bytes>) {
    forall i :: 0 <= i < |lines| ==> NL !in lines[i]
  }

  /** The complete lines and the tail are the body cut at its newlines, and nothing else is. */
  lemma {:induction false} LinesAndTail(b: Bytes)
    ensures Unlines(Lines(b)) + Tail(b) == b && NoNewline(Lines(b)) && NL !in Tail(b)
    decreases |b|
  {
    var r := FirstNewline(b);
    NoneBefore(b);
    if r.Some? {
      LinesAndTail(b[r.value + 1..]);
      FirstLine(b, r.value);
      PutBack(b, r.value, Lines(b[r.value + 1..]), Tail(b[r.value + 1..]));
    } else {
      NoMoreLines([], b);
      assert [] + b == b;
    }
  }

  lemma PutBack(b: Bytes, i: nat, lines: seq<Bytes>, tail: Bytes)
    requires i < |b| && b[i] == NL && Unlines(lines) + tail == b[i + 1..]
    ensures Unlines([b[..i]] + lines) + tail == b
  {
    assert ([b[..i]] + lines)[1..] == lines;
    assert b == b[..i] + [NL] + b[i + 1..];
  }

  // ---- What a line says ----------------------------------------------------------------------------------------

  predicate HasPhase(json: Json, line: Bytes, phase: Phase) {
    json(line).Some? && json(line).value.phase == phase
  }

  ghost predicate SomeLine(json: Json, lines: seq<Bytes>, phase: Phase) {
    exists i :: 0 <= i < |lines| && HasPhase(json, lines[i], phase)
  }

  /** Line `i` is the first that reports an error, with that message. */
  ghost predicate FirstErrorAt(json: Json, lines: seq<Bytes>, i: nat, message: string) {
    && i < |lines| && ReportsError(json, lines[i], message)
    && forall j :: 0 <= j < i ==> lines[j] == [] || !HasPhase(json, lines[j], Error)
  }

  /** A line that is not empty has the phase `error`, and the message goes with it, or a stock one. */
  predicate ReportsError(json: Json, line: Bytes, message: string) {
    && line != [] && HasPhase(json, line, Error)
    && message == match json(line).value.message case Some(m) => m case None => "Upload failed"
  }

  lemma BareOfLine(json: Json, line: Bytes, phase: Phase)
    requires NL !in line
    ensures PhaseIs(json, line, phase) <==> HasPhase(json, line, phase)
    ensures LineError(json, line).None? <==> line == [] || !HasPhase(json, line, Error)
    ensures LineError(json, line).Some? ==> ReportsError(json, line, LineError(json, line).value)
  {
    assert Bare(line) == line;
  }

  lemma SaysIsSomeLine(json: Json, lines: seq<Bytes>, phase: Phase)
    requires NoNewline(lines)
    ensures Says(json, lines, phase) <==> SomeLine(json, lines, phase)
  {
    SaysMeans(json, lines, phase);
    forall i | 0 <= i < |lines| ensures PhaseIs(json, lines[i], phase) <==> HasPhase(json, lines[i], phase) {
      BareOfLine(json, lines[i], phase);
    }
  }

  lemma {:induction false} FirstErrorIsFirst(json: Json, lines: seq<Bytes>) returns (i: nat)
    requires NoNewline(lines)
    ensures FirstError(json, lines).None? ==>
              forall j :: 0 <= j < |lines| ==> lines[j] == [] || !HasPhase(json, lines[j], Error)
    ensures FirstError(json, lines).Some? ==> FirstErrorAt(json, lines, i, FirstError(json, lines).value)
  {
    i := 0;
    if lines != [] {
      var n := |lines| - 1;
      var k := FirstErrorIsFirst(json, lines[..n]);
      BareOfLine(json, lines[n], Error);
      assert forall j :: 0 <= j < n ==> lines[..n][j] == lines[j];
      i := if FirstError(json, lines[..n]).Some? then k else n;
    }
  }

  // ---- The outcome ---------------------------------------------------------------------------------------------

  /** What each kind of body comes to. An `in_progress` line settles it; then the first error counts, in the lines or
      else in the tail; then `done`, in a line or in the tail; then a complete `spooled` line. */
  ghost predicate Deserved(json: Json, lines: seq<Bytes>, tail: Bytes, r: Outcome) {
    if SomeLine(json, lines, InProgress) then r == HandedOff
    else if exists i, m :: FirstErrorAt(json, lines, i, m) then
      r.Failed? && exists i :: FirstErrorAt(json, lines, i, r.message)
    else if tail != [] && HasPhase(json, tail, Error) then r.Failed? && ReportsError(json, tail, r.message)
    else if SomeLine(json, lines, Done) || (tail != [] && HasPhase(json, tail, Done)) then r == Stored
    else if SomeLine(json, lines, Spooled) then r == HandedOff
    else r == Truncated
  }

  lemma ErrorDecides(json: Json, b: Bytes)
    ensures var lines, tail := Lines(b), Tail(b);
            var e := if FirstError(json, lines).Some? then FirstError(json, lines) else LineError(json, tail);
            if exists i, m :: FirstErrorAt(json, lines, i, m) then
              e.Some? && exists i :: FirstErrorAt(json, lines, i, e.value)
            else if tail != [] && HasPhase(json, tail, Error) then e.Some? && ReportsError(json, tail, e.value)
            else e.None?
  {
    LinesAndTail(b);
    var k := FirstErrorIsFirst(json, Lines(b));
    BareOfLine(json, Tail(b), Error);
  }

  lemma VerdictIsDeserved(json: Json, b: Bytes)
    ensures Deserved(json, Lines(b), Tail(b), Verdict(json, b))
  {
    LinesAndTail(b);
    SaysIsSomeLine(json, Lines(b), InProgress);
    SaysIsSomeLine(json, Lines(b), Done);
    SaysIsSomeLine(json, Lines(b), Spooled);
    BareOfLine(json, Tail(b), Done);
    ErrorDecides(json, b);
  }

  /** Every stream in which nothing times out comes to what its lines deserve: in particular a finished upload, with
      `spooled` and `done` lines, is stored. */
  lemma EachStreamGetsItsDue(json: Json, grace: nat, polls: seq<Poll>)
    requires Uninterrupted(json, grace, polls, [], None)
    ensures Deserved(json, Lines(Body(polls)), Tail(Body(polls)), Outcomes(json, grace, polls, [], None))
  {
    ChunkingDoesNotMatter(json, grace, polls);
    VerdictIsDeserved(json, Body(polls));
  }

  // ---- Interruptions -------------------------------------------------------------------------------------------

  /** Chunks, then the answer `a`. */
  ghost predicate ChunksThen(polls: seq<Poll>, k: nat, a: Answer) {
    k < |polls| && polls[k].answer == a && !a.Chunk? && forall i :: 0 <= i < k ==> polls[i].answer.Chunk?
  }

  /** Before `spooled`, silence is a stall and a broken connection an error, whatever came before. */
  lemma {:induction false} InterruptedBeforeSpooled(json: Json, grace: nat, polls: seq<Poll>, received: Bytes, k: nat,
                                                    a: Answer)
    requires ChunksThen(polls, k, a) && (a.TimedOut? || a.Failure?)
    requires !Says(json, Lines(received + Body(polls)), Spooled)
    requires !Says(json, Lines(received + Body(polls)), InProgress)
    ensures Outcomes(json, grace, polls, received, None) == if a.TimedOut? then ReadStalled else Broken
    decreases k
  {
    if k > 0 {
      var b, rest := received + polls[0].answer.bytes, polls[1..];
      BodyOfChunk(received, polls);
      NotYet(json, b, Body(rest), Spooled);
      NotYet(json, b, Body(rest), InProgress);
      InterruptedBeforeSpooled(json, grace, rest, b, k - 1, a);
    }
  }

  /** After a `spooled` line noted at `at`, with no turn beginning a full grace later, a broken connection is still an
      error, and silence is one unless the grace is used up by then. */
  lemma {:induction false} InterruptedAfterSpooled(json: Json, grace: nat, polls: seq<Poll>, received: Bytes, at: nat,
                                                   k: nat, a: Answer)
    requires ChunksThen(polls, k, a) && (a.TimedOut? || a.Failure?)
    requires forall i :: 0 <= i <= k ==> Since(at, polls[i].top) < grace
    requires !Says(json, Lines(received + Body(polls)), InProgress)
    ensures Outcomes(json, grace, polls, received, Some(at)) ==
            if a.Failure? then Broken else if Since(at, a.at) >= grace then HandedOff else ReadStalled
    decreases k
  {
    if k > 0 {
      var b, rest := received + polls[0].answer.bytes, polls[1..];
      BodyOfChunk(received, polls);
      NotYet(json, b, Body(rest), InProgress);
      InterruptedAfterSpooled(json, grace, rest, b, at, k - 1, a);
    }
  }

  /** A chunk that completes an `in_progress` line ends the loop with a hand-off, if nothing ended it before. */
  lemma {:induction false} InProgressSettles(json: Json, grace: nat, polls: seq<Poll>, received: Bytes,
                                             spooledAt: Option<nat>, k: nat)
    requires k <= |polls| && forall i :: 0 <= i < k ==> polls[i].answer.Chunk?
    requires !Says(json, Lines(received), InProgress)
    requires Says(json, Lines(received + Body(polls[..k])), InProgress)
    ensures Outcomes(json, grace, polls, received, spooledAt) == HandedOff
    decreases k
  {
    if k == 0 {
      BodyOfNothing(received, polls[..0]);
    } else {
      var c, stamp := polls[0].answer.bytes, polls[0].answer.stamp;
      var b := received + c;
      BodyOfFront(received, polls, k);
      if !Says(json, Lines(b), InProgress) {
        InProgressSettles(json, grace, polls[1..], b,
                          if spooledAt.None? && Says(json, Lines(b), Spooled) then Some(stamp) else spooledAt, k - 1);
      }
    }
  }

  /** After `spooled`, the loop hands off at the first turn that begins a full grace later, whatever lines, `spooled`
      ones too, have come meanwhile. */
  lemma {:induction false} HandedOffAfterGrace(json: Json, grace: nat, polls: seq<Poll>, received: Bytes, at: nat,
                                               j: nat)
    requires j < |polls| && Since(at, polls[j].top) >= grace && forall i :: 0 <= i < j ==> polls[i].answer.Chunk?
    ensures Outcomes(json, grace, polls, received, Some(at)) == HandedOff
    decreases j
  {
    if j > 0 && !Says(json, Lines(received + polls[0].answer.bytes), InProgress) {
      HandedOffAfterGrace(json, grace, polls[1..], received + polls[0].answer.bytes, at, j - 1);
    }
  }

  /** The grace runs from the chunk that completes the first `spooled` line. */
  lemma GraceRunsFromTheFirst(json: Json, grace: nat, polls: seq<Poll>, k: nat, j: nat)
    requires FirstSpooledAt(json, polls, k) && k < j < |polls| && forall i :: 0 <= i < j ==> polls[i].answer.Chunk?
    requires Since(polls[k].answer.stamp, polls[j].top) >= grace
    ensures Outcomes(json, grace, polls, [], None) == HandedOff
  {
    var b := UpToTheFirst(json, grace, polls, k);
    HandedOffAfterGrace(json, grace, polls[k + 1..], b, polls[k].answer.stamp, j - k - 1);
  }

  /** The chunk `k`, and none before it, completes a `spooled` line. */
  ghost predicate FirstSpooledAt(json: Json, polls: seq<Poll>, k: nat) {
    && k < |polls| && (forall i :: 0 <= i <= k ==> polls[i].answer.Chunk?)
    && !Says(json, Lines(Body(polls[..k])), Spooled)
    && Says(json, Lines(Body(polls[..k]) + polls[k].answer.bytes), Spooled)
  }

  lemma UpToTheFirst(json: Json, grace: nat, polls: seq<Poll>, k: nat) returns (b: Bytes)
    requires FirstSpooledAt(json, polls, k)
    ensures b + Body(polls[k + 1..]) == Body(polls)
    ensures Outcomes(json, grace, polls, [], None)
            == Outcomes(json, grace, polls[k + 1..], b, Some(polls[k].answer.stamp))
         || (Says(json, Lines(b), InProgress) && Outcomes(json, grace, polls, [], None) == HandedOff)
  {
    var front, rest := Body(polls[..k]), polls[k..];
    b := front + rest[0].answer.bytes;
    assert [] + front == front && rest[1..] == polls[k + 1..];
    BeforeSpooled(json, grace, polls, [], k);
    FirstSpooled(json, grace, rest, front, b);
    BodySplits(polls, k);
    BodyOfChunk(front, rest);
    if Says(json, Lines(front), InProgress) {
      SaidStaysSaid(json, front, rest[0].answer.bytes, InProgress);
    }
  }

  /** While no `spooled` line is complete, the loop just follows the chunks, to the end of an `in_progress` line. */
  lemma {:induction false} BeforeSpooled(json: Json, grace: nat, polls: seq<Poll>, received: Bytes, k: nat)
    requires k <= |polls| && forall i :: 0 <= i < k ==> polls[i].answer.Chunk?
    requires !Says(json, Lines(received + Body(polls[..k])), Spooled)
    ensures Outcomes(json, grace, polls, received, None)
            == Outcomes(json, grace, polls[k..], received + Body(polls[..k]), None)
         || (Says(json, Lines(received + Body(polls[..k])), InProgress) &&
             Outcomes(json, grace, polls, received, None) == HandedOff)
    decreases k
  {
    if k == 0 {
      BodyOfNothing(received, polls[..0]);
      assert polls[0..] == polls;
    } else {
      var b, rest := received + polls[0].answer.bytes, polls[1..];
      BodyOfFront(received, polls, k);
      NotYet(json, b, Body(rest[..k - 1]), Spooled);
      BeforeSpooled(json, grace, rest, b, k - 1);
      NotSpooled(json, grace, polls, received, b);
      if Says(json, Lines(b), InProgress) {
        SaidStaysSaid(json, b, Body(rest[..k - 1]), InProgress);
      }
      assert rest[k - 1..] == polls[k..];
    }
  }

  /** The interruption of a whole stream whose chunk `j` completes the first `spooled` line. */
  lemma InterruptedAfterTheFirst(json: Json, grace: nat, polls: seq<Poll>, j: nat, k: nat, a: Answer)
    requires ChunksThen(polls, k, a) && (a.TimedOut? || a.Failure?) && j < k && FirstSpooledAt(json, polls, j)
    requires forall i :: j < i <= k ==> Since(polls[j].answer.stamp, polls[i].top) < grace
    requires !Says(json, Lines(Body(polls)), InProgress)
    ensures Outcomes(json, grace, polls, [], None) ==
            if a.Failure? then Broken
            else if Since(polls[j].answer.stamp, a.at) >= grace then HandedOff
            else ReadStalled
  {
    var b := UpToTheFirst(json, grace, polls, j);
    NotYet(json, b, Body(polls[j + 1..]), InProgress);
    InterruptedAfterSpooled(json, grace, polls[j + 1..], b, polls[j].answer.stamp, k - j - 1, a);
  }

  lemma {:induction false} BodySplits(polls: seq<Poll>, k: nat)
    requires k <= |polls| && forall i :: 0 <= i < k ==> polls[i].answer.Chunk?
    ensures Body(polls) == Body(polls[..k]) + Body(polls[k..])
    decreases k
  {
    if k == 0 {
      assert polls[0..] == polls;
    } else {
      BodySplits(polls[1..], k - 1);
      assert polls[..k][1..] == polls[1..][..k - 1] && polls[1..][k - 1..] == polls[k..];
    }
  }

  lemma FirstSpooled(json: Json, grace: nat, polls: seq<Poll>, received: Bytes, b: Bytes)
    requires polls != [] && polls[0].answer.Chunk? && b == received + polls[0].answer.bytes
    requires Says(json, Lines(b), Spooled)
    ensures Outcomes(json, grace, polls, received, None)
            == if Says(json, Lines(b), InProgress) then HandedOff
               else Outcomes(json, grace, polls[1..], b, Some(polls[0].answer.stamp))
  {
  }

  lemma NotSpooled(json: Json, grace: nat, polls: seq<Poll>, received: Bytes, b: Bytes)
    requires polls != [] && polls[0].answer.Chunk? && b == received + polls[0].answer.bytes
    requires !Says(json, Lines(b), Spooled)
    ensures Outcomes(json, grace, polls, received, None)
            == if Says(json, Lines(b), InProgress) then HandedOff
               else Outcomes(json, grace, polls[1..], b, None)
  {
  }

  lemma BodyOfFront(received: Bytes, polls: seq<Poll>, k: nat)
    requires 0 < k <= |polls| && polls[0].answer.Chunk?
    ensures received + Body(polls[..k]) == (received + polls[0].answer.bytes) + Body(polls[1..][..k - 1])
  {
    BodyOfChunk(received, polls[..k]);
    assert polls[..k][1..] == polls[1..][..k - 1];
  }

  lemma NotYet(json: Json, b: Bytes, more: Bytes, phase: Phase)
    requires !Says(json, Lines(b + more), phase)
    ensures !Says(json, Lines(b), phase)
  {
    if Says(json, Lines(b), phase) {
      SaidStaysSaid(json, b, more, phase);
    }
  }
}
