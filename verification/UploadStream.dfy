/**
  Reading an upload's NDJSON progress stream.

  Understanding one line is a parameter: `json` stands for the UTF-8 check, trimming and the JSON
  parser, applied to a line without its newline, and gives the line's phase and message; module `UploadLines`
  says why it need not see the newline.

  The stream is a list of polls: the clock at the top of the loop, and what waiting for the next chunk gave. Times
  are milliseconds.
 */
module UploadStream {
  import opened Arithmetic
  import opened ByteStrings
  import opened Options

  const NL: Byte := 10
  const READ_IDLE_TIMEOUT: nat := 45_000

  datatype Phase = InProgress | Spooled | Done | Error | Other
  datatype Event = Event(phase: Phase, message: Option<string>)
  type Json = Bytes -> Option<Event>

  // ---- One line ------------------------------------------------------------------------------------

  function Bare(line: Bytes): Bytes {
    if line != [] && line[|line| - 1] == NL then line[..|line| - 1] else line
  }

  /** The message an event reports, if it is an error. */
  function ErrorOf(ev: Option<Event>): Option<string> {
    if ev.None? || ev.value.phase != Error then None
    else Some(if ev.value.message.Some? then ev.value.message.value else "Upload failed")
  }

  predicate PhaseIs(json: Json, line: Bytes, phase: Phase) {
    var ev := json(Bare(line));
    ev.Some? && ev.value.phase == phase
  }

  /** The message of an error line. */
  function LineError(json: Json, line: Bytes): Option<string> {
    if line == [] then None else ErrorOf(json(Bare(line)))
  }

  function FirstNewline(b: Bytes): (r: Option<nat>)
    ensures r.Some? ==> r.value < |b| && b[r.value] == NL
  {
    if b == [] then None
    else if b[0] == NL then Some(0)
    else
      var rest := FirstNewline(b[1..]);
      if rest.None? then None else Some(rest.value + 1)
  }

  lemma {:induction false} NoneBefore(b: Bytes)
    ensures FirstNewline(b).None? ==> NL !in b
    ensures FirstNewline(b).Some? ==> NL !in b[..FirstNewline(b).value]
  {
    if b != [] && b[0] != NL {
      NoneBefore(b[1..]);
      var rest := FirstNewline(b[1..]);
      if rest.Some? {
        assert b[..rest.value + 1] == [b[0]] + b[1..][..rest.value];
      }
    }
  }

  /** `ndjson_error_message`: the first error among the newline-separated pieces of `body`. */
  function ErrorMessage(json: Json, body: Bytes): Option<string>
    decreases |body|
  {
    match FirstNewline(body)
    case None => LineError(json, body)
    case Some(i) =>
      var e := LineError(json, body[..i]);
      if e.Some? then e else ErrorMessage(json, body[i + 1..])
  }

  // ---- The whole body, split at once ---------------------------------------------------------------

  /** The complete lines of `b`, without their newlines. */
  function Lines(b: Bytes): seq<Bytes>
    decreases |b|
  {
    match FirstNewline(b)
    case None => []
    case Some(i) => [b[..i]] + Lines(b[i + 1..])
  }

  /** What follows the last newline. */
  function Tail(b: Bytes): Bytes
    decreases |b|
  {
    match FirstNewline(b)
    case None => b
    case Some(i) => Tail(b[i + 1..])
  }

  /** Some line carries the phase. */
  predicate Says(json: Json, lines: seq<Bytes>, phase: Phase) {
    lines != [] && (Says(json, lines[..|lines| - 1], phase) || PhaseIs(json, lines[|lines| - 1], phase))
  }

  function FirstError(json: Json, lines: seq<Bytes>): Option<string> {
    if lines == [] then None
    else
      var e := FirstError(json, lines[..|lines| - 1]);
      if e.Some? then e else LineError(json, lines[|lines| - 1])
  }

  datatype Outcome = Stored | HandedOff | Failed(message: string) | ReadStalled | Truncated | Broken | Listening

  /** The verdict on a body that ended cleanly: the first error wins, then `done`, then `spooled`. */
  function Ended(json: Json, b: Bytes): Outcome {
    var lines, tail := Lines(b), Tail(b);
    var e := if FirstError(json, lines).Some? then FirstError(json, lines) else LineError(json, tail);
    if e.Some? then Failed(e.value)
    else if Says(json, lines, Done) || (tail != [] && PhaseIs(json, tail, Done)) then Stored
    else if Says(json, lines, Spooled) then HandedOff
    else Truncated
  }

  /** The verdict on a whole body: an `in_progress` line settles it, whatever else is there. */
  function Verdict(json: Json, b: Bytes): Outcome {
    if Says(json, Lines(b), InProgress) then HandedOff else Ended(json, b)
  }

  // ---- Polling -----------------------------------------------------------------------------------------

  datatype Answer =
    | Chunk(bytes: Bytes, stamp: nat)   // the clock while its lines are read
    | End
    | Failure
    | TimedOut(at: nat)

  datatype Poll = Poll(top: nat, answer: Answer)

  function Since(at: nat, now: nat): nat {
    if at <= now then now - at else 0
  }

  /** The loop told simply: keep all bytes received, and split them anew after every chunk. */
  function Outcomes(json: Json, grace: nat, polls: seq<Poll>, received: Bytes, spooledAt: Option<nat>): Outcome
    decreases |polls|
  {
    if polls == [] then Listening
    else if spooledAt.Some? && Since(spooledAt.value, polls[0].top) >= grace then HandedOff
    else
      match polls[0].answer
      case End => Ended(json, received)
      case Failure => Broken
      case TimedOut(at) =>
        if spooledAt.Some? && Since(spooledAt.value, at) >= grace then HandedOff else ReadStalled
      case Chunk(c, stamp) =>
        var b := received + c;
        if Says(json, Lines(b), InProgress) then HandedOff
        else
          Outcomes(json, grace, polls[1..], b,
                   if spooledAt.None? && Says(json, Lines(b), Spooled) then Some(stamp) else spooledAt)
  }

  // ---- Splitting and appending ---------------------------------------------------------------------------

  lemma {:induction false} FirstNewlineAt(b: Bytes, i: nat)
    requires i < |b| && b[i] == NL && NL !in b[..i]
    ensures FirstNewline(b) == Some(i)
  {
    if i > 0 {
      assert b[0] == b[..i][0];
      assert b[1..][..i - 1] == b[..i][1..];
      FirstNewlineAt(b[1..], i - 1);
    }
  }

  lemma FirstNewlineOfAppend(a: Bytes, c: Bytes)
    ensures FirstNewline(a).Some? ==> FirstNewline(a + c) == FirstNewline(a)
  {
    var r := FirstNewline(a);
    NoneBefore(a);
    if r.Some? {
      assert (a + c)[..r.value] == a[..r.value];
      FirstNewlineAt(a + c, r.value);
    }
  }

  lemma FirstLine(pending: Bytes, i: nat)
    requires FirstNewline(pending) == Some(i)
    ensures Lines(pending) == [pending[..i]] + Lines(pending[i + 1..]) && Tail(pending) == Tail(pending[i + 1..])
  {
  }

  lemma Regroup<T>(a: seq<T>, b: seq<T>, c: seq<T>)
    ensures a + (b + c) == (a + b) + c
  {
  }

  /** Splitting can stop and resume anywhere: only the unfinished tail has to be kept. */
  lemma {:induction false} LinesOfAppend(a: Bytes, c: Bytes)
    ensures Lines(a + c) == Lines(a) + Lines(Tail(a) + c)
    ensures Tail(a + c) == Tail(Tail(a) + c)
    decreases |a|
  {
    var r := FirstNewline(a);
    if r.Some? {
      LinesOfAppend(a[r.value + 1..], c);
      FirstLineOfAppend(a, c, r.value);
      FirstLine(a, r.value);
      Regroup([a[..r.value]], Lines(a[r.value + 1..]), Lines(Tail(a) + c));
    } else {
      NoMoreLines([], a);
    }
  }

  lemma FirstLineOfAppend(a: Bytes, c: Bytes, i: nat)
    requires FirstNewline(a) == Some(i)
    ensures Lines(a + c) == [a[..i]] + Lines(a[i + 1..] + c) && Tail(a + c) == Tail(a[i + 1..] + c)
  {
    FirstNewlineOfAppend(a, c);
    CutInside(a, c, i);
    FirstLine(a + c, i);
  }

  lemma CutInside(a: Bytes, c: Bytes, i: nat)
    requires i < |a|
    ensures (a + c)[..i] == a[..i] && (a + c)[i + 1..] == a[i + 1..] + c
  {
  }

  lemma {:induction false} SaysOfAppend(json: Json, a: seq<Bytes>, b: seq<Bytes>, phase: Phase)
    ensures Says(json, a + b, phase) <==> Says(json, a, phase) || Says(json, b, phase)
  {
    if b == [] {
      assert a + b == a;
    } else {
      assert (a + b)[..|a + b| - 1] == a + b[..|b| - 1];
      SaysOfAppend(json, a, b[..|b| - 1], phase);
    }
  }

  predicate SomeLineIs(json: Json, lines: seq<Bytes>, phase: Phase) {
    exists i :: 0 <= i < |lines| && PhaseIs(json, lines[i], phase)
  }

  lemma {:induction false} SaysMeans(json: Json, lines: seq<Bytes>, phase: Phase)
    ensures Says(json, lines, phase) <==> SomeLineIs(json, lines, phase)
  {
    if lines != [] {
      var n := |lines| - 1;
      SaysMeans(json, lines[..n], phase);
      assert forall i :: 0 <= i < n ==> lines[..n][i] == lines[i];
    }
  }

  lemma FirstErrorOfLine(json: Json, lines: seq<Bytes>, line: Bytes)
    ensures FirstError(json, lines + [line]) ==
            if FirstError(json, lines).Some? then FirstError(json, lines) else LineError(json, line)
  {
    assert (lines + [line])[..|lines|] == lines;
  }

  /** The loop hands over each line with its newline; neither test notices. */
  lemma NewlineIsIgnored(json: Json, line: Bytes, phase: Phase)
    requires NL !in line
    ensures PhaseIs(json, line + [NL], phase) == PhaseIs(json, line, phase)
    ensures ErrorMessage(json, line + [NL]) == LineError(json, line)
  {
    var b := line + [NL];
    assert b[..|line|] == line && b[|line| + 1..] == [];
    FirstNewlineAt(b, |line|);
    assert FirstNewline([]).None?;
  }

  // ---- The loop as it runs ---------------------------------------------------------------------------------

  /** What one more line adds to each thing the loop remembers. */
  lemma SaysLine(json: Json, read: seq<Bytes>, bare: Bytes, phase: Phase)
    requires NL !in bare
    ensures Says(json, read + [bare], phase) <==> Says(json, read, phase) || PhaseIs(json, bare + [NL], phase)
  {
    NewlineIsIgnored(json, bare, phase);
    assert (read + [bare])[..|read|] == read;
  }

  lemma ErrorLine(json: Json, read: seq<Bytes>, bare: Bytes)
    requires NL !in bare
    ensures FirstError(json, read + [bare]) ==
            if FirstError(json, read).Some? then FirstError(json, read) else ErrorMessage(json, bare + [NL])
  {
    FirstErrorOfLine(json, read, bare);
    NewlineIsIgnored(json, bare, Error);
  }

  /** What the loop remembers of the lines read so far. */
  ghost predicate Tracks(json: Json, read: seq<Bytes>, failure: Option<string>, spooledAt: Option<nat>, done: bool) {
    && failure == FirstError(json, read)
    && (spooledAt.Some? <==> Says(json, read, Spooled))
    && done == Says(json, read, Done)
    && !Says(json, read, InProgress)
  }

  lemma TracksOneMore(json: Json, read: seq<Bytes>, failure: Option<string>, spooledAt: Option<nat>, done: bool,
                      bare: Bytes, stamp: nat)
    requires NL !in bare && Tracks(json, read, failure, spooledAt, done)
    ensures Says(json, read + [bare], InProgress) <==> PhaseIs(json, bare + [NL], InProgress)
    ensures !PhaseIs(json, bare + [NL], InProgress) ==>
              Tracks(json, read + [bare],
                     if failure.None? then ErrorMessage(json, bare + [NL]) else failure,
                     if spooledAt.None? && PhaseIs(json, bare + [NL], Spooled) then Some(stamp) else spooledAt,
                     done || PhaseIs(json, bare + [NL], Done))
  {
    SaysLine(json, read, bare, InProgress);
    SaysLine(json, read, bare, Spooled);
    SaysLine(json, read, bare, Done);
    ErrorLine(json, read, bare);
  }

  /** The first line of `pending` moves over to those read. */
  lemma NextLine(read: seq<Bytes>, pending: Bytes, i: nat)
    requires FirstNewline(pending) == Some(i)
    ensures read + Lines(pending) == (read + [pending[..i]]) + Lines(pending[i + 1..])
    ensures Tail(pending) == Tail(pending[i + 1..])
    ensures NL !in pending[..i] && pending[..i + 1] == pending[..i] + [NL]
  {
    NoneBefore(pending);
    FirstLine(pending, i);
    Regroup(read, [pending[..i]], Lines(pending[i + 1..]));
    OneFurther(pending, i);
  }

  lemma OneFurther<T>(s: seq<T>, i: nat)
    requires i < |s|
    ensures s[..i + 1] == s[..i] + [s[i]]
  {
  }

  lemma NoMoreLines(read: seq<Bytes>, pending: Bytes)
    requires FirstNewline(pending).None?
    ensures read + Lines(pending) == read && Tail(pending) == pending
  {
  }

  /** A line already read settles what the rest cannot undo. */
  lemma LastLineSettles(json: Json, read: seq<Bytes>, bare: Bytes, rest: seq<Bytes>, phase: Phase)
    requires Says(json, read + [bare], phase)
    ensures Says(json, (read + [bare]) + rest, phase)
  {
    SaysOfAppend(json, read + [bare], rest, phase);
  }

  /** Reads one line, given with its newline. */
  method ReadLine(json: Json, line: Bytes, stamp: nat, failure0: Option<string>, spooledAt0: Option<nat>, done0: bool,
                  ghost read: seq<Bytes>, ghost bare: Bytes)
    returns (inProgress: bool, failure: Option<string>, spooledAt: Option<nat>, done: bool)
    requires line == bare + [NL] && NL !in bare && Tracks(json, read, failure0, spooledAt0, done0)
    ensures inProgress <==> Says(json, read + [bare], InProgress)
    ensures !inProgress ==> Tracks(json, read + [bare], failure, spooledAt, done)
    ensures !inProgress ==> spooledAt == if spooledAt0.None? && spooledAt.Some? then Some(stamp) else spooledAt0
  {
    failure, spooledAt, done := failure0, spooledAt0, done0;
    TracksOneMore(json, read, failure, spooledAt, done, bare, stamp);
    inProgress := PhaseIs(json, line, InProgress);
    if inProgress {
      return;
    }
    if failure.None? {
      failure := ErrorMessage(json, line);
    }
    if spooledAt.None? && PhaseIs(json, line, Spooled) {
      spooledAt := Some(stamp);
    }
    if PhaseIs(json, line, Done) {
      done := true;
    }
  }

  /** Reads the complete lines off the front of `buffer`. */
  method ReadLines(json: Json, buffer: Bytes, stamp: nat, failure0: Option<string>, spooledAt0: Option<nat>,
                   done0: bool, ghost before: seq<Bytes>)
    returns (inProgress: bool, pending: Bytes, failure: Option<string>, spooledAt: Option<nat>, done: bool)
    requires Tracks(json, before, failure0, spooledAt0, done0)
    ensures inProgress <==> Says(json, before + Lines(buffer), InProgress)
    ensures !inProgress ==> pending == Tail(buffer)
    ensures !inProgress ==> Tracks(json, before + Lines(buffer), failure, spooledAt, done)
    ensures !inProgress ==> spooledAt == if spooledAt0.None? && spooledAt.Some? then Some(stamp) else spooledAt0
  {
    pending, failure, spooledAt, done := buffer, failure0, spooledAt0, done0;
    ghost var read, all, tail := before, before + Lines(buffer), Tail(buffer);
    var nl := FirstNewline(pending);
    while nl.Some?
      invariant nl == FirstNewline(pending)
      invariant all == read + Lines(pending) && tail == Tail(pending)
      invariant Tracks(json, read, failure, spooledAt, done)
      invariant spooledAt == if spooledAt0.None? && spooledAt.Some? then Some(stamp) else spooledAt0
      decreases |pending|
    {
      ghost var bare := pending[..nl.value];
      var line := pending[..nl.value + 1];
      NextLine(read, pending, nl.value);
      pending := pending[nl.value + 1..];
      inProgress, failure, spooledAt, done := ReadLine(json, line, stamp, failure, spooledAt, done, read, bare);
      if inProgress {
        LastLineSettles(json, read, bare, Lines(pending), InProgress);
        return;
      }
      read := read + [bare];
      nl := FirstNewline(pending);
    }
    NoMoreLines(read, pending);
    inProgress := false;
  }

  /** The incremental loop gives what the simple one gives, for every stream and every timing. */
  method DrainUploadProgress(json: Json, grace: nat, polls: seq<Poll>) returns (r: Outcome)
    ensures r == Outcomes(json, grace, polls, [], None)
  {
    var pending: Bytes := [];
    var failure: Option<string> := None;
    var spooledAt: Option<nat> := None;
    var done := false;
    ghost var received: Bytes := [];
    var i := 0;
    while i < |polls|
      invariant 0 <= i <= |polls|
      invariant pending == Tail(received) && Tracks(json, Lines(received), failure, spooledAt, done)
      invariant Outcomes(json, grace, polls[i..], received, spooledAt) == Outcomes(json, grace, polls, [], None)
    {
      assert polls[i..][0] == polls[i] && polls[i..][1..] == polls[i + 1..];
      if spooledAt.Some? && Since(spooledAt.value, polls[i].top) >= grace {
        return HandedOff;
      }
      match polls[i].answer {
        case Chunk(c, stamp) =>
          LinesOfAppend(received, c);
          var inProgress;
          inProgress, pending, failure, spooledAt, done :=
            ReadLines(json, pending + c, stamp, failure, spooledAt, done, Lines(received));
          if inProgress {
            return HandedOff;
          }
          received := received + c;
        case End =>
          TailHasNoNewline(received);
          if failure.None? {
            failure := ErrorMessage(json, pending);
          }
          if !done && pending != [] && PhaseIs(json, pending, Done) {
            done := true;
          }
          if failure.Some? {
            return Failed(failure.value);
          }
          if done {
            return Stored;
          }
          if spooledAt.Some? {
            return HandedOff;
          }
          return Truncated;
        case Failure =>
          return Broken;
        case TimedOut(at) =>
          if spooledAt.Some? && Since(spooledAt.value, at) >= grace {
            return HandedOff;
          }
          return ReadStalled;
      }
      i := i + 1;
    }
    r := Listening;
  }

  lemma {:induction false} TailHasNoNewline(b: Bytes)
    ensures NL !in Tail(b)
    decreases |b|
  {
    var r := FirstNewline(b);
    NoneBefore(b);
    if r.Some? {
      TailHasNoNewline(b[r.value + 1..]);
    }
  }

  // ---- Chunking does not matter ---------------------------------------------------------------------------

  /** All bytes of the leading chunks. */
  function Body(polls: seq<Poll>): Bytes
    decreases |polls|
  {
    if polls == [] || !polls[0].answer.Chunk? then [] else polls[0].answer.bytes + Body(polls[1..])
  }

  /** The first answer that is not a chunk is a clean end. */
  predicate EndsCleanly(polls: seq<Poll>)
    decreases |polls|
  {
    polls != [] && if polls[0].answer.Chunk? then EndsCleanly(polls[1..]) else polls[0].answer.End?
  }

  lemma BodyOfChunk(received: Bytes, polls: seq<Poll>)
    requires polls != [] && polls[0].answer.Chunk?
    ensures received + Body(polls) == (received + polls[0].answer.bytes) + Body(polls[1..])
  {
  }

  lemma BodyOfNothing(received: Bytes, polls: seq<Poll>)
    requires polls == [] || !polls[0].answer.Chunk?
    ensures received + Body(polls) == received
  {
  }

  /** Followed as `Outcomes` follows it, the loop gets to a clean end or an `in_progress` line: no wait times out,
      the connection does not break, and no turn begins with the grace used up. */
  predicate Uninterrupted(json: Json, grace: nat, polls: seq<Poll>, received: Bytes, spooledAt: Option<nat>)
    decreases |polls|
  {
    && polls != []
    && (spooledAt.Some? ==> Since(spooledAt.value, polls[0].top) < grace)
    && match polls[0].answer
       case End => true
       case Chunk(c, stamp) =>
         var b := received + c;
         Says(json, Lines(b), InProgress) ||
         Uninterrupted(json, grace, polls[1..], b,
                       if spooledAt.None? && Says(json, Lines(b), Spooled) then Some(stamp) else spooledAt)
       case _ => false
  }

  /** A phase once said is said in every longer body. */
  lemma SaidStaysSaid(json: Json, a: Bytes, c: Bytes, phase: Phase)
    requires Says(json, Lines(a), phase)
    ensures Says(json, Lines(a + c), phase)
  {
    LinesOfAppend(a, c);
    SaysOfAppend(json, Lines(a), Lines(Tail(a) + c), phase);
  }

  lemma {:induction false} OutcomesOfUninterrupted(json: Json, grace: nat, polls: seq<Poll>, received: Bytes,
                                                   spooledAt: Option<nat>)
    requires Uninterrupted(json, grace, polls, received, spooledAt)
    requires !Says(json, Lines(received), InProgress)
    requires spooledAt.Some? <==> Says(json, Lines(received), Spooled)
    ensures Outcomes(json, grace, polls, received, spooledAt) == Verdict(json, received + Body(polls))
    decreases |polls|
  {
    if polls[0].answer.Chunk? {
      var c, stamp := polls[0].answer.bytes, polls[0].answer.stamp;
      var b, rest := received + c, polls[1..];
      BodyOfChunk(received, polls);
      if Says(json, Lines(b), InProgress) {
        SaidStaysSaid(json, b, Body(rest), InProgress);
      } else {
        if Says(json, Lines(received), Spooled) {
          SaidStaysSaid(json, received, c, Spooled);
        }
        OutcomesOfUninterrupted(json, grace, rest, b,
                                if spooledAt.None? && Says(json, Lines(b), Spooled) then Some(stamp) else spooledAt);
      }
    } else {
      BodyOfNothing(received, polls);
    }
  }

  /** When nothing times out, the outcome is a function of the bytes alone: cutting the same body
      differently, at other moments, changes nothing. */
  lemma ChunkingDoesNotMatter(json: Json, grace: nat, polls: seq<Poll>)
    requires Uninterrupted(json, grace, polls, [], None)
    ensures Outcomes(json, grace, polls, [], None) == Verdict(json, Body(polls))
  {
    OutcomesOfUninterrupted(json, grace, polls, [], None);
    assert [] + Body(polls) == Body(polls);
  }

  /** However late, a stream that has not said `spooled` is uninterrupted as long as chunks keep coming and it ends. */
  lemma {:induction false} UnspooledIsUninterrupted(json: Json, grace: nat, polls: seq<Poll>, received: Bytes)
    requires EndsCleanly(polls)
    requires !Says(json, Lines(received + Body(polls)), Spooled)
    ensures Uninterrupted(json, grace, polls, received, None)
    decreases |polls|
  {
    if polls[0].answer.Chunk? {
      var b, rest := received + polls[0].answer.bytes, polls[1..];
      BodyOfChunk(received, polls);
      if Says(json, Lines(b), Spooled) {
        SaidStaysSaid(json, b, Body(rest), Spooled);
      }
      UnspooledIsUninterrupted(json, grace, rest, b);
    }
  }

  // ---- What an outcome is worth -----------------------------------------------------------------------------

  /** Verdicts on a whole body are only given at its clean end. */
  lemma {:induction false} VerdictsNeedAnEnd(json: Json, grace: nat, polls: seq<Poll>, received: Bytes,
                                             spooledAt: Option<nat>)
    requires !Says(json, Lines(received), InProgress)
    ensures var r, b := Outcomes(json, grace, polls, received, spooledAt), received + Body(polls);
            r == Stored || r.Failed? || r == Truncated ==>
              EndsCleanly(polls) && r == Ended(json, b) && !Says(json, Lines(b), InProgress)
    decreases |polls|
  {
    if polls != [] && polls[0].answer.Chunk? {
      var c, stamp := polls[0].answer.bytes, polls[0].answer.stamp;
      var b, rest := received + c, polls[1..];
      BodyOfChunk(received, polls);
      if !Says(json, Lines(b), InProgress) {
        VerdictsNeedAnEnd(json, grace, rest, b,
                          if spooledAt.None? && Says(json, Lines(b), Spooled) then Some(stamp) else spooledAt);
      }
    } else {
      BodyOfNothing(received, polls);
    }
  }

  lemma {:induction false} HandOffsAreEarned(json: Json, grace: nat, polls: seq<Poll>, received: Bytes,
                                             spooledAt: Option<nat>)
    requires spooledAt.Some? <==> Says(json, Lines(received), Spooled)
    ensures var b := received + Body(polls);
            Outcomes(json, grace, polls, received, spooledAt) == HandedOff ==>
              Says(json, Lines(b), Spooled) || Says(json, Lines(b), InProgress)
    decreases |polls|
  {
    if Says(json, Lines(received), Spooled) {
      SaidStaysSaid(json, received, Body(polls), Spooled);
    }
    if polls != [] && polls[0].answer.Chunk? {
      var c, stamp := polls[0].answer.bytes, polls[0].answer.stamp;
      var b, rest := received + c, polls[1..];
      BodyOfChunk(received, polls);
      if Says(json, Lines(b), InProgress) {
        SaidStaysSaid(json, b, Body(rest), InProgress);
      } else {
        if spooledAt.Some? { SaidStaysSaid(json, received, c, Spooled); }
        HandOffsAreEarned(json, grace, rest, b,
                          if spooledAt.None? && Says(json, Lines(b), Spooled) then Some(stamp) else spooledAt);
      }
    } else {
      BodyOfNothing(received, polls);
    }
  }

  predicate SaysDone(json: Json, b: Bytes) {
    SomeLineIs(json, Lines(b), Done) || (Tail(b) != [] && PhaseIs(json, Tail(b), Done))
  }

  predicate SaysError(json: Json, b: Bytes) {
    (exists i :: 0 <= i < |Lines(b)| && LineError(json, Lines(b)[i]).Some?) || LineError(json, Tail(b)).Some?
  }

  lemma {:induction false} FirstErrorExists(json: Json, lines: seq<Bytes>)
    ensures FirstError(json, lines).Some? <==> exists i :: 0 <= i < |lines| && LineError(json, lines[i]).Some?
  {
    if lines != [] {
      var n := |lines| - 1;
      FirstErrorExists(json, lines[..n]);
      assert forall i :: 0 <= i < n ==> lines[..n][i] == lines[i];
    }
  }

  /** Under every interleaving of chunks, errors and timeouts: `Stored` needs a clean end of body with a
      `done` line and no error line in it, and `HandedOff` a complete `spooled` or `in_progress` line. */
  lemma OutcomesNeedEvidence(json: Json, grace: nat, polls: seq<Poll>)
    ensures var r, b := Outcomes(json, grace, polls, [], None), Body(polls);
            (r == Stored ==> EndsCleanly(polls) && SaysDone(json, b) && !SaysError(json, b) &&
                             !SomeLineIs(json, Lines(b), InProgress)) &&
            (r == HandedOff ==> SomeLineIs(json, Lines(b), Spooled) || SomeLineIs(json, Lines(b), InProgress))
  {
    var lines := Lines(Body(polls));
    VerdictsNeedAnEnd(json, grace, polls, [], None);
    HandOffsAreEarned(json, grace, polls, [], None);
    assert [] + Body(polls) == Body(polls);
    FirstErrorExists(json, lines);
    SaysMeans(json, lines, Done);
    SaysMeans(json, lines, Spooled);
    SaysMeans(json, lines, InProgress);
  }

  // ---- Silence after `spooled` --------------------------------------------------------------------------------

  /** How long a turn of the loop waits for a chunk. */
  function Wait(grace: nat, spooledAt: Option<nat>, top: nat): nat {
    if spooledAt.None? then READ_IDLE_TIMEOUT
    else Min(READ_IDLE_TIMEOUT, if grace >= Since(spooledAt.value, top) then grace - Since(spooledAt.value, top) else 0)
  }

  /** With timers that fire on time, a silence after `spooled` is a hand-off exactly when no more than the
      idle limit was left of the grace; with more left it is an error, `spooled` or not. */
  lemma SilenceAfterSpooled(json: Json, grace: nat, polls: seq<Poll>, received: Bytes, at: nat)
    requires polls != [] && at <= polls[0].top && Since(at, polls[0].top) < grace
    requires polls[0].answer == TimedOut(polls[0].top + Wait(grace, Some(at), polls[0].top))
    ensures Outcomes(json, grace, polls, received, Some(at)) ==
            if grace - Since(at, polls[0].top) <= READ_IDLE_TIMEOUT then HandedOff else ReadStalled
  {
  }

  lemma OneLineBody(line: Bytes)
    requires NL !in line
    ensures Lines(line + [NL]) == [line]
  {
    var b := line + [NL];
    assert b[..|line|] == line && b[|line| + 1..] == [];
    FirstNewlineAt(b, |line|);
    FirstLine(b, |line|);
  }

  lemma SaysOne(json: Json, line: Bytes, phase: Phase)
    ensures Says(json, [line], phase) <==> PhaseIs(json, line, phase)
  {
    assert [line][..0] == [];
  }

  /** So with the production grace of 90 seconds, 45 seconds of silence right after a complete `spooled`
      line is reported as a stall. */
  lemma SpooledThenSilentIsAStall(json: Json, line: Bytes)
    requires NL !in line && PhaseIs(json, line, Spooled) && !PhaseIs(json, line, InProgress)
    ensures Outcomes(json, 90_000, [Poll(0, Chunk(line + [NL], 0)), Poll(0, TimedOut(45_000))], [], None) == ReadStalled
  {
    var b, silent := line + [NL], [Poll(0, TimedOut(45_000))];
    OneLineBody(line);
    SaysOne(json, line, Spooled);
    SaysOne(json, line, InProgress);
    assert [] + b == b && ([Poll(0, Chunk(b, 0))] + silent)[1..] == silent;
    SilenceAfterSpooled(json, 90_000, silent, b, 0);
  }
}
