/**
  The server's upload manager: one receive loop admits messages through a weighted semaphore, one permit
  each, or all of them while a flood window is active.
 */
module UploadGate {
  import opened Options

  type Message = nat

  /** A message taken from the channel and the permits its upload needs; `flood` is a history, the flag that was read
      when it was taken. */
  datatype Upload = Upload(message: Message, weight: nat, flood: bool)

  /** `inbox` is the channel, `admitting` the message the loop is acquiring permits for. `arrived` and `admitted`
      are histories. */
  datatype State = State(inbox: seq<Message>, admitting: Option<Upload>, running: seq<Upload>, free: nat,
                         arrived: seq<Message>, admitted: seq<Upload>)

  datatype Step =
    | Arrive(message: Message)
    | Receive(flood: bool)   // take the next message and decide its weight
    | Admit                  // its permits are there: spawn the upload
    | Finish(index: nat)     // an upload ends, however it ends, and its permits come back

  function Limit(uploadConcurrency: nat): nat {
    if uploadConcurrency < 1 then 1 else uploadConcurrency
  }

  function Initial(limit: nat): State {
    State([], None, [], limit, [], [])
  }

  predicate Enabled(s: State, st: Step) {
    match st
    case Arrive(_) => true
    case Receive(_) => s.inbox != [] && s.admitting.None?
    case Admit => s.admitting.Some? && s.free >= s.admitting.value.weight
    case Finish(i) => i < |s.running|
  }

  function Next(s: State, st: Step, limit: nat): State
    requires Enabled(s, st)
  {
    match st
    case Arrive(m) => s.(inbox := s.inbox + [m], arrived := s.arrived + [m])
    case Receive(flood) =>
      s.(inbox := s.inbox[1..], admitting := Some(Upload(s.inbox[0], if flood then limit else 1, flood)))
    case Admit =>
      var u := s.admitting.value;
      s.(admitting := None, running := s.running + [u], free := s.free - u.weight, admitted := s.admitted + [u])
    case Finish(i) =>
      s.(running := s.running[..i] + s.running[i + 1..], free := s.free + s.running[i].weight)
  }

  // ---- Invariant -----------------------------------------------------------------------------------------

  function Held(running: seq<Upload>): nat {
    if running == [] then 0 else Held(running[..|running| - 1]) + running[|running| - 1].weight
  }

  function Messages(us: seq<Upload>): seq<Message> {
    if us == [] then [] else Messages(us[..|us| - 1]) + [us[|us| - 1].message]
  }

  function Current(s: State): seq<Message> {
    if s.admitting.Some? then [s.admitting.value.message] else []
  }

  predicate WeightOk(u: Upload, limit: nat) {
    u.weight == if u.flood then limit else 1
  }

  ghost predicate PermitsAddUp(s: State, limit: nat) {
    && limit >= 1
    && Held(s.running) + s.free == limit
    && WeightsOk(s.running, limit) && WeightsOk(s.admitted, limit)
    && (s.admitting.Some? ==> WeightOk(s.admitting.value, limit))
  }

  ghost predicate InOrder(s: State) {
    s.arrived == Messages(s.admitted) + Current(s) + s.inbox
  }

  ghost predicate Inv(s: State, limit: nat) {
    PermitsAddUp(s, limit) && InOrder(s)
  }

  lemma {:induction false} HeldOfAppend(a: seq<Upload>, b: seq<Upload>)
    ensures Held(a + b) == Held(a) + Held(b)
  {
    if b == [] {
      assert a + b == a;
    } else {
      assert (a + b)[..|a + b| - 1] == a + b[..|b| - 1];
      HeldOfAppend(a, b[..|b| - 1]);
    }
  }

  lemma HeldOfOne(u: Upload)
    ensures Held([u]) == u.weight
  {
    assert [u][..0] == [];
  }

  lemma HeldAround(a: seq<Upload>, u: Upload, b: seq<Upload>)
    ensures Held(a + [u] + b) == Held(a + b) + u.weight
  {
    HeldOfAppend(a + [u], b);
    HeldOfAppend(a, [u]);
    HeldOfAppend(a, b);
    HeldOfOne(u);
  }

  lemma SplitAround<T>(s: seq<T>, i: nat)
    requires i < |s|
    ensures s == s[..i] + [s[i]] + s[i + 1..]
  {
  }

  lemma HeldWithout(running: seq<Upload>, i: nat)
    requires i < |running|
    ensures Held(running) == Held(running[..i] + running[i + 1..]) + running[i].weight
  {
    SplitAround(running, i);
    HeldAround(running[..i], running[i], running[i + 1..]);
  }

  lemma AdmitKeepsPermits(s: State, limit: nat)
    requires PermitsAddUp(s, limit) && Enabled(s, Admit)
    ensures PermitsAddUp(Next(s, Admit, limit), limit)
  {
    HeldOfAppend(s.running, [s.admitting.value]);
    HeldOfOne(s.admitting.value);
  }

  lemma FinishKeepsPermits(s: State, limit: nat, i: nat)
    requires PermitsAddUp(s, limit) && i < |s.running|
    ensures PermitsAddUp(Next(s, Finish(i), limit), limit)
  {
    HeldWithout(s.running, i);
    WeightsWithout(s.running, limit, i);
  }

  lemma StepKeepsPermits(s: State, limit: nat, st: Step)
    requires PermitsAddUp(s, limit) && Enabled(s, st)
    ensures PermitsAddUp(Next(s, st, limit), limit)
  {
    match st {
      case Arrive(m) =>
      case Receive(flood) =>
      case Admit => AdmitKeepsPermits(s, limit);
      case Finish(i) => FinishKeepsPermits(s, limit, i);
    }
  }

  ghost predicate WeightsOk(running: seq<Upload>, limit: nat) {
    forall i :: 0 <= i < |running| ==> WeightOk(running[i], limit)
  }

  lemma WeightsWithout(running: seq<Upload>, limit: nat, i: nat)
    requires i < |running| && WeightsOk(running, limit)
    ensures WeightsOk(running[..i] + running[i + 1..], limit)
  {
  }

  /** The three places a message can be: admitted, at the gate, or in the channel. */
  lemma QueueMoves(done: seq<Message>, at: seq<Message>, inbox: seq<Message>, m: Message)
    ensures (done + at + inbox) + [m] == done + at + (inbox + [m])
    ensures inbox != [] ==> done + [] + inbox == done + [inbox[0]] + inbox[1..]
    ensures done + [m] + inbox == (done + [m]) + [] + inbox
  {
  }

  lemma StepKeepsOrder(s: State, limit: nat, st: Step)
    requires InOrder(s) && Enabled(s, st)
    ensures InOrder(Next(s, st, limit))
  {
    var done := Messages(s.admitted);
    match st {
      case Arrive(m) => QueueMoves(done, Current(s), s.inbox, m);
      case Receive(flood) => QueueMoves(done, [], s.inbox, 0);
      case Admit =>
        var u := s.admitting.value;
        assert (s.admitted + [u])[..|s.admitted|] == s.admitted;
        assert Messages(s.admitted + [u]) == done + [u.message];
        QueueMoves(done, [], s.inbox, u.message);
      case Finish(i) =>
    }
  }

  lemma StepKeeps(s: State, limit: nat, st: Step)
    requires Inv(s, limit) && Enabled(s, st)
    ensures Inv(Next(s, st, limit), limit)
  {
    StepKeepsPermits(s, limit, st);
    StepKeepsOrder(s, limit, st);
  }

  // ---- Runs --------------------------------------------------------------------------------------------------

  predicate Possible(s: State, steps: seq<Step>, limit: nat)
    decreases |steps|
  {
    steps == [] || (Enabled(s, steps[0]) && Possible(Next(s, steps[0], limit), steps[1..], limit))
  }

  function Run(s: State, steps: seq<Step>, limit: nat): State
    requires Possible(s, steps, limit)
    decreases |steps|
  {
    if steps == [] then s else Run(Next(s, steps[0], limit), steps[1..], limit)
  }

  lemma {:induction false} RunKeeps(s: State, steps: seq<Step>, limit: nat)
    requires Inv(s, limit) && Possible(s, steps, limit)
    ensures Inv(Run(s, steps, limit), limit)
    decreases |steps|
  {
    if steps != [] {
      StepKeeps(s, limit, steps[0]);
      RunKeeps(Next(s, steps[0], limit), steps[1..], limit);
    }
  }

  lemma {:induction false} HeldAtLeast(running: seq<Upload>)
    requires forall i :: 0 <= i < |running| ==> running[i].weight >= 1
    ensures Held(running) >= |running|
    ensures forall i :: 0 <= i < |running| ==> Held(running) >= |running| - 1 + running[i].weight
  {
    if running != [] {
      var n := |running| - 1;
      assert forall i :: 0 <= i < n ==> running[..n][i] == running[i];
      HeldAtLeast(running[..n]);
    }
  }

  // ---- Which messages were received in a flood -----------------------------------------------------------------

  /** The flag that each `Receive` of the run read, in order. */
  function FlagsRead(steps: seq<Step>): seq<bool>
    decreases |steps|
  {
    if steps == [] then []
    else (if steps[0].Receive? then [steps[0].flood] else []) + FlagsRead(steps[1..])
  }

  /** The messages taken from the channel: those admitted, and the one at the gate. */
  function Taken(s: State): seq<Upload> {
    s.admitted + if s.admitting.Some? then [s.admitting.value] else []
  }

  function Floods(us: seq<Upload>): seq<bool> {
    if us == [] then [] else Floods(us[..|us| - 1]) + [us[|us| - 1].flood]
  }

  lemma FloodsOfOneMore(us: seq<Upload>, u: Upload)
    ensures Floods(us + [u]) == Floods(us) + [u.flood] && us + [] == us
  {
    assert (us + [u])[..|us|] == us;
  }

  lemma StepReads(s: State, limit: nat, st: Step)
    requires Enabled(s, st)
    ensures Floods(Taken(Next(s, st, limit))) == Floods(Taken(s)) + if st.Receive? then [st.flood] else []
  {
    match st {
      case Arrive(m) =>
      case Receive(flood) =>
        FloodsOfOneMore(s.admitted, Next(s, st, limit).admitting.value);
      case Admit =>
        assert Taken(Next(s, st, limit)) == Taken(s);
      case Finish(i) =>
    }
    assert Floods(Taken(s)) + [] == Floods(Taken(s));
  }

  lemma Regroup<T>(a: seq<T>, b: seq<T>, c: seq<T>)
    ensures (a + b) + c == a + (b + c)
  {
  }

  lemma {:induction false} RunReads(s: State, steps: seq<Step>, limit: nat)
    requires Possible(s, steps, limit)
    ensures Floods(Taken(Run(s, steps, limit))) == Floods(Taken(s)) + FlagsRead(steps)
    decreases |steps|
  {
    if steps == [] {
      assert Floods(Taken(s)) + [] == Floods(Taken(s));
    } else {
      var flag := if steps[0].Receive? then [steps[0].flood] else [];
      StepReads(s, limit, steps[0]);
      RunReads(Next(s, steps[0], limit), steps[1..], limit);
      Regroup(Floods(Taken(s)), flag, FlagsRead(steps[1..]));
    }
  }

  lemma {:induction false} FloodsAt(us: seq<Upload>, k: nat)
    requires k < |us|
    ensures |Floods(us)| == |us| && Floods(us)[k] == us[k].flood
  {
    var n := |us| - 1;
    if k < n {
      FloodsAt(us[..n], k);
    } else if n > 0 {
      FloodsAt(us[..n], 0);
    }
  }

  lemma {:induction false} MessagesAt(us: seq<Upload>, k: nat)
    requires k < |us|
    ensures |Messages(us)| == |us| && Messages(us)[k] == us[k].message
  {
    var n := |us| - 1;
    if k < n {
      MessagesAt(us[..n], k);
    } else if n > 0 {
      MessagesAt(us[..n], 0);
    }
  }

  lemma MessagesOfTaken(s: State)
    requires InOrder(s)
    ensures Messages(Taken(s)) <= s.arrived
  {
    if s.admitting.Some? {
      assert (s.admitted + [s.admitting.value])[..|s.admitted|] == s.admitted;
      assert Messages(Taken(s)) == Messages(s.admitted) + Current(s);
    } else {
      assert Taken(s) == s.admitted;
    }
  }

  lemma TakenWeighs(s: State, limit: nat, k: nat)
    requires PermitsAddUp(s, limit) && k < |Taken(s)|
    ensures WeightOk(Taken(s)[k], limit)
  {
  }

  /** The k-th message taken is the k-th that arrived, and needs the whole gate if the flag read when it was taken was
      set, and one permit otherwise. */
  lemma WhatEachMessageWeighs(uploadConcurrency: nat, steps: seq<Step>, k: nat)
    requires Possible(Initial(Limit(uploadConcurrency)), steps, Limit(uploadConcurrency))
    ensures var limit := if uploadConcurrency == 0 then 1 else uploadConcurrency;
            var s := Run(Initial(limit), steps, limit);
            |Taken(s)| == |FlagsRead(steps)| &&
            (k < |Taken(s)| ==>
               k < |s.arrived| && Taken(s)[k].message == s.arrived[k] &&
               Taken(s)[k].flood == FlagsRead(steps)[k] &&
               Taken(s)[k].weight == if FlagsRead(steps)[k] then limit else 1)
  {
    var limit := Limit(uploadConcurrency);
    var s := Run(Initial(limit), steps, limit);
    RunKeeps(Initial(limit), steps, limit);
    RunReads(Initial(limit), steps, limit);
    assert Floods(Taken(s)) == FlagsRead(steps);
    MessagesOfTaken(s);
    if k < |Taken(s)| {
      FloodsAt(Taken(s), k);
      MessagesAt(Taken(s), k);
      TakenWeighs(s, limit, k);
    } else if Taken(s) != [] {
      FloodsAt(Taken(s), 0);
    }
  }

  /** In every run: permits held and free add up to the limit, no more uploads run than it, an upload received in a
      flood runs alone for as long as it runs, and messages are admitted in the order they arrived. */
  lemma EveryReachableState(uploadConcurrency: nat, steps: seq<Step>)
    requires Possible(Initial(Limit(uploadConcurrency)), steps, Limit(uploadConcurrency))
    ensures var limit := if uploadConcurrency == 0 then 1 else uploadConcurrency;
            var s := Run(Initial(limit), steps, limit);
            Held(s.running) + s.free == limit && |s.running| <= limit &&
            (forall i :: 0 <= i < |s.running| && s.running[i].flood ==> |s.running| == 1) &&
            Messages(s.admitted) <= s.arrived
  {
    var limit := Limit(uploadConcurrency);
    RunKeeps(Initial(limit), steps, limit);
    HeldAtLeast(Run(Initial(limit), steps, limit).running);
  }

  lemma {:induction false} HeldOfLight(running: seq<Upload>)
    requires forall i :: 0 <= i < |running| ==> running[i].weight == 1
    ensures Held(running) == |running|
  {
    if running != [] {
      HeldOfLight(running[..|running| - 1]);
    }
  }

  /** Whoever runs was admitted, so without a flood none runs that was received in one. */
  ghost predicate NoFlood(s: State) {
    (forall i :: 0 <= i < |s.running| ==> !s.running[i].flood) && (s.admitting.Some? ==> !s.admitting.value.flood)
  }

  lemma {:induction false} NoFloodStays(s: State, steps: seq<Step>, limit: nat)
    requires Possible(s, steps, limit) && NoFlood(s) && forall i :: 0 <= i < |steps| ==> steps[i] != Receive(true)
    ensures NoFlood(Run(s, steps, limit))
    decreases |steps|
  {
    if steps != [] {
      NoFloodStays(Next(s, steps[0], limit), steps[1..], limit);
    }
  }

  /** As long as no flood is on, the message at the gate waits for nothing while fewer uploads run than the limit. */
  lemma WithoutFloodNoneWaits(uploadConcurrency: nat, steps: seq<Step>)
    requires Possible(Initial(Limit(uploadConcurrency)), steps, Limit(uploadConcurrency))
    requires forall i :: 0 <= i < |steps| ==> steps[i] != Receive(true)
    ensures var limit := if uploadConcurrency == 0 then 1 else uploadConcurrency;
            var s := Run(Initial(limit), steps, limit);
            s.free == limit - |s.running| &&
            (s.admitting.Some? && |s.running| < limit ==> s.admitting.value.weight == 1 && Enabled(s, Admit))
  {
    var limit := Limit(uploadConcurrency);
    RunKeeps(Initial(limit), steps, limit);
    NoFloodStays(Initial(limit), steps, limit);
    HeldOfLight(Run(Initial(limit), steps, limit).running);
  }

  /** A message waiting at the gate is admitted once the running uploads have finished, whatever it weighs. */
  lemma {:induction false} PendingIsAdmitted(s: State, limit: nat) returns (steps: seq<Step>)
    requires Inv(s, limit) && s.admitting.Some?
    ensures Possible(s, steps, limit) && |steps| <= |s.running| + 1
    ensures forall i :: 0 <= i < |steps| ==> steps[i].Finish? || steps[i].Admit?
    ensures Run(s, steps, limit).admitted == s.admitted + [s.admitting.value]
    decreases |s.running|
  {
    if s.free >= s.admitting.value.weight {
      steps := [Admit];
      assert steps[1..] == [];
    } else {
      assert s.running != [];
      StepKeeps(s, limit, Finish(0));
      var rest := PendingIsAdmitted(Next(s, Finish(0), limit), limit);
      steps := [Finish(0)] + rest;
      assert steps[1..] == rest;
    }
  }

  /** What an upload finds when it starts. */
  lemma AdmittedAlone(s: State, limit: nat)
    requires PermitsAddUp(s, limit) && Enabled(s, Admit)
    ensures |s.running| < limit && (s.admitting.value.flood ==> s.running == [])
  {
    HeldAtLeast(s.running);
  }

  // ---- The loop's state as the code updates it -----------------------------------------------------------------

  /** The channel, the message in hand and the gate's free permits; who holds the others, and what came and went, is
      known to the proof only. */
  class StorageManager {
    const limit: nat
    var inbox: seq<Message>
    var admitting: Option<Upload>
    var permits: nat
    ghost var running: seq<Upload>
    ghost var arrived: seq<Message>
    ghost var admitted: seq<Upload>

    ghost function Abs(): State
      reads this
    {
      State(inbox, admitting, running, permits, arrived, admitted)
    }

    ghost predicate Valid()
      reads this
    {
      Inv(Abs(), limit)
    }

    constructor (uploadConcurrency: nat)
      ensures Valid() && Abs() == Initial(limit) && limit == if uploadConcurrency == 0 then 1 else uploadConcurrency
    {
      limit, permits := Limit(uploadConcurrency), Limit(uploadConcurrency);
      inbox, admitting, running, arrived, admitted := [], None, [], [], [];
    }

    method Send(m: Message)
      requires Valid()
      modifies `inbox, `arrived
      ensures Valid() && Abs() == Next(old(Abs()), Arrive(m), limit)
    {
      StepKeeps(Abs(), limit, Arrive(m));
      inbox, arrived := inbox + [m], arrived + [m];
    }

    /** Takes the next message; `floodActive` is read once, here. Everything that arrived is admitted, in hand or in
        the channel, in that order. */
    method Recv(floodActive: bool)
      requires Valid() && Enabled(Abs(), Receive(floodActive))
      modifies `inbox, `admitting
      ensures Valid() && Abs() == Next(old(Abs()), Receive(floodActive), limit)
      ensures arrived == Messages(admitted) + [admitting.value.message] + inbox
      ensures admitting.Some? && admitting.value.message == old(inbox)[0] && inbox == old(inbox)[1..]
      ensures admitting.value.weight == if floodActive then limit else 1
    {
      StepKeeps(Abs(), limit, Receive(floodActive));
      var weight := if floodActive then limit else 1;
      admitting := Some(Upload(inbox[0], weight, floodActive));
      inbox := inbox[1..];
    }

    /** Resumes when the permits are there. An upload that takes the whole gate starts with no other running. */
    method Spawn()
      requires Valid() && Enabled(Abs(), Admit)
      modifies `admitting, `permits, `running, `admitted
      ensures Valid() && Abs() == Next(old(Abs()), Admit, limit)
      ensures |running| <= limit && (old(admitting).value.flood ==> running == [old(admitting).value])
    {
      ghost var s := Abs();
      StepKeeps(s, limit, Admit);
      AdmittedAlone(s, limit);
      var u := admitting.value;
      permits := permits - u.weight;
      running := running + [u];
      admitted := admitted + [u];
      admitting := None;
      assert Abs() == Next(s, Admit, limit);
    }

    /** A task ends, and its permits come back. */
    method Done(ghost i: nat, permit: nat)
      requires Valid() && Enabled(Abs(), Finish(i)) && permit == running[i].weight
      modifies `permits, `running
      ensures Valid() && Abs() == Next(old(Abs()), Finish(i), limit)
      ensures running == [] ==> permits == limit
    {
      StepKeeps(Abs(), limit, Finish(i));
      permits := permits + permit;
      running := running[..i] + running[i + 1..];
    }
  }
}
