/**
  The per-binding scheduler: one run per binding id at a time, a shared bound on how many run at once.

  A call of `run` is a task that goes through the atomic sections of its body in this order: enter (insert the
  id or skip), acquire a permit, run, drop the permit, drop the guard. A return, a panic and a
  cancellation all drop what the task holds in that order; between the sections any other task may move.
 */
module Scheduler {
  type TaskId = nat

  /** Where a task stands. It holds its guard throughout, and a permit while `Running`. */
  datatype Phase = Waiting | Running | Leaving
  datatype Task = Task(binding: string, phase: Phase)

  datatype State = State(inFlight: set<string>, free: nat, tasks: map<TaskId, Task>)

  datatype Step =
    | Enter(task: TaskId, binding: string)   // skips when the binding is in flight
    | Acquire(task: TaskId)
    | DropPermit(task: TaskId)               // the run returned, panicked or was cancelled
    | GiveUp(task: TaskId)                   // cancelled while waiting
    | DropGuard(task: TaskId)

  function Initial(maxConcurrent: nat): State {
    State({}, Limit(maxConcurrent), map[])
  }

  function Limit(maxConcurrent: nat): nat {
    if maxConcurrent < 1 then 1 else maxConcurrent
  }

  predicate InPhase(s: State, t: TaskId, p: Phase) {
    t in s.tasks && s.tasks[t].phase == p
  }

  predicate Enabled(s: State, st: Step) {
    match st
    case Enter(t, b) => t !in s.tasks
    case Acquire(t) => InPhase(s, t, Waiting) && s.free > 0
    case DropPermit(t) => InPhase(s, t, Running)
    case GiveUp(t) => InPhase(s, t, Waiting)
    case DropGuard(t) => InPhase(s, t, Leaving)
  }

  function To(s: State, t: TaskId, p: Phase): map<TaskId, Task>
    requires t in s.tasks
  {
    s.tasks[t := s.tasks[t].(phase := p)]
  }

  function Next(s: State, st: Step): State
    requires Enabled(s, st)
  {
    match st
    case Enter(t, b) =>
      if b in s.inFlight then s else s.(inFlight := s.inFlight + {b}, tasks := s.tasks[t := Task(b, Waiting)])
    case Acquire(t) => s.(free := s.free - 1, tasks := To(s, t, Running))
    case DropPermit(t) => s.(free := s.free + 1, tasks := To(s, t, Leaving))
    case GiveUp(t) => s.(tasks := To(s, t, Leaving))
    case DropGuard(t) => s.(inFlight := s.inFlight - {s.tasks[t].binding}, tasks := s.tasks - {t})
  }

  // ---- Invariant -------------------------------------------------------------------------------------------

  ghost function Holders(s: State): set<TaskId> {
    set t | t in s.tasks && s.tasks[t].phase == Running
  }

  ghost function Bindings(tasks: map<TaskId, Task>): set<string> {
    set t | t in tasks :: tasks[t].binding
  }

  ghost predicate Inv(s: State, limit: nat) {
    && s.inFlight == Bindings(s.tasks)
    && (forall t, u :: t in s.tasks && u in s.tasks && t != u ==> s.tasks[t].binding != s.tasks[u].binding)
    && s.free + |Holders(s)| == limit
    && limit >= 1
  }

  lemma InitialInv(maxConcurrent: nat)
    ensures Inv(Initial(maxConcurrent), Limit(maxConcurrent))
  {
    assert Holders(Initial(maxConcurrent)) == {};
  }

  lemma BindingsAfterAdd(tasks: map<TaskId, Task>, t: TaskId, x: Task)
    requires t !in tasks
    ensures Bindings(tasks[t := x]) == Bindings(tasks) + {x.binding}
  {
    var m := tasks[t := x];
    forall b | b in Bindings(tasks) + {x.binding} ensures b in Bindings(m) {
      var u := if b == x.binding then t else var u :| u in tasks && tasks[u].binding == b; u;
      assert u in m && m[u].binding == b;
    }
  }

  lemma BindingsAfterMove(s: State, t: TaskId, p: Phase)
    requires t in s.tasks
    ensures Bindings(To(s, t, p)) == Bindings(s.tasks)
  {
    var m := To(s, t, p);
    forall u | u in s.tasks ensures u in m && m[u].binding == s.tasks[u].binding {
    }
    assert m.Keys == s.tasks.Keys;
  }

  lemma BindingsAfterRemove(tasks: map<TaskId, Task>, t: TaskId)
    requires t in tasks && forall u :: u in tasks && u != t ==> tasks[u].binding != tasks[t].binding
    ensures Bindings(tasks - {t}) == Bindings(tasks) - {tasks[t].binding}
  {
    forall b | b in Bindings(tasks) - {tasks[t].binding} ensures b in Bindings(tasks - {t}) {
      var u :| u in tasks && tasks[u].binding == b;
      assert u in tasks - {t};
    }
  }

  lemma EnterKeeps(s: State, limit: nat, st: Step)
    requires Inv(s, limit) && st.Enter? && Enabled(s, st)
    ensures Inv(Next(s, st), limit)
  {
    assert Holders(Next(s, st)) == Holders(s);
    BindingsAfterAdd(s.tasks, st.task, Task(st.binding, Waiting));
  }

  lemma AcquireKeeps(s: State, limit: nat, st: Step)
    requires Inv(s, limit) && st.Acquire? && Enabled(s, st)
    ensures Inv(Next(s, st), limit)
  {
    assert Holders(Next(s, st)) == Holders(s) + {st.task};
    BindingsAfterMove(s, st.task, Running);
  }

  lemma DropPermitKeeps(s: State, limit: nat, st: Step)
    requires Inv(s, limit) && st.DropPermit? && Enabled(s, st)
    ensures Inv(Next(s, st), limit)
  {
    assert Holders(s) == Holders(Next(s, st)) + {st.task};
    BindingsAfterMove(s, st.task, Leaving);
  }

  lemma GiveUpKeeps(s: State, limit: nat, st: Step)
    requires Inv(s, limit) && st.GiveUp? && Enabled(s, st)
    ensures Inv(Next(s, st), limit)
  {
    assert Holders(Next(s, st)) == Holders(s);
    BindingsAfterMove(s, st.task, Leaving);
  }

  lemma DropGuardKeeps(s: State, limit: nat, st: Step)
    requires Inv(s, limit) && st.DropGuard? && Enabled(s, st)
    ensures Inv(Next(s, st), limit)
  {
    assert Holders(Next(s, st)) == Holders(s);
    BindingsAfterRemove(s.tasks, st.task);
  }

  lemma StepKeeps(s: State, limit: nat, st: Step)
    requires Inv(s, limit) && Enabled(s, st)
    ensures Inv(Next(s, st), limit)
  {
    match st
    case Enter(_, _) => EnterKeeps(s, limit, st);
    case Acquire(_) => AcquireKeeps(s, limit, st);
    case DropPermit(_) => DropPermitKeeps(s, limit, st);
    case GiveUp(_) => GiveUpKeeps(s, limit, st);
    case DropGuard(_) => DropGuardKeeps(s, limit, st);
  }

  // ---- Runs ------------------------------------------------------------------------------------------------

  predicate Possible(s: State, steps: seq<Step>)
    decreases |steps|
  {
    steps == [] || (Enabled(s, steps[0]) && Possible(Next(s, steps[0]), steps[1..]))
  }

  function Run(s: State, steps: seq<Step>): State
    requires Possible(s, steps)
    decreases |steps|
  {
    if steps == [] then s else Run(Next(s, steps[0]), steps[1..])
  }

  lemma {:induction false} RunKeeps(s: State, limit: nat, steps: seq<Step>)
    requires Inv(s, limit) && Possible(s, steps)
    ensures Inv(Run(s, steps), limit)
    decreases |steps|
  {
    if steps != [] {
      StepKeeps(s, limit, steps[0]);
      RunKeeps(Next(s, steps[0]), limit, steps[1..]);
    }
  }

  /** In every reachable state: an id is in flight exactly when one live task holds it, and no other does; free
      permits plus holders are the limit; a waiting task faces a free permit or a running holder; and with no
      task left nothing is in flight and every permit is free. */
  lemma EveryReachableState(maxConcurrent: nat, steps: seq<Step>)
    requires Possible(Initial(maxConcurrent), steps)
    ensures var s, limit := Run(Initial(maxConcurrent), steps), if maxConcurrent == 0 then 1 else maxConcurrent;
            (forall b :: b in s.inFlight <==> exists t :: t in s.tasks && s.tasks[t].binding == b) &&
            (forall t, u :: t in s.tasks && u in s.tasks && s.tasks[t].binding == s.tasks[u].binding ==> t == u) &&
            s.free + |Holders(s)| == limit &&
            (forall t :: InPhase(s, t, Waiting) ==> s.free > 0 || exists u :: InPhase(s, u, Running)) &&
            (s.tasks == map[] ==> s.inFlight == {} && s.free == limit)
  {
    InitialInv(maxConcurrent);
    RunKeeps(Initial(maxConcurrent), Limit(maxConcurrent), steps);
    var s := Run(Initial(maxConcurrent), steps);
    if s.free == 0 {
      var u :| u in Holders(s);
      assert InPhase(s, u, Running);
    }
    if s.tasks == map[] {
      assert Holders(s) == {};
    }
  }

  // ---- Nothing gets stuck --------------------------------------------------------------------------------

  function Left(p: Phase): nat {
    match p
    case Waiting => 3
    case Running => 2
    case Leaving => 1
  }

  /** The sections the tasks still have ahead of them. */
  ghost function Work(tasks: map<TaskId, Task>): nat
    decreases |tasks|
  {
    if tasks == map[] then 0
    else
      var t := AnyTask(tasks);
      Left(tasks[t].phase) + Work(tasks - {t})
  }

  ghost function AnyTask(tasks: map<TaskId, Task>): TaskId
    requires tasks != map[]
    ensures AnyTask(tasks) in tasks
  {
    assert tasks.Keys != {};
    var t :| t in tasks.Keys;
    t
  }

  lemma {:induction false} WorkWithout(tasks: map<TaskId, Task>, t: TaskId)
    requires t in tasks
    ensures Work(tasks) == Left(tasks[t].phase) + Work(tasks - {t})
    decreases |tasks|
  {
    var u := AnyTask(tasks);
    if u != t {
      var a, b := tasks - {u}, tasks - {t};
      WorkWithout(a, t);
      WorkWithout(b, u);
      assert a - {t} == b - {u};
    }
  }

  lemma WorkAfterMove(s: State, t: TaskId, p: Phase)
    requires t in s.tasks
    ensures Work(To(s, t, p)) + Left(s.tasks[t].phase) == Work(s.tasks) + Left(p)
  {
    WorkWithout(s.tasks, t);
    WorkWithout(To(s, t, p), t);
    assert To(s, t, p) - {t} == s.tasks - {t};
  }

  /** Every step but a new call brings the queue nearer to empty. */
  lemma StepsUseUpWork(s: State, st: Step)
    requires Enabled(s, st) && !st.Enter?
    ensures Work(Next(s, st).tasks) < Work(s.tasks)
  {
    match st
    case Acquire(t) => WorkAfterMove(s, t, Running);
    case DropPermit(t) => WorkAfterMove(s, t, Leaving);
    case GiveUp(t) => WorkAfterMove(s, t, Leaving);
    case DropGuard(t) => WorkWithout(s.tasks, t);
  }

  /** While a task is live, some task can move without a new call and without being cancelled. */
  lemma SomeoneCanMove(s: State, limit: nat) returns (st: Step)
    requires Inv(s, limit) && s.tasks != map[]
    ensures Enabled(s, st) && !st.Enter? && !st.GiveUp?
  {
    var t := AnyTask(s.tasks);
    match s.tasks[t].phase {
      case Running => st := DropPermit(t);
      case Leaving => st := DropGuard(t);
      case Waiting =>
        if s.free > 0 {
          st := Acquire(t);
        } else {
          var u :| u in Holders(s);
          st := DropPermit(u);
        }
    }
  }

  /** So from every reachable state the live tasks can run to the end, after which every id is accepted again. */
  lemma {:induction false} AlwaysDrains(s: State, limit: nat) returns (steps: seq<Step>)
    requires Inv(s, limit)
    ensures Possible(s, steps) && |steps| <= Work(s.tasks)
    ensures forall i :: 0 <= i < |steps| ==> !steps[i].Enter? && !steps[i].GiveUp?
    ensures Run(s, steps) == State({}, limit, map[])
    decreases Work(s.tasks)
  {
    if s.tasks == map[] {
      assert Holders(s) == {};
      steps := [];
    } else {
      var st := SomeoneCanMove(s, limit);
      StepKeeps(s, limit, st);
      StepsUseUpWork(s, st);
      var rest := AlwaysDrains(Next(s, st), limit);
      steps := [st] + rest;
      FirstThenRest(s, st, rest);
    }
  }

  lemma FirstThenRest(s: State, st: Step, rest: seq<Step>)
    requires Enabled(s, st) && Possible(Next(s, st), rest)
    ensures Possible(s, [st] + rest) && Run(s, [st] + rest) == Run(Next(s, st), rest)
  {
    assert ([st] + rest)[1..] == rest;
  }

  // ---- The shared state as the code updates it -------------------------------------------------------------

  /** The in-flight map and the semaphore's free permits; the calls in progress are known to the proof only. */
  class BindingScheduler {
    const limit: nat
    var inFlight: set<string>
    var slots: nat
    ghost var tasks: map<TaskId, Task>

    ghost function Abs(): State
      reads this
    {
      State(inFlight, slots, tasks)
    }

    ghost predicate Valid()
      reads this
    {
      Inv(Abs(), limit)
    }

    constructor (maxConcurrent: nat)
      ensures Valid() && Abs() == Initial(maxConcurrent) && limit == if maxConcurrent == 0 then 1 else maxConcurrent
    {
      limit := Limit(maxConcurrent);
      inFlight, slots, tasks := {}, Limit(maxConcurrent), map[];
      new;
      InitialInv(maxConcurrent);
    }

    /** The section under the mutex; `false` means `run` returns `None` at once. A call is skipped exactly when a call
        in progress, whether waiting, running or on its way out, has the same binding. */
    method TryEnter(ghost t: TaskId, binding: string) returns (entered: bool)
      requires Valid() && Enabled(Abs(), Enter(t, binding))
      modifies `inFlight, `tasks
      ensures Valid() && Abs() == Next(old(Abs()), Enter(t, binding))
      ensures entered <==> forall u :: u in old(tasks) ==> old(tasks)[u].binding != binding
      ensures !entered ==> Abs() == old(Abs())
    {
      StepKeeps(Abs(), limit, Enter(t, binding));
      if binding in inFlight {
        return false;
      }
      inFlight := inFlight + {binding};
      tasks := tasks[t := Task(binding, Waiting)];
      entered := true;
    }

    /** Resumes when a permit is free; then fewer than `limit` calls were running. */
    method AcquirePermit(ghost t: TaskId)
      requires Valid() && Enabled(Abs(), Acquire(t))
      modifies `slots, `tasks
      ensures Valid() && Abs() == Next(old(Abs()), Acquire(t))
      ensures |Holders(old(Abs()))| < limit && |Holders(Abs())| == |Holders(old(Abs()))| + 1
    {
      StepKeeps(Abs(), limit, Acquire(t));
      slots := slots - 1;
      tasks := tasks[t := tasks[t].(phase := Running)];
    }

    method ReleasePermit(ghost t: TaskId)
      requires Valid() && Enabled(Abs(), DropPermit(t))
      modifies `slots, `tasks
      ensures Valid() && Abs() == Next(old(Abs()), DropPermit(t))
      ensures slots <= limit && |Holders(Abs())| == |Holders(old(Abs()))| - 1
    {
      StepKeeps(Abs(), limit, DropPermit(t));
      slots := slots + 1;
      tasks := tasks[t := tasks[t].(phase := Leaving)];
    }

    /** `InFlightGuard::drop`: afterwards no call in progress has the binding, so the next one is let in. */
    method ReleaseGuard(ghost t: TaskId, binding: string)
      requires Valid() && Enabled(Abs(), DropGuard(t)) && binding == tasks[t].binding
      modifies `inFlight, `tasks
      ensures Valid() && Abs() == Next(old(Abs()), DropGuard(t))
      ensures forall u :: u in tasks ==> tasks[u].binding != binding
      ensures tasks == map[] ==> inFlight == {} && slots == limit
    {
      StepKeeps(Abs(), limit, DropGuard(t));
      inFlight := inFlight - {binding};
      tasks := tasks - {t};
      assert tasks == map[] ==> Holders(Abs()) == {} && Bindings(tasks) == {};
    }
  }
}
