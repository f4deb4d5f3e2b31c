/**
  Whole runs of the transfer queue: it behaves like one plain map from slot to item, and every
  transfer it was ever given has exactly one fate.
 */
module TransferRuns {
  import opened Options
  import opened TransferQueues

  datatype Op =
    | OBegin(item: Item)
    | OEnqueue(item: Item)
    | OPromote(id: string, now: int)
    | OComplete(id: string, now: int)
    | OAbandon(id: string)
    | OClear(binding: string)
    | OMeter(id: string)
    | OSent(id: string, bytes: nat)

  function Step(s: State, op: Op): State {
    match op
    case OBegin(it) => Begin(s, it)
    case OEnqueue(it) => Enqueue(s, it)
    case OPromote(id, now) => Promote(s, id, now)
    case OComplete(id, now) => Complete(s, id, now)
    case OAbandon(id) => Abandon(s, id)
    case OClear(b) => Clear(s, b)
    case OMeter(id) => Meter(s, id)
    case OSent(id, n) => AddSent(s, id, n)
  }

  // ---- The plain map ------------------------------------------------------------------------------

  type Plain = map<Key, Item>

  /** The queue as a plain map: one item per slot, active or waiting by its status. */
  function PlainStep(m: Plain, op: Op): Plain {
    match op
    case OBegin(it) => m[it.KeyOf() := it]
    case OEnqueue(it) => m[it.KeyOf() := it]
    case OPromote(id, now) =>
      map k | k in m ::
        if m[k].id == id && m[k].status == Waiting then m[k].(status := Active, updatedAt := now) else m[k]
    case OComplete(id, _) => map k | k in m && m[k].id != id :: m[k]
    case OAbandon(id) => map k | k in m && m[k].id != id :: m[k]
    case OClear(b) => map k | k in m && k.binding != b :: m[k]
    case OMeter(_) => m
    case OSent(_, _) => m
  }

  ghost predicate Unfinished(x: Item, s: State) {
    x in s.active || x in s.waiting
  }

  ghost predicate Represents(m: Plain, s: State) {
    && (forall x :: Unfinished(x, s) ==> x.KeyOf() in m && m[x.KeyOf()] == x)
    && (forall k :: k in m ==> Unfinished(m[k], s) && m[k].KeyOf() == k)
  }

  /** Equal ids or equal slots mean the same item, and the list an item is in gives its status. */
  lemma UnfinishedAreUnique(s: State, x: Item, y: Item)
    requires Wf(s) && Unfinished(x, s) && Unfinished(y, s)
    ensures x.id == y.id || x.KeyOf() == y.KeyOf() ==> x == y
    ensures x in s.active <==> x.status == Active
  {
    if x in s.active {
      var i :| 0 <= i < |s.active| && s.active[i] == x;
    } else {
      var i :| 0 <= i < |s.waiting| && s.waiting[i] == x;
    }
    if y in s.active {
      var i :| 0 <= i < |s.active| && s.active[i] == y;
    } else {
      var i :| 0 <= i < |s.waiting| && s.waiting[i] == y;
    }
  }

  lemma VacateMembers(s: State, it: Item)
    requires Wf(s)
    ensures forall x :: (x in Without(s.active, ByKey(it.KeyOf())) || x in TakeOut(s.waiting, ByKey(it.KeyOf()))) <==>
                        (Unfinished(x, s) && x.KeyOf() != it.KeyOf())
  {
    WithoutKeeps(s.active, ByKey(it.KeyOf()));
    TakeOutKeeps(s.waiting, ByKey(it.KeyOf()));
  }

  lemma TakeMembers(s: State, id: string)
    requires Wf(s)
    ensures forall x :: Unfinished(x, Take(s, id).1) <==> Unfinished(x, s) && x.id != id
    ensures Take(s, id).0.Some? <==> exists x :: Unfinished(x, s) && x.id == id
    ensures Take(s, id).0.Some? ==> Unfinished(Take(s, id).0.value, s) && Take(s, id).0.value.id == id
  {
    var p, q := Find(s.active, ById(id)), Find(s.waiting, ById(id));
    FindIsFirst(s.active, ById(id));
    FindIsFirst(s.waiting, ById(id));
    if p.Some? {
      RemoveAtKeeps(s.active, p.value);
      assert Unfinished(s.active[p.value], s);
      forall x | x in s.waiting ensures x.id != id {
        UnfinishedAreUnique(s, x, s.active[p.value]);
      }
    } else if q.Some? {
      SwapRemoveKeeps(s.waiting, q.value);
      assert Unfinished(s.waiting[q.value], s);
    }
  }

  lemma PromoteMembers(s: State, id: string, now: int)
    requires Wf(s)
    ensures forall x :: Unfinished(x, Promote(s, id, now)) <==>
              (Unfinished(x, s) && !(x.id == id && x.status == Waiting)) ||
              (exists y :: y in s.waiting && y.id == id && x == y.(status := Active, updatedAt := now))
  {
    var f := Find(s.waiting, ById(id));
    FindIsFirst(s.waiting, ById(id));
    if f.Some? {
      var it := s.waiting[f.value];
      SwapRemoveKeeps(s.waiting, f.value);
      forall x | Unfinished(x, s) && x.id == id ensures x == it {
        assert Unfinished(it, s);
        UnfinishedAreUnique(s, x, it);
      }
    }
  }

  lemma SimulatesPromote(m: Plain, s: State, id: string, now: int)
    requires Wf(s) && Represents(m, s)
    ensures Represents(PlainStep(m, OPromote(id, now)), Promote(s, id, now))
  {
    var m', s' := PlainStep(m, OPromote(id, now)), Promote(s, id, now);
    PromoteMembers(s, id, now);
    forall x | Unfinished(x, s') ensures x.KeyOf() in m' && m'[x.KeyOf()] == x {
      if y :| y in s.waiting && y.id == id && x == y.(status := Active, updatedAt := now) {
        assert Unfinished(y, s);
        UnfinishedAreUnique(s, y, y);
        assert m[y.KeyOf()] == y;
        assert x.KeyOf() == y.KeyOf();
      }
    }
    forall k | k in m' ensures Unfinished(m'[k], s') && m'[k].KeyOf() == k {
      assert Unfinished(m[k], s) && m[k].KeyOf() == k;
      UnfinishedAreUnique(s, m[k], m[k]);
    }
  }

  lemma BeginMembers(s: State, it: Item)
    requires Wf(s)
    ensures forall x :: Unfinished(x, Begin(s, it)) <==> x == it || (Unfinished(x, s) && x.KeyOf() != it.KeyOf())
  {
    VacateMembers(s, it);
  }

  lemma EnqueueMembers(s: State, it: Item)
    requires Wf(s)
    ensures forall x :: Unfinished(x, Enqueue(s, it)) <==> x == it || (Unfinished(x, s) && x.KeyOf() != it.KeyOf())
  {
    VacateMembers(s, it);
  }

  lemma SimulatesAdd(m: Plain, s: State, s': State, it: Item)
    requires Represents(m, s)
    requires forall x :: Unfinished(x, s') <==> x == it || (Unfinished(x, s) && x.KeyOf() != it.KeyOf())
    ensures Represents(m[it.KeyOf() := it], s')
  {
  }

  lemma SimulatesRemove(m: Plain, s: State, s': State, id: string, op: Op)
    requires Represents(m, s) && ((op.OComplete? && op.id == id) || op == OAbandon(id))
    requires forall x :: Unfinished(x, s') <==> Unfinished(x, s) && x.id != id
    ensures Represents(PlainStep(m, op), s')
  {
  }

  lemma CompleteMembers(s: State, id: string, now: int)
    requires Wf(s)
    ensures forall x :: Unfinished(x, Complete(s, id, now)) <==> Unfinished(x, s) && x.id != id
    ensures var taken := Take(s.(meters := s.meters - {id}), id).0;
            (taken.Some? ==> Unfinished(taken.value, s) && taken.value.id == id) &&
            (taken.None? ==> forall x :: Unfinished(x, s) ==> x.id != id)
  {
    var m := s.(meters := s.meters - {id});
    TakeMembers(m, id);
    assert forall x :: Unfinished(x, m) <==> Unfinished(x, s);
  }

  lemma AbandonMembers(s: State, id: string)
    requires Wf(s)
    ensures forall x :: Unfinished(x, Abandon(s, id)) <==> Unfinished(x, s) && x.id != id
  {
    WithoutKeeps(s.active, ById(id));
    TakeOutKeeps(s.waiting, ById(id));
  }

  lemma ClearMembers(s: State, b: string)
    requires Wf(s)
    ensures forall x :: Unfinished(x, Clear(s, b)) <==> Unfinished(x, s) && x.binding != b
  {
    WithoutKeeps(s.active, ByBinding(b));
    WithoutKeeps(s.waiting, ByBinding(b));
  }

  /** Each queue operation does to the queue what the plain map operation does to the map. */
  lemma StepSimulatesPlainMap(m: Plain, s: State, op: Op)
    requires Wf(s) && Represents(m, s)
    ensures Represents(PlainStep(m, op), Step(s, op))
  {
    match op
    case OBegin(it) =>
      BeginMembers(s, it);
      SimulatesAdd(m, s, Begin(s, it), it);
    case OEnqueue(it) =>
      EnqueueMembers(s, it);
      SimulatesAdd(m, s, Enqueue(s, it), it);
    case OPromote(id, now) => SimulatesPromote(m, s, id, now);
    case OComplete(id, now) =>
      CompleteMembers(s, id, now);
      SimulatesRemove(m, s, Complete(s, id, now), id, op);
    case OAbandon(id) =>
      AbandonMembers(s, id);
      SimulatesRemove(m, s, Abandon(s, id), id, OAbandon(id));
    case OClear(b) => ClearMembers(s, b);
    case OMeter(id) =>
    case OSent(id, n) =>
  }

  // ---- Fates ---------------------------------------------------------------------------------------

  datatype Fate = Open | Completed | Abandoned | Replaced | Cleared
  datatype Entry = Entry(direction: Direction, fate: Fate)

  /** Every id ever issued, with what became of it. */
  type History = map<string, Entry>

  ghost function Settle(h: History, s: State, sel: Selector, fate: Fate): History {
    map id | id in h ::
      if exists x :: Unfinished(x, s) && x.id == id && Selects(sel, x) then h[id].(fate := fate) else h[id]
  }

  ghost function HistoryStep(h: History, s: State, op: Op): History {
    match op
    case OBegin(it) => Settle(h, s, ByKey(it.KeyOf()), Replaced)[it.id := Entry(it.direction, Open)]
    case OEnqueue(it) => Settle(h, s, ByKey(it.KeyOf()), Replaced)[it.id := Entry(it.direction, Open)]
    case OComplete(id, _) => Settle(h, s, ById(id), Completed)
    case OAbandon(id) => Settle(h, s, ById(id), Abandoned)
    case OClear(b) => Settle(h, s, ByBinding(b), Cleared)
    case _ => h
  }

  /** Ids are UUIDs: a new one was never issued before, and meters are asked for by issued ids. */
  ghost predicate Legal(h: History, op: Op) {
    match op
    case OBegin(it) => it.id !in h && it.status == Active
    case OEnqueue(it) => it.id !in h && it.status == Waiting
    case OMeter(id) => id in h
    case _ => true
  }

  ghost function AllUploads(h: History): set<string> {
    set id | id in h && h[id].direction == Upload
  }

  ghost function Uploads(h: History, fate: Fate): set<string> {
    set id | id in h && h[id] == Entry(Upload, fate)
  }

  ghost predicate Kept(h: History, s: State) {
    && Wf(s)
    && (forall x :: Unfinished(x, s) ==> x.id in h && h[x.id] == Entry(x.direction, Open))
    && (forall id :: id in h && h[id].fate == Open ==> exists x :: Unfinished(x, s) && x.id == id)
    && s.meters.Keys <= h.Keys
    && |Uploads(h, Completed)| == s.completed
  }

  lemma LegalIsFresh(h: History, s: State, id: string)
    requires Kept(h, s) && id !in h
    ensures Fresh(s, id)
  {
    forall i | 0 <= i < |s.active| ensures s.active[i].id != id {
      assert Unfinished(s.active[i], s);
    }
    forall i | 0 <= i < |s.waiting| ensures s.waiting[i].id != id {
      assert Unfinished(s.waiting[i], s);
    }
  }

  /** Removing exactly the selected items and settling their fates keeps the books. */
  lemma SettleKeeps(h: History, s: State, s': State, sel: Selector, fate: Fate)
    requires Kept(h, s) && Wf(s') && fate !in {Open, Completed}
    requires forall x :: Unfinished(x, s') <==> Unfinished(x, s) && !Selects(sel, x)
    requires s'.meters.Keys <= h.Keys && s'.completed == s.completed
    ensures Kept(Settle(h, s, sel, fate), s')
  {
    var h' := Settle(h, s, sel, fate);
    SettledAreClosed(h, s, s', sel, fate);
    assert Uploads(h', Completed) == Uploads(h, Completed);
  }

  lemma SettledAreClosed(h: History, s: State, s': State, sel: Selector, fate: Fate)
    requires Kept(h, s) && fate != Open
    requires forall x :: Unfinished(x, s') <==> Unfinished(x, s) && !Selects(sel, x)
    ensures var h' := Settle(h, s, sel, fate);
            (forall x :: Unfinished(x, s') ==> x.id in h' && h'[x.id] == Entry(x.direction, Open)) &&
            (forall id :: id in h' && h'[id].fate == Open ==> exists x :: Unfinished(x, s') && x.id == id) &&
            (forall id :: id in h && h'[id] != h[id] ==> h[id].fate == Open && h'[id] == h[id].(fate := fate))
  {
    var h' := Settle(h, s, sel, fate);
    forall x | Unfinished(x, s') ensures x.id in h' && h'[x.id] == Entry(x.direction, Open) {
      forall y | Unfinished(y, s) && y.id == x.id ensures !Selects(sel, y) {
        UnfinishedAreUnique(s, x, y);
      }
    }
    forall id | id in h' && h'[id].fate == Open ensures exists x :: Unfinished(x, s') && x.id == id {
      var x :| Unfinished(x, s) && x.id == id;
      assert !Selects(sel, x);
    }
  }

  lemma OpenKeeps(h: History, s: State, s': State, it: Item)
    requires Kept(h, s) && Wf(s') && it.id !in h
    requires forall x :: Unfinished(x, s') <==> x == it || Unfinished(x, s)
    requires s'.meters == s.meters && s'.completed == s.completed
    ensures Kept(h[it.id := Entry(it.direction, Open)], s')
  {
    var h' := h[it.id := Entry(it.direction, Open)];
    assert Unfinished(it, s');
    forall id | id in h' && h'[id].fate == Open ensures exists x :: Unfinished(x, s') && x.id == id {
      if id != it.id {
        var x :| Unfinished(x, s) && x.id == id;
        assert Unfinished(x, s');
      }
    }
    assert Uploads(h', Completed) == Uploads(h, Completed);
  }

  lemma AddKeeps(h: History, s: State, op: Op, it: Item)
    requires Kept(h, s) && Legal(h, op) && (op == OBegin(it) || op == OEnqueue(it))
    ensures Kept(HistoryStep(h, s, op), Step(s, op))
  {
    LegalIsFresh(h, s, it.id);
    VacatedSlot(s, it);
    VacateMembers(s, it);
    var sel := ByKey(it.KeyOf());
    var mid := s.(active := Without(s.active, sel), waiting := TakeOut(s.waiting, sel));
    SettleKeeps(h, s, mid, sel, Replaced);
    if op.OBegin? { BeginKeepsWf(s, it); } else { EnqueueKeepsWf(s, it); }
    OpenKeeps(Settle(h, s, sel, Replaced), mid, Step(s, op), it);
  }

  lemma PromoteKeeps(h: History, s: State, id: string, now: int)
    requires Kept(h, s)
    ensures Kept(h, Promote(s, id, now))
  {
    var s' := Promote(s, id, now);
    PromoteKeepsWf(s, id, now);
    PromoteMembers(s, id, now);
    forall x | Unfinished(x, s') ensures x.id in h && h[x.id] == Entry(x.direction, Open) {
      if y :| y in s.waiting && y.id == id && x == y.(status := Active, updatedAt := now) {
        assert Unfinished(y, s);
      }
    }
    forall i | i in h && h[i].fate == Open ensures exists x :: Unfinished(x, s') && x.id == i {
      var x :| Unfinished(x, s) && x.id == i;
      var y := if x.id == id && x.status == Waiting then x.(status := Active, updatedAt := now) else x;
      UnfinishedAreUnique(s, x, x);
      assert Unfinished(y, s') && y.id == i;
    }
  }

  lemma CompletedGrows(h: History, s: State, x: Item)
    requires Kept(h, s) && Unfinished(x, s)
    ensures |Uploads(Settle(h, s, ById(x.id), Completed), Completed)| ==
            |Uploads(h, Completed)| + if x.direction == Upload then 1 else 0
  {
    var h' := Settle(h, s, ById(x.id), Completed);
    assert h'[x.id] == Entry(x.direction, Completed) && x.id !in Uploads(h, Completed);
    forall id | id in h && id != x.id ensures h'[id] == h[id] {
    }
    assert Uploads(h', Completed) == Uploads(h, Completed) + if x.direction == Upload then {x.id} else {};
  }

  lemma CompleteKeeps(h: History, s: State, id: string, now: int)
    requires Kept(h, s)
    ensures Kept(Settle(h, s, ById(id), Completed), Complete(s, id, now))
  {
    var h', s' := Settle(h, s, ById(id), Completed), Complete(s, id, now);
    CompleteKeepsWf(s, id, now);
    CompleteMembers(s, id, now);
    SettledAreClosed(h, s, s', ById(id), Completed);
    CompleteCounts(h, s, id, now);
  }

  lemma CompleteCounts(h: History, s: State, id: string, now: int)
    requires Kept(h, s)
    ensures |Uploads(Settle(h, s, ById(id), Completed), Completed)| == Complete(s, id, now).completed
  {
    CompleteMembers(s, id, now);
    var taken := Take(s.(meters := s.meters - {id}), id).0;
    if taken.Some? {
      CompletedGrows(h, s, taken.value);
    } else {
      assert Settle(h, s, ById(id), Completed) == h;
    }
  }

  lemma StepKeeps(h: History, s: State, op: Op)
    requires Kept(h, s) && Legal(h, op)
    ensures Kept(HistoryStep(h, s, op), Step(s, op))
  {
    match op
    case OBegin(it) => AddKeeps(h, s, op, it);
    case OEnqueue(it) => AddKeeps(h, s, op, it);
    case OPromote(id, now) => PromoteKeeps(h, s, id, now);
    case OComplete(id, now) => CompleteKeeps(h, s, id, now);
    case OAbandon(id) =>
      AbandonKeepsWf(s, id);
      AbandonMembers(s, id);
      SettleKeeps(h, s, Abandon(s, id), ById(id), Abandoned);
    case OClear(b) =>
      ClearKeepsWf(s, b);
      ClearMembers(s, b);
      SettleKeeps(h, s, Clear(s, b), ByBinding(b), Cleared);
    case OMeter(id) =>
      MetersKeepWf(s, Meter(s, id).meters);
      MeterKeeps(h, s, Meter(s, id).meters);
    case OSent(id, n) =>
      MetersKeepWf(s, AddSent(s, id, n).meters);
      MeterKeeps(h, s, AddSent(s, id, n).meters);
  }

  lemma MeterKeeps(h: History, s: State, meters: map<string, nat>)
    requires Kept(h, s) && meters.Keys <= h.Keys
    ensures Kept(h, s.(meters := meters))
  {
    var s' := s.(meters := meters);
    MetersKeepWf(s, meters);
    assert forall x :: Unfinished(x, s') <==> Unfinished(x, s);
  }

  // ---- Runs ----------------------------------------------------------------------------------------

  function Run(s: State, ops: seq<Op>): State
    decreases |ops|
  {
    if ops == [] then s else Run(Step(s, ops[0]), ops[1..])
  }

  function PlainRun(m: Plain, ops: seq<Op>): Plain
    decreases |ops|
  {
    if ops == [] then m else PlainRun(PlainStep(m, ops[0]), ops[1..])
  }

  ghost function HistoryRun(h: History, s: State, ops: seq<Op>): History
    decreases |ops|
  {
    if ops == [] then h else HistoryRun(HistoryStep(h, s, ops[0]), Step(s, ops[0]), ops[1..])
  }

  ghost predicate LegalRun(h: History, s: State, ops: seq<Op>)
    decreases |ops|
  {
    ops == [] || (Legal(h, ops[0]) && LegalRun(HistoryStep(h, s, ops[0]), Step(s, ops[0]), ops[1..]))
  }

  lemma {:induction false} RunKeeps(h: History, s: State, ops: seq<Op>)
    requires Kept(h, s) && LegalRun(h, s, ops)
    ensures Kept(HistoryRun(h, s, ops), Run(s, ops))
    decreases |ops|
  {
    if ops != [] {
      StepKeeps(h, s, ops[0]);
      RunKeeps(HistoryStep(h, s, ops[0]), Step(s, ops[0]), ops[1..]);
    }
  }

  lemma {:induction false} RunSimulatesFrom(h: History, m: Plain, s: State, ops: seq<Op>)
    requires Kept(h, s) && LegalRun(h, s, ops) && Represents(m, s)
    ensures Represents(PlainRun(m, ops), Run(s, ops))
    decreases |ops|
  {
    if ops != [] {
      StepKeeps(h, s, ops[0]);
      StepSimulatesPlainMap(m, s, ops[0]);
      RunSimulatesFrom(HistoryStep(h, s, ops[0]), PlainStep(m, ops[0]), Step(s, ops[0]), ops[1..]);
    }
  }

  lemma EmptyIsKept()
    ensures Kept(map[], EMPTY) && Represents(map[], EMPTY)
  {
    assert Uploads(map[], Completed) == {};
  }

  /** Over every run the queue is the plain map: at most one unfinished item per slot, and the same
      items, however the vectors were shuffled. */
  lemma RunSimulatesPlainMap(ops: seq<Op>)
    requires LegalRun(map[], EMPTY, ops)
    ensures Wf(Run(EMPTY, ops)) && Represents(PlainRun(map[], ops), Run(EMPTY, ops))
  {
    EmptyIsKept();
    RunKeeps(map[], EMPTY, ops);
    RunSimulatesFrom(map[], map[], EMPTY, ops);
  }

  ghost function IdsOfUploads(s: seq<Item>): set<string> {
    set x | x in s && x.direction == Upload :: x.id
  }

  lemma LastUploadIsNew(s: seq<Item>, n: nat)
    requires Unique(s) && |s| == n + 1
    ensures IdsOfUploads(s) == IdsOfUploads(s[..n]) + if s[n].direction == Upload then {s[n].id} else {}
    ensures s[n].id !in IdsOfUploads(s[..n])
  {
    forall x | x in s ensures x in s[..n] || x == s[n] {
      var i :| 0 <= i < |s| && s[i] == x;
      assert i < n ==> s[..n][i] == x;
    }
    assert s[n] in s;
    forall x | x in s[..n] ensures x in s && x.id != s[n].id {
      var i :| 0 <= i < n && s[..n][i] == x;
      assert s[i] == x;
    }
  }

  lemma {:induction false} CountIsCardinality(s: seq<Item>)
    requires Unique(s)
    ensures Total(Count, s) == |IdsOfUploads(s)|
  {
    if s == [] {
      assert IdsOfUploads(s) == {};
    } else {
      var n := |s| - 1;
      CountIsCardinality(s[..n]);
      LastUploadIsNew(s, n);
    }
  }

  lemma OpenIds(h: History, s: State)
    requires Kept(h, s)
    ensures Uploads(h, Open) == IdsOfUploads(s.active) + IdsOfUploads(s.waiting)
    ensures IdsOfUploads(s.active) !! IdsOfUploads(s.waiting)
  {
    var a, w := IdsOfUploads(s.active), IdsOfUploads(s.waiting);
    forall x, y | x in s.active && y in s.waiting ensures x.id != y.id {
      assert Unfinished(x, s) && Unfinished(y, s);
      UnfinishedAreUnique(s, x, y);
      UnfinishedAreUnique(s, y, x);
    }
    forall id | id in Uploads(h, Open) ensures id in a + w {
      var x :| Unfinished(x, s) && x.id == id;
    }
    forall id | id in a + w ensures id in Uploads(h, Open) {
      var x :| (x in s.active || x in s.waiting) && x.direction == Upload && x.id == id;
      assert Unfinished(x, s);
    }
  }

  lemma OpenAreRemaining(h: History, s: State)
    requires Kept(h, s)
    ensures |Uploads(h, Open)| == Total(Count, s.active) + Total(Count, s.waiting)
  {
    OpenIds(h, s);
    CountIsCardinality(s.active);
    CountIsCardinality(s.waiting);
  }

  lemma FatesPartition(h: History)
    ensures |AllUploads(h)| ==
            |Uploads(h, Open)| + |Uploads(h, Completed)| + |Uploads(h, Abandoned)| +
            |Uploads(h, Replaced)| + |Uploads(h, Cleared)|
  {
    var oc := Uploads(h, Open) + Uploads(h, Completed);
    var oca := oc + Uploads(h, Abandoned);
    var ocar := oca + Uploads(h, Replaced);
    var all := AllUploads(h);
    forall id | id in all ensures id in ocar + Uploads(h, Cleared) {
      match h[id].fate
      case Open => assert id in Uploads(h, Open);
      case Completed => assert id in Uploads(h, Completed);
      case Abandoned => assert id in Uploads(h, Abandoned);
      case Replaced => assert id in Uploads(h, Replaced);
      case Cleared => assert id in Uploads(h, Cleared);
    }
    assert all == ocar + Uploads(h, Cleared);
    assert |oc| == |Uploads(h, Open)| + |Uploads(h, Completed)|;
    assert |oca| == |oc| + |Uploads(h, Abandoned)|;
    assert |ocar| == |oca| + |Uploads(h, Replaced)|;
  }

  /** How many uploads are begun or enqueued. */
  function UploadsGiven(ops: seq<Op>): nat
    decreases |ops|
  {
    if ops == [] then 0 else (if GivesUpload(ops[0]) then 1 else 0) + UploadsGiven(ops[1..])
  }

  predicate GivesUpload(op: Op) {
    (op.OBegin? || op.OEnqueue?) && op.item.direction == Upload
  }

  lemma SettleKeepsUploads(h: History, s: State, sel: Selector, fate: Fate)
    ensures Settle(h, s, sel, fate).Keys == h.Keys && AllUploads(Settle(h, s, sel, fate)) == AllUploads(h)
  {
  }

  lemma NewEntry(h: History, id: string, d: Direction)
    requires id !in h
    ensures |AllUploads(h[id := Entry(d, Open)])| == |AllUploads(h)| + if d == Upload then 1 else 0
  {
    var h' := h[id := Entry(d, Open)];
    assert AllUploads(h') == AllUploads(h) + if d == Upload then {id} else {};
  }

  lemma StepGives(h: History, s: State, op: Op)
    requires Legal(h, op)
    ensures |AllUploads(HistoryStep(h, s, op))| == |AllUploads(h)| + if GivesUpload(op) then 1 else 0
  {
    match op
    case OBegin(it) =>
      SettleKeepsUploads(h, s, ByKey(it.KeyOf()), Replaced);
      NewEntry(Settle(h, s, ByKey(it.KeyOf()), Replaced), it.id, it.direction);
    case OEnqueue(it) =>
      SettleKeepsUploads(h, s, ByKey(it.KeyOf()), Replaced);
      NewEntry(Settle(h, s, ByKey(it.KeyOf()), Replaced), it.id, it.direction);
    case OComplete(id, _) => SettleKeepsUploads(h, s, ById(id), Completed);
    case OAbandon(id) => SettleKeepsUploads(h, s, ById(id), Abandoned);
    case OClear(b) => SettleKeepsUploads(h, s, ByBinding(b), Cleared);
    case _ =>
  }

  lemma {:induction false} RunGives(h: History, s: State, ops: seq<Op>)
    requires LegalRun(h, s, ops)
    ensures |AllUploads(HistoryRun(h, s, ops))| == |AllUploads(h)| + UploadsGiven(ops)
    decreases |ops|
  {
    if ops != [] {
      StepGives(h, s, ops[0]);
      RunGives(HistoryStep(h, s, ops[0]), Step(s, ops[0]), ops[1..]);
    }
  }

  /** Over every run, each upload given to the queue, by a begin or an enqueue, is counted once: as completed, as
      remaining, or as abandoned, replaced or cleared. */
  lemma EveryUploadHasOneFate(ops: seq<Op>)
    requires LegalRun(map[], EMPTY, ops)
    ensures var h, s := HistoryRun(map[], EMPTY, ops), Run(EMPTY, ops);
            |AllUploads(h)| == UploadsGiven(ops) ==
            s.completed + Total(Count, s.active) + Total(Count, s.waiting) +
            |Uploads(h, Abandoned)| + |Uploads(h, Replaced)| + |Uploads(h, Cleared)|
  {
    EmptyIsKept();
    RunKeeps(map[], EMPTY, ops);
    RunGives(map[], EMPTY, ops);
    assert AllUploads(map[]) == {};
    OpenAreRemaining(HistoryRun(map[], EMPTY, ops), Run(EMPTY, ops));
    FatesPartition(HistoryRun(map[], EMPTY, ops));
  }
}
