/**
  Meters that outlive their item. Replacing an item does not drop its meter, so "every meter belongs to an unfinished
  item" is no invariant of the queue; this says, for whole runs, which meters are left over.
 */
module TransferMeters {
  import opened Options
  import opened TransferQueues
  import opened TransferRuns

  ghost predicate Carried(s: State, id: string) {
    exists x :: Unfinished(x, s) && x.id == id
  }

  ghost predicate InSlot(s: State, key: Key, id: string) {
    exists x :: Unfinished(x, s) && x.id == id && x.KeyOf() == key
  }

  /** A meter that no unfinished item has. */
  ghost predicate LeftOver(s: State, id: string) {
    id in s.meters && !Carried(s, id)
  }

  /** The operation parts the meter of `id` from its item: it replaces an item that has a meter, or it asks for the
      meter of a transfer that is over. */
  ghost predicate Leaves(s: State, op: Op, id: string) {
    match op
    case OBegin(it) => id in s.meters && InSlot(s, it.KeyOf(), id)
    case OEnqueue(it) => id in s.meters && InSlot(s, it.KeyOf(), id)
    case OMeter(i) => i == id && !Carried(s, id)
    case _ => false
  }

  /** The operation drops the meter of `id` if it is left over. */
  predicate Drops(op: Op, id: string) {
    match op
    case OComplete(i, _) => i == id
    case OAbandon(i) => i == id
    case OClear(_) => true
    case _ => false
  }

  // ---- One operation -----------------------------------------------------------------------------------

  lemma AddLeaves(s: State, s': State, it: Item, id: string)
    requires Wf(s) && Fresh(s, it.id) && s'.meters == s.meters
    requires forall x :: Unfinished(x, s') <==> x == it || (Unfinished(x, s) && x.KeyOf() != it.KeyOf())
    ensures LeftOver(s', id) <==> LeftOver(s, id) || (id in s.meters && InSlot(s, it.KeyOf(), id))
  {
    if x :| Unfinished(x, s) && x.id == id {
      forall y | Unfinished(y, s) && y.id == id ensures y == x {
        UnfinishedAreUnique(s, x, y);
      }
      assert x.KeyOf() != it.KeyOf() ==> Unfinished(x, s');
    }
    assert Unfinished(it, s');
  }

  lemma RemoveLeaves(s: State, s': State, gone: string, id: string)
    requires s'.meters == s.meters - {gone}
    requires forall x :: Unfinished(x, s') <==> Unfinished(x, s) && x.id != gone
    ensures LeftOver(s', id) <==> LeftOver(s, id) && id != gone
  {
    if id != gone {
      if x :| Unfinished(x, s) && x.id == id {
        assert Unfinished(x, s');
      }
      if x :| Unfinished(x, s') && x.id == id {
        assert Unfinished(x, s);
      }
    }
  }

  lemma BeginLeaves(s: State, it: Item, id: string)
    requires Wf(s) && Fresh(s, it.id)
    ensures LeftOver(Begin(s, it), id) <==> LeftOver(s, id) || (id in s.meters && InSlot(s, it.KeyOf(), id))
  {
    BeginMembers(s, it);
    AddLeaves(s, Begin(s, it), it, id);
  }

  lemma EnqueueLeaves(s: State, it: Item, id: string)
    requires Wf(s) && Fresh(s, it.id)
    ensures LeftOver(Enqueue(s, it), id) <==> LeftOver(s, id) || (id in s.meters && InSlot(s, it.KeyOf(), id))
  {
    EnqueueMembers(s, it);
    AddLeaves(s, Enqueue(s, it), it, id);
  }

  lemma CompleteLeaves(s: State, i: string, now: int, id: string)
    requires Wf(s)
    ensures LeftOver(Complete(s, i, now), id) <==> LeftOver(s, id) && id != i
  {
    CompleteMembers(s, i, now);
    RemoveLeaves(s, Complete(s, i, now), i, id);
  }

  lemma AbandonLeaves(s: State, i: string, id: string)
    requires Wf(s)
    ensures LeftOver(Abandon(s, i), id) <==> LeftOver(s, id) && id != i
  {
    AbandonMembers(s, i);
    RemoveLeaves(s, Abandon(s, i), i, id);
  }

  /** Clearing any binding leaves no meter over: what stays belongs to active items. */
  lemma ClearLeavesNone(s: State, binding: string, id: string)
    ensures !LeftOver(Clear(s, binding), id)
    ensures id in Clear(s, binding).meters ==> exists x :: x in Clear(s, binding).active && x.id == id
  {
    var s' := Clear(s, binding);
    if id in s'.meters {
      var x :| x in s'.active && x.id == id;
      assert Unfinished(x, s');
    }
  }

  lemma PromoteLeaves(s: State, id: string, now: int, i: string)
    requires Wf(s)
    ensures LeftOver(Promote(s, id, now), i) <==> LeftOver(s, i)
  {
    var s' := Promote(s, id, now);
    PromoteMembers(s, id, now);
    if x :| Unfinished(x, s) && x.id == i {
      UnfinishedAreUnique(s, x, x);
      var y := if x.id == id && x.status == Waiting then x.(status := Active, updatedAt := now) else x;
      assert Unfinished(y, s') && y.id == i;
    }
    if y :| Unfinished(y, s') && y.id == i {
      if x :| x in s.waiting && x.id == id && y == x.(status := Active, updatedAt := now) {
        assert Unfinished(x, s) && x.id == i;
      }
    }
  }

  lemma SameItems(s: State, s': State, id: string)
    requires s'.active == s.active && s'.waiting == s.waiting
    ensures Carried(s', id) <==> Carried(s, id)
  {
    assert forall x :: Unfinished(x, s') <==> Unfinished(x, s);
  }

  lemma MeterLeaves(s: State, i: string, id: string)
    ensures LeftOver(Meter(s, i), id) <==> (i == id && !Carried(s, id)) || LeftOver(s, id)
  {
    SameItems(s, Meter(s, i), id);
  }

  lemma SentLeaves(s: State, i: string, n: nat, id: string)
    ensures LeftOver(AddSent(s, i, n), id) <==> LeftOver(s, id)
  {
    SameItems(s, AddSent(s, i, n), id);
  }

  lemma StepLeaves(h: History, s: State, op: Op, id: string)
    requires Kept(h, s) && Legal(h, op)
    ensures LeftOver(Step(s, op), id) <==> Leaves(s, op, id) || (LeftOver(s, id) && !Drops(op, id))
  {
    match op
    case OBegin(it) =>
      LegalIsFresh(h, s, it.id);
      BeginLeaves(s, it, id);
    case OEnqueue(it) =>
      LegalIsFresh(h, s, it.id);
      EnqueueLeaves(s, it, id);
    case OPromote(i, now) => PromoteLeaves(s, i, now, id);
    case OComplete(i, now) => CompleteLeaves(s, i, now, id);
    case OAbandon(i) => AbandonLeaves(s, i, id);
    case OClear(b) => ClearLeavesNone(s, b, id);
    case OMeter(i) => MeterLeaves(s, i, id);
    case OSent(i, n) => SentLeaves(s, i, n, id);
  }

  // ---- Whole runs ----------------------------------------------------------------------------------------

  lemma {:induction false} RunLast(h: History, s: State, ops: seq<Op>)
    requires ops != [] && LegalRun(h, s, ops)
    ensures var init, op := ops[..|ops| - 1], ops[|ops| - 1];
            LegalRun(h, s, init) && Legal(HistoryRun(h, s, init), op) && Run(s, ops) == Step(Run(s, init), op)
    decreases |ops|
  {
    var n := |ops| - 1;
    if n == 0 {
      assert ops[1..] == [] && ops[..0] == [];
    } else {
      RunLast(HistoryStep(h, s, ops[0]), Step(s, ops[0]), ops[1..]);
      assert ops[..n][1..] == ops[1..][..n - 1] && ops[..n][0] == ops[0];
    }
  }

  /** Operation `k` of the run parts the meter from its item, and no later one drops it. */
  ghost predicate LeftAt(ops: seq<Op>, k: nat, id: string)
    requires k < |ops|
  {
    Leaves(Run(EMPTY, ops[..k]), ops[k], id) && forall j :: k < j < |ops| ==> !Drops(ops[j], id)
  }

  lemma LeftAtEarlier(ops: seq<Op>, n: nat, k: nat, id: string)
    requires |ops| == n + 1 && k < n
    ensures LeftAt(ops, k, id) <==> LeftAt(ops[..n], k, id) && !Drops(ops[n], id)
  {
    assert ops[..n][..k] == ops[..k] && ops[..n][k] == ops[k];
    assert forall j :: k < j < n ==> ops[..n][j] == ops[j];
  }

  ghost predicate LeftSomewhere(ops: seq<Op>, id: string) {
    exists k :: 0 <= k < |ops| && LeftAt(ops, k, id)
  }

  lemma LeftByTheLast(ops: seq<Op>, n: nat, id: string)
    requires |ops| == n + 1
    ensures LeftSomewhere(ops, id) <==>
            Leaves(Run(EMPTY, ops[..n]), ops[n], id) || (LeftSomewhere(ops[..n], id) && !Drops(ops[n], id))
  {
    forall k | 0 <= k < n ensures LeftAt(ops, k, id) <==> LeftAt(ops[..n], k, id) && !Drops(ops[n], id) {
      LeftAtEarlier(ops, n, k, id);
    }
    assert LeftAt(ops, n, id) <==> Leaves(Run(EMPTY, ops[..n]), ops[n], id);
  }

  /** After a run, the meters that no unfinished item has are exactly those of ids whose item was replaced while it had
      one, or which were asked for too late, with no completion or abandonment of the id and no clearing since. */
  lemma {:induction false} LeftOverMeters(ops: seq<Op>, id: string)
    requires LegalRun(map[], EMPTY, ops)
    ensures LeftOver(Run(EMPTY, ops), id) <==> LeftSomewhere(ops, id)
    decreases |ops|
  {
    if ops != [] {
      var n := |ops| - 1;
      RunLast(map[], EMPTY, ops);
      LeftOverMeters(ops[..n], id);
      LeftByTheLast(ops, n, id);
      KeptAfter(ops[..n]);
      StepLeaves(HistoryRun(map[], EMPTY, ops[..n]), Run(EMPTY, ops[..n]), ops[n], id);
    }
  }

  lemma KeptAfter(ops: seq<Op>)
    requires LegalRun(map[], EMPTY, ops)
    ensures Kept(HistoryRun(map[], EMPTY, ops), Run(EMPTY, ops))
  {
    EmptyIsKept();
    RunKeeps(map[], EMPTY, ops);
  }

  lemma RunHead(h: History, s: State, op: Op, rest: seq<Op>)
    ensures LegalRun(h, s, [op] + rest) <==> Legal(h, op) && LegalRun(HistoryStep(h, s, op), Step(s, op), rest)
    ensures LegalRun(h, s, [op] + rest) ==> Run(s, [op] + rest) == Run(Step(s, op), rest)
  {
    assert ([op] + rest)[1..] == rest;
  }

  lemma RunOfThree(h: History, s: State, a: Op, b: Op, c: Op)
    requires Legal(h, a)
    requires var h', s' := HistoryStep(h, s, a), Step(s, a);
             Legal(h', b) && Legal(HistoryStep(h', s', b), c)
    ensures LegalRun(h, s, [a, b, c]) && Run(s, [a, b, c]) == Step(Step(Step(s, a), b), c)
  {
    var h', s' := HistoryStep(h, s, a), Step(s, a);
    assert [a, b, c] == [a] + [b, c] && [b, c] == [b] + [c] && [c] == [c] + [];
    RunHead(HistoryStep(h', s', b), Step(s', b), c, []);
    RunHead(h', s', b, [c]);
    RunHead(h, s, a, [b, c]);
  }

  lemma FirstBegun(a: Item)
    requires a.status == Active
    ensures var h, s := HistoryStep(map[], EMPTY, OBegin(a)), Begin(EMPTY, a);
            h.Keys == {a.id} && Kept(h, s) && Unfinished(a, s)
  {
    EmptyIsKept();
    StepKeeps(map[], EMPTY, OBegin(a));
    BeginMembers(EMPTY, a);
  }

  lemma ThenReplaced(h: History, s: State, a: Item, b: Item)
    requires Kept(h, s) && Unfinished(a, s) && b.id !in h && a.KeyOf() == b.KeyOf() && b.status == Active && a.id in h
    ensures LeftOver(Begin(Meter(s, a.id), b), a.id)
  {
    var s' := Meter(s, a.id);
    StepKeeps(h, s, OMeter(a.id));
    assert Unfinished(a, s');
    StepLeaves(h, s', OBegin(b), a.id);
  }

  /** Beginning a file twice, with its meter asked for in between, leaves the first meter over. */
  lemma ReplacingLeavesAMeter(a: Item, b: Item)
    requires a.id != b.id && a.KeyOf() == b.KeyOf() && a.status == Active && b.status == Active
    ensures var ops := [OBegin(a), OMeter(a.id), OBegin(b)];
            LegalRun(map[], EMPTY, ops) && LeftOver(Run(EMPTY, ops), a.id)
  {
    var h, s := HistoryStep(map[], EMPTY, OBegin(a)), Begin(EMPTY, a);
    FirstBegun(a);
    ThenReplaced(h, s, a, b);
    RunOfThree(map[], EMPTY, OBegin(a), OMeter(a.id), OBegin(b));
  }
}
