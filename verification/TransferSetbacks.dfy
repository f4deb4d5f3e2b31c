/**
  When the shown percentage falls. Promoting, feeding and completing transfers never lowers it; beginning,
  enqueuing, abandoning and clearing take some items out and may put one in, and lower it exactly under a condition
  on the queue as it stands before.
 */
module TransferSetbacks {
  import opened Arithmetic
  import opened Options
  import opened TransferQueues
  import opened TransferRuns
  import opened TransferProgress

  // ---- What the selected items weigh --------------------------------------------------------------------

  function Selected(w: Weight, s: seq<Item>, sel: Selector): nat {
    if s == [] then 0
    else
      Selected(w, s[..|s| - 1], sel) + if Selects(sel, s[|s| - 1]) then WeightOf(w, s[|s| - 1]) else 0
  }

  lemma {:induction false} TotalWithout(w: Weight, s: seq<Item>, sel: Selector)
    ensures Total(w, Without(s, sel)) + Selected(w, s, sel) == Total(w, s)
  {
    if s != [] {
      var t, x := s[..|s| - 1], s[|s| - 1];
      TotalWithout(w, t, sel);
      TotalOfOneMore(w, Without(t, sel), x);
    }
  }

  lemma {:induction false} SelectedNone(w: Weight, s: seq<Item>, sel: Selector)
    requires forall i :: 0 <= i < |s| ==> !Selects(sel, s[i])
    ensures Selected(w, s, sel) == 0
  {
    if s != [] {
      SelectedNone(w, s[..|s| - 1], sel);
    }
  }

  lemma {:induction false} SelectedOne(w: Weight, s: seq<Item>, sel: Selector, p: nat)
    requires p < |s| && Selects(sel, s[p])
    requires forall i :: 0 <= i < |s| && i != p ==> !Selects(sel, s[i])
    ensures Selected(w, s, sel) == WeightOf(w, s[p])
  {
    var n := |s| - 1;
    if p == n {
      SelectedNone(w, s[..n], sel);
    } else {
      SelectedOne(w, s[..n], sel, p);
    }
  }

  /** Ids and slots do not repeat, so taking one item out takes out all that is selected. */
  lemma TotalTakeOut(w: Weight, s: seq<Item>, sel: Selector)
    requires Unique(s) && !sel.ByBinding?
    ensures Total(w, TakeOut(s, sel)) + Selected(w, s, sel) == Total(w, s)
  {
    var f := Find(s, sel);
    FindIsFirst(s, sel);
    if f.Some? {
      TotalSwapRemove(w, s, f.value);
      SelectedOne(w, s, sel, f.value);
    } else {
      SelectedNone(w, s, sel);
    }
  }

  // ---- What an operation takes away and adds ---------------------------------------------------------------

  /** Operations that take away the selected items and add an item of so many bytes. */
  predicate IsSetback(op: Op) {
    op.OBegin? || op.OEnqueue? || op.OAbandon? || op.OClear?
  }

  function Taken(op: Op): Selector
    requires IsSetback(op)
  {
    match op
    case OBegin(it) => ByKey(it.KeyOf())
    case OEnqueue(it) => ByKey(it.KeyOf())
    case OAbandon(id) => ById(id)
    case OClear(b) => ByBinding(b)
  }

  function Added(op: Op): nat {
    match op
    case OBegin(it) => WeightOf(Bytes, it)
    case OEnqueue(it) => WeightOf(Bytes, it)
    case _ => 0
  }

  function TakenBytes(s: State, sel: Selector): nat {
    Selected(Bytes, s.active, sel) + Selected(Bytes, s.waiting, sel)
  }

  function TakenSent(s: State, sel: Selector): nat {
    Selected(Sent(s.meters), s.active, sel)
  }

  /** A new item carries a fresh id. */
  ghost predicate Allowed(s: State, op: Op) {
    match op
    case OBegin(it) => Fresh(s, it.id)
    case OEnqueue(it) => Fresh(s, it.id)
    case _ => true
  }

  ghost predicate Shifts(s: State, s': State, sel: Selector, added: nat) {
    && s'.completed == s.completed && s'.completedBytes == s.completedBytes
    && Remaining(Bytes, s') + TakenBytes(s, sel) == Remaining(Bytes, s) + added
    && Arrived(s') + TakenSent(s, sel) == Arrived(s)
  }

  lemma BeginShifts(s: State, it: Item)
    requires Wf(s) && Fresh(s, it.id)
    ensures Shifts(s, Begin(s, it), ByKey(it.KeyOf()), WeightOf(Bytes, it))
  {
    var sel := ByKey(it.KeyOf());
    TotalWithout(Bytes, s.active, sel);
    TotalWithout(Sent(s.meters), s.active, sel);
    TotalTakeOut(Bytes, s.waiting, sel);
    TotalOfOneMore(Bytes, Without(s.active, sel), it);
    TotalOfOneMore(Sent(s.meters), Without(s.active, sel), it);
  }

  lemma EnqueueShifts(s: State, it: Item)
    requires Wf(s)
    ensures Shifts(s, Enqueue(s, it), ByKey(it.KeyOf()), WeightOf(Bytes, it))
  {
    var sel := ByKey(it.KeyOf());
    TotalWithout(Bytes, s.active, sel);
    TotalWithout(Sent(s.meters), s.active, sel);
    TotalTakeOut(Bytes, s.waiting, sel);
    TotalOfOneMore(Bytes, TakeOut(s.waiting, sel), it);
  }

  /** Meters that no item of the list has do not matter to it. */
  lemma SameMeters(s: seq<Item>, m: map<string, nat>, m': map<string, nat>)
    requires forall i :: 0 <= i < |s| ==>
               (s[i].id in m <==> s[i].id in m') && (s[i].id in m ==> m[s[i].id] == m'[s[i].id])
    ensures Total(Sent(m), s) == Total(Sent(m'), s)
  {
    TotalMonotone(Sent(m), Sent(m'), s);
    TotalMonotone(Sent(m'), Sent(m), s);
  }

  lemma AbandonShifts(s: State, id: string)
    requires Wf(s)
    ensures Shifts(s, Abandon(s, id), ById(id), 0)
  {
    var sel := ById(id);
    TotalWithout(Bytes, s.active, sel);
    TotalWithout(Sent(s.meters), s.active, sel);
    TotalTakeOut(Bytes, s.waiting, sel);
    AbandonKeepsSent(s.active, s.meters, id);
  }

  lemma AbandonKeepsSent(active: seq<Item>, meters: map<string, nat>, id: string)
    requires Unique(active)
    ensures var a := Without(active, ById(id)); Total(Sent(meters - {id}), a) == Total(Sent(meters), a)
  {
    var a := Without(active, ById(id));
    WithoutKeeps(active, ById(id));
    forall i | 0 <= i < |a| ensures a[i].id != id {
      assert a[i] in a;
    }
    OtherMeters(a, meters, id);
  }

  lemma ClearShifts(s: State, binding: string)
    requires Wf(s)
    ensures Shifts(s, Clear(s, binding), ByBinding(binding), 0)
  {
    var sel := ByBinding(binding);
    TotalWithout(Bytes, s.active, sel);
    TotalWithout(Sent(s.meters), s.active, sel);
    TotalWithout(Bytes, s.waiting, sel);
    ClearKeepsSent(s, binding);
  }

  lemma ClearKeepsSent(s: State, binding: string)
    ensures var a := Without(s.active, ByBinding(binding));
            Total(Sent(Clear(s, binding).meters), a) == Total(Sent(s.meters), a)
  {
    SameMeters(Without(s.active, ByBinding(binding)), s.meters, Clear(s, binding).meters);
  }

  lemma StepShifts(s: State, op: Op)
    requires Wf(s) && IsSetback(op) && Allowed(s, op)
    ensures Shifts(s, Step(s, op), Taken(op), Added(op))
  {
    match op
    case OBegin(it) => BeginShifts(s, it);
    case OEnqueue(it) => EnqueueShifts(s, it);
    case OAbandon(id) => AbandonShifts(s, id);
    case OClear(b) => ClearShifts(s, b);
  }

  // ---- When the percentage falls ------------------------------------------------------------------------------

  function Shown(base: Totals, s: State): nat {
    MakeNote(base, UploadProgress(s)).percent
  }

  /** The base was read from the queue earlier. */
  predicate Earlier(base: Totals, s: State) {
    base.completed <= s.completed && base.completedBytes <= s.completedBytes
  }

  /** The bytes that the percentage counts as arrived. */
  function Part(base: Totals, s: State): nat
    requires Earlier(base, s)
  {
    Arrived(s) - base.completedBytes
  }

  /** The bytes it is taken of. */
  function Whole(base: Totals, s: State): nat
    requires Earlier(base, s)
  {
    s.completedBytes + Remaining(Bytes, s) - base.completedBytes
  }

  lemma PartOfWhole(base: Totals, s: State)
    requires Earlier(base, s)
    ensures Part(base, s) <= Whole(base, s)
    ensures Shown(base, s) == PercentOf(Part(base, s), Whole(base, s))
  {
    NoteFigures(base, s);
    SentIsTotal(s.active, s.meters);
    SentNeverExceedsRemaining(s);
  }

  /** Said of the queue before: taking `sel` away and adding so many bytes leaves too small a part of the whole. */
  predicate Lowers(base: Totals, s: State, sel: Selector, added: nat)
    requires Earlier(base, s)
  {
    var whole := Whole(base, s) + added - TakenBytes(s, sel);
    var part := Part(base, s) - TakenSent(s, sel);
    if whole == 0 then Shown(base, s) > 0 else part * 100 < whole * Shown(base, s)
  }

  /** Beginning, enqueuing, abandoning or clearing lowers the shown percentage exactly when the condition holds. */
  lemma WhenThePercentageFalls(base: Totals, s: State, op: Op)
    requires Wf(s) && IsSetback(op) && Allowed(s, op) && Earlier(base, s)
    ensures Shown(base, Step(s, op)) < Shown(base, s) <==> Lowers(base, s, Taken(op), Added(op))
  {
    var s' := Step(s, op);
    StepShifts(s, op);
    ShiftedShows(base, s, s', Taken(op), Added(op));
  }

  lemma ShiftedShows(base: Totals, s: State, s': State, sel: Selector, added: nat)
    requires Earlier(base, s) && Shifts(s, s', sel, added)
    ensures Shown(base, s') < Shown(base, s) <==> Lowers(base, s, sel, added)
  {
    var part, whole := Part(base, s'), Whole(base, s');
    PartOfWhole(base, s');
    assert whole == Whole(base, s) + added - TakenBytes(s, sel) && part == Part(base, s) - TakenSent(s, sel);
    if whole > 0 {
      DivBelow(part * 100, whole, Shown(base, s));
    }
  }

  /** A new upload in a free slot lowers it exactly when its bytes, times the percentage, exceed what the percentage
      was rounded down by. */
  lemma WhenEnqueuingLowers(base: Totals, s: State, it: Item)
    requires Wf(s) && Fresh(s, it.id) && Earlier(base, s) && Whole(base, s) > 0
    requires Find(s.active, ByKey(it.KeyOf())).None? && Find(s.waiting, ByKey(it.KeyOf())).None?
    ensures Shown(base, Enqueue(s, it)) < Shown(base, s) <==>
            Shown(base, s) * WeightOf(Bytes, it) > Part(base, s) * 100 % Whole(base, s)
    ensures Shown(base, Begin(s, it)) < Shown(base, s) <==>
            Shown(base, s) * WeightOf(Bytes, it) > Part(base, s) * 100 % Whole(base, s)
  {
    var sel, b := ByKey(it.KeyOf()), WeightOf(Bytes, it);
    BeginShifts(s, it);
    EnqueueShifts(s, it);
    ShiftedShows(base, s, Begin(s, it), sel, b);
    ShiftedShows(base, s, Enqueue(s, it), sel, b);
    LowersInFreeSlot(base, s, sel, b);
  }

  lemma LowersInFreeSlot(base: Totals, s: State, sel: Selector, added: nat)
    requires Earlier(base, s) && Whole(base, s) > 0
    requires Find(s.active, sel).None? && Find(s.waiting, sel).None?
    ensures Lowers(base, s, sel, added) <==> Shown(base, s) * added > Part(base, s) * 100 % Whole(base, s)
  {
    FreeSlot(s, sel);
    PartOfWhole(base, s);
    DivEnlarged(Part(base, s) * 100, Whole(base, s), added);
  }

  lemma FreeSlot(s: State, sel: Selector)
    requires Find(s.active, sel).None? && Find(s.waiting, sel).None?
    ensures TakenBytes(s, sel) == 0 && TakenSent(s, sel) == 0
  {
    FindIsFirst(s.active, sel);
    FindIsFirst(s.waiting, sel);
    SelectedNone(Bytes, s.active, sel);
    SelectedNone(Bytes, s.waiting, sel);
    SelectedNone(Sent(s.meters), s.active, sel);
  }

  // ---- Queues on which it falls ------------------------------------------------------------------------------

  const START := Totals(0, 0, 0, 0, [])

  lemma FindInOne(x: Item, sel: Selector)
    requires !Selects(sel, x)
    ensures Find([x], sel).None? && Find([], sel).None?
  {
    assert [x][..0] == [];
  }

  lemma TotalOfOne(w: Weight, x: Item)
    ensures Total(w, [x]) == WeightOf(w, x)
  {
    assert [] + [x] == [x];
    TotalOfOneMore(w, [], x);
  }

  lemma TotalOfTwo(w: Weight, x: Item, y: Item)
    ensures Total(w, [x, y]) == WeightOf(w, x) + WeightOf(w, y)
  {
    assert [x] + [y] == [x, y];
    TotalOfOne(w, x);
    TotalOfOneMore(w, [x], y);
  }

  predicate TenByteUpload(x: Item) {
    x.direction == Upload && x.size == Some(10)
  }

  lemma Figures(s: State, part: nat, whole: nat)
    requires Arrived(s) == part && s.completedBytes + Remaining(Bytes, s) == whole
    ensures Shown(START, s) == PercentOf(part, whole)
  {
    PartOfWhole(START, s);
  }

  /** One upload is active, half of it sent. */
  predicate HalfSent(s: State, a: Item) {
    s == State([a], [], [], map[a.id := 5], 0, 0) && TenByteUpload(a) && a.status == Active
  }

  /** Two uploads are active, half of the first is sent. */
  predicate QuarterSent(s: State, a: Item, b: Item) {
    && s == State([a, b], [], [], map[a.id := 5], 0, 0) && TenByteUpload(a) && TenByteUpload(b)
    && a.status == Active && b.status == Active && a.id != b.id && a.KeyOf() != b.KeyOf()
  }

  lemma HalfSentShown(s: State, a: Item)
    requires HalfSent(s, a)
    ensures Wf(s) && Arrived(s) == 5 && Remaining(Bytes, s) == 10 && Shown(START, s) == 50
  {
    TotalOfOne(Bytes, a);
    TotalOfOne(Sent(s.meters), a);
    Figures(s, 5, 10);
  }

  lemma ThenEnqueued(s: State, a: Item, it: Item)
    requires HalfSent(s, a) && TenByteUpload(it) && a.KeyOf() != it.KeyOf()
    ensures Shown(START, Enqueue(s, it)) == 25
  {
    HalfSentShown(s, a);
    FindInOne(a, ByKey(it.KeyOf()));
    FreeSlot(s, ByKey(it.KeyOf()));
    EnqueueShifts(s, it);
    Figures(Enqueue(s, it), 5, 20);
  }

  lemma QuarterSentFigures(s: State, a: Item, b: Item)
    requires QuarterSent(s, a, b)
    ensures Arrived(s) == 5 && Remaining(Bytes, s) == 20
  {
    TotalOfTwo(Bytes, a, b);
    TotalOfTwo(Sent(s.meters), a, b);
  }

  lemma QuarterSentIsWf(s: State, a: Item, b: Item)
    requires QuarterSent(s, a, b)
    ensures Wf(s)
  {
  }

  lemma QuarterSentShown(s: State, a: Item, b: Item)
    requires QuarterSent(s, a, b)
    ensures Shown(START, s) == 25
  {
    QuarterSentFigures(s, a, b);
    Figures(s, 5, 20);
  }

  lemma TakenOfFirst(s: State, a: Item, b: Item)
    requires QuarterSent(s, a, b)
    ensures TakenBytes(s, ById(a.id)) == 10 && TakenSent(s, ById(a.id)) == 5
  {
    SelectedOne(Bytes, s.active, ById(a.id), 0);
    SelectedOne(Sent(s.meters), s.active, ById(a.id), 0);
    SelectedNone(Bytes, s.waiting, ById(a.id));
  }

  lemma ThenAbandoned(s: State, a: Item, b: Item)
    requires QuarterSent(s, a, b)
    ensures Shown(START, Abandon(s, a.id)) == 0
  {
    QuarterSentIsWf(s, a, b);
    QuarterSentFigures(s, a, b);
    TakenOfFirst(s, a, b);
    AbandonShifts(s, a.id);
    Figures(Abandon(s, a.id), 0, 10);
  }

  function UploadOf(id: string, name: string, status: Status): Item {
    Item(id, "b", Upload, "", name, Some(10), status, 0)
  }

  /** Five of ten bytes sent shows 50; with another ten bytes enqueued it shows 25. */
  lemma EnqueuingLowers(i: string, j: string, x: string, y: string)
    requires i != j && x != y
    ensures var s, it := State([UploadOf(i, x, Active)], [], [], map[i := 5], 0, 0), UploadOf(j, y, Waiting);
            Wf(s) && Fresh(s, it.id) && Shown(START, s) == 50 && Shown(START, Enqueue(s, it)) == 25
  {
    var a, it := UploadOf(i, x, Active), UploadOf(j, y, Waiting);
    var s := State([a], [], [], map[i := 5], 0, 0);
    assert a.KeyOf().name != it.KeyOf().name;
    HalfSentShown(s, a);
    ThenEnqueued(s, a, it);
  }

  /** Five of twenty bytes sent shows 25; without the upload that sent them it shows 0. */
  lemma AbandoningLowers(i: string, j: string, x: string, y: string)
    requires i != j && x != y
    ensures var s := State([UploadOf(i, x, Active), UploadOf(j, y, Active)], [], [], map[i := 5], 0, 0);
            Wf(s) && Shown(START, s) == 25 && Shown(START, Abandon(s, i)) == 0
  {
    var a, b := UploadOf(i, x, Active), UploadOf(j, y, Active);
    var s := State([a, b], [], [], map[i := 5], 0, 0);
    assert a.KeyOf().name != b.KeyOf().name;
    QuarterSentIsWf(s, a, b);
    QuarterSentShown(s, a, b);
    ThenAbandoned(s, a, b);
  }
}
