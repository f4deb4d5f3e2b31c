/**
  What the queue shows: the list sent to the panel, the upload totals, and the notification's
  percentage computed from two of those totals.
 */
module TransferProgress {
  import opened Arithmetic
  import opened Options
  import opened TransferQueues
  import opened TransferRuns

  // ---- The panel's list ---------------------------------------------------------------------------

  datatype Listing = Listing(uploading: nat, downloading: nat, items: seq<Item>)

  function CountOf(s: seq<Item>, d: Direction): nat {
    if s == [] then 0 else CountOf(s[..|s| - 1], d) + if s[|s| - 1].direction == d then 1 else 0
  }

  function Snapshot(s: State): Listing {
    var a := s.active[..Min(|s.active|, SNAPSHOT_ITEMS_CAP)];
    var w := s.waiting[..Min(|s.waiting|, SNAPSHOT_ITEMS_CAP - |a|)];
    Listing(CountOf(s.active, Upload) + CountOf(s.waiting, Upload),
            CountOf(s.active, Download) + CountOf(s.waiting, Download),
            a + w + s.done)
  }

  lemma {:induction false} CountsAddUp(s: seq<Item>)
    ensures CountOf(s, Upload) + CountOf(s, Download) == |s|
    ensures CountOf(s, Upload) == Total(Count, s)
  {
    if s != [] {
      CountsAddUp(s[..|s| - 1]);
    }
  }

  /** The counts cover the whole queue; the list is its first entries, active ones first, then the
      finished ones, and is never longer than 300. */
  lemma SnapshotCoversTheQueue(s: State)
    requires Wf(s)
    ensures var l := Snapshot(s);
            l.uploading + l.downloading == |s.active + s.waiting| &&
            l.uploading == UploadProgress(s).remaining &&
            l.items == (s.active + s.waiting)[..Min(200, |s.active + s.waiting|)] + s.done && |l.items| <= 300
  {
    CountsAddUp(s.active);
    CountsAddUp(s.waiting);
    var l, n := Snapshot(s), Min(SNAPSHOT_ITEMS_CAP, |s.active + s.waiting|);
    assert l.items[..n] == (s.active + s.waiting)[..n];
    assert l.items[n..] == s.done;
    assert l.items == l.items[..n] + l.items[n..];
  }

  // ---- Upload totals and the notification ----------------------------------------------------------

  datatype InFlight = InFlight(name: string, sent: nat, size: nat)

  datatype Totals = Totals(completed: nat, completedBytes: nat, remaining: nat, remainingBytes: nat,
                           current: seq<InFlight>)

  /** An upload that has a meter is shown. */
  function Shows(x: Item, meters: map<string, nat>): seq<InFlight> {
    if x.direction == Upload && x.id in meters then [InFlight(x.name, meters[x.id], x.Bytes())] else []
  }

  /** Active uploads that have a meter, oldest first. */
  function Current(active: seq<Item>, meters: map<string, nat>): seq<InFlight> {
    if active == [] then [] else Current(active[..|active| - 1], meters) + Shows(active[|active| - 1], meters)
  }

  function UploadProgress(s: State): Totals {
    Totals(s.completed, s.completedBytes,
           Total(Count, s.active) + Total(Count, s.waiting),
           Total(Bytes, s.active) + Total(Bytes, s.waiting),
           Current(s.active, s.meters))
  }

  datatype ProgressNote = ProgressNote(done: nat, remaining: nat, total: nat, percent: nat,
                                       file: Option<string>, filePercent: nat)

  function PercentOf(part: nat, whole: nat): (r: nat)
    ensures r <= 100
  {
    if whole == 0 then 0
    else
      var p := Min(part, whole);
      PercentBounded(p, whole);
      p * 100 / whole
  }

  function SentSum(current: seq<InFlight>): nat {
    if current == [] then 0
    else
      var f := current[|current| - 1];
      SentSum(current[..|current| - 1]) + Min(f.sent, f.size)
  }

  function MakeNote(base: Totals, now: Totals): ProgressNote {
    var done := SaturatingSub(now.completed, base.completed);
    var doneBytes := SaturatingSub(now.completedBytes, base.completedBytes);
    var first := if now.current == [] then None else Some(now.current[0]);
    ProgressNote(done, now.remaining, done + now.remaining,
                 PercentOf(doneBytes + SentSum(now.current), doneBytes + now.remainingBytes),
                 if first.Some? then Some(first.value.name) else None,
                 if first.Some? then PercentOf(first.value.sent, first.value.size) else 0)
  }

  // ---- Percentages ------------------------------------------------------------------------------------

  lemma PercentBounded(p: nat, w: nat)
    requires p <= w && w > 0
    ensures p * 100 / w <= 100
  {
    DivMonotone(p * 100, w * 100, w);
    HundredFold(w);
  }

  lemma HundredFold(w: nat)
    requires w > 0
    ensures w * 100 / w == 100
  {
    var q := w * 100 / w;
    if q <= 99 {
      MulMonotone(w, q, 99);
    } else if 101 <= q {
      MulMonotone(w, 101, q);
    }
  }

  /** The percentage grows with the part. */
  lemma PercentMonotone(a: nat, b: nat, w: nat)
    requires a <= b
    ensures PercentOf(a, w) <= PercentOf(b, w)
  {
    if w > 0 {
      DivMonotone(Min(a, w) * 100, Min(b, w) * 100, w);
    }
  }

  // ---- Totals under removal ----------------------------------------------------------------------------

  lemma {:induction false} TotalAppend(w: Weight, a: seq<Item>, b: seq<Item>)
    ensures Total(w, a + b) == Total(w, a) + Total(w, b)
  {
    if b == [] {
      assert a + b == a;
    } else {
      var n := |b| - 1;
      assert (a + b)[..|a + b| - 1] == a + b[..n];
      TotalAppend(w, a, b[..n]);
    }
  }

  lemma TotalSplit(w: Weight, s: seq<Item>, pos: nat)
    requires pos < |s|
    ensures Total(w, s) == Total(w, s[..pos]) + WeightOf(w, s[pos]) + Total(w, s[pos + 1..])
  {
    assert s == (s[..pos] + [s[pos]]) + s[pos + 1..];
    TotalAppend(w, s[..pos] + [s[pos]], s[pos + 1..]);
    TotalAppend(w, s[..pos], [s[pos]]);
    assert [s[pos]][..0] == [];
  }

  lemma TotalRemoveAt(w: Weight, s: seq<Item>, pos: nat)
    requires pos < |s|
    ensures Total(w, s) == Total(w, RemoveAt(s, pos)) + WeightOf(w, s[pos])
  {
    TotalSplit(w, s, pos);
    TotalAppend(w, s[..pos], s[pos + 1..]);
  }

  lemma TotalSwapRemove(w: Weight, s: seq<Item>, pos: nat)
    requires pos < |s|
    ensures Total(w, s) == Total(w, SwapRemove(s, pos)) + WeightOf(w, s[pos])
  {
    var n := |s| - 1;
    if pos == n {
      assert SwapRemove(s, pos) == s[..n];
    } else {
      assert s == s[..pos] + [s[pos]] + s[pos + 1..n] + [s[n]];
      assert SwapRemove(s, pos) == s[..pos] + [s[n]] + s[pos + 1..n];
      TotalOfSwap(w, s[..pos], s[pos], s[pos + 1..n], s[n]);
    }
  }

  lemma TotalOfOneMore(w: Weight, s: seq<Item>, x: Item)
    ensures Total(w, s + [x]) == Total(w, s) + WeightOf(w, x)
  {
    assert (s + [x])[..|s|] == s;
  }

  lemma TotalOfSwap(w: Weight, front: seq<Item>, x: Item, middle: seq<Item>, last: Item)
    ensures Total(w, front + [x] + middle + [last]) == Total(w, front + [last] + middle) + WeightOf(w, x)
  {
    TotalOfOneMore(w, front + [x] + middle, last);
    TotalAppend(w, front + [x], middle);
    TotalAppend(w, front + [last], middle);
    TotalOfOneMore(w, front, x);
    TotalOfOneMore(w, front, last);
  }

  lemma {:induction false} TotalMonotone(w: Weight, w': Weight, s: seq<Item>)
    requires forall i :: 0 <= i < |s| ==> WeightOf(w, s[i]) <= WeightOf(w', s[i])
    ensures Total(w, s) <= Total(w', s)
  {
    if s != [] {
      var n := |s| - 1;
      forall i | 0 <= i < n ensures WeightOf(w, s[..n][i]) <= WeightOf(w', s[..n][i]) {
        assert s[..n][i] == s[i];
      }
      TotalMonotone(w, w', s[..n]);
    }
  }

  lemma {:induction false} SentIsTotal(active: seq<Item>, meters: map<string, nat>)
    ensures SentSum(Current(active, meters)) == Total(Sent(meters), active)
  {
    if active != [] {
      var t, x := active[..|active| - 1], active[|active| - 1];
      SentIsTotal(t, meters);
      SentOneMore(Current(t, meters), x, meters);
    }
  }

  lemma SentOneMore(c: seq<InFlight>, x: Item, meters: map<string, nat>)
    ensures SentSum(c + Shows(x, meters)) == SentSum(c) + WeightOf(Sent(meters), x)
  {
    var more := Shows(x, meters);
    if more == [] {
      assert c + more == c;
    } else {
      assert (c + more)[..|c|] == c;
    }
  }

  // ---- One step of progress ----------------------------------------------------------------------------

  predicate IsProgress(op: Op) {
    op.OPromote? || op.OComplete? || op.OMeter? || op.OSent?
  }

  function Remaining(w: Weight, s: State): nat {
    Total(w, s.active) + Total(w, s.waiting)
  }

  /** Bytes of finished uploads plus bytes of the current ones that are on the way. */
  function Arrived(s: State): nat {
    s.completedBytes + Total(Sent(s.meters), s.active)
  }

  ghost predicate Advances(s: State, s': State) {
    && s.completed <= s'.completed && s.completedBytes <= s'.completedBytes
    && s.completed + Remaining(Count, s) == s'.completed + Remaining(Count, s')
    && s.completedBytes + Remaining(Bytes, s) == s'.completedBytes + Remaining(Bytes, s')
    && Arrived(s) <= Arrived(s')
  }

  lemma PromoteAdvances(s: State, id: string, now: int)
    ensures Advances(s, Promote(s, id, now))
  {
    var f := Find(s.waiting, ById(id));
    if f.Some? {
      var it := s.waiting[f.value].(status := Active, updatedAt := now);
      TotalSwapRemove(Count, s.waiting, f.value);
      TotalSwapRemove(Bytes, s.waiting, f.value);
      TotalSplit(Count, s.active + [it], |s.active|);
      TotalSplit(Bytes, s.active + [it], |s.active|);
      TotalSplit(Sent(s.meters), s.active + [it], |s.active|);
      assert (s.active + [it])[..|s.active|] == s.active;
    }
  }

  lemma BookAdvances(s: State, it: Item, now: int)
    ensures var s' := Book(s, it, now);
            s'.completed == s.completed + WeightOf(Count, it) &&
            s'.completedBytes == s.completedBytes + WeightOf(Bytes, it) &&
            s'.active == s.active && s'.waiting == s.waiting && s'.meters == s.meters
  {
  }

  /** Forgetting one meter affects no other item. */
  lemma OtherMeters(s: seq<Item>, meters: map<string, nat>, id: string)
    requires forall i :: 0 <= i < |s| ==> s[i].id != id
    ensures Total(Sent(meters - {id}), s) == Total(Sent(meters), s)
  {
    TotalMonotone(Sent(meters - {id}), Sent(meters), s);
    TotalMonotone(Sent(meters), Sent(meters - {id}), s);
  }

  lemma CompleteActiveAdvances(s: State, p: nat, now: int)
    requires Wf(s) && p < |s.active|
    ensures var it := s.active[p];
            Advances(s, Book(s.(meters := s.meters - {it.id}, active := RemoveAt(s.active, p)), it, now))
  {
    var a, it := RemoveAt(s.active, p), s.active[p];
    TotalRemoveAt(Count, s.active, p);
    TotalRemoveAt(Bytes, s.active, p);
    TotalRemoveAt(Sent(s.meters), s.active, p);
    RemoveAtKeeps(s.active, p);
    forall i | 0 <= i < |a| ensures a[i].id != it.id {
      assert a[i] in a;
    }
    OtherMeters(a, s.meters, it.id);
    BookAdvances(s.(meters := s.meters - {it.id}, active := a), it, now);
  }

  lemma CompleteAdvances(s: State, id: string, now: int)
    requires Wf(s)
    ensures Advances(s, Complete(s, id, now))
  {
    var m := s.meters - {id};
    var p, q := Find(s.active, ById(id)), Find(s.waiting, ById(id));
    FindIsFirst(s.active, ById(id));
    if p.Some? {
      CompleteActiveAdvances(s, p.value, now);
    } else {
      OtherMeters(s.active, s.meters, id);
      if q.Some? {
        TotalSwapRemove(Count, s.waiting, q.value);
        TotalSwapRemove(Bytes, s.waiting, q.value);
        BookAdvances(s.(meters := m, waiting := SwapRemove(s.waiting, q.value)), s.waiting[q.value], now);
      }
    }
  }

  lemma StepAdvances(s: State, op: Op)
    requires Wf(s) && IsProgress(op)
    ensures Advances(s, Step(s, op)) && Wf(Step(s, op))
  {
    match op
    case OPromote(id, now) => PromoteAdvances(s, id, now); PromoteKeepsWf(s, id, now);
    case OComplete(id, now) => CompleteAdvances(s, id, now); CompleteKeepsWf(s, id, now);
    case OMeter(id) =>
      MetersKeepWf(s, Meter(s, id).meters);
      TotalMonotone(Sent(s.meters), Sent(Meter(s, id).meters), s.active);
    case OSent(id, n) =>
      MetersKeepWf(s, AddSent(s, id, n).meters);
      TotalMonotone(Sent(s.meters), Sent(AddSent(s, id, n).meters), s.active);
  }

  lemma {:induction false} RunAdvances(s: State, ops: seq<Op>)
    requires Wf(s) && forall i :: 0 <= i < |ops| ==> IsProgress(ops[i])
    ensures Advances(s, Run(s, ops)) && Wf(Run(s, ops))
    decreases |ops|
  {
    if ops != [] {
      StepAdvances(s, ops[0]);
      RunAdvances(Step(s, ops[0]), ops[1..]);
    }
  }

  // ---- What the notification shows over a run -----------------------------------------------------------

  /** The clamp in `PercentOf` never fires on the run total: no more is sent than remains. */
  lemma SentNeverExceedsRemaining(s: State)
    ensures SentSum(UploadProgress(s).current) <= UploadProgress(s).remainingBytes
  {
    SentIsTotal(s.active, s.meters);
    TotalMonotone(Sent(s.meters), Bytes, s.active);
  }

  lemma NoteFigures(base: Totals, s: State)
    requires base.completed <= s.completed && base.completedBytes <= s.completedBytes
    ensures var n := MakeNote(base, UploadProgress(s));
            n.percent == PercentOf(Arrived(s) - base.completedBytes,
                                   s.completedBytes + Remaining(Bytes, s) - base.completedBytes) &&
            n.total == s.completed + Remaining(Count, s) - base.completed
  {
    SentIsTotal(s.active, s.meters);
  }

  lemma NotesCompare(base: Totals, s: State, s': State)
    requires Advances(s, s') && base.completed <= s.completed && base.completedBytes <= s.completedBytes
    ensures MakeNote(base, UploadProgress(s)).percent <= MakeNote(base, UploadProgress(s')).percent
    ensures MakeNote(base, UploadProgress(s)).total == MakeNote(base, UploadProgress(s')).total
  {
    NoteFigures(base, s);
    NoteFigures(base, s');
    PercentMonotone(Arrived(s) - base.completedBytes, Arrived(s') - base.completedBytes,
                    s.completedBytes + Remaining(Bytes, s) - base.completedBytes);
  }

  /** While transfers are only promoted, fed and completed, the shown percentage never goes down, and
      the file total and the byte total it is taken of stay the same. */
  lemma ShownPercentageNeverDrops(base: Totals, s: State, ops: seq<Op>)
    requires Wf(s) && base.completed <= s.completed && base.completedBytes <= s.completedBytes
    requires forall i :: 0 <= i < |ops| ==> IsProgress(ops[i])
    ensures var before, after := UploadProgress(s), UploadProgress(Run(s, ops));
            MakeNote(base, before).percent <= MakeNote(base, after).percent <= 100 &&
            MakeNote(base, before).total == MakeNote(base, after).total &&
            before.completedBytes + before.remainingBytes == after.completedBytes + after.remainingBytes
  {
    RunAdvances(s, ops);
    NotesCompare(base, s, Run(s, ops));
  }

  lemma PercentBelowHundred(p: nat, w: nat)
    requires p < w
    ensures p * 100 / w < 100
  {
    if 100 <= p * 100 / w {
      MulMonotone(w, 100, p * 100 / w);
    }
  }

  lemma PercentIsHundred(p: nat, w: nat)
    requires p <= w && w > 0
    ensures PercentOf(p, w) == 100 <==> p == w
  {
    if p < w {
      PercentBelowHundred(p, w);
    } else {
      HundredFold(w);
    }
  }

  /** A percentage of 100 with bytes to send means every remaining byte is on the way, and conversely. */
  lemma HundredMeansAllArrived(base: Totals, s: State)
    requires base.completed <= s.completed && base.completedBytes <= s.completedBytes
    requires s.completedBytes - base.completedBytes + Remaining(Bytes, s) > 0
    ensures MakeNote(base, UploadProgress(s)).percent == 100 <==>
            SentSum(UploadProgress(s).current) == UploadProgress(s).remainingBytes
  {
    SentNeverExceedsRemaining(s);
    SentIsTotal(s.active, s.meters);
    NoteFigures(base, s);
    PercentIsHundred(Arrived(s) - base.completedBytes, s.completedBytes + Remaining(Bytes, s) - base.completedBytes);
  }

  /** Counters of finished uploads only grow, whatever the operations, so an earlier reading is a
      base that later readings never fall below. */
  lemma {:induction false} CompletedOnlyGrows(s: State, ops: seq<Op>)
    ensures s.completed <= Run(s, ops).completed && s.completedBytes <= Run(s, ops).completedBytes
    decreases |ops|
  {
    if ops != [] {
      CompletedOnlyGrows(Step(s, ops[0]), ops[1..]);
    }
  }
}
