/** What each operation of the transfer queue changes and what it leaves alone, field by field. */
module TransferEffects {
  import opened Arithmetic
  import opened Options
  import opened TransferQueues
  import opened TransferRuns
  import opened TransferProgress

  /** Two items are in one slot exactly when binding, direction, directory and name are the same. */
  lemma WhatASlotIs(x: Item, y: Item)
    ensures x.KeyOf() == y.KeyOf() <==>
            x.binding == y.binding && x.direction == y.direction && x.path == y.path && x.name == y.name
  {
  }

  // ---- Finished items and counters ------------------------------------------------------------------------

  /** Everything but the two lists of unfinished items. */
  predicate SameElsewhere(s: State, s': State) {
    s'.done == s.done && s'.meters == s.meters && s'.completed == s.completed && s'.completedBytes == s.completedBytes
  }

  lemma AddingChangesListsOnly(s: State, it: Item)
    ensures SameElsewhere(s, Begin(s, it)) && SameElsewhere(s, Enqueue(s, it))
    ensures Begin(s, it).active != [] && Begin(s, it).active[|Begin(s, it).active| - 1] == it
    ensures Enqueue(s, it).waiting != [] && Enqueue(s, it).waiting[|Enqueue(s, it).waiting| - 1] == it
  {
  }

  /** A waiting item goes to the end of the active ones, marked and dated; any other id changes nothing. */
  lemma PromotingMoves(s: State, id: string, now: int, x: Item)
    requires Wf(s)
    ensures SameElsewhere(s, Promote(s, id, now))
    ensures x in s.waiting && x.id == id ==>
              Promote(s, id, now).active == s.active + [x.(status := Active, updatedAt := now)]
    ensures (forall y :: y in s.waiting ==> y.id != id) ==> Promote(s, id, now) == s
  {
    FindIsFirst(s.waiting, ById(id));
    var f := Find(s.waiting, ById(id));
    if f.Some? && x in s.waiting && x.id == id {
      assert Unfinished(x, s) && Unfinished(s.waiting[f.value], s);
      UnfinishedAreUnique(s, x, s.waiting[f.value]);
    }
  }

  /** A finished item, upload or download, active or still waiting, is first among the done ones, marked and dated;
      only an upload is counted, an unknown or negative size as nothing. */
  lemma CompletingBooks(s: State, id: string, now: int, x: Item)
    requires Wf(s) && Unfinished(x, s) && x.id == id
    ensures var s' := Complete(s, id, now);
            s'.done == [x.(status := Done, updatedAt := now)] + s.done[..Min(|s.done|, 99)] &&
            s'.meters == s.meters - {id} &&
            s'.completed == (if x.direction == Upload then s.completed + 1 else s.completed) &&
            s'.completedBytes ==
              (if x.direction == Upload && x.size.Some? && x.size.value > 0 then s.completedBytes + x.size.value
               else s.completedBytes)
  {
    var m := s.(meters := s.meters - {id});
    assert Wf(m) by { MetersKeepWf(s, m.meters); }
    TakeMembers(m, id);
    assert Unfinished(x, m);
    var y := Take(m, id).0.value;
    UnfinishedAreUnique(m, x, y);
    TakeLeavesTheRest(m, id);
  }

  /** The active items behind a finished one move up, in their order, and the waiting ones stay where they are. */
  lemma CompletingClosesTheGap(s: State, now: int, p: nat)
    requires Wf(s) && p < |s.active|
    ensures var s' := Complete(s, s.active[p].id, now);
            s'.active == s.active[..p] + s.active[p + 1..] && s'.waiting == s.waiting
  {
    FindIsFirst(s.active, ById(s.active[p].id));
  }

  lemma TakeLeavesTheRest(s: State, id: string)
    ensures SameElsewhere(s, Take(s, id).1)
  {
  }

  /** An id that is not in the queue only loses its meter. */
  lemma CompletingNothing(s: State, id: string, now: int)
    requires Wf(s) && forall x :: Unfinished(x, s) ==> x.id != id
    ensures Complete(s, id, now) == s.(meters := s.meters - {id})
  {
    var m := s.(meters := s.meters - {id});
    assert Wf(m) by { MetersKeepWf(s, m.meters); }
    assert forall x :: Unfinished(x, m) <==> Unfinished(x, s);
    TakeMembers(m, id);
  }

  lemma AbandoningCountsNothing(s: State, id: string)
    ensures var s' := Abandon(s, id);
            s'.done == s.done && s'.completed == s.completed && s'.completedBytes == s.completedBytes &&
            s'.meters == s.meters - {id}
  {
  }

  lemma ClearingCountsNothing(s: State, binding: string)
    ensures var s' := Clear(s, binding);
            s'.done == s.done && s'.completed == s.completed && s'.completedBytes == s.completedBytes &&
            forall id :: id in s'.meters ==> id in s.meters && s'.meters[id] == s.meters[id]
  {
  }

  /** A meter starts at nothing and counts every byte once. */
  lemma MetersCount(s: State, id: string, n: nat, m: nat)
    ensures var a := AddSent(AddSent(Meter(s, id), id, n), id, m);
            a.meters == s.meters[id := (if id in s.meters then s.meters[id] else 0) + n + m] &&
            a.active == s.active && a.waiting == s.waiting && a.done == s.done &&
            a.completed == s.completed && a.completedBytes == s.completedBytes
    ensures id !in s.meters ==> AddSent(s, id, n) == s
  {
  }

  // ---- Order ------------------------------------------------------------------------------------------------

  /** Removing items keeps the others in their order. */
  lemma {:induction false} WithoutKeepsOrder(s: seq<Item>, sel: Selector, i: nat, j: nat) returns (a: nat, b: nat)
    requires i < j < |Without(s, sel)|
    ensures a < b < |s| && s[a] == Without(s, sel)[i] && s[b] == Without(s, sel)[j]
  {
    var n := |s| - 1;
    if !Selects(sel, s[n]) && j == |Without(s[..n], sel)| {
      a := WithoutIsPart(s[..n], sel, i);
      b := n;
    } else {
      a, b := WithoutKeepsOrder(s[..n], sel, i, j);
    }
  }

  lemma {:induction false} WithoutIsPart(s: seq<Item>, sel: Selector, i: nat) returns (a: nat)
    requires i < |Without(s, sel)|
    ensures a < |s| && s[a] == Without(s, sel)[i]
  {
    var n := |s| - 1;
    if !Selects(sel, s[n]) && i == |Without(s[..n], sel)| {
      a := n;
    } else {
      a := WithoutIsPart(s[..n], sel, i);
    }
  }

  // ---- The notification, figure by figure ----------------------------------------------------------------------

  /** The whole percent of `part` in `whole`, rounded down, never above 100, and 0 of nothing. */
  ghost predicate WholePercent(p: nat, part: nat, whole: nat) {
    if whole == 0 then p == 0
    else if part >= whole then p == 100
    else p * whole <= 100 * part < (p + 1) * whole
  }

  lemma PercentRoundsDown(part: nat, whole: nat)
    ensures WholePercent(PercentOf(part, whole), part, whole)
  {
    if whole > 0 {
      var n := Min(part, whole) * 100;
      var q, r := n / whole, n % whole;
      assert n == whole * q + r && r < whole;
      assert q * whole == whole * q && (q + 1) * whole == whole * q + whole;
      if part >= whole {
        HundredFold(whole);
      }
    }
  }

  /** The active uploads that have a meter, from the oldest. */
  ghost predicate FirstMetered(s: State, k: nat) {
    && k < |s.active| && s.active[k].direction == Upload && s.active[k].id in s.meters
    && forall i :: 0 <= i < k ==> !(s.active[i].direction == Upload && s.active[i].id in s.meters)
  }

  lemma {:induction false} CurrentStartsWith(active: seq<Item>, meters: map<string, nat>, k: nat)
    requires k < |active| && active[k].direction == Upload && active[k].id in meters
    requires forall i :: 0 <= i < k ==> !(active[i].direction == Upload && active[i].id in meters)
    ensures var c := Current(active, meters);
            c != [] && c[0] == InFlight(active[k].name, meters[active[k].id], BytesAt(active, k))
  {
    var n := |active| - 1;
    if k < n {
      CurrentStartsWith(active[..n], meters, k);
      FirstOfMore(Current(active[..n], meters), Shows(active[n], meters));
    } else {
      CurrentIsEmpty(active[..n], meters);
    }
  }

  lemma FirstOfMore<T>(a: seq<T>, b: seq<T>)
    requires a != []
    ensures a + b != [] && (a + b)[0] == a[0]
  {
  }

  lemma {:induction false} CurrentIsEmpty(active: seq<Item>, meters: map<string, nat>)
    requires forall i :: 0 <= i < |active| ==> !(active[i].direction == Upload && active[i].id in meters)
    ensures Current(active, meters) == []
  {
    if active != [] {
      CurrentIsEmpty(active[..|active| - 1], meters);
    }
  }

  /** The counts of the note, taken from the queue. */
  lemma NoteCounts(base: Totals, s: State)
    requires Wf(s) && base.completed <= s.completed
    ensures var n := MakeNote(base, UploadProgress(s));
            n.done == s.completed - base.completed &&
            n.remaining == |IdsOfUploads(s.active)| + |IdsOfUploads(s.waiting)| &&
            n.total == n.done + n.remaining
  {
    CountIsCardinality(s.active);
    CountIsCardinality(s.waiting);
  }

  /** The file shown is the oldest active upload that has begun to send, with its own percentage; without one there
      is no file. */
  lemma NoteFile(base: Totals, s: State, k: nat)
    ensures var n := MakeNote(base, UploadProgress(s));
            FirstMetered(s, k) ==>
              n.file == Some(s.active[k].name) &&
              WholePercent(n.filePercent, s.meters[s.active[k].id], BytesAt(s.active, k))
    ensures var n := MakeNote(base, UploadProgress(s));
            (forall i :: 0 <= i < |s.active| ==> !(s.active[i].direction == Upload && s.active[i].id in s.meters)) ==>
              n.file == None && n.filePercent == 0
  {
    if FirstMetered(s, k) {
      CurrentStartsWith(s.active, s.meters, k);
      PercentRoundsDown(s.meters[s.active[k].id], BytesAt(s.active, k));
    }
    if forall i :: 0 <= i < |s.active| ==> !(s.active[i].direction == Upload && s.active[i].id in s.meters) {
      CurrentIsEmpty(s.active, s.meters);
    }
  }

  /** Bytes of uploads: of all of them, or of what active ones have sent, at most their size. */
  ghost function BytesAt(s: seq<Item>, i: nat): nat
    requires i < |s|
  {
    if s[i].direction == Upload && s[i].size.Some? && s[i].size.value > 0 then s[i].size.value else 0
  }

  ghost function SumOfBytes(s: seq<Item>, n: nat): nat
    requires n <= |s|
  {
    if n == 0 then 0 else SumOfBytes(s, n - 1) + BytesAt(s, n - 1)
  }

  ghost function SumOfSent(s: seq<Item>, meters: map<string, nat>, n: nat): nat
    requires n <= |s|
  {
    if n == 0 then 0
    else SumOfSent(s, meters, n - 1) + if s[n - 1].id in meters then Min(meters[s[n - 1].id], BytesAt(s, n - 1)) else 0
  }

  lemma {:induction false} TotalsAreSums(s: seq<Item>, meters: map<string, nat>, n: nat)
    requires n <= |s|
    ensures Total(Bytes, s[..n]) == SumOfBytes(s, n) && Total(Sent(meters), s[..n]) == SumOfSent(s, meters, n)
  {
    if n > 0 {
      TotalsAreSums(s, meters, n - 1);
      assert s[..n][..n - 1] == s[..n - 1];
    }
  }

  /** The percentage is that of the bytes of this run that have arrived, in all bytes of the run. */
  lemma NotePercent(base: Totals, s: State)
    requires base.completed <= s.completed && base.completedBytes <= s.completedBytes
    ensures var finished := s.completedBytes - base.completedBytes;
            WholePercent(MakeNote(base, UploadProgress(s)).percent,
                         finished + SumOfSent(s.active, s.meters, |s.active|),
                         finished + SumOfBytes(s.active, |s.active|) + SumOfBytes(s.waiting, |s.waiting|))
  {
    NoteFigures(base, s);
    TotalsAreSums(s.active, s.meters, |s.active|);
    TotalsAreSums(s.waiting, s.meters, |s.waiting|);
    assert s.active[..|s.active|] == s.active && s.waiting[..|s.waiting|] == s.waiting;
    PercentRoundsDown(Arrived(s) - base.completedBytes,
                      s.completedBytes + Remaining(Bytes, s) - base.completedBytes);
  }
}
