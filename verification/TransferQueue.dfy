/**
  The in-memory transfer queue of the sync engine: an unordered vector of waiting items with two
  position indexes, a vector of active items, a bounded list of finished ones and byte meters.

  `State` is the queue without its indexes; the functions on it look items up by scanning. The
  class keeps the indexes and is proved to compute the same states through them.
 */
module TransferQueues {
  import opened Arithmetic
  import opened Options
  import opened Trimming

  const MAX_DONE: nat := 100
  const SNAPSHOT_ITEMS_CAP: nat := 200

  datatype Direction = Upload | Download
  datatype Status = Active | Waiting | Done

  /** Identifies a slot regardless of its transfer id. */
  datatype Key = Key(binding: string, direction: Direction, path: string, name: string)

  datatype Item = Item(id: string, binding: string, direction: Direction, path: string, name: string,
                       size: Option<int>, status: Status, updatedAt: int)
  {
    function KeyOf(): Key {
      Key(binding, direction, path, name)
    }

    /** The declared size, with an unknown or negative one read as 0. */
    function Bytes(): nat {
      if size.Some? && size.value > 0 then size.value else 0
    }
  }

  function NewItem(binding: string, direction: Direction, relative: string, size: Option<int>,
                   id: string, status: Status, now: int): Item
  {
    var (path, name) := SplitPath(relative);
    Item(id, binding, direction, path, name, size, status, now)
  }

  /** What the caller of `begin` or `enqueue_waiting` asked for. */
  predicate Describes(x: Item, binding: string, direction: Direction, relative: string, size: Option<int>,
                      id: string, status: Status, now: int)
  {
    && x.id == id && x.binding == binding && x.direction == direction && x.size == size
    && x.status == status && x.updatedAt == now
    && '/' !in x.name && Trim(IsSlash, relative) == if x.path == "" then x.name else x.path + "/" + x.name
  }

  datatype State = State(active: seq<Item>, waiting: seq<Item>, done: seq<Item>,
                         meters: map<string, nat>, completed: nat, completedBytes: nat)

  const EMPTY := State([], [], [], map[], 0, 0)

  // ---- Paths -------------------------------------------------------------------------------

  function LastSlash(s: string): (r: Option<nat>)
    ensures r.None? ==> '/' !in s
    ensures r.Some? ==> r.value < |s| && s[r.value] == '/' && '/' !in s[r.value + 1..]
  {
    if s == "" then None
    else if s[|s| - 1] == '/' then Some(|s| - 1)
    else LastSlash(s[..|s| - 1])
  }

  /** Parent directory and file name of a path, ignoring slashes at either end. */
  function SplitPath(relative: string): (r: (string, string))
    ensures '/' !in r.1
  {
    var t := Trim(IsSlash, relative);
    match LastSlash(t)
    case Some(i) => (t[..i], t[i + 1..])
    case None => ("", t)
  }

  function JoinPath(path: string, name: string): string {
    if path == "" then name else path + "/" + name
  }

  /** Splitting loses nothing but the outer slashes, so two paths share a slot exactly when they
      agree up to those. */
  lemma SplitPathKeepsThePath(a: string, b: string)
    ensures JoinPath(SplitPath(a).0, SplitPath(a).1) == Trim(IsSlash, a)
    ensures SplitPath(a) == SplitPath(b) <==> Trim(IsSlash, a) == Trim(IsSlash, b)
  {
    SplitPathJoins(a);
    SplitPathJoins(b);
  }

  lemma SplitPathJoins(a: string)
    ensures JoinPath(SplitPath(a).0, SplitPath(a).1) == Trim(IsSlash, a)
  {
    var t := Trim(IsSlash, a);
    var cut := LastSlash(t);
    if cut.Some? {
      var i := cut.value;
      assert i != 0;
      assert t == t[..i] + [t[i]] + t[i + 1..];
    }
  }

  lemma NewItemDescribes(binding: string, direction: Direction, relative: string, size: Option<int>,
                         id: string, status: Status, now: int)
    ensures Describes(NewItem(binding, direction, relative, size, id, status, now),
                      binding, direction, relative, size, id, status, now)
  {
    SplitPathJoins(relative);
  }

  // ---- Selecting and removing items ----------------------------------------------------------

  datatype Selector = ByKey(key: Key) | ById(id: string) | ByBinding(binding: string)

  predicate Selects(sel: Selector, x: Item) {
    match sel
    case ByKey(k) => x.KeyOf() == k
    case ById(id) => x.id == id
    case ByBinding(b) => x.binding == b
  }

  /** `retain` of everything not selected. */
  function Without(s: seq<Item>, sel: Selector): seq<Item> {
    if s == [] then []
    else if Selects(sel, s[|s| - 1]) then Without(s[..|s| - 1], sel)
    else Without(s[..|s| - 1], sel) + [s[|s| - 1]]
  }

  /** The first selected position. */
  function Find(s: seq<Item>, sel: Selector): (r: Option<nat>)
    ensures r.Some? ==> r.value < |s| && Selects(sel, s[r.value])
  {
    if s == [] then None
    else
      match Find(s[..|s| - 1], sel)
      case Some(i) => Some(i)
      case None => if Selects(sel, s[|s| - 1]) then Some(|s| - 1) else None
  }

  lemma {:induction false} FindIsFirst(s: seq<Item>, sel: Selector)
    ensures Find(s, sel).None? ==> forall i :: 0 <= i < |s| ==> !Selects(sel, s[i])
    ensures Find(s, sel).Some? ==> forall i :: 0 <= i < Find(s, sel).value ==> !Selects(sel, s[i])
  {
    if s != [] {
      var n := |s| - 1;
      assert forall i :: 0 <= i < n ==> s[..n][i] == s[i];
      FindIsFirst(s[..n], sel);
    }
  }

  function RemoveAt(s: seq<Item>, pos: nat): seq<Item>
    requires pos < |s|
  {
    s[..pos] + s[pos + 1..]
  }

  /** `Vec::swap_remove`: the last element takes the freed place. */
  function SwapRemove(s: seq<Item>, pos: nat): (r: seq<Item>)
    requires pos < |s|
  {
    s[pos := s[|s| - 1]][..|s| - 1]
  }

  function TakeOut(s: seq<Item>, sel: Selector): seq<Item> {
    match Find(s, sel)
    case Some(pos) => SwapRemove(s, pos)
    case None => s
  }

  // ---- The operations, on states ---------------------------------------------------------------

  function Begin(s: State, it: Item): State {
    s.(active := Without(s.active, ByKey(it.KeyOf())) + [it], waiting := TakeOut(s.waiting, ByKey(it.KeyOf())))
  }

  function Enqueue(s: State, it: Item): State {
    s.(active := Without(s.active, ByKey(it.KeyOf())), waiting := TakeOut(s.waiting, ByKey(it.KeyOf())) + [it])
  }

  function Promote(s: State, id: string, now: int): State {
    match Find(s.waiting, ById(id))
    case None => s
    case Some(pos) =>
      s.(active := s.active + [s.waiting[pos].(status := Active, updatedAt := now)],
         waiting := SwapRemove(s.waiting, pos))
  }

  function PushDone(done: seq<Item>, it: Item): seq<Item> {
    var d := [it] + done;
    if |d| > MAX_DONE then d[..MAX_DONE] else d
  }

  /** Books a finished item that has already left `active` or `waiting`. */
  function Book(s: State, it: Item, now: int): State {
    var s := s.(done := PushDone(s.done, it.(status := Done, updatedAt := now)));
    if it.direction == Upload
    then s.(completed := s.completed + 1, completedBytes := s.completedBytes + it.Bytes())
    else s
  }

  /** Takes the item out of `active`, or else out of `waiting`. */
  function Take(s: State, id: string): (Option<Item>, State) {
    match Find(s.active, ById(id))
    case Some(pos) => (Some(s.active[pos]), s.(active := RemoveAt(s.active, pos)))
    case None =>
      match Find(s.waiting, ById(id))
      case Some(pos) => (Some(s.waiting[pos]), s.(waiting := SwapRemove(s.waiting, pos)))
      case None => (None, s)
  }

  function Complete(s: State, id: string, now: int): State {
    var (taken, s) := Take(s.(meters := s.meters - {id}), id);
    if taken.Some? then Book(s, taken.value, now) else s
  }

  function Abandon(s: State, id: string): State {
    s.(meters := s.meters - {id}, active := Without(s.active, ById(id)), waiting := TakeOut(s.waiting, ById(id)))
  }

  function Clear(s: State, binding: string): State {
    var active := Without(s.active, ByBinding(binding));
    s.(active := active, waiting := Without(s.waiting, ByBinding(binding)),
       meters := map id | id in s.meters && (exists x :: x in active && x.id == id) :: s.meters[id])
  }

  function Meter(s: State, id: string): State {
    if id in s.meters then s else s.(meters := s.meters[id := 0])
  }

  /** The uploader adds to a meter it was handed. */
  function AddSent(s: State, id: string, n: nat): State {
    if id in s.meters then s.(meters := s.meters[id := s.meters[id] + n]) else s
  }

  // ---- Totals over uploads -----------------------------------------------------------------------

  /** What an upload contributes to a total: one, its size, or the bytes sent so far. */
  datatype Weight = Count | Bytes | Sent(meters: map<string, nat>)

  function WeightOf(w: Weight, x: Item): nat {
    if x.direction != Upload then 0
    else
      match w
      case Count => 1
      case Bytes => x.Bytes()
      case Sent(m) => if x.id in m then Min(m[x.id], x.Bytes()) else 0
  }

  function Total(w: Weight, s: seq<Item>): nat {
    if s == [] then 0 else Total(w, s[..|s| - 1]) + WeightOf(w, s[|s| - 1])
  }

  // ---- Well-formed states ----------------------------------------------------------------------

  ghost predicate Unique(s: seq<Item>) {
    forall i, j :: 0 <= i < j < |s| ==> s[i].id != s[j].id && s[i].KeyOf() != s[j].KeyOf()
  }

  ghost predicate Apart(a: seq<Item>, b: seq<Item>) {
    forall i, j :: 0 <= i < |a| && 0 <= j < |b| ==> a[i].id != b[j].id && a[i].KeyOf() != b[j].KeyOf()
  }

  ghost predicate AllIn(s: seq<Item>, status: Status) {
    forall i :: 0 <= i < |s| ==> s[i].status == status
  }

  /** No id and no binding/direction/path/name slot occurs twice among the unfinished items. */
  ghost predicate Wf(s: State) {
    && Unique(s.active) && Unique(s.waiting) && Apart(s.active, s.waiting)
    && AllIn(s.active, Active) && AllIn(s.waiting, Waiting) && AllIn(s.done, Done)
    && |s.done| <= MAX_DONE
  }

  /** What a fresh UUID gives: nothing in the queue carries it. */
  ghost predicate Fresh(s: State, id: string) {
    && (forall i :: 0 <= i < |s.active| ==> s.active[i].id != id)
    && (forall i :: 0 <= i < |s.waiting| ==> s.waiting[i].id != id)
    && id !in s.meters
  }

  // ---- Facts about removal ---------------------------------------------------------------------

  lemma {:induction false} WithoutKeeps(s: seq<Item>, sel: Selector)
    requires Unique(s)
    ensures Unique(Without(s, sel))
    ensures forall x :: x in Without(s, sel) <==> x in s && !Selects(sel, x)
  {
    if s != [] {
      var n := |s| - 1;
      assert s == s[..n] + [s[n]];
      WithoutKeeps(s[..n], sel);
      var w := Without(s[..n], sel);
      forall x | x in w ensures x.id != s[n].id && x.KeyOf() != s[n].KeyOf() {
        assert x in s[..n];
      }
    }
  }

  lemma SwapRemoveKeeps(s: seq<Item>, pos: nat)
    requires pos < |s| && Unique(s)
    ensures Unique(SwapRemove(s, pos))
    ensures forall x :: x in SwapRemove(s, pos) <==> x in s && x.id != s[pos].id
    ensures forall x :: x in SwapRemove(s, pos) <==> x in s && x.KeyOf() != s[pos].KeyOf()
  {
    var r := SwapRemove(s, pos);
    forall i | 0 <= i < |s| && i != pos ensures s[i] in r {
      var j := if i == |s| - 1 then pos else i;
      assert r[j] == s[i];
    }
    forall x | x in r ensures x in s && x.id != s[pos].id && x.KeyOf() != s[pos].KeyOf() {
      var j :| 0 <= j < |r| && r[j] == x;
      var i := if j == pos then |s| - 1 else j;
      assert s[i] == x;
    }
  }

  lemma RemoveAtKeeps(s: seq<Item>, pos: nat)
    requires pos < |s| && Unique(s)
    ensures Unique(RemoveAt(s, pos))
    ensures forall x :: x in RemoveAt(s, pos) <==> x in s && x.id != s[pos].id
  {
    var r := RemoveAt(s, pos);
    assert forall i :: 0 <= i < pos ==> r[i] == s[i];
    assert forall i :: pos <= i < |r| ==> r[i] == s[i + 1];
    forall x | x in s && x.id != s[pos].id ensures x in r {
      var i :| 0 <= i < |s| && s[i] == x;
      assert r[if i < pos then i else i - 1] == x;
    }
  }

  lemma TakeOutKeeps(s: seq<Item>, sel: Selector)
    requires Unique(s) && !sel.ByBinding?
    ensures Unique(TakeOut(s, sel))
    ensures forall x :: x in TakeOut(s, sel) <==> x in s && !Selects(sel, x)
  {
    var f := Find(s, sel);
    FindIsFirst(s, sel);
    if f.Some? {
      SwapRemoveKeeps(s, f.value);
    }
  }

  lemma PushDoneKeeps(done: seq<Item>, it: Item)
    requires |done| <= MAX_DONE && it.status == Done && AllIn(done, Done)
    ensures |PushDone(done, it)| == if |done| < MAX_DONE then |done| + 1 else MAX_DONE
    ensures AllIn(PushDone(done, it), Done)
    ensures PushDone(done, it)[0] == it
  {
  }

  // ---- Every operation keeps the state well formed ------------------------------------------------

  ghost predicate Subset(a: seq<Item>, b: seq<Item>) {
    forall i :: 0 <= i < |a| ==> a[i] in b
  }

  /** What holds of every item, or of every pair across two lists, survives removals. */
  lemma ShrinkKeeps(a: seq<Item>, b: seq<Item>, a': seq<Item>, b': seq<Item>)
    requires Subset(a', a) && Subset(b', b) && Apart(a, b) && AllIn(a, Active) && AllIn(b, Waiting)
    ensures Apart(a', b') && AllIn(a', Active) && AllIn(b', Waiting)
  {
    forall i, j | 0 <= i < |a'| && 0 <= j < |b'| ensures a'[i].id != b'[j].id && a'[i].KeyOf() != b'[j].KeyOf() {
      var i0 :| 0 <= i0 < |a| && a[i0] == a'[i];
      var j0 :| 0 <= j0 < |b| && b[j0] == b'[j];
    }
  }

  ghost predicate Avoids(s: seq<Item>, it: Item) {
    forall i :: 0 <= i < |s| ==> s[i].id != it.id && s[i].KeyOf() != it.KeyOf()
  }

  lemma AppendKeeps(a: seq<Item>, b: seq<Item>, it: Item)
    requires Unique(a) && Unique(b) && Apart(a, b) && Avoids(a, it) && Avoids(b, it)
    ensures Unique(a + [it]) && Apart(a + [it], b)
    ensures Unique(b + [it]) && Apart(a, b + [it])
  {
  }

  /** After the slot of a new item has been vacated, the item can be added to either list. */
  lemma VacatedSlot(s: State, it: Item)
    requires Wf(s) && Fresh(s, it.id)
    ensures var a, w := Without(s.active, ByKey(it.KeyOf())), TakeOut(s.waiting, ByKey(it.KeyOf()));
            Unique(a) && Unique(w) && Apart(a, w) && AllIn(a, Active) && AllIn(w, Waiting) &&
            Avoids(a, it) && Avoids(w, it)
  {
    var a, w := Without(s.active, ByKey(it.KeyOf())), TakeOut(s.waiting, ByKey(it.KeyOf()));
    WithoutKeeps(s.active, ByKey(it.KeyOf()));
    TakeOutKeeps(s.waiting, ByKey(it.KeyOf()));
    forall i | 0 <= i < |a| ensures a[i] in s.active && a[i].id != it.id && a[i].KeyOf() != it.KeyOf() {
      assert a[i] in a;
    }
    forall i | 0 <= i < |w| ensures w[i] in s.waiting && w[i].id != it.id && w[i].KeyOf() != it.KeyOf() {
      assert w[i] in w;
    }
    ShrinkKeeps(s.active, s.waiting, a, w);
  }

  lemma BeginKeepsWf(s: State, it: Item)
    requires Wf(s) && Fresh(s, it.id) && it.status == Active
    ensures Wf(Begin(s, it))
  {
    VacatedSlot(s, it);
    AppendKeeps(Without(s.active, ByKey(it.KeyOf())), TakeOut(s.waiting, ByKey(it.KeyOf())), it);
  }

  lemma EnqueueKeepsWf(s: State, it: Item)
    requires Wf(s) && Fresh(s, it.id) && it.status == Waiting
    ensures Wf(Enqueue(s, it))
  {
    VacatedSlot(s, it);
    AppendKeeps(Without(s.active, ByKey(it.KeyOf())), TakeOut(s.waiting, ByKey(it.KeyOf())), it);
  }

  lemma PromoteKeepsWf(s: State, id: string, now: int)
    requires Wf(s)
    ensures Wf(Promote(s, id, now))
  {
    var f := Find(s.waiting, ById(id));
    if f.Some? {
      var w, it := SwapRemove(s.waiting, f.value), s.waiting[f.value].(status := Active, updatedAt := now);
      SwapRemoveKeeps(s.waiting, f.value);
      forall i | 0 <= i < |w| ensures w[i] in s.waiting && w[i].id != it.id && w[i].KeyOf() != it.KeyOf() {
        assert w[i] in w;
      }
      ShrinkKeeps(s.active, s.waiting, s.active, w);
      AppendKeeps(s.active, w, it);
    }
  }

  lemma BookKeepsWf(s: State, it: Item, now: int)
    requires Wf(s)
    ensures Wf(Book(s, it, now))
  {
    PushDoneKeeps(s.done, it.(status := Done, updatedAt := now));
  }

  lemma CompleteKeepsWf(s: State, id: string, now: int)
    requires Wf(s)
    ensures Wf(Complete(s, id, now))
  {
    var m := s.(meters := s.meters - {id});
    TakeKeepsWf(m, id);
    var (taken, s') := Take(m, id);
    if taken.Some? {
      BookKeepsWf(s', taken.value, now);
    }
  }

  lemma TakeKeepsWf(s: State, id: string)
    requires Wf(s)
    ensures Wf(Take(s, id).1)
  {
    var p, q := Find(s.active, ById(id)), Find(s.waiting, ById(id));
    if p.Some? {
      var a := RemoveAt(s.active, p.value);
      RemoveAtKeeps(s.active, p.value);
      MembersAreSubset(a, s.active);
      ShrinkKeeps(s.active, s.waiting, a, s.waiting);
    } else if q.Some? {
      var w := SwapRemove(s.waiting, q.value);
      SwapRemoveKeeps(s.waiting, q.value);
      MembersAreSubset(w, s.waiting);
      ShrinkKeeps(s.active, s.waiting, s.active, w);
    }
  }

  lemma MembersAreSubset(a: seq<Item>, b: seq<Item>)
    requires forall x :: x in a ==> x in b
    ensures Subset(a, b)
  {
  }

  lemma MetersKeepWf(s: State, meters: map<string, nat>)
    requires Wf(s)
    ensures Wf(s.(meters := meters))
  {
  }

  lemma AbandonKeepsWf(s: State, id: string)
    requires Wf(s)
    ensures Wf(Abandon(s, id))
  {
    var a, w := Without(s.active, ById(id)), TakeOut(s.waiting, ById(id));
    WithoutKeeps(s.active, ById(id));
    TakeOutKeeps(s.waiting, ById(id));
    MembersAreSubset(a, s.active);
    MembersAreSubset(w, s.waiting);
    ShrinkKeeps(s.active, s.waiting, a, w);
  }

  lemma ClearKeepsWf(s: State, binding: string)
    requires Wf(s)
    ensures Wf(Clear(s, binding))
  {
    var a, w := Without(s.active, ByBinding(binding)), Without(s.waiting, ByBinding(binding));
    WithoutKeeps(s.active, ByBinding(binding));
    WithoutKeeps(s.waiting, ByBinding(binding));
    MembersAreSubset(a, s.active);
    MembersAreSubset(w, s.waiting);
    ShrinkKeeps(s.active, s.waiting, a, w);
  }

  // ---- The position indexes ------------------------------------------------------------------------

  /** `m` maps each waiting item's id to its position, and nothing else. */
  ghost predicate IdIndex(s: seq<Item>, m: map<string, nat>) {
    && (forall i :: 0 <= i < |s| ==> s[i].id in m && m[s[i].id] == i)
    && (forall id :: id in m ==> m[id] < |s| && s[m[id]].id == id)
  }

  /** `m` maps each waiting item's slot to its position, and nothing else. */
  ghost predicate KeyIndex(s: seq<Item>, m: map<Key, nat>) {
    && (forall i :: 0 <= i < |s| ==> s[i].KeyOf() in m && m[s[i].KeyOf()] == i)
    && (forall k :: k in m ==> m[k] < |s| && s[m[k]].KeyOf() == k)
  }

  /** The two indexes as they are rebuilt from scratch, entry by entry. */
  function PositionsById(s: seq<Item>): map<string, nat> {
    if s == [] then map[] else PositionsById(s[..|s| - 1])[s[|s| - 1].id := |s| - 1]
  }

  function PositionsByKey(s: seq<Item>): map<Key, nat> {
    if s == [] then map[] else PositionsByKey(s[..|s| - 1])[s[|s| - 1].KeyOf() := |s| - 1]
  }

  lemma PushKeepsExact(s: seq<Item>, ids: map<string, nat>, keys: map<Key, nat>, it: Item)
    requires IdIndex(s, ids) && KeyIndex(s, keys) && Avoids(s, it)
    ensures IdIndex(s + [it], ids[it.id := |s|])
    ensures KeyIndex(s + [it], keys[it.KeyOf() := |s|])
  {
  }

  lemma {:induction false} PositionsAreExact(s: seq<Item>)
    requires Unique(s)
    ensures IdIndex(s, PositionsById(s)) && KeyIndex(s, PositionsByKey(s))
  {
    if s != [] {
      var t, it := s[..|s| - 1], s[|s| - 1];
      LastIsApart(s);
      PositionsAreExact(t);
      PushKeepsExact(t, PositionsById(t), PositionsByKey(t), it);
    }
  }

  lemma LastIsApart(s: seq<Item>)
    requires Unique(s) && s != []
    ensures Unique(s[..|s| - 1]) && Avoids(s[..|s| - 1], s[|s| - 1]) && s == s[..|s| - 1] + [s[|s| - 1]]
  {
  }

  lemma {:induction false} ExactIsPositionsById(s: seq<Item>, ids: map<string, nat>)
    requires IdIndex(s, ids)
    ensures ids == PositionsById(s)
  {
    if s != [] {
      var n := |s| - 1;
      IdIndexAfterSwapRemove(s, ids, n);
      assert SwapRemove(s, n) == s[..n];
      ExactIsPositionsById(s[..n], IdsAfterSwapRemove(s, ids, n));
    }
  }

  lemma {:induction false} ExactIsPositionsByKey(s: seq<Item>, keys: map<Key, nat>)
    requires KeyIndex(s, keys)
    ensures keys == PositionsByKey(s)
  {
    if s != [] {
      var n := |s| - 1;
      KeyIndexAfterSwapRemove(s, keys, n);
      assert SwapRemove(s, n) == s[..n];
      ExactIsPositionsByKey(s[..n], KeysAfterSwapRemove(s, keys, n));
    }
  }

  /** Patching the indexes after a swap_remove gives what a rebuild would. */
  lemma PatchedIsRebuilt(s: seq<Item>, pos: nat)
    requires pos < |s| && Unique(s)
    ensures IdsAfterSwapRemove(s, PositionsById(s), pos) == PositionsById(SwapRemove(s, pos))
    ensures KeysAfterSwapRemove(s, PositionsByKey(s), pos) == PositionsByKey(SwapRemove(s, pos))
  {
    PositionsAreExact(s);
    IdIndexAfterSwapRemove(s, PositionsById(s), pos);
    KeyIndexAfterSwapRemove(s, PositionsByKey(s), pos);
    ExactIsPositionsById(SwapRemove(s, pos), IdsAfterSwapRemove(s, PositionsById(s), pos));
    ExactIsPositionsByKey(SwapRemove(s, pos), KeysAfterSwapRemove(s, PositionsByKey(s), pos));
  }

  lemma PositionsAfterPush(s: seq<Item>, it: Item)
    ensures PositionsById(s + [it]) == PositionsById(s)[it.id := |s|]
    ensures PositionsByKey(s + [it]) == PositionsByKey(s)[it.KeyOf() := |s|]
  {
    assert (s + [it])[..|s|] == s;
  }

  function IdsAfterSwapRemove(s: seq<Item>, ids: map<string, nat>, pos: nat): map<string, nat>
    requires pos < |s|
  {
    var ids := ids - {s[pos].id};
    if pos < |s| - 1 then ids[SwapRemove(s, pos)[pos].id := pos] else ids
  }

  function KeysAfterSwapRemove(s: seq<Item>, keys: map<Key, nat>, pos: nat): map<Key, nat>
    requires pos < |s|
  {
    var keys := keys - {s[pos].KeyOf()};
    if pos < |s| - 1 then keys[SwapRemove(s, pos)[pos].KeyOf() := pos] else keys
  }

  lemma IdIndexAfterSwapRemove(s: seq<Item>, ids: map<string, nat>, pos: nat)
    requires pos < |s| && IdIndex(s, ids)
    ensures IdIndex(SwapRemove(s, pos), IdsAfterSwapRemove(s, ids, pos))
  {
    var r, m := SwapRemove(s, pos), IdsAfterSwapRemove(s, ids, pos);
    forall i | 0 <= i < |r| ensures r[i].id in m && m[r[i].id] == i {
      assert r[i] == s[if i == pos then |s| - 1 else i];
    }
  }

  lemma KeyIndexAfterSwapRemove(s: seq<Item>, keys: map<Key, nat>, pos: nat)
    requires pos < |s| && KeyIndex(s, keys)
    ensures KeyIndex(SwapRemove(s, pos), KeysAfterSwapRemove(s, keys, pos))
  {
    var r, m := SwapRemove(s, pos), KeysAfterSwapRemove(s, keys, pos);
    forall i | 0 <= i < |r| ensures r[i].KeyOf() in m && m[r[i].KeyOf()] == i {
      assert r[i] == s[if i == pos then |s| - 1 else i];
    }
  }

  /** Looking a position up agrees with scanning for it. */
  lemma LookupIsFind(s: seq<Item>, sel: Selector)
    requires Unique(s)
    ensures sel.ById? ==>
              Find(s, sel) == if sel.id in PositionsById(s) then Some(PositionsById(s)[sel.id]) else None
    ensures sel.ByKey? ==>
              Find(s, sel) == if sel.key in PositionsByKey(s) then Some(PositionsByKey(s)[sel.key]) else None
  {
    PositionsAreExact(s);
    FindIsFirst(s, sel);
  }

  /** In every valid queue both indexes describe `waiting` exactly, and have its size. */
  lemma IndexesAreExact(s: seq<Item>)
    requires Unique(s)
    ensures IdIndex(s, PositionsById(s)) && |PositionsById(s)| == |s|
    ensures KeyIndex(s, PositionsByKey(s)) && |PositionsByKey(s)| == |s|
  {
    PositionsAreExact(s);
    IdIndexSize(s, PositionsById(s));
    KeyIndexSize(s, PositionsByKey(s));
  }

  lemma {:induction false} IdIndexSize(s: seq<Item>, ids: map<string, nat>)
    requires IdIndex(s, ids)
    ensures |ids| == |s|
  {
    if s != [] {
      var n := |s| - 1;
      IdIndexAfterSwapRemove(s, ids, n);
      IdIndexSize(SwapRemove(s, n), IdsAfterSwapRemove(s, ids, n));
      assert |ids - {s[n].id}| == |ids| - 1;
    }
  }

  lemma {:induction false} KeyIndexSize(s: seq<Item>, keys: map<Key, nat>)
    requires KeyIndex(s, keys)
    ensures |keys| == |s|
  {
    if s != [] {
      var n := |s| - 1;
      KeyIndexAfterSwapRemove(s, keys, n);
      KeyIndexSize(SwapRemove(s, n), KeysAfterSwapRemove(s, keys, n));
      assert |keys - {s[n].KeyOf()}| == |keys| - 1;
    }
  }

  class TransferQueue {
    var active: seq<Item>
    var waiting: seq<Item>
    var waitingPosById: map<string, nat>
    var waitingPosByKey: map<Key, nat>
    var done: seq<Item>
    var meters: map<string, nat>
    var uploadsCompleted: nat
    var uploadBytesCompleted: nat

    ghost function Abs(): State
      reads this
    {
      State(active, waiting, done, meters, uploadsCompleted, uploadBytesCompleted)
    }

    ghost predicate Indexed()
      reads this
    {
      waitingPosById == PositionsById(waiting) && waitingPosByKey == PositionsByKey(waiting)
    }

    ghost predicate Valid()
      reads this
    {
      Wf(Abs()) && Indexed()
    }

    constructor ()
      ensures Valid() && Abs() == EMPTY
    {
      active, waiting, done := [], [], [];
      waitingPosById, waitingPosByKey, meters := map[], map[], map[];
      uploadsCompleted, uploadBytesCompleted := 0, 0;
    }

    method WaitingRemoveAt(pos: nat) returns (removed: Item)
      requires Indexed() && Unique(waiting) && pos < |waiting|
      modifies `waiting, `waitingPosById, `waitingPosByKey
      ensures Indexed() && removed == old(waiting)[pos] && waiting == SwapRemove(old(waiting), pos)
    {
      PatchedIsRebuilt(waiting, pos);
      removed := waiting[pos];
      waiting := SwapRemove(waiting, pos);
      waitingPosById := waitingPosById - {removed.id};
      waitingPosByKey := waitingPosByKey - {removed.KeyOf()};
      if pos < |waiting| {
        var moved := waiting[pos];
        waitingPosById := waitingPosById[moved.id := pos];
        waitingPosByKey := waitingPosByKey[moved.KeyOf() := pos];
      }
    }

    method WaitingRemoveByKey(key: Key) returns (removed: Option<Item>)
      requires Indexed() && Unique(waiting)
      modifies `waiting, `waitingPosById, `waitingPosByKey
      ensures Indexed() && waiting == TakeOut(old(waiting), ByKey(key))
      ensures removed == match Find(old(waiting), ByKey(key)) case None => None case Some(p) => Some(old(waiting)[p])
    {
      LookupIsFind(waiting, ByKey(key));
      if key !in waitingPosByKey { return None; }
      var it := WaitingRemoveAt(waitingPosByKey[key]);
      removed := Some(it);
    }

    method WaitingRemoveById(id: string) returns (removed: Option<Item>)
      requires Indexed() && Unique(waiting)
      modifies `waiting, `waitingPosById, `waitingPosByKey
      ensures Indexed() && waiting == TakeOut(old(waiting), ById(id))
      ensures removed == match Find(old(waiting), ById(id)) case None => None case Some(p) => Some(old(waiting)[p])
    {
      LookupIsFind(waiting, ById(id));
      if id !in waitingPosById { return None; }
      var it := WaitingRemoveAt(waitingPosById[id]);
      removed := Some(it);
    }

    method WaitingPush(item: Item)
      requires Indexed()
      modifies `waiting, `waitingPosById, `waitingPosByKey
      ensures Indexed() && waiting == old(waiting) + [item]
    {
      PositionsAfterPush(waiting, item);
      var pos := |waiting|;
      waitingPosById := waitingPosById[item.id := pos];
      waitingPosByKey := waitingPosByKey[item.KeyOf() := pos];
      waiting := waiting + [item];
    }

    /** `id` is the new UUID and `now` the clock reading. */
    method BeginTransfer(binding: string, direction: Direction, relative: string, size: Option<int>,
                         id: string, now: int) returns (r: string)
      requires Valid() && Fresh(Abs(), id)
      modifies this
      ensures Valid() && r == id
      ensures Abs() == Begin(old(Abs()), NewItem(binding, direction, relative, size, id, Active, now))
      ensures active != [] && Describes(active[|active| - 1], binding, direction, relative, size, id, Active, now)
    {
      NewItemDescribes(binding, direction, relative, size, id, Active, now);
      var item := NewItem(binding, direction, relative, size, id, Active, now);
      BeginKeepsWf(Abs(), item);
      BeginItem(item);
      r := id;
    }

    method BeginItem(item: Item)
      requires Indexed() && Unique(waiting)
      modifies this
      ensures Indexed() && Abs() == Begin(old(Abs()), item)
    {
      VacateSlot(item.KeyOf());
      active := active + [item];
    }

    /** Drops whatever is in the slot, active or waiting. */
    method VacateSlot(key: Key)
      requires Indexed() && Unique(waiting)
      modifies `active, `waiting, `waitingPosById, `waitingPosByKey
      ensures Indexed() && active == Without(old(active), ByKey(key)) && waiting == TakeOut(old(waiting), ByKey(key))
    {
      active := Without(active, ByKey(key));
      var _ := WaitingRemoveByKey(key);
    }

    method EnqueueWaiting(binding: string, direction: Direction, relative: string, size: Option<int>,
                          id: string, now: int) returns (r: string)
      requires Valid() && Fresh(Abs(), id)
      modifies this
      ensures Valid() && r == id
      ensures Abs() == Enqueue(old(Abs()), NewItem(binding, direction, relative, size, id, Waiting, now))
      ensures waiting != [] && Describes(waiting[|waiting| - 1], binding, direction, relative, size, id, Waiting, now)
    {
      NewItemDescribes(binding, direction, relative, size, id, Waiting, now);
      var item := NewItem(binding, direction, relative, size, id, Waiting, now);
      EnqueueKeepsWf(Abs(), item);
      EnqueueItem(item);
      r := id;
    }

    method EnqueueItem(item: Item)
      requires Indexed() && Unique(waiting)
      modifies `active, `waiting, `waitingPosById, `waitingPosByKey
      ensures Indexed() && active == Without(old(active), ByKey(item.KeyOf()))
      ensures waiting == TakeOut(old(waiting), ByKey(item.KeyOf())) + [item]
    {
      VacateSlot(item.KeyOf());
      WaitingPush(item);
    }

    method PromoteWaiting(id: string, now: int) returns (found: bool)
      requires Valid()
      modifies this
      ensures Valid() && Abs() == Promote(old(Abs()), id, now)
      ensures found <==> Find(old(waiting), ById(id)).Some?
    {
      PromoteKeepsWf(Abs(), id, now);
      found := PromoteItem(id, now);
    }

    method PromoteItem(id: string, now: int) returns (found: bool)
      requires Indexed() && Unique(waiting)
      modifies this
      ensures Indexed() && Abs() == Promote(old(Abs()), id, now)
      ensures found <==> Find(old(waiting), ById(id)).Some?
    {
      var item := WaitingRemoveById(id);
      if item.None? { return false; }
      active := active + [item.value.(status := Active, updatedAt := now)];
      found := true;
    }

    method CompleteTransfer(id: string, now: int)
      requires Valid()
      modifies this
      ensures Valid() && Abs() == Complete(old(Abs()), id, now)
    {
      CompleteKeepsWf(Abs(), id, now);
      CompleteItem(id, now);
    }

    method CompleteItem(id: string, now: int)
      requires Indexed() && Unique(waiting) && |done| <= MAX_DONE
      modifies this
      ensures Indexed() && Abs() == Complete(old(Abs()), id, now)
    {
      meters := meters - {id};
      var taken := TakeActiveOrWaiting(id);
      if taken.Some? {
        BookItem(taken.value, now);
      }
    }

    method BookItem(item: Item, now: int)
      requires |done| <= MAX_DONE
      modifies `uploadsCompleted, `uploadBytesCompleted, `done
      ensures Abs() == Book(old(Abs()), item, now)
    {
      if item.direction == Upload {
        uploadsCompleted := uploadsCompleted + 1;
        uploadBytesCompleted := uploadBytesCompleted + item.Bytes();
      }
      AddDone(item.(status := Done, updatedAt := now));
    }

    method TakeActiveOrWaiting(id: string) returns (taken: Option<Item>)
      requires Indexed() && Unique(waiting)
      modifies `active, `waiting, `waitingPosById, `waitingPosByKey
      ensures Indexed() && (taken, Abs()) == Take(old(Abs()), id)
    {
      var pos := Find(active, ById(id));
      if pos.Some? {
        taken := Some(active[pos.value]);
        active := RemoveAt(active, pos.value);
      } else {
        taken := WaitingRemoveById(id);
      }
    }

    method AddDone(item: Item)
      requires |done| <= MAX_DONE
      modifies `done
      ensures done == PushDone(old(done), item)
    {
      done := [item] + done;
      while |done| > MAX_DONE
        invariant done == [item] + old(done) || done == PushDone(old(done), item)
        decreases |done|
      {
        done := done[..|done| - 1];
      }
    }

    method AbandonTransfer(id: string)
      requires Valid()
      modifies this
      ensures Valid() && Abs() == Abandon(old(Abs()), id)
    {
      AbandonKeepsWf(Abs(), id);
      AbandonItem(id);
    }

    method AbandonItem(id: string)
      requires Indexed() && Unique(waiting)
      modifies this
      ensures Indexed() && Abs() == Abandon(old(Abs()), id)
    {
      meters := meters - {id};
      active := Without(active, ById(id));
      var _ := WaitingRemoveById(id);
    }

    method ClearBinding(binding: string)
      requires Valid()
      modifies this
      ensures Valid() && Abs() == Clear(old(Abs()), binding)
    {
      ClearKeepsWf(Abs(), binding);
      ClearItems(binding);
    }

    method ClearItems(binding: string)
      modifies this
      ensures Indexed() && Abs() == Clear(old(Abs()), binding)
    {
      active := Without(active, ByBinding(binding));
      waiting := Without(waiting, ByBinding(binding));
      meters := map id | id in meters && (exists x :: x in active && x.id == id) :: meters[id];
      RebuildIndexes();
    }

    method RebuildIndexes()
      modifies `waitingPosById, `waitingPosByKey
      ensures Indexed()
    {
      waitingPosById, waitingPosByKey := map[], map[];
      for pos := 0 to |waiting|
        invariant waitingPosById == PositionsById(waiting[..pos])
        invariant waitingPosByKey == PositionsByKey(waiting[..pos])
      {
        var item := waiting[pos];
        assert waiting[..pos + 1] == waiting[..pos] + [item];
        PositionsAfterPush(waiting[..pos], item);
        waitingPosById := waitingPosById[item.id := pos];
        waitingPosByKey := waitingPosByKey[item.KeyOf() := pos];
      }
      assert waiting[..|waiting|] == waiting;
    }

    /** The meter of `id`, created on first use. */
    method MeterOf(id: string) returns (sent: nat)
      requires Valid()
      modifies `meters
      ensures Valid() && Abs() == Meter(old(Abs()), id) && id in meters && sent == meters[id]
    {
      MetersKeepWf(Abs(), Meter(Abs(), id).meters);
      sent := TouchMeter(id, 0);
    }

    /** The uploader's `fetch_add` through the handle it got from `MeterOf`. */
    method Sent(id: string, n: nat)
      requires Valid()
      modifies `meters
      ensures Valid() && Abs() == AddSent(old(Abs()), id, n)
    {
      MetersKeepWf(Abs(), AddSent(Abs(), id, n).meters);
      if id in meters {
        var _ := TouchMeter(id, n);
      }
    }

    method TouchMeter(id: string, n: nat) returns (sent: nat)
      modifies `meters
      ensures meters == AddSent(Meter(old(Abs()), id), id, n).meters && id in meters && sent == meters[id]
    {
      if id !in meters {
        meters := meters[id := 0];
      }
      sent := meters[id] + n;
      meters := meters[id := sent];
    }
  }
}
