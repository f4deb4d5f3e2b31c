/**
  The preview disk cache: its size by recursion, its files by a worklist, eviction of the oldest, and the key
  that names an entry.

  The cache directory is a finite tree. A directory may be unreadable and a file's metadata unavailable; both
  walks then skip it.
 */
module PreviewCache {
  import opened Arithmetic
  import opened Options

  datatype CacheFile = CacheFile(path: string, size: nat, modified: int)

  datatype Entry =
    | File(file: CacheFile, statOk: bool)
    | Dir(entries: seq<Entry>, readable: bool)

  /** Every file a full walk can see. */
  function Files(e: Entry): seq<CacheFile> {
    match e
    case File(f, ok) => if ok then [f] else []
    case Dir(es, ok) => if ok then FilesOf(es) else []
  }

  function FilesOf(es: seq<Entry>): seq<CacheFile> {
    if es == [] then [] else FilesOf(es[..|es| - 1]) + Files(es[|es| - 1])
  }

  /** Going down by these positions, through directories that can be read, leads to the file `f`. */
  predicate LeadsTo(e: Entry, way: seq<nat>, f: CacheFile)
    decreases |way|
  {
    if way == [] then e.File? && e.statOk && e.file == f
    else e.Dir? && e.readable && way[0] < |e.entries| && LeadsTo(e.entries[way[0]], way[1..], f)
  }

  lemma {:induction false} WhichEntry(es: seq<Entry>, f: CacheFile) returns (i: nat)
    requires f in FilesOf(es)
    ensures i < |es| && f in Files(es[i])
  {
    var n := |es| - 1;
    if f in FilesOf(es[..n]) {
      i := WhichEntry(es[..n], f);
    } else {
      i := n;
    }
  }

  lemma {:induction false} EntryIsListed(es: seq<Entry>, i: nat, f: CacheFile)
    requires i < |es| && f in Files(es[i])
    ensures f in FilesOf(es)
  {
    if i < |es| - 1 {
      EntryIsListed(es[..|es| - 1], i, f);
    }
  }

  /** Every file listed is at the end of a way down, however deep. */
  lemma {:induction false} WayDown(e: Entry, f: CacheFile) returns (way: seq<nat>)
    requires f in Files(e)
    ensures LeadsTo(e, way, f)
  {
    if e.File? {
      way := [];
    } else {
      var i := WhichEntry(e.entries, f);
      var rest := WayDown(e.entries[i], f);
      way := [i] + rest;
      assert way[1..] == rest;
    }
  }

  /** And every way down that ends at a file leads to one that is listed. */
  lemma {:induction false} WayEnds(e: Entry, way: seq<nat>, f: CacheFile)
    requires LeadsTo(e, way, f)
    ensures f in Files(e)
    decreases |way|
  {
    if way != [] {
      WayEnds(e.entries[way[0]], way[1..], f);
      EntryIsListed(e.entries, way[0], f);
    }
  }

  /** Total size of the files whose path is not in `gone`. */
  function BytesBut(fs: seq<CacheFile>, gone: set<string>): nat {
    if fs == [] then 0
    else BytesBut(fs[..|fs| - 1], gone) + if fs[|fs| - 1].path in gone then 0 else fs[|fs| - 1].size
  }

  function Bytes(fs: seq<CacheFile>): nat {
    BytesBut(fs, {})
  }

  function SaturatingAdd(a: nat, b: nat): nat {
    Min(a + b, U64_MAX)
  }

  lemma {:induction false} BytesOfAppend(a: seq<CacheFile>, b: seq<CacheFile>, gone: set<string>)
    ensures BytesBut(a + b, gone) == BytesBut(a, gone) + BytesBut(b, gone)
  {
    if b == [] {
      assert a + b == a;
    } else {
      assert (a + b)[..|a + b| - 1] == a + b[..|b| - 1];
      BytesOfAppend(a, b[..|b| - 1], gone);
    }
  }

  lemma {:induction false} FilesOfAppend(a: seq<Entry>, b: seq<Entry>)
    ensures FilesOf(a + b) == FilesOf(a) + FilesOf(b)
  {
    if b == [] {
      assert a + b == a;
    } else {
      assert (a + b)[..|a + b| - 1] == a + b[..|b| - 1];
      FilesOfAppend(a, b[..|b| - 1]);
    }
  }

  lemma FilesOfOne(e: Entry)
    ensures FilesOf([e]) == Files(e)
  {
    assert [e][..0] == [];
  }

  // ---- The recursive size ---------------------------------------------------------------------------------

  lemma BytesOneMore(es: seq<Entry>, i: nat)
    requires i < |es|
    ensures Bytes(FilesOf(es[..i + 1])) == Bytes(FilesOf(es[..i])) + Bytes(Files(es[i]))
    ensures es[i].File? ==> Bytes(Files(es[i])) == if es[i].statOk then es[i].file.size else 0
  {
    assert es[..i + 1][..i] == es[..i];
    BytesOfAppend(FilesOf(es[..i]), Files(es[i]), {});
    if es[i].File? && es[i].statOk {
      assert [es[i].file][..0] == [];
    }
  }

  /** `dir_size`: the true total, held at the largest 64-bit number. */
  method DirSize(dir: Entry) returns (total: nat)
    ensures total == if dir.Dir? then Min(Bytes(Files(dir)), U64_MAX) else 0
    decreases dir
  {
    total := 0;
    if !dir.Dir? || !dir.readable {
      return;
    }
    for i := 0 to |dir.entries|
      invariant total == Min(Bytes(FilesOf(dir.entries[..i])), U64_MAX)
    {
      var e := dir.entries[i];
      BytesOneMore(dir.entries, i);
      if e.Dir? {
        var sub := DirSize(e);
        total := SaturatingAdd(total, sub);
      } else if e.statOk {
        total := SaturatingAdd(total, e.file.size);
      }
    }
    assert dir.entries[..|dir.entries|] == dir.entries;
  }

  // ---- The worklist ------------------------------------------------------------------------------------------

  function Nodes(e: Entry): nat {
    match e
    case File(_, _) => 1
    case Dir(es, _) => 1 + NodesOf(es)
  }

  function NodesOf(es: seq<Entry>): nat {
    if es == [] then 0 else NodesOf(es[..|es| - 1]) + Nodes(es[|es| - 1])
  }

  /** The files found so far and those still reachable from the stack. */
  ghost function Reach(stack: seq<Entry>, found: seq<CacheFile>): multiset<CacheFile> {
    multiset(found) + multiset(FilesOf(stack))
  }

  lemma NodesOfPush(es: seq<Entry>, e: Entry)
    ensures NodesOf(es + [e]) == NodesOf(es) + Nodes(e)
    ensures FilesOf(es + [e]) == FilesOf(es) + Files(e)
    ensures multiset(FilesOf(es + [e])) == multiset(FilesOf(es)) + multiset(Files(e))
  {
    assert (es + [e])[..|es|] == es;
  }

  lemma ReachAfterPush(stack: seq<Entry>, found: seq<CacheFile>, e: Entry)
    ensures Reach(stack + [e], found) == Reach(stack, found) + multiset(Files(e))
  {
    NodesOfPush(stack, e);
  }

  lemma ReachAfterFind(stack: seq<Entry>, found: seq<CacheFile>, f: CacheFile)
    ensures Reach(stack, found + [f]) == Reach(stack, found) + multiset{f}
  {
    assert multiset(found + [f]) == multiset(found) + multiset{f};
  }

  predicate AllDirs(stack: seq<Entry>) {
    forall i :: 0 <= i < |stack| ==> stack[i].Dir?
  }

  /** One entry is accounted for by pushing it, or by listing the file it has, if any. */
  lemma ReachDir(stack: seq<Entry>, found: seq<CacheFile>, target: multiset<CacheFile>, seen: seq<Entry>, e: Entry)
    requires Reach(stack, found) == target + multiset(FilesOf(seen))
    ensures Reach(stack + [e], found) == target + multiset(FilesOf(seen + [e]))
    ensures NodesOf(stack + [e]) == NodesOf(stack) + Nodes(e) && NodesOf(seen + [e]) == NodesOf(seen) + Nodes(e)
  {
    NodesOfPush(seen, e);
    NodesOfPush(stack, e);
    ReachAfterPush(stack, found, e);
  }

  lemma ReachFile(stack: seq<Entry>, found: seq<CacheFile>, target: multiset<CacheFile>, seen: seq<Entry>, e: Entry)
    requires Reach(stack, found) == target + multiset(FilesOf(seen)) && e.File?
    ensures Reach(stack, if e.statOk then found + [e.file] else found) == target + multiset(FilesOf(seen + [e]))
    ensures NodesOf(seen + [e]) == NodesOf(seen) + 1
  {
    NodesOfPush(seen, e);
    if e.statOk {
      ReachAfterFind(stack, found, e.file);
      assert multiset(Files(e)) == multiset{e.file};
    }
  }

  /** Part of a directory, `seen`, has been read: its files are found or reachable, its nodes counted. */
  ghost predicate Reading(stack: seq<Entry>, found: seq<CacheFile>, target: multiset<CacheFile>, nodes: nat,
                          seen: seq<Entry>)
  {
    && AllDirs(stack) && NodesOf(stack) <= nodes + NodesOf(seen)
    && Reach(stack, found) == target + multiset(FilesOf(seen))
  }

  lemma ReadingOneMore(stack: seq<Entry>, found: seq<CacheFile>, target: multiset<CacheFile>, nodes: nat,
                       seen: seq<Entry>, e: Entry)
    requires Reading(stack, found, target, nodes, seen)
    ensures e.Dir? ==> Reading(stack + [e], found, target, nodes, seen + [e])
    ensures e.File? ==> Reading(stack, if e.statOk then found + [e.file] else found, target, nodes, seen + [e])
  {
    if e.Dir? {
      ReachDir(stack, found, target, seen, e);
    } else {
      ReachFile(stack, found, target, seen, e);
    }
  }

  /** Reads one directory: subdirectories go on the stack, files into the list. */
  method ReadDir(dir: Entry, stack0: seq<Entry>, found0: seq<CacheFile>)
    returns (stack: seq<Entry>, found: seq<CacheFile>)
    requires dir.Dir? && AllDirs(stack0)
    ensures AllDirs(stack) && NodesOf(stack) < NodesOf(stack0) + Nodes(dir)
    ensures Reach(stack, found) == Reach(stack0, found0) + multiset(Files(dir))
  {
    stack, found := stack0, found0;
    if !dir.readable {
      return;
    }
    ghost var target, nodes := Reach(stack0, found0), NodesOf(stack0);
    for i := 0 to |dir.entries|
      invariant Reading(stack, found, target, nodes, dir.entries[..i])
    {
      var e := dir.entries[i];
      assert dir.entries[..i + 1] == dir.entries[..i] + [e];
      ReadingOneMore(stack, found, target, nodes, dir.entries[..i], e);
      if e.Dir? {
        stack := stack + [e];
      } else if e.statOk {
        found := found + [e.file];
      }
    }
    assert dir.entries[..|dir.entries|] == dir.entries;
  }

  /** `list_cache_files`: visits every directory once, whatever the shape of the tree. */
  method ListCacheFiles(root: Option<Entry>) returns (found: seq<CacheFile>)
    ensures root.Some? && root.value.Dir? ==> multiset(found) == multiset(Files(root.value))
    ensures root.None? || !root.value.Dir? ==> found == []
  {
    found := [];
    if root.None? || !root.value.Dir? {
      return;
    }
    var stack := [root.value];
    FilesOfOne(root.value);
    while stack != []
      invariant AllDirs(stack) && Reach(stack, found) == multiset(Files(root.value))
      decreases NodesOf(stack)
    {
      var dir, rest := stack[|stack| - 1], stack[..|stack| - 1];
      assert stack == rest + [dir];
      NodesOfPush(rest, dir);
      ReachAfterPush(rest, found, dir);
      stack, found := ReadDir(dir, rest, found);
    }
    assert Reach([], found) == multiset(found);
  }

  // ---- The two walks agree -------------------------------------------------------------------------------------

  lemma TakeOutOne(s: seq<CacheFile>, i: nat, gone: set<string>)
    requires i < |s|
    ensures multiset(s[..i] + s[i + 1..]) == multiset(s) - multiset{s[i]}
    ensures BytesBut(s, gone) == BytesBut(s[..i] + s[i + 1..], gone) + BytesBut([s[i]], gone)
  {
    var x := s[i];
    assert s == (s[..i] + [x]) + s[i + 1..];
    assert multiset(s) == multiset(s[..i]) + multiset{x} + multiset(s[i + 1..]);
    assert multiset(s[..i] + s[i + 1..]) == multiset(s[..i]) + multiset(s[i + 1..]);
    BytesOfAppend(s[..i] + [x], s[i + 1..], gone);
    BytesOfAppend(s[..i], [x], gone);
    BytesOfAppend(s[..i], s[i + 1..], gone);
  }

  lemma {:induction false} BytesOfPermutation(a: seq<CacheFile>, b: seq<CacheFile>, gone: set<string>)
    requires multiset(a) == multiset(b)
    ensures BytesBut(a, gone) == BytesBut(b, gone)
    decreases |a|
  {
    if a == [] {
      assert |b| == |multiset(b)| == 0;
    } else {
      var n := |a| - 1;
      assert a[n] in multiset(b);
      var i :| 0 <= i < |b| && b[i] == a[n];
      TakeOutOne(a, n, gone);
      TakeOutOne(b, i, gone);
      BytesOfPermutation(a[..n] + a[n + 1..], b[..i] + b[i + 1..], gone);
    }
  }

  /** The recursion and the worklist measure the same directory: whatever `DirSize` and `ListCacheFiles` may
      return on a tree, the sizes listed add up to the size computed, below saturation. */
  lemma WalksAgree(root: Entry, total: nat, found: seq<CacheFile>)
    requires root.Dir? && total == Min(Bytes(Files(root)), U64_MAX) && multiset(found) == multiset(Files(root))
    ensures total == Min(Bytes(found), U64_MAX)
  {
    BytesOfPermutation(found, Files(root), {});
  }

  // ---- Eviction ------------------------------------------------------------------------------------------------

  /** Insertion from the back: equal times keep their order, as in a stable sort. */
  function InsertByTime(s: seq<CacheFile>, f: CacheFile): seq<CacheFile> {
    if s == [] || s[|s| - 1].modified <= f.modified then s + [f]
    else InsertByTime(s[..|s| - 1], f) + [s[|s| - 1]]
  }

  function SortByTime(s: seq<CacheFile>): seq<CacheFile> {
    if s == [] then [] else InsertByTime(SortByTime(s[..|s| - 1]), s[|s| - 1])
  }

  predicate OldestFirst(s: seq<CacheFile>) {
    forall i, j :: 0 <= i < j < |s| ==> s[i].modified <= s[j].modified
  }

  lemma {:induction false} InsertMembers(s: seq<CacheFile>, f: CacheFile)
    ensures multiset(InsertByTime(s, f)) == multiset(s) + multiset{f}
  {
    if s != [] && s[|s| - 1].modified > f.modified {
      var n := |s| - 1;
      InsertMembers(s[..n], f);
      MembersOfSnoc(s[..n], s[n]);
      MembersOfSnoc(InsertByTime(s[..n], f), s[n]);
      assert s == s[..n] + [s[n]];
    }
  }

  lemma MembersOfSnoc(s: seq<CacheFile>, f: CacheFile)
    ensures multiset(s + [f]) == multiset(s) + multiset{f}
  {
  }

  lemma InsertFinds(s: seq<CacheFile>, f: CacheFile)
    ensures forall x :: x in InsertByTime(s, f) ==> x in s || x == f
  {
    InsertMembers(s, f);
    forall x | x in InsertByTime(s, f) ensures x in s || x == f {
      assert x in multiset(InsertByTime(s, f));
    }
  }

  lemma {:induction false} InsertKeepsOrder(s: seq<CacheFile>, f: CacheFile)
    requires OldestFirst(s)
    ensures OldestFirst(InsertByTime(s, f))
  {
    if s != [] && s[|s| - 1].modified > f.modified {
      var n := |s| - 1;
      var t := InsertByTime(s[..n], f);
      InsertKeepsOrder(s[..n], f);
      InsertFinds(s[..n], f);
      forall i | 0 <= i < |t| ensures t[i].modified <= s[n].modified {
        assert t[i] in t;
      }
    }
  }

  lemma {:induction false} SortSorts(s: seq<CacheFile>)
    ensures OldestFirst(SortByTime(s)) && multiset(SortByTime(s)) == multiset(s)
  {
    if s != [] {
      var n := |s| - 1;
      assert s == s[..n] + [s[n]];
      SortSorts(s[..n]);
      InsertKeepsOrder(SortByTime(s[..n]), s[n]);
      InsertMembers(SortByTime(s[..n]), s[n]);
    }
  }

  function OfTime(s: seq<CacheFile>, time: int): seq<CacheFile> {
    if s == [] then []
    else OfTime(s[..|s| - 1], time) + if s[|s| - 1].modified == time then [s[|s| - 1]] else []
  }

  lemma OfTimeMore(s: seq<CacheFile>, f: CacheFile, time: int)
    ensures OfTime(s + [f], time) == OfTime(s, time) + if f.modified == time then [f] else []
  {
    assert (s + [f])[..|s|] == s;
  }

  lemma EitherOrder<T>(x: seq<T>, a: seq<T>, b: seq<T>)
    requires a == [] || b == []
    ensures (x + a) + b == (x + b) + a
  {
  }

  lemma {:induction false} InsertIsStable(s: seq<CacheFile>, f: CacheFile, time: int)
    requires OldestFirst(s)
    ensures OfTime(InsertByTime(s, f), time) == OfTime(s, time) + if f.modified == time then [f] else []
  {
    if s == [] || s[|s| - 1].modified <= f.modified {
      OfTimeMore(s, f, time);
    } else {
      var n := |s| - 1;
      InsertIsStable(s[..n], f, time);
      OfTimeMore(InsertByTime(s[..n], f), s[n], time);
      EitherOrder(OfTime(s[..n], time), if f.modified == time then [f] else [],
                  if s[n].modified == time then [s[n]] else []);
    }
  }

  /** Files of the same time stay in the order they were listed in. */
  lemma {:induction false} SortIsStable(s: seq<CacheFile>, time: int)
    ensures OfTime(SortByTime(s), time) == OfTime(s, time)
  {
    if s != [] {
      SortIsStable(s[..|s| - 1], time);
      SortSorts(s[..|s| - 1]);
      InsertIsStable(SortByTime(s[..|s| - 1]), s[|s| - 1], time);
    }
  }

  /** The files of `s` that can be removed, in order. */
  function Picked(s: seq<CacheFile>, removable: CacheFile -> bool): seq<CacheFile> {
    if s == [] then []
    else Picked(s[..|s| - 1], removable) + if removable(s[|s| - 1]) then [s[|s| - 1]] else []
  }

  lemma {:induction false} PickedBytes(s: seq<CacheFile>, removable: CacheFile -> bool)
    ensures Bytes(Picked(s, removable)) <= Bytes(s)
  {
    if s != [] {
      var n := |s| - 1;
      PickedBytes(s[..n], removable);
      BytesOfAppend(Picked(s[..n], removable), [s[n]], {});
      assert [s[n]][..0] == [];
      assert Picked(s[..n], removable) + [] == Picked(s[..n], removable);
    }
  }

  lemma PickedOneMore(s: seq<CacheFile>, k: nat, removable: CacheFile -> bool)
    requires k < |s|
    ensures Picked(s[..k + 1], removable) == Picked(s[..k], removable) + if removable(s[k]) then [s[k]] else []
    ensures Bytes(Picked(s[..k + 1], removable)) ==
            Bytes(Picked(s[..k], removable)) + if removable(s[k]) then s[k].size else 0
    ensures Bytes(s[..k + 1]) == Bytes(s[..k]) + s[k].size
  {
    assert s[..k + 1][..k] == s[..k];
    BytesOfAppend(Picked(s[..k], removable), [s[k]], {});
    assert [s[k]][..0] == [];
    assert Picked(s[..k], removable) + [] == Picked(s[..k], removable);
  }

  lemma BytesOfPrefix(s: seq<CacheFile>, k: nat)
    requires k <= |s|
    ensures Bytes(s[..k]) <= Bytes(s)
  {
    BytesOfAppend(s[..k], s[k..], {});
    assert s[..k] + s[k..] == s;
  }

  /** Removing in order until the tracked total, which begins at `start`, is within the limit or nothing is left
      to try. */
  ghost predicate Evicted(sorted: seq<CacheFile>, limit: nat, removable: CacheFile -> bool, start: nat,
                          removed: seq<CacheFile>, total: nat, tried: nat)
  {
    && tried <= |sorted| && removed == Picked(sorted[..tried], removable)
    && total == SaturatingSub(start, Bytes(removed)) && (total <= limit || tried == |sorted|)
    && TooFullBefore(sorted, limit, removable, start, tried)
  }

  /** No shorter round of removals would have done. */
  ghost predicate TooFullBefore(sorted: seq<CacheFile>, limit: nat, removable: CacheFile -> bool, start: nat,
                                tried: nat)
    requires tried <= |sorted|
  {
    forall k :: 0 <= k < tried ==> SaturatingSub(start, Bytes(Picked(sorted[..k], removable))) > limit
  }

  method RemoveOldest(sorted: seq<CacheFile>, limit: nat, removable: CacheFile -> bool, start: nat)
    returns (removed: seq<CacheFile>, total: nat, ghost tried: nat)
    ensures Evicted(sorted, limit, removable, start, removed, total, tried)
  {
    total, removed, tried := start, [], 0;
    assert sorted[..0] == [];
    var i := 0;
    while i < |sorted| && total > limit
      invariant tried == i <= |sorted| && removed == Picked(sorted[..i], removable)
      invariant total == SaturatingSub(start, Bytes(removed))
      invariant TooFullBefore(sorted, limit, removable, start, i)
    {
      PickedOneMore(sorted, i, removable);
      if removable(sorted[i]) {
        removed := removed + [sorted[i]];
        total := SaturatingSub(total, sorted[i].size);
      }
      i := i + 1;
      tried := i;
    }
  }

  /** The files under a directory; none if it is missing or no directory. */
  function Under(root: Option<Entry>): seq<CacheFile> {
    if root.Some? && root.value.Dir? then Files(root.value) else []
  }

  /** `evict_cache_if_needed`, where `removable` says which removals succeed. The first `tried` files in age order
      were attempted; the tracked total is the one measured less what went; eviction stopped as soon as the total was
      within the limit, and only then or with nothing left to try. */
  method EvictCacheIfNeeded(root: Option<Entry>, limit: nat, removable: CacheFile -> bool)
    returns (removed: seq<CacheFile>, total: nat, ghost sorted: seq<CacheFile>, ghost tried: nat)
    ensures OldestFirst(sorted) && multiset(sorted) == multiset(Under(root))
    ensures Evicted(sorted, limit, removable, Min(Bytes(sorted), U64_MAX), removed, total, tried)
    ensures Bytes(Under(root)) <= U64_MAX ==> total + Bytes(removed) == Bytes(Under(root))
    ensures total <= limit || removed == Picked(sorted, removable)
  {
    total := 0;
    if root.Some? {
      total := DirSize(root.value);
    }
    var entries := ListCacheFiles(root);
    SortSorts(entries);
    sorted := SortByTime(entries);
    BytesOfPermutation(sorted, Under(root), {});
    if total <= limit {
      NothingEvicted(sorted, limit, removable, total);
      return [], total, sorted, 0;
    }
    removed, total, tried := RemoveOldest(SortByTime(entries), limit, removable, total);
    EvictedAddsUp(sorted, limit, removable, removed, total, tried);
  }

  lemma NothingEvicted(sorted: seq<CacheFile>, limit: nat, removable: CacheFile -> bool, start: nat)
    requires start <= limit
    ensures Evicted(sorted, limit, removable, start, [], start, 0) && Bytes([]) == 0
  {
    assert sorted[..0] == [];
  }

  lemma EvictedAddsUp(sorted: seq<CacheFile>, limit: nat, removable: CacheFile -> bool,
                      removed: seq<CacheFile>, total: nat, tried: nat)
    requires Evicted(sorted, limit, removable, Min(Bytes(sorted), U64_MAX), removed, total, tried)
    ensures Bytes(sorted) <= U64_MAX ==> total + Bytes(removed) == Bytes(sorted)
    ensures total <= limit || removed == Picked(sorted, removable)
  {
    RemovedIsPart(sorted, tried, removable);
    assert sorted[..|sorted|] == sorted;
  }

  lemma RemovedIsPart(s: seq<CacheFile>, k: nat, removable: CacheFile -> bool)
    requires k <= |s|
    ensures Bytes(Picked(s[..k], removable)) <= Bytes(s[..k]) <= Bytes(s)
  {
    PickedBytes(s[..k], removable);
    BytesOfPrefix(s, k);
  }

  lemma {:induction false} PickedAll(s: seq<CacheFile>, removable: CacheFile -> bool)
    requires forall f :: f in s ==> removable(f)
    ensures Picked(s, removable) == s
  {
    if s != [] {
      var n := |s| - 1;
      assert s == s[..n] + [s[n]];
      PickedAll(s[..n], removable);
    }
  }

  /** When every removal works, what goes is the shortest oldest-first prefix that brings the total to the limit. A
      cache too big for 64 bits is measured too small, so it may be left too full, but never cut too short. */
  lemma EvictionIsTheShortestPrefix(sorted: seq<CacheFile>, limit: nat, removable: CacheFile -> bool,
                                    removed: seq<CacheFile>, total: nat, tried: nat)
    requires Evicted(sorted, limit, removable, Min(Bytes(sorted), U64_MAX), removed, total, tried)
    requires forall f :: f in sorted ==> removable(f)
    ensures removed == sorted[..tried]
    ensures Bytes(sorted) <= U64_MAX ==> Bytes(sorted) - Bytes(removed) <= limit
    ensures forall k :: 0 <= k < tried ==> Bytes(sorted) - Bytes(sorted[..k]) > limit
  {
    forall k | 0 <= k <= tried
      ensures Picked(sorted[..k], removable) == sorted[..k] && Bytes(sorted[..k]) <= Bytes(sorted)
    {
      PickedAll(sorted[..k], removable);
      BytesOfPrefix(sorted, k);
    }
    assert sorted[..|sorted|] == sorted;
  }

  // ---- What is on disk afterwards ------------------------------------------------------------------------------

  /** The tree with the files at `gone` deleted. */
  function Prune(e: Entry, gone: set<string>): Entry {
    match e
    case File(f, ok) => e
    case Dir(es, ok) => Dir(PruneAll(es, gone), ok)
  }

  function PruneAll(es: seq<Entry>, gone: set<string>): seq<Entry> {
    if es == [] then []
    else
      var e := es[|es| - 1];
      PruneAll(es[..|es| - 1], gone) + if e.File? && e.file.path in gone then [] else [Prune(e, gone)]
  }

  lemma {:induction false} PruneLeavesTheRest(e: Entry, gone: set<string>)
    requires e.Dir?
    ensures Bytes(Files(Prune(e, gone))) == BytesBut(Files(e), gone)
    decreases e, 0
  {
    PruneAllLeavesTheRest(e.entries, gone);
  }

  lemma BytesOfSingle(f: CacheFile, gone: set<string>)
    ensures BytesBut([f], gone) == if f.path in gone then 0 else f.size
  {
    assert [f][..0] == [];
  }

  lemma PruneAllOfOne(e: Entry, gone: set<string>)
    ensures PruneAll([e], gone) == if e.File? && e.file.path in gone then [] else [Prune(e, gone)]
  {
    assert [e][..0] == [];
  }

  lemma BytesOfOneFile(e: Entry, gone: set<string>)
    requires e.File?
    ensures Bytes(FilesOf(PruneAll([e], gone))) == BytesBut(Files(e), gone)
  {
    PruneAllOfOne(e, gone);
    FilesOfOne(e);
    if e.statOk {
      BytesOfSingle(e.file, gone);
      BytesOfSingle(e.file, {});
    }
  }

  lemma PruneAllSplit(es: seq<Entry>, n: nat, gone: set<string>)
    requires |es| == n + 1
    ensures FilesOf(PruneAll(es, gone)) == FilesOf(PruneAll(es[..n], gone)) + FilesOf(PruneAll([es[n]], gone))
  {
    PruneAllOfOne(es[n], gone);
    assert PruneAll(es, gone) == PruneAll(es[..n], gone) + PruneAll([es[n]], gone);
    FilesOfAppend(PruneAll(es[..n], gone), PruneAll([es[n]], gone));
  }

  lemma {:induction false} PruneAllLeavesTheRest(es: seq<Entry>, gone: set<string>)
    ensures Bytes(FilesOf(PruneAll(es, gone))) == BytesBut(FilesOf(es), gone)
    decreases es
  {
    if es != [] {
      var n, e := |es| - 1, es[|es| - 1];
      PruneAllLeavesTheRest(es[..n], gone);
      PruneAllSplit(es, n, gone);
      BytesOfAppend(FilesOf(es[..n]), Files(e), gone);
      BytesOfAppend(FilesOf(PruneAll(es[..n], gone)), FilesOf(PruneAll([e], gone)), {});
      if e.Dir? {
        PruneLeavesTheRest(e, gone);
        PruneAllOfOne(e, gone);
        FilesOfOne(Prune(e, gone));
      } else {
        BytesOfOneFile(e, gone);
      }
    }
  }

  ghost predicate DistinctPaths(s: seq<CacheFile>) {
    forall i, j :: 0 <= i < j < |s| ==> s[i].path != s[j].path
  }

  ghost function Paths(s: seq<CacheFile>): set<string> {
    set f | f in s :: f.path
  }

  lemma {:induction false} BytesWithoutPicked(s: seq<CacheFile>, k: nat, removable: CacheFile -> bool,
                                              gone: set<string>)
    requires k <= |s|
    requires forall i :: 0 <= i < |s| ==> (s[i].path in gone <==> i < k && removable(s[i]))
    ensures BytesBut(s, gone) + Bytes(Picked(s[..k], removable)) == Bytes(s)
  {
    if s != [] {
      var n := |s| - 1;
      assert forall i :: 0 <= i < n ==> s[..n][i] == s[i];
      if k == |s| {
        BytesWithoutPicked(s[..n], n, removable, gone);
        assert s[..n][..n] == s[..n] && s[..k] == s;
        PickedOneMore(s, n, removable);
      } else {
        BytesWithoutPicked(s[..n], k, removable, gone);
        assert s[..n][..k] == s[..k];
      }
    }
  }

  lemma {:induction false} PickedMembers(s: seq<CacheFile>, removable: CacheFile -> bool)
    ensures forall f :: f in Picked(s, removable) <==> f in s && removable(f)
  {
    if s != [] {
      var n := |s| - 1;
      assert s == s[..n] + [s[n]];
      PickedMembers(s[..n], removable);
    }
  }

  lemma PickedPaths(s: seq<CacheFile>, k: nat, removable: CacheFile -> bool)
    requires k <= |s| && DistinctPaths(s)
    ensures forall i :: 0 <= i < |s| ==> (s[i].path in Paths(Picked(s[..k], removable)) <==> i < k && removable(s[i]))
  {
    var gone := Paths(Picked(s[..k], removable));
    PickedMembers(s[..k], removable);
    forall i | 0 <= i < |s| ensures s[i].path in gone <==> i < k && removable(s[i]) {
      if i < k && removable(s[i]) {
        assert s[..k][i] == s[i];
      }
      if s[i].path in gone {
        var f :| f in Picked(s[..k], removable) && f.path == s[i].path;
        var j :| 0 <= j < k && s[..k][j] == f;
        assert s[j] == f;
      }
    }
  }

  /** A new walk of the directory finds what was there less what was removed: the total that eviction tracked,
      unless the cache was too big for 64 bits. */
  lemma TrackedTotalIsOnDisk(root: Entry, sorted: seq<CacheFile>, limit: nat, removable: CacheFile -> bool,
                             removed: seq<CacheFile>, total: nat, tried: nat)
    requires root.Dir? && multiset(sorted) == multiset(Files(root)) && DistinctPaths(sorted)
    requires Evicted(sorted, limit, removable, Min(Bytes(sorted), U64_MAX), removed, total, tried)
    ensures Bytes(Files(Prune(root, Paths(removed)))) == Bytes(Files(root)) - Bytes(removed) >= total
    ensures Bytes(Files(root)) <= U64_MAX ==> Bytes(Files(Prune(root, Paths(removed)))) == total
  {
    var gone := Paths(removed);
    PruneLeavesTheRest(root, gone);
    BytesOfPermutation(sorted, Files(root), gone);
    BytesOfPermutation(sorted, Files(root), {});
    PickedPaths(sorted, tried, removable);
    BytesWithoutPicked(sorted, tried, removable, gone);
  }
}
