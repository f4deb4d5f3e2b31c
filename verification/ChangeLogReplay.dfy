/**
  Replaying one storage's change log, keyed by file id or by path, against what is visible.

  Neither replay is right after every statement, so each run carries what the log currently has
  wrong: ids and paths still listed although nothing visible is there any more (`limbo`, `stale`),
  and paths missing although a visible file is there (`lost`). The main theorems say that the replay is
  the visible set up to exactly these.
 */
module ChangeLogReplay {
  import opened Options
  import opened ChangeLog

  datatype Content = Content(path: string, size: int, hash: Option<string>, mtime: Option<string>)
  datatype Holder = Holder(id: FileId, content: Content)

  function ContentOf(r: Row): Content {
    Content(r.path, r.size, r.hash, r.mtime)
  }

  // ---- Replays ---------------------------------------------------------------------------------------

  function ApplyById(s: StorageId, m: map<FileId, Content>, e: Event): map<FileId, Content> {
    if e.storage != s then m
    else if e.op == Upsert then m[e.fileId := Content(e.path, e.size, e.hash, e.mtime)]
    else m - {e.fileId}
  }

  function ReplayById(s: StorageId, log: seq<Event>): map<FileId, Content> {
    if log == [] then map[] else ApplyById(s, ReplayById(s, log[..|log| - 1]), log[|log| - 1])
  }

  function ApplyByPath(s: StorageId, m: map<string, Holder>, e: Event): map<string, Holder> {
    if e.storage != s then m
    else if e.op == Upsert then m[e.path := Holder(e.fileId, Content(e.path, e.size, e.hash, e.mtime))]
    else m - {e.path}
  }

  function ReplayByPath(s: StorageId, log: seq<Event>): map<string, Holder> {
    if log == [] then map[] else ApplyByPath(s, ReplayByPath(s, log[..|log| - 1]), log[|log| - 1])
  }

  // ---- What is visible -----------------------------------------------------------------------------

  /** What clients are meant to see, column by column: live, and uploaded or a path ending in a slash. */
  predicate Shown(r: Row) {
    r.deletedAt.None? && (r.uploaded != 0 || (r.path != "" && r.path[|r.path| - 1] == '/'))
  }

  predicate VisibleIn(files: map<FileId, Row>, s: StorageId, id: FileId) {
    id in files && files[id].storage == s && Shown(files[id])
  }

  predicate VisibleAt(files: map<FileId, Row>, s: StorageId, path: string) {
    exists id :: id in files && VisibleIn(files, s, id) && files[id].path == path
  }

  ghost predicate AgreesById(db: Db, s: StorageId) {
    var m := ReplayById(s, db.events);
    forall id :: (id in m <==> VisibleIn(db.files, s, id)) && (id in m ==> m[id] == ContentOf(db.files[id]))
  }

  ghost predicate AgreesByPath(db: Db, s: StorageId) {
    var m := ReplayByPath(s, db.events);
    (forall p :: p in m <==> VisibleAt(db.files, s, p)) &&
    (forall id :: VisibleIn(db.files, s, id) ==> m[db.files[id].path] == Holder(id, ContentOf(db.files[id])))
  }

  // ---- The statements the log does not follow ---------------------------------------------------------

  /** A live row stops being stored at an unchanged path: it is hidden without an event. */
  predicate Silent(o: Row, n: Row) {
    o.path == n.path && Visible(o) && n.deletedAt.None? && !Visible(n)
  }

  /** Some visible row other than `id` is at `p`. */
  predicate OtherAt(files: map<FileId, Row>, s: StorageId, id: FileId, p: string) {
    exists j :: j in files && j != id && VisibleIn(files, s, j) && files[j].path == p
  }

  /** The statement takes a trashed row off a path that a visible file now holds. */
  predicate Stomps(db: Db, st: Statement) {
    && Admissible(db, st)
    && (st.Remove? || (st.Update? && st.change.path != db.files[st.id].path))
    && db.files[st.id].deletedAt.Some?
    && OtherAt(db.files, db.files[st.id].storage, st.id, db.files[st.id].path)
  }

  predicate IsSilent(db: Db, st: Statement) {
    st.Update? && Admissible(db, st) && Silent(db.files[st.id], Changed(db.files[st.id], st.change))
  }

  // ---- Invariants of the table -----------------------------------------------------------------------

  predicate SamePlace(a: Row, b: Row) {
    a.deletedAt.None? && b.deletedAt.None? && a.storage == b.storage && a.path == b.path
  }

  /** Files belong to existing storages, and no two live rows share a place. */
  ghost predicate TableOk(db: Db) {
    && (forall id :: id in db.files ==> db.files[id].storage in db.storages)
    && (forall i, j :: i in db.files && j in db.files && i != j ==> !SamePlace(db.files[i], db.files[j]))
  }

  lemma StepKeepsTable(db: Db, st: Statement)
    requires TableOk(db)
    ensures TableOk(Step(db, st))
  {
  }

  // ---- Replay of a longer log ---------------------------------------------------------------------------

  lemma ReplayOne(s: StorageId, log: seq<Event>, e: Event)
    ensures ReplayById(s, log + [e]) == ApplyById(s, ReplayById(s, log), e)
    ensures ReplayByPath(s, log + [e]) == ApplyByPath(s, ReplayByPath(s, log), e)
  {
    assert (log + [e])[..|log|] == log;
  }

  /** A statement appends at most two events. */
  lemma ReplayFewById(s: StorageId, log: seq<Event>, es: seq<Event>)
    requires |es| <= 2
    ensures ReplayById(s, log + es) ==
            if |es| == 0 then ReplayById(s, log)
            else if |es| == 1 then ApplyById(s, ReplayById(s, log), es[0])
            else ApplyById(s, ApplyById(s, ReplayById(s, log), es[0]), es[1])
  {
    SplitFew(log, es);
    if |es| > 0 { ReplayOne(s, log, es[0]); }
    if |es| > 1 { ReplayOne(s, log + [es[0]], es[1]); }
  }

  lemma ReplayFewByPath(s: StorageId, log: seq<Event>, es: seq<Event>)
    requires |es| <= 2
    ensures ReplayByPath(s, log + es) ==
            if |es| == 0 then ReplayByPath(s, log)
            else if |es| == 1 then ApplyByPath(s, ReplayByPath(s, log), es[0])
            else ApplyByPath(s, ApplyByPath(s, ReplayByPath(s, log), es[0]), es[1])
  {
    SplitFew(log, es);
    if |es| > 0 { ReplayOne(s, log, es[0]); }
    if |es| > 1 { ReplayOne(s, log + [es[0]], es[1]); }
  }

  lemma SplitFew(log: seq<Event>, es: seq<Event>)
    requires |es| <= 2
    ensures log + es == if |es| == 0 then log else if |es| == 1 then log + [es[0]] else (log + [es[0]]) + [es[1]]
  {
  }

  lemma {:induction false} ReplayWithoutStorage(s: StorageId, gone: StorageId, log: seq<Event>)
    ensures ReplayById(s, WithoutStorage(log, gone)) == if s == gone then map[] else ReplayById(s, log)
    ensures ReplayByPath(s, WithoutStorage(log, gone)) == if s == gone then map[] else ReplayByPath(s, log)
  {
    if log != [] {
      var n := |log| - 1;
      ReplayWithoutStorage(s, gone, log[..n]);
      ReplayOne(s, WithoutStorage(log[..n], gone), log[n]);
    }
  }

  // ---- Replay by file id ---------------------------------------------------------------------------------

  function LimboStep(db: Db, s: StorageId, limbo: set<FileId>, st: Statement): set<FileId> {
    if !Admissible(db, st) then limbo
    else
      match st
      case Update(id, c, _) =>
        if db.files[id].storage != s then limbo
        else if IsSilent(db, st) then limbo + {id}
        else if UpdateEvents(id, db.files[id], Changed(db.files[id], c)) != [] then limbo - {id}
        else limbo
      case Remove(id) => limbo - {id}
      case DropStorage(g) => if g == s then {} else limbo
      case _ => limbo
  }

  /** The replay lists the visible files with their current content, and besides them the ids in limbo,
      whose rows are live but hidden. */
  ghost predicate IdBooks(files: map<FileId, Row>, m: map<FileId, Content>, s: StorageId, limbo: set<FileId>) {
    && (forall id :: id in m <==> VisibleIn(files, s, id) || id in limbo)
    && (forall id :: VisibleIn(files, s, id) ==> m[id] == ContentOf(files[id]))
    && (forall id :: id in limbo ==> InLimbo(files, s, id))
  }

  predicate InLimbo(files: map<FileId, Row>, s: StorageId, id: FileId) {
    id in files && files[id].storage == s && files[id].deletedAt.None? && !Visible(files[id])
  }

  /** One row takes a new value `r` and the replay is changed at that id only. */
  lemma IdRowChange(files: map<FileId, Row>, m: map<FileId, Content>, s: StorageId, limbo: set<FileId>,
                    id: FileId, r: Row, m': map<FileId, Content>, limbo': set<FileId>)
    requires IdBooks(files, m, s, limbo)
    requires id in files ==> files[id].storage == r.storage
    requires forall j :: j != id ==>
               (j in m <==> j in m') && (j in m ==> m[j] == m'[j]) && (j in limbo <==> j in limbo')
    requires id in m' <==> (r.storage == s && Visible(r)) || id in limbo'
    requires r.storage == s && Visible(r) ==> m'[id] == ContentOf(r)
    requires id in limbo' ==> r.storage == s && r.deletedAt.None? && !Visible(r)
    ensures IdBooks(files[id := r], m', s, limbo')
  {
    var files' := files[id := r];
    forall j ensures (j in m' <==> VisibleIn(files', s, j) || j in limbo') &&
                     (VisibleIn(files', s, j) ==> m'[j] == ContentOf(files'[j])) &&
                     (j in limbo' ==> InLimbo(files', s, j)) {
      if j != id {
        assert VisibleIn(files', s, j) <==> VisibleIn(files, s, j);
        assert InLimbo(files', s, j) <==> InLimbo(files, s, j);
      }
    }
  }

  ghost predicate IdInv(db: Db, s: StorageId, limbo: set<FileId>) {
    IdBooks(db.files, ReplayById(s, db.events), s, limbo)
  }

  lemma PutBack<K, V>(m: map<K, V>, k: K, v: V)
    ensures (m - {k})[k := v] == m[k := v]
  {
  }

  lemma RenameSpeaks(s: StorageId, log: seq<Event>, id: FileId, o: Row, n: Row)
    requires o.storage == n.storage == s && o.path != n.path
    ensures var m := ReplayById(s, log);
            ReplayById(s, log + UpdateEvents(id, o, n)) == if Visible(n) then m[id := ContentOf(n)] else m - {id}
  {
    ReplayFewById(s, log, UpdateEvents(id, o, n));
    PutBack(ReplayById(s, log), id, ContentOf(n));
  }

  lemma ChangeSpeaks(s: StorageId, log: seq<Event>, id: FileId, o: Row, n: Row)
    requires o.storage == n.storage == s && o.path == n.path
    ensures var m := ReplayById(s, log);
            ReplayById(s, log + UpdateEvents(id, o, n)) ==
            if UpdateEvents(id, o, n) == [] then m else if Visible(n) then m[id := ContentOf(n)] else m - {id}
  {
    ReplayFewById(s, log, UpdateEvents(id, o, n));
  }

  lemma ElsewhereSpeaks(s: StorageId, log: seq<Event>, id: FileId, o: Row, n: Row)
    requires o.storage == n.storage != s
    ensures ReplayById(s, log + UpdateEvents(id, o, n)) == ReplayById(s, log)
  {
    ReplayFewById(s, log, UpdateEvents(id, o, n));
  }

  /** Whatever an update writes to the log, it leaves the id as the new row has it. */
  lemma UpdateHasTheLastWord(s: StorageId, log: seq<Event>, id: FileId, o: Row, n: Row)
    requires o.storage == n.storage
    ensures var m, es := ReplayById(s, log), UpdateEvents(id, o, n);
            ReplayById(s, log + es) ==
            if o.storage != s || es == [] then m
            else if Visible(n) then m[id := ContentOf(n)] else m - {id}
  {
    if o.storage != s {
      ElsewhereSpeaks(s, log, id, o, n);
    } else if o.path != n.path {
      RenameSpeaks(s, log, id, o, n);
    } else {
      ChangeSpeaks(s, log, id, o, n);
    }
  }

  lemma IdUpdate(db: Db, s: StorageId, m: map<FileId, Content>, limbo: set<FileId>, st: Statement)
    requires IdBooks(db.files, m, s, limbo) && st.Update? && Admissible(db, st)
    ensures var o := db.files[st.id];
            var n := Changed(o, st.change);
            IdBooks(db.files[st.id := Touched(o, n, st.now)],
                    if o.storage != s || UpdateEvents(st.id, o, n) == [] then m
                    else if Visible(n) then m[st.id := ContentOf(n)] else m - {st.id},
                    s, LimboStep(db, s, limbo, st))
  {
    var o := db.files[st.id];
    var n := Changed(o, st.change);
    var t := Touched(o, n, st.now);
    var m' := if o.storage != s || UpdateEvents(st.id, o, n) == [] then m
              else if Visible(n) then m[st.id := ContentOf(n)] else m - {st.id};
    assert VisibleIn(db.files, s, st.id) <==> o.storage == s && Visible(o);
    assert st.id in limbo ==> InLimbo(db.files, s, st.id);
    assert Visible(t) == Visible(n) && ContentOf(t) == ContentOf(n);
    IdRowChange(db.files, m, s, limbo, st.id, t, m', LimboStep(db, s, limbo, st));
  }

  lemma IdInsert(db: Db, s: StorageId, limbo: set<FileId>, st: Statement)
    requires IdInv(db, s, limbo) && st.Insert? && Admissible(db, st)
    ensures IdInv(Step(db, st), s, limbo)
  {
    ReplayFewById(s, db.events, InsertEvents(st.id, st.row));
    assert !VisibleIn(db.files, s, st.id) && !InLimbo(db.files, s, st.id);
    IdRowChange(db.files, ReplayById(s, db.events), s, limbo, st.id, st.row, ReplayById(s, Step(db, st).events), limbo);
  }

  lemma RemoveReplayById(s: StorageId, log: seq<Event>, storages: set<StorageId>, id: FileId, o: Row)
    requires o.storage in storages
    ensures ReplayById(s, log + DeleteEvents(storages, id, o)) ==
            if o.storage != s then ReplayById(s, log) else ReplayById(s, log) - {id}
  {
    ReplayFewById(s, log, DeleteEvents(storages, id, o));
  }

  lemma IdBooksWithout(files: map<FileId, Row>, m: map<FileId, Content>, s: StorageId, limbo: set<FileId>, id: FileId)
    requires IdBooks(files, m, s, limbo) && id in files
    ensures IdBooks(files - {id}, if files[id].storage == s then m - {id} else m, s, limbo - {id})
  {
    assert files[id].storage != s ==> !VisibleIn(files, s, id) && !InLimbo(files, s, id);
    forall j ensures VisibleIn(files - {id}, s, j) <==> j != id && VisibleIn(files, s, j) {
    }
    forall j | j in limbo && j != id ensures InLimbo(files - {id}, s, j) {
      assert InLimbo(files, s, j);
    }
  }

  lemma IdDrop(db: Db, s: StorageId, limbo: set<FileId>, st: Statement)
    requires IdInv(db, s, limbo) && st.DropStorage?
    ensures IdInv(Step(db, st), s, LimboStep(db, s, limbo, st))
  {
    ReplayWithoutStorage(s, st.storage, db.events);
    var files' := Step(db, st).files;
    forall j ensures VisibleIn(files', s, j) <==> s != st.storage && VisibleIn(db.files, s, j) {
    }
    forall j | j in limbo && s != st.storage ensures InLimbo(files', s, j) {
      assert InLimbo(db.files, s, j);
    }
  }

  lemma IdStep(db: Db, s: StorageId, limbo: set<FileId>, st: Statement)
    requires IdInv(db, s, limbo) && TableOk(db)
    ensures IdInv(Step(db, st), s, LimboStep(db, s, limbo, st))
  {
    if Admissible(db, st) {
      match st
      case AddStorage(_) =>
      case DropStorage(_) => IdDrop(db, s, limbo, st);
      case Insert(_, _) => IdInsert(db, s, limbo, st);
      case Update(id, c, _) =>
        UpdateHasTheLastWord(s, db.events, id, db.files[id], Changed(db.files[id], c));
        IdUpdate(db, s, ReplayById(s, db.events), limbo, st);
      case Remove(id) =>
        RemoveReplayById(s, db.events, db.storages, id, db.files[id]);
        IdBooksWithout(db.files, ReplayById(s, db.events), s, limbo, id);
    }
  }

  // ---- Replay by path --------------------------------------------------------------------------------

  /** Paths the replay lists with nothing visible there, and paths it misses. */
  datatype Drift = Drift(stale: set<string>, lost: set<string>)

  const NO_DRIFT := Drift({}, {})

  function Settled(d: Drift, p: string): Drift {
    Drift(d.stale - {p}, d.lost - {p})
  }

  function DriftStep(db: Db, s: StorageId, d: Drift, st: Statement): Drift {
    if !Admissible(db, st) then d
    else
      match st
      case Insert(_, r) => if r.storage == s && Visible(r) then Settled(d, r.path) else d
      case Update(id, c, _) =>
        var o := db.files[id];
        var n := Changed(o, c);
        if o.storage != s then d
        else if IsSilent(db, st) then
          if o.path in d.lost then d.(lost := d.lost - {o.path}) else d.(stale := d.stale + {o.path})
        else if o.path != n.path then
          var left := Settled(d, o.path);
          var left := if Stomps(db, st) then left.(lost := left.lost + {o.path}) else left;
          if Visible(n) then Settled(left, n.path) else left
        else if UpdateEvents(id, o, n) != [] then Settled(d, o.path)
        else d
      case Remove(id) =>
        var o := db.files[id];
        if o.storage != s then d
        else if Stomps(db, st) then Drift(d.stale - {o.path}, d.lost + {o.path})
        else Settled(d, o.path)
      case DropStorage(g) => if g == s then NO_DRIFT else d
      case AddStorage(_) => d
  }

  /** At path `p` the replay is right up to the drift. */
  ghost predicate RightAt(files: map<FileId, Row>, m: map<string, Holder>, s: StorageId, d: Drift, p: string) {
    && (p in m <==> (VisibleAt(files, s, p) && p !in d.lost) || p in d.stale)
    && (p in d.stale ==> !VisibleAt(files, s, p))
    && (p in d.lost ==> VisibleAt(files, s, p))
    && (forall j :: VisibleIn(files, s, j) && files[j].path == p && p !in d.lost ==>
                      m[p] == Holder(j, ContentOf(files[j])))
  }

  ghost predicate PathInv(db: Db, s: StorageId, d: Drift) {
    forall p :: RightAt(db.files, ReplayByPath(s, db.events), s, d, p)
  }

  function Replaced(files: map<FileId, Row>, id: FileId, r: Option<Row>): map<FileId, Row> {
    if r.Some? then files[id := r.value] else files - {id}
  }

  predicate ShowsAt(r: Option<Row>, s: StorageId, p: string) {
    r.Some? && r.value.storage == s && Visible(r.value) && r.value.path == p
  }

  function RowOf(files: map<FileId, Row>, id: FileId): Option<Row> {
    if id in files then Some(files[id]) else None
  }

  lemma VisibleSplit(files: map<FileId, Row>, id: FileId, r: Option<Row>, s: StorageId, p: string)
    ensures VisibleAt(files, s, p) <==> ShowsAt(RowOf(files, id), s, p) || OtherAt(files, s, id, p)
    ensures VisibleAt(Replaced(files, id, r), s, p) <==> ShowsAt(r, s, p) || OtherAt(files, s, id, p)
  {
    var files' := Replaced(files, id, r);
    if VisibleAt(files', s, p) && !ShowsAt(r, s, p) {
      var j :| j in files' && VisibleIn(files', s, j) && files'[j].path == p;
      assert j != id && VisibleIn(files, s, j);
    }
    if ShowsAt(r, s, p) {
      assert VisibleIn(files', s, id);
    }
    if ShowsAt(RowOf(files, id), s, p) {
      assert VisibleIn(files, s, id);
    }
    if j :| j in files && j != id && VisibleIn(files, s, j) && files[j].path == p {
      assert j in files' && VisibleIn(files', s, j);
    }
  }

  /** A path where neither the row nor the replay nor the drift changed stays right. */
  lemma RightElsewhere(files: map<FileId, Row>, m: map<string, Holder>, m': map<string, Holder>, s: StorageId,
                       d: Drift, d': Drift, id: FileId, r: Option<Row>, p: string)
    requires RightAt(files, m, s, d, p)
    requires (p in m <==> p in m') && (p in m ==> m[p] == m'[p])
    requires (p in d.stale <==> p in d'.stale) && (p in d.lost <==> p in d'.lost)
    requires ShowsAt(RowOf(files, id), s, p) <==> ShowsAt(r, s, p)
    requires ShowsAt(r, s, p) ==> ContentOf(files[id]) == ContentOf(r.value)
    ensures RightAt(Replaced(files, id, r), m', s, d', p)
  {
    var files' := Replaced(files, id, r);
    VisibleSplit(files, id, r, s, p);
    forall j | VisibleIn(files', s, j) && files'[j].path == p && p !in d'.lost
      ensures m'[p] == Holder(j, ContentOf(files'[j]))
    {
      assert VisibleIn(files, s, j) && files[j].path == p;
    }
  }

  /** A path the log just spoke about: with the row shown there, or with no claim at all. */
  lemma RightWhereSpoken(files: map<FileId, Row>, m': map<string, Holder>, s: StorageId, d': Drift,
                         id: FileId, r: Option<Row>, p: string)
    requires !(ShowsAt(r, s, p) && OtherAt(files, s, id, p))
    requires p !in d'.stale && (p in d'.lost <==> OtherAt(files, s, id, p))
    requires if ShowsAt(r, s, p) then p in m' && m'[p] == Holder(id, ContentOf(r.value)) else p !in m'
    ensures RightAt(Replaced(files, id, r), m', s, d', p)
  {
    var files' := Replaced(files, id, r);
    VisibleSplit(files, id, r, s, p);
    forall j | VisibleIn(files', s, j) && files'[j].path == p && p !in d'.lost
      ensures m'[p] == Holder(j, ContentOf(files'[j]))
    {
      assert j != id ==> VisibleIn(files, s, j);
    }
  }

  /** How the drift and the replay must change at `p` when row `id` becomes `r`: either the log spoke about
      `p`, or nothing changed there. */
  ghost predicate Follows(files: map<FileId, Row>, m: map<string, Holder>, m': map<string, Holder>, s: StorageId,
                          d: Drift, d': Drift, id: FileId, r: Option<Row>, p: string, spoken: bool)
  {
    if spoken then
      && !(ShowsAt(r, s, p) && OtherAt(files, s, id, p))
      && p !in d'.stale && (p in d'.lost <==> OtherAt(files, s, id, p))
      && (if ShowsAt(r, s, p) then p in m' && m'[p] == Holder(id, ContentOf(r.value)) else p !in m')
    else
      && (p in m <==> p in m') && (p in m ==> m[p] == m'[p])
      && (p in d.stale <==> p in d'.stale) && (p in d.lost <==> p in d'.lost)
      && (ShowsAt(RowOf(files, id), s, p) <==> ShowsAt(r, s, p))
      && (ShowsAt(r, s, p) ==> ContentOf(files[id]) == ContentOf(r.value))
  }

  lemma RightAfter(files: map<FileId, Row>, m: map<string, Holder>, m': map<string, Holder>, s: StorageId,
                   d: Drift, d': Drift, id: FileId, r: Option<Row>, p: string, spoken: bool)
    requires RightAt(files, m, s, d, p) && Follows(files, m, m', s, d, d', id, r, p, spoken)
    ensures RightAt(Replaced(files, id, r), m', s, d', p)
  {
    if spoken {
      RightWhereSpoken(files, m', s, d', id, r, p);
    } else {
      RightElsewhere(files, m, m', s, d, d', id, r, p);
    }
  }

  lemma InsertReplay(s: StorageId, log: seq<Event>, id: FileId, r: Row)
    ensures ReplayByPath(s, log + InsertEvents(id, r)) ==
            if r.storage == s && Visible(r) then ReplayByPath(s, log)[r.path := Holder(id, ContentOf(r))]
            else ReplayByPath(s, log)
  {
    ReplayFewByPath(s, log, InsertEvents(id, r));
  }

  lemma PathInsertAt(db: Db, s: StorageId, d: Drift, st: Statement, p: string)
    requires RightAt(db.files, ReplayByPath(s, db.events), s, d, p) && st.Insert? && Admissible(db, st)
    ensures RightAt(Step(db, st).files, ReplayByPath(s, Step(db, st).events), s, DriftStep(db, s, d, st), p)
  {
    var m, m', d' := ReplayByPath(s, db.events), ReplayByPath(s, Step(db, st).events), DriftStep(db, s, d, st);
    var spoken := ShowsAt(Some(st.row), s, p);
    assert Follows(db.files, m, m', s, d, d', st.id, Some(st.row), p, spoken) by {
      InsertReplay(s, db.events, st.id, st.row);
      if spoken { NoOtherAt(db, st.id, st.row, p); }
    }
    RightAfter(db.files, m, m', s, d, d', st.id, Some(st.row), p, spoken);
  }

  lemma PathInsert(db: Db, s: StorageId, d: Drift, st: Statement)
    requires PathInv(db, s, d) && st.Insert? && Admissible(db, st)
    ensures PathInv(Step(db, st), s, DriftStep(db, s, d, st))
  {
    forall p ensures RightAt(Step(db, st).files, ReplayByPath(s, Step(db, st).events), s, DriftStep(db, s, d, st), p) {
      assert RightAt(db.files, ReplayByPath(s, db.events), s, d, p);
      PathInsertAt(db, s, d, st, p);
    }
  }

  /** A live row that the unique index admits is alone at its path. */
  lemma NoOtherAt(db: Db, id: FileId, r: Row, p: string)
    requires r.deletedAt.None? && r.path == p && !PathTaken(db.files, id, r)
    ensures !OtherAt(db.files, r.storage, id, p)
  {
  }

  lemma RemoveReplay(s: StorageId, log: seq<Event>, storages: set<StorageId>, id: FileId, o: Row)
    requires o.storage in storages
    ensures ReplayByPath(s, log + DeleteEvents(storages, id, o)) ==
            if o.storage != s then ReplayByPath(s, log) else ReplayByPath(s, log) - {o.path}
  {
    ReplayFewByPath(s, log, DeleteEvents(storages, id, o));
  }

  lemma RemoveDrift(db: Db, d: Drift, st: Statement)
    requires TableOk(db) && st.Remove? && Admissible(db, st)
    ensures var o := db.files[st.id];
            var d' := DriftStep(db, o.storage, d, st);
            o.path !in d'.stale && (o.path in d'.lost <==> OtherAt(db.files, o.storage, st.id, o.path))
  {
    if db.files[st.id].deletedAt.None? { LiveIsAlone(db, st.id); }
  }

  lemma PathRemoveAt(db: Db, s: StorageId, m: map<string, Holder>, d: Drift, st: Statement, p: string)
    requires RightAt(db.files, m, s, d, p) && TableOk(db) && st.Remove? && Admissible(db, st)
    ensures var o := db.files[st.id];
            RightAt(db.files - {st.id}, if o.storage != s then m else m - {o.path}, s, DriftStep(db, s, d, st), p)
  {
    var o := db.files[st.id];
    var m', d' := if o.storage != s then m else m - {o.path}, DriftStep(db, s, d, st);
    var spoken := o.storage == s && p == o.path;
    assert Follows(db.files, m, m', s, d, d', st.id, None, p, spoken) by {
      RemoveDrift(db, d, st);
    }
    RightAfter(db.files, m, m', s, d, d', st.id, None, p, spoken);
  }

  lemma PathRemove(db: Db, s: StorageId, d: Drift, st: Statement)
    requires PathInv(db, s, d) && TableOk(db) && st.Remove? && Admissible(db, st)
    ensures PathInv(Step(db, st), s, DriftStep(db, s, d, st))
  {
    RemoveReplay(s, db.events, db.storages, st.id, db.files[st.id]);
    forall p ensures RightAt(Step(db, st).files, ReplayByPath(s, Step(db, st).events), s, DriftStep(db, s, d, st), p) {
      assert RightAt(db.files, ReplayByPath(s, db.events), s, d, p);
      PathRemoveAt(db, s, ReplayByPath(s, db.events), d, st, p);
    }
  }

  lemma LiveIsAlone(db: Db, id: FileId)
    requires TableOk(db) && id in db.files && db.files[id].deletedAt.None?
    ensures !OtherAt(db.files, db.files[id].storage, id, db.files[id].path)
  {
  }

  lemma PathDrop(db: Db, s: StorageId, d: Drift, st: Statement)
    requires PathInv(db, s, d) && st.DropStorage?
    ensures PathInv(Step(db, st), s, DriftStep(db, s, d, st))
  {
    ReplayWithoutStorage(s, st.storage, db.events);
    var m, files' := ReplayByPath(s, db.events), Step(db, st).files;
    forall p ensures RightAt(files', ReplayByPath(s, Step(db, st).events), s, DriftStep(db, s, d, st), p) {
      assert RightAt(db.files, m, s, d, p);
      forall j ensures VisibleIn(files', s, j) <==> s != st.storage && VisibleIn(db.files, s, j) {
      }
    }
  }

  /** A silent hide turns a path the replay lists into a stale one, and a lost path into a right one. */
  lemma RightWhenHidden(db: Db, m: map<string, Holder>, s: StorageId, d: Drift, st: Statement)
    requires TableOk(db) && IsSilent(db, st) && db.files[st.id].storage == s
    requires RightAt(db.files, m, s, d, db.files[st.id].path)
    ensures RightAt(Step(db, st).files, m, s, DriftStep(db, s, d, st), db.files[st.id].path)
  {
    var o := db.files[st.id];
    LiveIsAlone(db, st.id);
    VisibleSplit(db.files, st.id, Some(Touched(o, Changed(o, st.change), st.now)), s, o.path);
  }

  /** What an update does to the replay, path by path. */
  lemma UpdateReplay(s: StorageId, log: seq<Event>, id: FileId, o: Row, n: Row)
    requires o.storage == n.storage
    ensures var m, es := ReplayByPath(s, log), UpdateEvents(id, o, n);
            ReplayByPath(s, log + es) ==
            if o.storage != s || es == [] then m
            else if Visible(n) then (m - {o.path})[n.path := Holder(id, ContentOf(n))]
            else m - {o.path}
  {
    var m, es := ReplayByPath(s, log), UpdateEvents(id, o, n);
    ReplayFewByPath(s, log, es);
    if o.path == n.path {
      assert (m - {o.path})[n.path := Holder(id, ContentOf(n))] == m[n.path := Holder(id, ContentOf(n))];
    }
  }

  lemma RenameDrift(db: Db, d: Drift, st: Statement)
    requires TableOk(db) && st.Update? && Admissible(db, st) && db.files[st.id].path != st.change.path
    ensures var o := db.files[st.id];
            var d' := DriftStep(db, o.storage, d, st);
            o.path !in d'.stale && (o.path in d'.lost <==> OtherAt(db.files, o.storage, st.id, o.path)) &&
            (Visible(Changed(o, st.change)) ==> st.change.path !in d'.stale && st.change.path !in d'.lost) &&
            forall p :: p != o.path && (p != st.change.path || !Visible(Changed(o, st.change))) ==>
              (p in d.stale <==> p in d'.stale) && (p in d.lost <==> p in d'.lost)
  {
    if db.files[st.id].deletedAt.None? { LiveIsAlone(db, st.id); }
  }

  lemma PathRename(db: Db, s: StorageId, d: Drift, st: Statement, p: string)
    requires RightAt(db.files, ReplayByPath(s, db.events), s, d, p) && TableOk(db) && st.Update? && Admissible(db, st)
    requires db.files[st.id].storage == s && db.files[st.id].path != st.change.path
    ensures RightAt(Step(db, st).files, ReplayByPath(s, Step(db, st).events), s, DriftStep(db, s, d, st), p)
  {
    var o := db.files[st.id];
    var n := Changed(o, st.change);
    var r := Some(Touched(o, n, st.now));
    var m, m', d' := ReplayByPath(s, db.events), ReplayByPath(s, Step(db, st).events), DriftStep(db, s, d, st);
    var spoken := p == o.path || (p == n.path && Visible(n));
    assert Follows(db.files, m, m', s, d, d', st.id, r, p, spoken) by {
      UpdateReplay(s, db.events, st.id, o, n);
      RenameDrift(db, d, st);
      if p == n.path && Visible(n) { NoOtherAt(db, st.id, n, p); }
    }
    RightAfter(db.files, m, m', s, d, d', st.id, r, p, spoken);
  }

  lemma PathInPlace(db: Db, s: StorageId, d: Drift, st: Statement, p: string)
    requires RightAt(db.files, ReplayByPath(s, db.events), s, d, p) && TableOk(db) && st.Update? && Admissible(db, st)
    requires db.files[st.id].storage == s && db.files[st.id].path == st.change.path
    ensures RightAt(Step(db, st).files, ReplayByPath(s, Step(db, st).events), s, DriftStep(db, s, d, st), p)
  {
    var o := db.files[st.id];
    var n := Changed(o, st.change);
    var r := Some(Touched(o, n, st.now));
    var m, m', d' := ReplayByPath(s, db.events), ReplayByPath(s, Step(db, st).events), DriftStep(db, s, d, st);
    if p == o.path && IsSilent(db, st) {
      UpdateReplay(s, db.events, st.id, o, n);
      RightWhenHidden(db, m, s, d, st);
    } else {
      var spoken := p == o.path && UpdateEvents(st.id, o, n) != [];
      assert Follows(db.files, m, m', s, d, d', st.id, r, p, spoken) by {
        UpdateReplay(s, db.events, st.id, o, n);
        if o.deletedAt.None? { LiveIsAlone(db, st.id); } else if spoken { NoOtherAt(db, st.id, n, p); }
      }
      RightAfter(db.files, m, m', s, d, d', st.id, r, p, spoken);
    }
  }

  lemma PathUpdate(db: Db, s: StorageId, d: Drift, st: Statement)
    requires PathInv(db, s, d) && TableOk(db) && st.Update? && Admissible(db, st)
    ensures PathInv(Step(db, st), s, DriftStep(db, s, d, st))
  {
    var o := db.files[st.id];
    var n := Changed(o, st.change);
    forall p ensures RightAt(Step(db, st).files, ReplayByPath(s, Step(db, st).events), s, DriftStep(db, s, d, st), p) {
      assert RightAt(db.files, ReplayByPath(s, db.events), s, d, p);
      if o.storage != s {
        UpdateReplay(s, db.events, st.id, o, n);
        RightElsewhere(db.files, ReplayByPath(s, db.events), ReplayByPath(s, Step(db, st).events), s, d, d,
                       st.id, Some(Touched(o, n, st.now)), p);
      } else if o.path != n.path {
        PathRename(db, s, d, st, p);
      } else {
        PathInPlace(db, s, d, st, p);
      }
    }
  }

  lemma PathStep(db: Db, s: StorageId, d: Drift, st: Statement)
    requires PathInv(db, s, d) && TableOk(db)
    ensures PathInv(Step(db, st), s, DriftStep(db, s, d, st))
  {
    if Admissible(db, st) {
      match st
      case AddStorage(_) =>
        forall p ensures RightAt(Step(db, st).files, ReplayByPath(s, Step(db, st).events), s, d, p) {
          assert RightAt(db.files, ReplayByPath(s, db.events), s, d, p);
        }
      case DropStorage(_) => PathDrop(db, s, d, st);
      case Insert(_, _) => PathInsert(db, s, d, st);
      case Update(_, _, _) => PathUpdate(db, s, d, st);
      case Remove(_) => PathRemove(db, s, d, st);
    }
  }

  // ---- Runs --------------------------------------------------------------------------------------------

  function Run(db: Db, sts: seq<Statement>): Db
    decreases |sts|
  {
    if sts == [] then db else Run(Step(db, sts[0]), sts[1..])
  }

  function LimboRun(db: Db, s: StorageId, limbo: set<FileId>, sts: seq<Statement>): set<FileId>
    decreases |sts|
  {
    if sts == [] then limbo else LimboRun(Step(db, sts[0]), s, LimboStep(db, s, limbo, sts[0]), sts[1..])
  }

  function DriftRun(db: Db, s: StorageId, d: Drift, sts: seq<Statement>): Drift
    decreases |sts|
  {
    if sts == [] then d else DriftRun(Step(db, sts[0]), s, DriftStep(db, s, d, sts[0]), sts[1..])
  }

  lemma {:induction false} RunKeepsBooks(db: Db, s: StorageId, limbo: set<FileId>, d: Drift, sts: seq<Statement>)
    requires TableOk(db) && IdInv(db, s, limbo) && PathInv(db, s, d)
    ensures TableOk(Run(db, sts)) && IdInv(Run(db, sts), s, LimboRun(db, s, limbo, sts))
    ensures PathInv(Run(db, sts), s, DriftRun(db, s, d, sts))
    decreases |sts|
  {
    if sts != [] {
      StepKeepsTable(db, sts[0]);
      IdStep(db, s, limbo, sts[0]);
      PathStep(db, s, d, sts[0]);
      RunKeepsBooks(Step(db, sts[0]), s, LimboStep(db, s, limbo, sts[0]), DriftStep(db, s, d, sts[0]), sts[1..]);
    }
  }

  /** After every run of statements from the empty database, the replay by id lists exactly the visible
      files, with their current content, and the ids in limbo; so it agrees with the table exactly when
      nothing is in limbo. */
  lemma ReplayByIdIsVisibleAndLimbo(s: StorageId, sts: seq<Statement>)
    ensures var db, limbo := Run(EMPTY, sts), LimboRun(EMPTY, s, {}, sts);
            IdInv(db, s, limbo) && (AgreesById(db, s) <==> limbo == {})
  {
    RunKeepsBooks(EMPTY, s, {}, NO_DRIFT, sts);
    LimboIsDisagreement(Run(EMPTY, sts), s, LimboRun(EMPTY, s, {}, sts));
  }

  lemma LimboIsDisagreement(db: Db, s: StorageId, limbo: set<FileId>)
    requires IdInv(db, s, limbo)
    ensures AgreesById(db, s) <==> limbo == {}
  {
    if limbo != {} {
      var id :| id in limbo;
      assert InLimbo(db.files, s, id);
      assert !VisibleIn(db.files, s, id) && id in ReplayById(s, db.events);
    }
  }

  /** The same for the replay by path, which agrees with the table exactly when nothing is stale or lost. */
  lemma ReplayByPathIsVisibleUpToDrift(s: StorageId, sts: seq<Statement>)
    ensures var db, d := Run(EMPTY, sts), DriftRun(EMPTY, s, NO_DRIFT, sts);
            PathInv(db, s, d) && (AgreesByPath(db, s) <==> d == NO_DRIFT)
  {
    RunKeepsBooks(EMPTY, s, {}, NO_DRIFT, sts);
    DriftIsDisagreement(Run(EMPTY, sts), s, DriftRun(EMPTY, s, NO_DRIFT, sts));
  }

  lemma DriftIsDisagreement(db: Db, s: StorageId, d: Drift)
    requires PathInv(db, s, d)
    ensures AgreesByPath(db, s) <==> d == NO_DRIFT
  {
    var m := ReplayByPath(s, db.events);
    if d == NO_DRIFT {
      forall p ensures p in m <==> VisibleAt(db.files, s, p) {
        assert RightAt(db.files, m, s, d, p);
      }
      forall id | VisibleIn(db.files, s, id) ensures m[db.files[id].path] == Holder(id, ContentOf(db.files[id])) {
        assert RightAt(db.files, m, s, d, db.files[id].path);
      }
    } else if p :| p in d.stale {
      assert RightAt(db.files, m, s, d, p);
    } else {
      var p :| p in d.lost;
      assert RightAt(db.files, m, s, d, p);
    }
  }

  // ---- Runs without the two kinds of statement -------------------------------------------------------------

  predicate AllHeard(db: Db, sts: seq<Statement>)
    decreases |sts|
  {
    sts == [] || (!IsSilent(db, sts[0]) && AllHeard(Step(db, sts[0]), sts[1..]))
  }

  predicate NoStomp(db: Db, sts: seq<Statement>)
    decreases |sts|
  {
    sts == [] || (!Stomps(db, sts[0]) && NoStomp(Step(db, sts[0]), sts[1..]))
  }

  /** One statement takes a clean log out of step exactly when it is of one of the two kinds. */
  lemma CleanStep(db: Db, s: StorageId, st: Statement)
    ensures LimboStep(db, s, {}, st) == {} <==> !(IsSilent(db, st) && db.files[st.id].storage == s)
    ensures DriftStep(db, s, NO_DRIFT, st) == NO_DRIFT <==>
            !((IsSilent(db, st) || Stomps(db, st)) && db.files[st.id].storage == s)
  {
    if Admissible(db, st) && st.Update? {
      var p, q := db.files[st.id].path, st.change.path;
      assert Settled(NO_DRIFT, p) == NO_DRIFT && Settled(NO_DRIFT, q) == NO_DRIFT;
      assert p in NO_DRIFT.stale + {p} && st.id in {} + {st.id};
      assert p != q ==> p in Settled(Drift({}, {p}), q).lost;
    } else if Admissible(db, st) && st.Remove? {
      assert Settled(NO_DRIFT, db.files[st.id].path) == NO_DRIFT;
      assert db.files[st.id].path in Drift({}, NO_DRIFT.lost + {db.files[st.id].path}).lost;
    } else if Admissible(db, st) && st.Insert? {
      assert Settled(NO_DRIFT, st.row.path) == NO_DRIFT;
    }
  }

  lemma {:induction false} HeardRunsStayClean(db: Db, s: StorageId, sts: seq<Statement>)
    requires AllHeard(db, sts)
    ensures LimboRun(db, s, {}, sts) == {}
    ensures NoStomp(db, sts) ==> DriftRun(db, s, NO_DRIFT, sts) == NO_DRIFT
    decreases |sts|
  {
    if sts != [] {
      CleanStep(db, s, sts[0]);
      HeardRunsStayClean(Step(db, sts[0]), s, sts[1..]);
    }
  }

  /** A run in which no live row stops being stored at an unchanged path replays, by id, to exactly the
      visible files of every storage; if moreover no trashed row leaves a path that a visible file
      holds, it does so by path too. */
  lemma HeardRunsReplayExactly(s: StorageId, sts: seq<Statement>)
    requires AllHeard(EMPTY, sts)
    ensures AgreesById(Run(EMPTY, sts), s)
    ensures NoStomp(EMPTY, sts) ==> AgreesByPath(Run(EMPTY, sts), s)
  {
    HeardRunsStayClean(EMPTY, s, sts);
    ReplayByIdIsVisibleAndLimbo(s, sts);
    ReplayByPathIsVisibleUpToDrift(s, sts);
  }

  /** One statement breaks agreement by id exactly when it is silent. */
  lemma WhatBreaksAgreementById(db: Db, s: StorageId, st: Statement)
    requires TableOk(db) && AgreesById(db, s)
    ensures AgreesById(Step(db, st), s) <==> !(IsSilent(db, st) && db.files[st.id].storage == s)
  {
    assert IdInv(db, s, {});
    IdStep(db, s, {}, st);
    CleanStep(db, s, st);
    LimboIsDisagreement(Step(db, st), s, LimboStep(db, s, {}, st));
  }

  /** One statement breaks agreement by path exactly when it is silent or stomps. */
  lemma WhatBreaksAgreementByPath(db: Db, s: StorageId, st: Statement)
    requires TableOk(db) && AgreesByPath(db, s)
    ensures AgreesByPath(Step(db, st), s) <==> !((IsSilent(db, st) || Stomps(db, st)) && db.files[st.id].storage == s)
  {
    AgreementByPathIsClean(db, s);
    PathStep(db, s, NO_DRIFT, st);
    CleanStep(db, s, st);
    DriftIsDisagreement(Step(db, st), s, DriftStep(db, s, NO_DRIFT, st));
  }

  lemma AgreementByPathIsClean(db: Db, s: StorageId)
    requires AgreesByPath(db, s)
    ensures PathInv(db, s, NO_DRIFT)
  {
    forall p ensures RightAt(db.files, ReplayByPath(s, db.events), s, NO_DRIFT, p) {
    }
  }

  /** An upload replaced in place is silent: a visible file whose row goes back to not uploaded at its path is in
      limbo from then on. */
  lemma ReplacementEntersLimbo(db: Db, s: StorageId, limbo: set<FileId>, id: FileId, c: Change, now: string)
    requires IdInv(db, s, limbo) && TableOk(db) && VisibleIn(db.files, s, id) && !IsFolder(db.files[id].path)
    requires c.path == db.files[id].path && c.deletedAt.None? && c.uploaded == 0
    ensures Admissible(db, Update(id, c, now)) && IdInv(Step(db, Update(id, c, now)), s, limbo + {id})
  {
    var r := Changed(db.files[id], c);
    forall j | j in db.files && j != id
      ensures !(db.files[j].deletedAt.None? && db.files[j].storage == r.storage && db.files[j].path == r.path)
    {
      assert !SamePlace(db.files[j], db.files[id]);
    }
    IdStep(db, s, limbo, Update(id, c, now));
  }

  /** Completing such an upload repairs the log. */
  lemma CompletionHealsLimbo(db: Db, s: StorageId, limbo: set<FileId>, id: FileId, c: Change, now: string)
    requires IdInv(db, s, limbo) && TableOk(db) && id in limbo
    requires Admissible(db, Update(id, c, now)) && c.deletedAt.None? && c.uploaded != 0
    ensures IdInv(Step(db, Update(id, c, now)), s, limbo - {id})
    ensures ReplayById(s, Step(db, Update(id, c, now)).events)[id] == ContentOf(Changed(db.files[id], c))
  {
    assert InLimbo(db.files, s, id);
    IdStep(db, s, limbo, Update(id, c, now));
    assert VisibleIn(Step(db, Update(id, c, now)).files, s, id);
  }
}
