/**
  The change log of the server database: triggers on `files` append rows to `file_sync_events`.

  `Db` is the part of the database they touch. The class runs the statements and fires the triggers
  one by one; the functions say what one statement adds to the log.
 */
module ChangeLog {
  import opened Options

  type FileId = nat
  type StorageId = nat

  /** A row of `files`. `uploaded` is the integer column `is_uploaded`. */
  datatype Row = Row(path: string, size: int, storage: StorageId, uploaded: int, deletedAt: Option<string>,
                     hash: Option<string>, mtime: Option<string>, updatedAt: string)

  /** The columns an UPDATE sets; no statement of the server moves a row to another id or storage. */
  datatype Change = Change(path: string, size: int, uploaded: int, deletedAt: Option<string>,
                           hash: Option<string>, mtime: Option<string>, updatedAt: string)

  datatype EventOp = Upsert | Delete

  datatype Event = Event(storage: StorageId, fileId: FileId, path: string, op: EventOp, size: int, isFile: bool,
                         hash: Option<string>, mtime: Option<string>)

  datatype Db = Db(files: map<FileId, Row>, storages: set<StorageId>, events: seq<Event>)

  const EMPTY := Db(map[], {}, [])

  predicate IsFolder(path: string) {
    path != "" && path[|path| - 1] == '/'
  }

  /** Live, and either stored or a folder: what clients are meant to see. */
  predicate Visible(r: Row) {
    r.deletedAt.None? && (r.uploaded != 0 || IsFolder(r.path))
  }

  function Changed(r: Row, c: Change): Row {
    Row(c.path, c.size, r.storage, c.uploaded, c.deletedAt, c.hash, c.mtime, c.updatedAt)
  }

  // ---- What the triggers write ------------------------------------------------------------------

  function EventOf(id: FileId, r: Row, op: EventOp): Event {
    Event(r.storage, id, r.path, op, r.size, !IsFolder(r.path), r.hash, r.mtime)
  }

  function InsertEvents(id: FileId, r: Row): seq<Event> {
    if Visible(r) then [EventOf(id, r, Upsert)] else []
  }

  function DeleteEvents(storages: set<StorageId>, id: FileId, r: Row): seq<Event> {
    if r.storage in storages then [EventOf(id, r, Delete)] else []
  }

  predicate ContentDiffers(o: Row, n: Row) {
    o.deletedAt.Some? || o.uploaded != n.uploaded || o.size != n.size || o.hash != n.hash || o.mtime != n.mtime
  }

  function UpdateEvents(id: FileId, o: Row, n: Row): seq<Event> {
    if o.path != n.path then
      [EventOf(id, o, Delete)] + if Visible(n) then [EventOf(id, n, Upsert)] else []
    else if n.deletedAt.Some? then
      if o.deletedAt.None? then [EventOf(id, n, Delete)] else []
    else if Visible(n) && ContentDiffers(o, n) then [EventOf(id, n, Upsert)]
    else []
  }

  // ---- Statements ------------------------------------------------------------------------------------

  datatype Statement =
    | AddStorage(storage: StorageId)
    | DropStorage(storage: StorageId)
    | Insert(id: FileId, row: Row)
    | Update(id: FileId, change: Change, now: string)
    | Remove(id: FileId)

  /** The unique index on (path, storage) of live rows. */
  predicate PathTaken(files: map<FileId, Row>, id: FileId, r: Row) {
    r.deletedAt.None? &&
    exists j :: j in files && j != id && files[j].deletedAt.None? &&
                files[j].storage == r.storage && files[j].path == r.path
  }

  /** Whether the statement changes a row instead of failing a constraint or matching nothing. */
  predicate Admissible(db: Db, st: Statement) {
    match st
    case AddStorage(_) => true
    case DropStorage(_) => true
    case Insert(id, r) => id !in db.files && r.storage in db.storages && !PathTaken(db.files, id, r)
    case Update(id, c, _) => id in db.files && !PathTaken(db.files, id, Changed(db.files[id], c))
    case Remove(id) => id in db.files
  }

  function WithoutStorage(log: seq<Event>, storage: StorageId): seq<Event> {
    if log == [] then []
    else
      var rest := WithoutStorage(log[..|log| - 1], storage);
      if log[|log| - 1].storage == storage then rest else rest + [log[|log| - 1]]
  }

  /** The touch trigger refreshes `updated_at` when the statement left it alone. */
  function Touched(o: Row, n: Row, now: string): Row {
    if n.updatedAt == o.updatedAt then n.(updatedAt := now) else n
  }

  function Step(db: Db, st: Statement): Db {
    if !Admissible(db, st) then db
    else
      match st
      case AddStorage(s) => db.(storages := db.storages + {s})
      case DropStorage(s) =>
        Db(map id | id in db.files && db.files[id].storage != s :: db.files[id],
           db.storages - {s},
           WithoutStorage(db.events, s))
      case Insert(id, r) => db.(files := db.files[id := r], events := db.events + InsertEvents(id, r))
      case Update(id, c, now) =>
        var o := db.files[id];
        var n := Changed(o, c);
        db.(files := db.files[id := Touched(o, n, now)], events := db.events + UpdateEvents(id, o, n))
      case Remove(id) =>
        db.(files := db.files - {id}, events := db.events + DeleteEvents(db.storages, id, db.files[id]))
  }

  // ---- The database running its triggers -----------------------------------------------------------

  class Database {
    var files: map<FileId, Row>
    var storages: set<StorageId>
    var events: seq<Event>

    ghost function Abs(): Db
      reads this
    {
      Db(files, storages, events)
    }

    constructor ()
      ensures Abs() == EMPTY
    {
      files, storages, events := map[], {}, [];
    }

    method Append(e: Event)
      modifies `events
      ensures events == old(events) + [e]
    {
      events := events + [e];
    }

    method SyncEventInsert(id: FileId, n: Row)
      modifies `events
      ensures events == old(events) + InsertEvents(id, n)
    {
      if n.deletedAt.None? && (n.uploaded != 0 || IsFolder(n.path)) {
        Append(EventOf(id, n, Upsert));
      }
    }

    method SyncEventDelete(id: FileId, o: Row)
      modifies `events
      ensures events == old(events) + DeleteEvents(storages, id, o)
    {
      if o.storage in storages {
        Append(EventOf(id, o, Delete));
      }
    }

    /** The four guarded inserts of the update trigger, in their order. */
    method SyncEventUpdate(id: FileId, o: Row, n: Row)
      requires o.storage == n.storage
      modifies `events
      ensures events == old(events) + UpdateEvents(id, o, n)
    {
      if o.path != n.path {
        Append(EventOf(id, o, Delete));
      }
      if o.path != n.path && n.deletedAt.None? && (n.uploaded != 0 || IsFolder(n.path)) {
        Append(EventOf(id, n, Upsert));
      }
      if o.path == n.path && n.deletedAt.Some? && o.deletedAt.None? {
        Append(EventOf(id, n, Delete));
      }
      if o.path == n.path && n.deletedAt.None? && (n.uploaded != 0 || IsFolder(n.path)) &&
         (o.deletedAt.Some? || o.uploaded != n.uploaded || o.size != n.size || o.hash != n.hash || o.mtime != n.mtime)
      {
        Append(EventOf(id, n, Upsert));
      }
    }

    /** The touch trigger; its inner UPDATE fires the sync trigger too, which finds nothing to say.
        It does not fire the touch trigger again: recursive triggers are off. */
    method TouchUpdatedAt(id: FileId, o: Row, n: Row, now: string)
      requires id in files && files[id] == n
      modifies `files, `events
      ensures files == old(files)[id := Touched(o, n, now)] && events == old(events)
    {
      if n.updatedAt == o.updatedAt {
        var inner := n.(updatedAt := now);
        files := files[id := inner];
        SyncEventUpdate(id, n, inner);
      }
    }

    method InsertRow(id: FileId, r: Row) returns (ok: bool)
      modifies `files, `events
      ensures ok == Admissible(old(Abs()), Insert(id, r)) && Abs() == Step(old(Abs()), Insert(id, r))
    {
      ok := id !in files && r.storage in storages && !PathTaken(files, id, r);
      if ok {
        files := files[id := r];
        SyncEventInsert(id, r);
      }
    }

    method UpdateRow(id: FileId, c: Change, now: string) returns (ok: bool)
      modifies `files, `events
      ensures ok == Admissible(old(Abs()), Update(id, c, now)) && Abs() == Step(old(Abs()), Update(id, c, now))
    {
      ok := id in files && !PathTaken(files, id, Changed(files[id], c));
      if ok {
        var o := files[id];
        var n := Changed(o, c);
        files := files[id := n];
        TouchUpdatedAt(id, o, n, now);
        SyncEventUpdate(id, o, n);
      }
    }

    method DeleteRow(id: FileId) returns (ok: bool)
      modifies `files, `events
      ensures ok == Admissible(old(Abs()), Remove(id)) && Abs() == Step(old(Abs()), Remove(id))
    {
      ok := id in files;
      if ok {
        var o := files[id];
        files := files - {id};
        SyncEventDelete(id, o);
      }
    }

    method InsertStorage(s: StorageId)
      modifies `storages
      ensures Abs() == Step(old(Abs()), AddStorage(s))
    {
      storages := storages + {s};
    }

    /** Deleting a storage cascades to its files, whose delete trigger stays silent because the storage
        is already gone, and to its events. */
    method DeleteStorage(s: StorageId)
      modifies `files, `storages, `events
      ensures Abs() == Step(old(Abs()), DropStorage(s))
    {
      storages := storages - {s};
      ghost var before := files;
      var doomed := set id | id in files && files[id].storage == s;
      while doomed != {}
        invariant events == old(events) && storages == old(storages) - {s}
        invariant doomed <= files.Keys <= before.Keys
        invariant forall id :: id in files ==> files[id] == before[id]
        invariant forall id :: id in files ==> (files[id].storage == s <==> id in doomed)
        invariant forall id :: id in before && before[id].storage != s ==> id in files
        decreases doomed
      {
        var id :| id in doomed;
        var o := files[id];
        files := files - {id};
        SyncEventDelete(id, o);
        doomed := doomed - {id};
      }
      events := WithoutStorage(events, s);
      assert files == Step(old(Abs()), DropStorage(s)).files;
    }
  }
}
