/** What each statement announces, column by column, and which statements are refused. */
module ChangeLogEvents {
  import opened Options
  import opened ChangeLog
  import opened ChangeLogReplay

  predicate EndsInSlash(path: string) {
    path != "" && path[|path| - 1] == '/'
  }

  /** The event that carries the columns of `r`. */
  function Announcing(id: FileId, r: Row, op: EventOp): Event {
    Event(r.storage, id, r.path, op, r.size, !EndsInSlash(r.path), r.hash, r.mtime)
  }

  /** A new row is announced if it is shown. */
  lemma WhatAnInsertSays(db: Db, id: FileId, r: Row)
    requires Admissible(db, Insert(id, r))
    ensures Step(db, Insert(id, r)).events ==
            db.events + if Shown(r) then [Announcing(id, r, Upsert)] else []
    ensures Step(db, Insert(id, r)).files == db.files[id := r]
  {
  }

  /** A row that goes is announced with its own columns, trashed or hidden as it may be. */
  lemma WhatADeleteSays(db: Db, id: FileId)
    requires TableOk(db) && id in db.files
    ensures Step(db, Remove(id)).events == db.events + [Announcing(id, db.files[id], Delete)]
    ensures Step(db, Remove(id)).files == db.files - {id}
  {
  }

  predicate SameContent(o: Row, n: Row) {
    o.uploaded == n.uploaded && o.size == n.size && o.hash == n.hash && o.mtime == n.mtime
  }

  /** A renamed row is removed at its old path, with its old columns, and announced at the new one if it is shown. */
  lemma WhatARenameSays(db: Db, id: FileId, c: Change, now: string)
    requires Admissible(db, Update(id, c, now)) && c.path != db.files[id].path
    ensures var o, n := db.files[id], Changed(db.files[id], c);
            Step(db, Update(id, c, now)).events ==
            db.events + [Announcing(id, o, Delete)] + if Shown(n) then [Announcing(id, n, Upsert)] else []
  {
  }

  /** A row that stays at its path is announced as gone when it is trashed, with its new columns; as there when it is
      shown and was trashed before or has other content; and not at all otherwise. */
  lemma WhatAChangeSays(db: Db, id: FileId, c: Change, now: string)
    requires Admissible(db, Update(id, c, now)) && c.path == db.files[id].path
    ensures var o, n := db.files[id], Changed(db.files[id], c);
            Step(db, Update(id, c, now)).events ==
            db.events + if o.deletedAt.None? && n.deletedAt.Some? then [Announcing(id, n, Delete)]
                        else if Shown(n) && (o.deletedAt.Some? || !SameContent(o, n)) then [Announcing(id, n, Upsert)]
                        else []
  {
    assert db.events + [] == db.events;
  }

  /** The columns are set as the statement says, the row keeps its storage, and a statement that leaves `updated_at`
      alone has it set to the time. */
  lemma WhatAnUpdateSets(db: Db, id: FileId, c: Change, now: string)
    requires Admissible(db, Update(id, c, now))
    ensures var o := db.files[id];
            Step(db, Update(id, c, now)).files ==
            db.files[id := Row(c.path, c.size, o.storage, c.uploaded, c.deletedAt, c.hash, c.mtime,
                               if c.updatedAt == o.updatedAt then now else c.updatedAt)]
  {
  }

  // ---- The flag of every event ---------------------------------------------------------------------------------

  ghost predicate Typed(log: seq<Event>) {
    forall i :: 0 <= i < |log| ==> (log[i].isFile <==> !EndsInSlash(log[i].path))
  }

  lemma {:induction false} TypedWithoutStorage(log: seq<Event>, s: StorageId)
    requires Typed(log)
    ensures Typed(WithoutStorage(log, s))
  {
    if log != [] {
      TypedWithoutStorage(log[..|log| - 1], s);
    }
  }

  lemma StepIsTyped(db: Db, st: Statement)
    requires Typed(db.events)
    ensures Typed(Step(db, st).events)
  {
    if Admissible(db, st) {
      match st
      case AddStorage(_) =>
      case DropStorage(s) => TypedWithoutStorage(db.events, s);
      case Insert(id, r) => TypedMore(db.events, InsertEvents(id, r));
      case Update(id, c, _) => TypedMore(db.events, UpdateEvents(id, db.files[id], Changed(db.files[id], c)));
      case Remove(id) => TypedMore(db.events, DeleteEvents(db.storages, id, db.files[id]));
    }
  }

  lemma TypedMore(log: seq<Event>, es: seq<Event>)
    requires Typed(log) && Typed(es)
    ensures Typed(log + es)
  {
  }

  lemma {:induction false} RunIsTyped(db: Db, sts: seq<Statement>)
    requires Typed(db.events)
    ensures Typed(Run(db, sts).events)
    decreases |sts|
  {
    if sts != [] {
      StepIsTyped(db, sts[0]);
      RunIsTyped(Step(db, sts[0]), sts[1..]);
    }
  }

  /** After every run, each event of the log says "file" exactly when its path does not end in a slash. */
  lemma EveryEventIsTyped(sts: seq<Statement>)
    ensures Typed(Run(EMPTY, sts).events)
  {
    RunIsTyped(EMPTY, sts);
  }

  // ---- What the constraints refuse -----------------------------------------------------------------------------

  /** A new row is refused exactly when its id is taken or the table with it would not be sound. */
  lemma WhenAnInsertIsRefused(db: Db, id: FileId, r: Row)
    requires TableOk(db)
    ensures Admissible(db, Insert(id, r)) <==> id !in db.files && TableOk(db.(files := db.files[id := r]))
    ensures !Admissible(db, Insert(id, r)) ==> Step(db, Insert(id, r)) == db
  {
    var after := db.(files := db.files[id := r]);
    if id !in db.files && TableOk(after) {
      assert id in after.files && after.files[id].storage in after.storages;
      forall j | j in db.files && j != id ensures !SamePlace(db.files[j], r) {
        assert !SamePlace(after.files[j], after.files[id]);
      }
    }
  }

  /** A change is refused exactly when there is no such row or the table with it would not be sound. */
  lemma WhenAnUpdateIsRefused(db: Db, id: FileId, c: Change, now: string)
    requires TableOk(db)
    ensures Admissible(db, Update(id, c, now)) <==>
            id in db.files && TableOk(db.(files := db.files[id := Changed(db.files[id], c)]))
    ensures !Admissible(db, Update(id, c, now)) ==> Step(db, Update(id, c, now)) == db
  {
    if id in db.files {
      var n := Changed(db.files[id], c);
      var after := db.(files := db.files[id := n]);
      if TableOk(after) {
        forall j | j in db.files && j != id ensures !SamePlace(db.files[j], n) {
          assert !SamePlace(after.files[j], after.files[id]);
        }
      }
    }
  }
}
