/** Runs from the empty database after which the log does not replay to what is visible. */
module ChangeLogBreaks {
  import opened Options
  import opened ChangeLog
  import opened ChangeLogReplay

  function Kept(r: Row): Change {
    Change(r.path, r.size, r.uploaded, r.deletedAt, r.hash, r.mtime, r.updatedAt)
  }

  lemma EmptyIsClean(s: StorageId)
    ensures var db := Step(EMPTY, AddStorage(s)); db == Db(map[], {s}, []) && AllWell(db, s)
  {
    assert {} + {s} == {s};
  }

  /** The table is sound and both replays agree with it. */
  ghost predicate AllWell(db: Db, s: StorageId) {
    TableOk(db) && AgreesById(db, s) && AgreesByPath(db, s)
  }

  lemma StaysWell(db: Db, s: StorageId, st: Statement)
    requires AllWell(db, s) && !IsSilent(db, st) && !Stomps(db, st)
    ensures AllWell(Step(db, st), s)
  {
    StepKeepsTable(db, st);
    WhatBreaksAgreementById(db, s, st);
    WhatBreaksAgreementByPath(db, s, st);
  }

  lemma RunHead(db: Db, st: Statement, rest: seq<Statement>)
    ensures Run(db, [st] + rest) == Run(Step(db, st), rest)
  {
    assert ([st] + rest)[1..] == rest;
  }

  lemma RunOfThree(db: Db, a: Statement, b: Statement, c: Statement)
    ensures Run(db, [a, b, c]) == Step(Step(Step(db, a), b), c)
  {
    assert [a, b, c] == [a] + [b, c] && [b, c] == [b] + [c] && [c] == [c] + [];
    RunHead(db, a, [b, c]);
    RunHead(Step(db, a), b, [c]);
    RunHead(Step(Step(db, a), b), c, []);
  }

  lemma RunOfFive(db: Db, a: Statement, b: Statement, c: Statement, d: Statement, e: Statement)
    ensures Run(db, [a, b, c, d, e]) == Step(Step(Step(Step(Step(db, a), b), c), d), e)
  {
    assert [a, b, c, d, e] == [a] + [b, c, d, e] && [b, c, d, e] == [b] + [c, d, e];
    RunHead(db, a, [b, c, d, e]);
    RunHead(Step(db, a), b, [c, d, e]);
    RunOfThree(Step(Step(db, a), b), c, d, e);
  }

  lemma InsertedInto(db: Db, s: StorageId, id: FileId, r: Row)
    requires AllWell(db, s) && s in db.storages && r.storage == s && id !in db.files && !PathTaken(db.files, id, r)
    ensures AllWell(Step(db, Insert(id, r)), s) && Step(db, Insert(id, r)).files == db.files[id := r]
    ensures Step(db, Insert(id, r)).storages == db.storages
  {
    StaysWell(db, s, Insert(id, r));
  }

  lemma HidingIsSilent(db: Db, s: StorageId, id: FileId, r: Row, now: string)
    requires AllWell(db, s) && db.files == map[id := r] && r.storage == s && Visible(r) && !IsFolder(r.path)
    ensures !AgreesById(Step(db, Update(id, Kept(r).(uploaded := 0), now)), s)
  {
    WhatBreaksAgreementById(db, s, Update(id, Kept(r).(uploaded := 0), now));
  }

  /** Add a visible file and mark it as not uploaded: it is hidden, and the log still lists it. */
  lemma HidingBreaksAgreement(s: StorageId, id: FileId, r: Row, now: string)
    requires r.storage == s && Visible(r) && !IsFolder(r.path)
    ensures !AgreesById(Run(EMPTY, [AddStorage(s), Insert(id, r), Update(id, Kept(r).(uploaded := 0), now)]), s)
  {
    var a, b, c := AddStorage(s), Insert(id, r), Update(id, Kept(r).(uploaded := 0), now);
    var db1 := Step(EMPTY, a);
    EmptyIsClean(s);
    InsertedInto(db1, s, id, r);
    HidingIsSilent(Step(db1, b), s, id, r, now);
    RunOfThree(EMPTY, a, b, c);
  }

  lemma Trashed(db: Db, s: StorageId, id: FileId, r: Row, at: string, now: string)
    requires AllWell(db, s) && db.files == map[id := r] && Visible(r)
    ensures var db' := Step(db, Update(id, Kept(r).(deletedAt := Some(at)), now));
            AllWell(db', s) && db'.files == map[id := r.(deletedAt := Some(at), updatedAt := now)] &&
            db'.storages == db.storages
  {
    StaysWell(db, s, Update(id, Kept(r).(deletedAt := Some(at)), now));
  }

  lemma RemovingStomps(db: Db, s: StorageId, id: FileId, j: FileId, o: Row, r: Row)
    requires AllWell(db, s) && id != j && db.files == map[id := o, j := r] && o.deletedAt.Some? && Visible(r)
    requires o.storage == s && r.storage == s && o.path == r.path
    ensures !AgreesByPath(Step(db, Remove(id)), s) && AgreesById(Step(db, Remove(id)), s)
  {
    assert VisibleIn(db.files, s, j) && db.files[j].path == o.path;
    assert Stomps(db, Remove(id));
    WhatBreaksAgreementById(db, s, Remove(id));
    WhatBreaksAgreementByPath(db, s, Remove(id));
  }

  /** Add a visible file, trash it, add another at its path and delete the trashed one for good: the log by path has
      lost the new one. */
  lemma PurgingBreaksAgreement(s: StorageId, id: FileId, j: FileId, r: Row, at: string, now: string)
    requires id != j && r.storage == s && Visible(r)
    ensures var db := Run(EMPTY, [AddStorage(s), Insert(id, r), Update(id, Kept(r).(deletedAt := Some(at)), now),
                                  Insert(j, r), Remove(id)]);
            !AgreesByPath(db, s) && AgreesById(db, s)
  {
    var a, b, c, d, e :=
      AddStorage(s), Insert(id, r), Update(id, Kept(r).(deletedAt := Some(at)), now), Insert(j, r), Remove(id);
    var db1 := Step(EMPTY, a);
    var db2 := Step(db1, b);
    var db3 := Step(db2, c);
    var o := r.(deletedAt := Some(at), updatedAt := now);
    EmptyIsClean(s);
    InsertedInto(db1, s, id, r);
    Trashed(db2, s, id, r, at, now);
    InsertedInto(db3, s, j, r);
    RemovingStomps(Step(db3, d), s, id, j, o, r);
    RunOfFive(EMPTY, a, b, c, d, e);
  }
}
