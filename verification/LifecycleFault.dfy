/** The exact limit of the safety theorem. internal/web/dedup.go:252-263 treats any error from
    the blob lookup as "no record": a harmful faulty read can be followed to a world in which a
    file has lost its content, and nothing else can (LifecycleSafety). */
module LifecycleFault {
  import opened Prelude
  import opened Tables
  import opened Lifecycle
  import opened LifecycleSafety
  import ContentLock

  lemma RunOneMore(w: World, steps: seq<Step>, s: Step)
    requires Run(w, steps).Some? && Enabled(Run(w, steps).value, s)
    ensures Run(w, steps + [s]) == Some(Apply(Run(w, steps).value, s))
  {
    assert (steps + [s])[..|steps|] == steps;
  }

  /** A deletion under way can go on until a given object is gone. */
  lemma {:induction false} DeleteUntil(w: World, steps: seq<Step>, t: Tid, i: nat) returns (all: seq<Step>)
    requires Run(w, steps).Some?
    requires var m := Run(w, steps).value; t in m.work && m.work[t].Deleting? && i < |m.work[t].names|
    requires forall x :: x in steps ==> !x.DiscardRead?
    ensures Run(w, all).Some? && forall x :: x in all ==> !x.DiscardRead?
    ensures Run(w, all).value.db == Run(w, steps).value.db
    ensures Run(w, steps).value.work[t].names[i] !in Run(w, all).value.objects
    decreases i
  {
    var m, s := Run(w, steps).value, DeleteOne(t, true, true);
    RunOneMore(w, steps, s);
    if i == 0 {
      all := steps + [s];
    } else {
      assert Apply(m, s).work[t].names[i - 1] == m.work[t].names[i];
      all := DeleteUntil(w, steps + [s], t, i - 1);
    }
  }

  lemma MissingIsUnsafe(w: World, sha: Sha, k: Key)
    requires Counted(w.db) && sha in w.db.blobs && !w.db.blobs[sha].Orphaned()
    requires k in w.db.blobs[sha].Main() && k !in w.objects
    ensures !Safe(w)
  {
    assert |References(w.db.files, sha)| > 0;
    var id :| id in References(w.db.files, sha);
    assert id in w.db.files && !Stored(w.db.blobs[sha], w.objects);
  }

  /** When database reads fail only for absence, every run from an installation's first start is safe:
      under any interleaving, with storage failures and crashes at any step. */
  lemma HonestReadsAreSafe(w: World, steps: seq<Step>)
    requires Initial(w) && Run(w, steps).Some? && forall x :: x in steps ==> !(x.DiscardRead? && x.failed)
    ensures Safe(Run(w, steps).value)
  {
    HonestRunIsCareful(w, steps);
    EveryReachableWorldIsSafe(w, steps);
  }

  lemma {:induction false} HonestRunIsCareful(w: World, steps: seq<Step>)
    requires forall x :: x in steps ==> !(x.DiscardRead? && x.failed)
    ensures Careful(w, steps)
  {
    if steps != [] {
      HonestRunIsCareful(w, steps[..|steps| - 1]);
      assert steps[|steps| - 1] in steps;
    }
  }

  /** The faulty read takes the objects for unowned and goes on to delete them. A backup that
      holds the object lock delays this, and ends. */
  lemma FaultyReadGoesOn(w: World, s: Step)
    requires Enabled(w, s) && Faulty(w, s)
    ensures Enabled(Apply(w, s), CloseBackup)
    ensures var m, wk := Apply(Apply(w, s), CloseBackup), w.work[s.t];
            && s.t in m.work && m.work[s.t] == Pin(wk.sha, wk.names, false, NOTHING) && m.db == w.db && m.backup.NoBackup?
  {
    hide Harmless;
  }

  lemma PinGoesOn(m: World, t: Tid)
    requires m.backup.NoBackup? && t in m.work && m.work[t].Pin?
    ensures Enabled(m, PinObjects(t, true))
    ensures var n, wk := Apply(m, PinObjects(t, true)), m.work[t];
            t in n.work && n.work[t] == Deleting(wk.sha, wk.names, true, wk.drop, wk.due) && n.db == m.db
  {
  }

  /** After a harmful faulty read the server can go on, with every operation succeeding, to a
      world where a file's content is gone. */
  lemma HarmfulReadLosesContent(w: World, s: Step) returns (rest: seq<Step>)
    requires Counted(w.db) && Enabled(w, s) && Faulty(w, s)
    ensures Run(Apply(w, s), rest).Some? && Careful(Apply(w, s), rest) && !Safe(Run(Apply(w, s), rest).value)
  {
    hide Apply, Enabled, Careful, Safe, Counted;
    var sha, names := w.work[s.t].sha, w.work[s.t].names;
    var m, pin := Apply(w, s), PinObjects(s.t, true);
    FaultyReadGoesOn(w, s);
    var free := Apply(m, CloseBackup);
    PinGoesOn(free, s.t);
    assert Run(m, []) == Some(m);
    RunOneMore(m, [], CloseBackup);
    assert [] + [CloseBackup] == [CloseBackup];
    RunOneMore(m, [CloseBackup], pin);
    var k :| k in names && k in w.db.blobs[sha].Main();
    var i :| 0 <= i < |names| && names[i] == k;
    rest := DeleteUntil(m, [CloseBackup] + [pin], s.t, i);
    HonestRunIsCareful(m, rest);
    MissingIsUnsafe(Run(m, rest).value, sha, k);
  }

  /** The read after a failed upload is the exact boundary: from a sound world it can lead, by
      careful steps, to a lost file if and only if it fails while the content is referenced and
      its blob names one of the objects about to be deleted. */
  lemma FaultyReadIsTheBoundary(w: World, s: Step)
    requires Inv(w) && Enabled(w, s) && s.DiscardRead?
    ensures Faulty(w, s) <==>
            exists rest :: Run(Apply(w, s), rest).Some? && Careful(Apply(w, s), rest) && !Safe(Run(Apply(w, s), rest).value)
  {
    var m := Apply(w, s);
    if Faulty(w, s) {
      var rest := HarmfulReadLosesContent(w, s);
    } else {
      StepKeepsInv(w, s);
      forall rest | Run(m, rest).Some? && Careful(m, rest)
        ensures Safe(Run(m, rest).value)
      {
        SoundWorldsStaySafe(m, rest);
      }
    }
  }

  // ---- a run that gets there ------------------------------------------------------------------

  const ROW := File(7, 0, None, 1)
  const BLOB := Blob(1, Original(7, 0), Some(Key.Thumb(0, 7, 0)), None, map[], 1)
  const DB := Db(map[1 := ROW], map[7 := BLOB], map[], map[])
  const OBJECTS: map<Key, nat> := map[Original(7, 0) := 7, Key.Thumb(0, 7, 0) := 20, Key.Thumb(1, 7, 0) := 21]
  const HELD := ContentLock.Locks(map[7 := 0], map[0 := ContentLock.Entry(false, 1)], map[5 := ContentLock.Holding(7, 0)])
  const FAILED := Discard(7, [Original(7, 0), Key.Thumb(1, 7, 0)])

  /** An upload of content 7, already on file under older rendition settings, has just failed. */
  const AFTER_FAILED_UPLOAD := World(DB, OBJECTS, HELD, map[5 := FAILED], {1}, Current, false, {}, NoBackup, 1, 0)

  const NO_ROWS := Db(map[], map[], map[], map[])
  const FIRST_START := World(NO_ROWS, map[], ContentLock.EMPTY, map[], {}, Stopped, false, {}, NoBackup, 0, 0)

  const UP := Up(7, 1, None, false)

  /** An upload of that content by anybody. */
  predicate Plain(up: Up) { up.sha == 7 && up.size == 1 && !up.video }

  const NOTED: map<Sha, Blob> := map[7 := BLOB.(refcount := 0)]
  const FIRST_OBJECTS: map<Key, nat> := map[Original(7, 0) := 7, Key.Thumb(0, 7, 0) := 20]

  function KeysUnder(tag: Tag): Keys { ContentKeys(tag, 7, 0, Some(0), None) }

  /** Thread 5 at work on content 7, alone and inside the lock. */
  function Busy(db: Db, objects: map<Key, nat>, used: set<Id>, tag: Tag, wk: Work): World {
    World(db, objects, HELD, map[5 := wk], used, Current, false, {}, NoBackup, tag, 0)
  }

  function Idle(db: Db, objects: map<Key, nat>, used: set<Id>, tag: Tag): World {
    World(db, objects, ContentLock.EMPTY, map[], used, Stopped, false, {}, NoBackup, tag, 0)
  }

  lemma Then(first: World, steps: seq<Step>, w: World, s: Step, next: World) returns (all: seq<Step>)
    requires Run(first, steps) == Some(w) && Enabled(w, s) && Apply(w, s) == next
    ensures Run(first, all) == Some(next)
  {
    RunOneMore(first, steps, s);
    all := steps + [s];
  }

  /** A server is started and takes up an upload of content 7. */
  lemma UploadStarts(first: World, steps: seq<Step>, db: Db, objects: map<Key, nat>, used: set<Id>, last: Tag, tag: Tag, up: Up)
    returns (all: seq<Step>)
    requires up.sha == 7 && Run(first, steps) == Some(Idle(db, objects, used, last))
    ensures Run(first, all) == Some(Busy(db, objects, used, tag, UpCheck(up)))
  {
    hide Run;
    var w0 := Idle(db, objects, used, last);
    var w1 := Apply(w0, StartServer(false, tag));
    var w2 := Apply(w1, BeginUpload(5, up));
    var w3 := Apply(w2, Acquire(5, 0));
    all := Then(first, steps, w0, StartServer(false, tag), w1);
    all := Then(first, all, w1, BeginUpload(5, up), w2);
    all := Then(first, all, w2, Acquire(5, 0), w3);
    assert w3.locks == ContentLock.Locks(map[7 := 0], map[0 := ContentLock.Entry(true, 1)], map[5 := ContentLock.Waiting(7, 0)]);
    assert Apply(w3, Obtain(5)).work == map[5 := UpCheck(up)];
    assert Apply(w3, Obtain(5)).locks == HELD;
    all := Then(first, all, w3, Obtain(5), Busy(db, objects, used, tag, UpCheck(up)));
  }

  /** From w, where thread 5 works alone, step s leads to these tables, objects and position. */
  ghost predicate Leads(w: World, s: Step, db: Db, objects: map<Key, nat>, wk: Work) {
    && IsThreadStep(s) && !s.PinObjects? && !s.Unpin? && !s.Insert? && s.t == 5 && ThreadEnabled(w, s)
    && NextDb(w, s) == db && NextObjects(w, s) == objects && NextWork(w, s) == Some(wk)
  }

  lemma Works(first: World, steps: seq<Step>, w: World, s: Step, next: World) returns (all: seq<Step>)
    requires Run(first, steps) == Some(w)
    requires 5 in w.work && 5 in next.work && w == Busy(w.db, w.objects, w.used, w.tag, w.work[5])
    requires next == Busy(next.db, next.objects, w.used, w.tag, next.work[5])
    requires Leads(w, s, next.db, next.objects, next.work[5])
    ensures Run(first, all) == Some(next)
  {
    hide Run, ThreadEnabled, NextWork, NextDb, NextObjects;
    assert w.work[5 := next.work[5]] == next.work;
    all := Then(first, steps, w, s, next);
  }

  lemma NothingIsFound(db: Db, objects: map<Key, nat>, used: set<Id>, tag: Tag, up: Up)
    ensures Leads(Busy(db, objects, used, tag, UpCheck(up)), Check(5, None), db, objects, UpProcess(up))
  {
  }

  lemma OtherRenditionsAreFound(objects: map<Key, nat>, used: set<Id>)
    ensures Leads(Busy(DB, objects, used, 1, UpCheck(UP)), Check(5, Some(1)), DB, objects, UpProcess(UP))
  {
  }

  lemma UploadIsRendered(db: Db, objects: map<Key, nat>, used: set<Id>, tag: Tag, up: Up)
    requires Plain(up)
    ensures Leads(Busy(db, objects, used, tag, UpProcess(up)), Process(5, true, 0, Some(0), None),
                  db, objects, UpReserve(up, KeysUnder(tag)))
  {
  }

  lemma UploadIsClaimed(db: Db, objects: map<Key, nat>, used: set<Id>, tag: Tag)
    ensures Leads(Busy(db, objects, used, tag, UpReserve(UP, KeysUnder(tag))), ClaimBytes(5, true, true),
                  db, objects, UpStat(UP, KeysUnder(tag)))
  {
  }

  /** Found or not, content without renditions of today's settings is processed and claimed. */
  lemma UploadIsProcessed(first: World, steps: seq<Step>, db: Db, objects: map<Key, nat>, used: set<Id>, tag: Tag, row: Option<Id>)
    returns (all: seq<Step>)
    requires Run(first, steps) == Some(Busy(db, objects, used, tag, UpCheck(UP)))
    requires row == None || (row == Some(1) && db == DB && tag == 1)
    ensures Run(first, all) == Some(Busy(db, objects, used, tag, UpStat(UP, KeysUnder(tag))))
  {
    hide Run, Leads, KeysUnder;
    var w0 := Busy(db, objects, used, tag, UpCheck(UP));
    var w1 := Busy(db, objects, used, tag, UpProcess(UP));
    var w2 := Busy(db, objects, used, tag, UpReserve(UP, KeysUnder(tag)));
    if row == None {
      NothingIsFound(db, objects, used, tag, UP);
    } else {
      OtherRenditionsAreFound(objects, used);
    }
    all := Works(first, steps, w0, Check(5, row), w1);
    UploadIsRendered(db, objects, used, tag, UP);
    all := Works(first, all, w1, Process(5, true, 0, Some(0), None), w2);
    UploadIsClaimed(db, objects, used, tag);
    all := Works(first, all, w2, ClaimBytes(5, true, true), Busy(db, objects, used, tag, UpStat(UP, KeysUnder(tag))));
  }

  lemma StatGoesOn(db: Db, objects: map<Key, nat>, used: set<Id>, tag: Tag, up: Up)
    requires Plain(up)
    ensures Leads(Busy(db, objects, used, tag, UpStat(up, KeysUnder(tag))), Stat(5, true), db, objects,
                  if Original(7, 0) in objects then UpSaveThumb(up, KeysUnder(tag)) else UpSaveOriginal(up, KeysUnder(tag)))
  {
  }

  lemma OriginalIsSaved(db: Db, objects: map<Key, nat>, used: set<Id>, tag: Tag, up: Up)
    requires Plain(up)
    ensures Leads(Busy(db, objects, used, tag, UpSaveOriginal(up, KeysUnder(tag))), Save(5, true, true, 7),
                  db, objects[Original(7, 0) := 7], UpSaveThumb(up, KeysUnder(tag)))
  {
  }

  lemma ThumbIsSaved(db: Db, objects: map<Key, nat>, used: set<Id>, tag: Tag, content: nat, up: Up)
    requires Plain(up)
    ensures Leads(Busy(db, objects, used, tag, UpSaveThumb(up, KeysUnder(tag))), Save(5, true, true, content),
                  db, objects[Key.Thumb(tag, 7, 0) := content], UpSavePreview(up, KeysUnder(tag)))
  {
  }

  lemma PreviewIsSkipped(db: Db, objects: map<Key, nat>, used: set<Id>, tag: Tag, up: Up)
    requires Plain(up)
    ensures Leads(Busy(db, objects, used, tag, UpSavePreview(up, KeysUnder(tag))), Save(5, true, true, 0),
                  db, objects, UpEnsure(up, KeysUnder(tag)))
  {
  }

  /** The first upload stores its objects. */
  lemma FirstObjects(first: World, steps: seq<Step>, db: Db, up: Up) returns (all: seq<Step>)
    requires Plain(up) && Run(first, steps) == Some(Busy(db, map[], {}, 0, UpStat(up, KeysUnder(0))))
    ensures Run(first, all) == Some(Busy(db, FIRST_OBJECTS, {}, 0, UpEnsure(up, KeysUnder(0))))
  {
    hide Run, Leads, KeysUnder;
    var one: map<Key, nat> := map[Original(7, 0) := 7];
    var w1 := Busy(db, map[], {}, 0, UpSaveOriginal(up, KeysUnder(0)));
    var w2 := Busy(db, one, {}, 0, UpSaveThumb(up, KeysUnder(0)));
    var w3 := Busy(db, FIRST_OBJECTS, {}, 0, UpSavePreview(up, KeysUnder(0)));
    StatGoesOn(db, map[], {}, 0, up);
    all := Works(first, steps, Busy(db, map[], {}, 0, UpStat(up, KeysUnder(0))), Stat(5, true), w1);
    OriginalIsSaved(db, map[], {}, 0, up);
    all := Works(first, all, w1, Save(5, true, true, 7), w2);
    ThumbIsSaved(db, one, {}, 0, 20, up);
    assert one[Key.Thumb(0, 7, 0) := 20] == FIRST_OBJECTS;
    all := Works(first, all, w2, Save(5, true, true, 20), w3);
    PreviewIsSkipped(db, FIRST_OBJECTS, {}, 0, up);
    all := Works(first, all, w3, Save(5, true, true, 0), Busy(db, FIRST_OBJECTS, {}, 0, UpEnsure(up, KeysUnder(0))));
  }

  lemma RecordGoesOn(db: Db, up: Up)
    requires Plain(up) && db.blobs == map[]
    ensures Leads(Busy(db, FIRST_OBJECTS, {}, 0, UpEnsure(up, KeysUnder(0))), Ensure(5, true, true),
                  db.(blobs := NOTED), FIRST_OBJECTS, UpInsert(up, KeysUnder(0)))
  {
  }

  lemma RowGoesOn()
    ensures var w := Busy(NO_ROWS.(blobs := NOTED), FIRST_OBJECTS, {}, 0, UpInsert(UP, KeysUnder(0)));
            && Enabled(w, Insert(5, 1, true, true))
            && Apply(w, Insert(5, 1, true, true)) == Busy(DB, FIRST_OBJECTS, {1}, 0, Unlock(7, NOTHING))
  {
    var w := Busy(NO_ROWS.(blobs := NOTED), FIRST_OBJECTS, {}, 0, UpInsert(UP, KeysUnder(0)));
    assert NextDb(w, Insert(5, 1, true, true)) == DB;
  }

  /** And then its records. */
  lemma FirstRecords(steps: seq<Step>) returns (all: seq<Step>)
    requires Run(FIRST_START, steps) == Some(Busy(NO_ROWS, FIRST_OBJECTS, {}, 0, UpEnsure(UP, KeysUnder(0))))
    ensures Run(FIRST_START, all) == Some(Busy(DB, FIRST_OBJECTS, {1}, 0, Unlock(7, NOTHING)))
  {
    hide Run, Leads, KeysUnder, Apply, Enabled;
    var w := Busy(NO_ROWS.(blobs := NOTED), FIRST_OBJECTS, {}, 0, UpInsert(UP, KeysUnder(0)));
    RecordGoesOn(NO_ROWS, UP);
    all := Works(FIRST_START, steps, Busy(NO_ROWS, FIRST_OBJECTS, {}, 0, UpEnsure(UP, KeysUnder(0))), Ensure(5, true, true), w);
    RowGoesOn();
    all := Then(FIRST_START, all, w, Insert(5, 1, true, true), Busy(DB, FIRST_OBJECTS, {1}, 0, Unlock(7, NOTHING)));
  }

  lemma RecordIsRefused()
    ensures Leads(Busy(DB, OBJECTS, {1}, 1, UpEnsure(UP, KeysUnder(1))), Ensure(5, false, false),
                  DB, OBJECTS, UpRefund(UP, KeysUnder(1), true))
  {
    hide ContentKeys;
  }

  lemma NothingIsRefunded()
    ensures Leads(Busy(DB, OBJECTS, {1}, 1, UpRefund(UP, KeysUnder(1), true)), GiveRefund(5, true), DB, OBJECTS, FAILED)
  {
    assert KeysUnder(1).All() == FAILED.names;
  }

  /** The second, under other settings, stores its thumbnail and cannot record it. */
  lemma SecondUpload(steps: seq<Step>) returns (all: seq<Step>)
    requires Run(FIRST_START, steps) == Some(Busy(DB, FIRST_OBJECTS, {1}, 1, UpStat(UP, KeysUnder(1))))
    ensures Run(FIRST_START, all) == Some(AFTER_FAILED_UPLOAD)
  {
    hide Run, Leads, KeysUnder;
    var w1 := Busy(DB, FIRST_OBJECTS, {1}, 1, UpSaveThumb(UP, KeysUnder(1)));
    var w2 := Busy(DB, OBJECTS, {1}, 1, UpSavePreview(UP, KeysUnder(1)));
    var w3 := Busy(DB, OBJECTS, {1}, 1, UpEnsure(UP, KeysUnder(1)));
    var w4 := Busy(DB, OBJECTS, {1}, 1, UpRefund(UP, KeysUnder(1), true));
    StatGoesOn(DB, FIRST_OBJECTS, {1}, 1, UP);
    all := Works(FIRST_START, steps, Busy(DB, FIRST_OBJECTS, {1}, 1, UpStat(UP, KeysUnder(1))), Stat(5, true), w1);
    ThumbIsSaved(DB, FIRST_OBJECTS, {1}, 1, 21, UP);
    assert FIRST_OBJECTS[Key.Thumb(1, 7, 0) := 21] == OBJECTS;
    all := Works(FIRST_START, all, w1, Save(5, true, true, 21), w2);
    PreviewIsSkipped(DB, OBJECTS, {1}, 1, UP);
    all := Works(FIRST_START, all, w2, Save(5, true, true, 0), w3);
    RecordIsRefused();
    NothingIsRefunded();
    all := Works(FIRST_START, all, w3, Ensure(5, false, false), w4);
    all := Works(FIRST_START, all, w4, GiveRefund(5, true), AFTER_FAILED_UPLOAD);
  }

  lemma HeldLockIsFine()
    ensures ContentLock.Inv(HELD)
  {
    assert ContentLock.Users(HELD.phase, 7) == {5} && ContentLock.Holders(HELD.phase, 7) == {5};
    assert ContentLock.Exact(HELD, 7);
  }

  lemma ExampleTables()
    ensures Counted(DB) && Sound(DB, OBJECTS) && TrueOriginals(OBJECTS)
  {
    assert References(DB.files, 7) == {1};
  }

  lemma ExampleThread()
    ensures Matches(FAILED, HELD, 5) && Local(FAILED, DB, OBJECTS) && !Harmless(DB, 7, FAILED.names)
  {
    assert FAILED.names[0] in BLOB.Main();
  }

  /** A harmful faulty read can happen: an installation that is started, takes an upload, is
      restarted with other rendition settings and takes the same upload again, whose record
      cannot be written, is about to make one. */
  lemma HarmfulReadIsPossible() returns (steps: seq<Step>)
    ensures Initial(FIRST_START) && Run(FIRST_START, steps) == Some(AFTER_FAILED_UPLOAD)
    ensures Inv(AFTER_FAILED_UPLOAD)
    ensures Enabled(AFTER_FAILED_UPLOAD, DiscardRead(5, true)) && Faulty(AFTER_FAILED_UPLOAD, DiscardRead(5, true))
  {
    hide Run;
    RunNothing(FIRST_START);
    steps := UploadStarts(FIRST_START, [], NO_ROWS, map[], {}, 0, 0, UP);
    steps := UploadIsProcessed(FIRST_START, steps, NO_ROWS, map[], {}, 0, None);
    steps := FirstObjects(FIRST_START, steps, NO_ROWS, UP);
    steps := FirstRecords(steps);
    var stored := Busy(DB, FIRST_OBJECTS, {1}, 0, Unlock(7, NOTHING));
    steps := Then(FIRST_START, steps, stored, StopServer, Idle(DB, FIRST_OBJECTS, {1}, 0));
    steps := UploadStarts(FIRST_START, steps, DB, FIRST_OBJECTS, {1}, 0, 1, UP);
    steps := UploadIsProcessed(FIRST_START, steps, DB, FIRST_OBJECTS, {1}, 1, Some(1));
    steps := SecondUpload(steps);
    ExampleInv();
  }

  lemma {:induction false} RunJoins(w: World, steps: seq<Step>, more: seq<Step>)
    requires Run(w, steps).Some? && Run(Run(w, steps).value, more).Some?
    ensures Run(w, steps + more) == Run(Run(w, steps).value, more)
  {
    if more == [] {
      assert steps + more == steps;
    } else {
      var before, s := more[..|more| - 1], more[|more| - 1];
      RunJoins(w, steps, before);
      assert steps + more == steps + before + [s];
      RunOneMore(w, steps + before, s);
    }
  }

  /** So an installation can lose a file's content, all the way from its first start. */
  lemma AFileCanBeLost() returns (steps: seq<Step>)
    ensures Initial(FIRST_START) && Run(FIRST_START, steps).Some? && !Safe(Run(FIRST_START, steps).value)
  {
    hide Run, Enabled, Apply, Faulty, Inv, Safe;
    var w, s := AFTER_FAILED_UPLOAD, DiscardRead(5, true);
    steps := HarmfulReadIsPossible();
    ExampleTables();
    var rest := HarmfulReadLosesContent(w, s);
    RunOneMore(FIRST_START, steps, s);
    RunJoins(FIRST_START, steps + [s], rest);
    steps := steps + [s] + rest;
  }

  lemma RunNothing(w: World)
    ensures Run(w, []) == Some(w)
  {
  }

  lemma ExampleInv()
    ensures Inv(AFTER_FAILED_UPLOAD)
    ensures Enabled(AFTER_FAILED_UPLOAD, DiscardRead(5, true)) && Faulty(AFTER_FAILED_UPLOAD, DiscardRead(5, true))
  {
    HeldLockIsFine();
    ExampleTables();
    ExampleThread();
    var w := AFTER_FAILED_UPLOAD;
    assert w.work.Keys == {5} && w.locks.phase.Keys == {5};
  }
}
