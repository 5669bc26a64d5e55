/** Runs from the first start of an installation, one for each kind of event that LifecycleStray names,
    to a world in which nobody is at work, nothing is recorded, and an object is left in the store. */
module LifecycleStranded {
  import opened Prelude
  import opened Tables
  import opened Lifecycle
  import opened LifecycleFault
  import ContentLock

  const NONE: map<Key, nat> := map[]
  const ORIGINAL: map<Key, nat> := map[Original(7, 0) := 7]
  const THUMB: map<Key, nat> := map[Key.Thumb(0, 7, 0) := 20]

  ghost predicate LeavesBehind(steps: seq<Step>, last: Step, k: Key) {
    && Initial(FIRST_START) && last in steps && Run(FIRST_START, steps).Some?
    && var m := Run(FIRST_START, steps).value; m.work == map[] && m.db == NO_ROWS && k in m.objects
  }

  lemma StartIsInitial()
    ensures Initial(FIRST_START)
  {
  }

  /** Then, with the step put on record. */
  lemma Next(first: World, steps: seq<Step>, w: World, s: Step, next: World) returns (all: seq<Step>)
    requires Run(first, steps) == Some(w) && Enabled(w, s) && Apply(w, s) == next
    ensures Run(first, all) == Some(next) && all == steps + [s]
  {
    RunOneMore(first, steps, s);
    all := steps + [s];
  }

  /** A step of the one thread that leaves the tables alone. */
  lemma Leads1(objects: map<Key, nat>, wk: Work, s: Step, objects': map<Key, nat>, wk': Work)
    requires Leads(Busy(NO_ROWS, objects, {}, 0, wk), s, NO_ROWS, objects', wk')
    ensures var w := Busy(NO_ROWS, objects, {}, 0, wk);
            Enabled(w, s) && Apply(w, s) == Busy(NO_ROWS, objects', {}, 0, wk')
  {
    hide NextDb, NextObjects, NextWork, ThreadEnabled;
    var w := Busy(NO_ROWS, objects, {}, 0, wk);
    assert w.work[5 := wk'] == map[5 := wk'];
  }

  /** The first upload of content 7, up to the save of its original. */
  lemma UploadToSave() returns (steps: seq<Step>)
    ensures Run(FIRST_START, steps) == Some(Busy(NO_ROWS, NONE, {}, 0, UpSaveOriginal(UP, KeysUnder(0))))
  {
    hide Run, Leads, KeysUnder;
    RunNothing(FIRST_START);
    steps := UploadStarts(FIRST_START, [], NO_ROWS, NONE, {}, 0, 0, UP);
    steps := UploadIsProcessed(FIRST_START, steps, NO_ROWS, NONE, {}, 0, None);
    StatGoesOn(NO_ROWS, NONE, {}, 0, UP);
    steps := Works(FIRST_START, steps, Busy(NO_ROWS, NONE, {}, 0, UpStat(UP, KeysUnder(0))), Stat(5, true),
                   Busy(NO_ROWS, NONE, {}, 0, UpSaveOriginal(UP, KeysUnder(0))));
  }

  lemma LockIsGivenBack(w: World)
    requires w.work == map[5 := Unlock(7, NOTHING)] && w.locks == HELD
    ensures Enabled(w, GiveBack(5))
    ensures Apply(w, GiveBack(5)) == w.(locks := ContentLock.Apply(HELD, ContentLock.Give(5)), work := map[5 := Leave(NOTHING)])
  {
    assert w.work[5 := Leave(NOTHING)] == map[5 := Leave(NOTHING)];
  }

  lemma ThreadIsGone(w: World)
    requires w.work == map[5 := Leave(NOTHING)] && w.locks == ContentLock.Apply(HELD, ContentLock.Give(5))
    ensures Enabled(w, CountOut(5))
    ensures var m := Apply(w, CountOut(5)); m.work == map[] && m.db == w.db && m.objects == w.objects
  {
  }

  /** A thread that is done leaves the lock and is gone. */
  lemma ThreadLeaves(steps: seq<Step>, w: World) returns (all: seq<Step>)
    requires Run(FIRST_START, steps) == Some(w) && w.work == map[5 := Unlock(7, NOTHING)] && w.locks == HELD
    ensures Run(FIRST_START, all).Some? && steps <= all
    ensures var m := Run(FIRST_START, all).value; m.work == map[] && m.db == w.db && m.objects == w.objects
  {
    hide Run, Apply, Enabled;
    LockIsGivenBack(w);
    var m := Apply(w, GiveBack(5));
    all := Next(FIRST_START, steps, w, GiveBack(5), m);
    ThreadIsGone(m);
    all := Next(FIRST_START, all, m, CountOut(5), Apply(m, CountOut(5)));
  }

  lemma SaveFails()
    ensures Leads(Busy(NO_ROWS, NONE, {}, 0, UpSaveOriginal(UP, KeysUnder(0))), Save(5, false, true, 7),
                  NO_ROWS, ORIGINAL, UpRefund(UP, KeysUnder(0), false))
  {
    assert NONE[Original(7, 0) := 7] == ORIGINAL;
  }

  lemma NothingIsRemoved()
    ensures Leads(Busy(NO_ROWS, ORIGINAL, {}, 0, UpRefund(UP, KeysUnder(0), false)), GiveRefund(5, true),
                  NO_ROWS, ORIGINAL, Unlock(7, NOTHING))
  {
    hide ContentKeys;
  }

  /** The save of an original is answered with an error although it was written: such an upload
      removes nothing, and the original stays. */
  lemma FailedSaveStrands() returns (steps: seq<Step>)
    ensures LeavesBehind(steps, Save(5, false, true, 7), Original(7, 0))
  {
    hide Run, Leads, KeysUnder, Apply, Enabled;
    StartIsInitial();
    SaveFails();
    NothingIsRemoved();
    var s := Save(5, false, true, 7);
    var w := Busy(NO_ROWS, ORIGINAL, {}, 0, UpRefund(UP, KeysUnder(0), false));
    steps := UploadToSave();
    Leads1(NONE, UpSaveOriginal(UP, KeysUnder(0)), s, ORIGINAL, UpRefund(UP, KeysUnder(0), false));
    steps := Next(FIRST_START, steps, Busy(NO_ROWS, NONE, {}, 0, UpSaveOriginal(UP, KeysUnder(0))), s, w);
    Leads1(ORIGINAL, UpRefund(UP, KeysUnder(0), false), GiveRefund(5, true), ORIGINAL, Unlock(7, NOTHING));
    assert s in steps;
    steps := Next(FIRST_START, steps, w, GiveRefund(5, true), Busy(NO_ROWS, ORIGINAL, {}, 0, Unlock(7, NOTHING)));
    var refunded := steps;
    assert s in refunded;
    steps := ThreadLeaves(steps, Busy(NO_ROWS, ORIGINAL, {}, 0, Unlock(7, NOTHING)));
  }

  lemma StopEndsTheUpload(wk: Work)
    ensures var w := Busy(NO_ROWS, ORIGINAL, {}, 0, wk);
            Enabled(w, StopServer) && Apply(w, StopServer) == Idle(NO_ROWS, ORIGINAL, {}, 0)
  {
  }

  /** The server stops between the save of an original and its record. */
  lemma StopStrands() returns (steps: seq<Step>)
    ensures LeavesBehind(steps, StopServer, Original(7, 0))
  {
    hide Run, Leads, KeysUnder, Apply, Enabled;
    StartIsInitial();
    steps := UploadToSave();
    OriginalIsSaved(NO_ROWS, NONE, {}, 0, UP);
    assert NONE[Original(7, 0) := 7] == ORIGINAL;
    var w := Busy(NO_ROWS, ORIGINAL, {}, 0, UpSaveThumb(UP, KeysUnder(0)));
    steps := Works(FIRST_START, steps, Busy(NO_ROWS, NONE, {}, 0, UpSaveOriginal(UP, KeysUnder(0))), Save(5, true, true, 7), w);
    StopEndsTheUpload(UpSaveThumb(UP, KeysUnder(0)));
    steps := Next(FIRST_START, steps, w, StopServer, Idle(NO_ROWS, ORIGINAL, {}, 0));
  }

  const NAMES := [Original(7, 0), Key.Thumb(0, 7, 0)]

  lemma RecordFails()
    ensures Leads(Busy(NO_ROWS, FIRST_OBJECTS, {}, 0, UpEnsure(UP, KeysUnder(0))), Ensure(5, false, false),
                  NO_ROWS, FIRST_OBJECTS, UpRefund(UP, KeysUnder(0), true))
  {
    hide ContentKeys;
  }

  lemma RefundGoesOn()
    ensures Leads(Busy(NO_ROWS, FIRST_OBJECTS, {}, 0, UpRefund(UP, KeysUnder(0), true)), GiveRefund(5, true),
                  NO_ROWS, FIRST_OBJECTS, Discard(7, NAMES))
  {
    assert KeysUnder(0).All() == NAMES;
  }

  lemma NothingIsRecorded()
    ensures Leads(Busy(NO_ROWS, FIRST_OBJECTS, {}, 0, Discard(7, NAMES)), DiscardRead(5, false),
                  NO_ROWS, FIRST_OBJECTS, Pin(7, NAMES, false, NOTHING))
  {
  }

  /** An upload whose record cannot be written is about to discard what it wrote. */
  lemma UploadToDiscard() returns (steps: seq<Step>)
    ensures Run(FIRST_START, steps) == Some(Busy(NO_ROWS, FIRST_OBJECTS, {}, 0, Pin(7, NAMES, false, NOTHING)))
  {
    hide Run, Leads, KeysUnder;
    RunNothing(FIRST_START);
    steps := UploadStarts(FIRST_START, [], NO_ROWS, NONE, {}, 0, 0, UP);
    steps := UploadIsProcessed(FIRST_START, steps, NO_ROWS, NONE, {}, 0, None);
    steps := FirstObjects(FIRST_START, steps, NO_ROWS, UP);
    RecordFails();
    RefundGoesOn();
    NothingIsRecorded();
    var w1 := Busy(NO_ROWS, FIRST_OBJECTS, {}, 0, UpRefund(UP, KeysUnder(0), true));
    var w2 := Busy(NO_ROWS, FIRST_OBJECTS, {}, 0, Discard(7, NAMES));
    steps := Works(FIRST_START, steps, Busy(NO_ROWS, FIRST_OBJECTS, {}, 0, UpEnsure(UP, KeysUnder(0))), Ensure(5, false, false), w1);
    steps := Works(FIRST_START, steps, w1, GiveRefund(5, true), w2);
    steps := Works(FIRST_START, steps, w2, DiscardRead(5, false), Busy(NO_ROWS, FIRST_OBJECTS, {}, 0, Pin(7, NAMES, false, NOTHING)));
  }

  lemma PinFails()
    ensures var w := Busy(NO_ROWS, FIRST_OBJECTS, {}, 0, Pin(7, NAMES, false, NOTHING));
            && Enabled(w, PinObjects(5, false))
            && Apply(w, PinObjects(5, false)) == Busy(NO_ROWS, FIRST_OBJECTS, {}, 0, Unlock(7, NOTHING))
  {
  }

  /** What a failed upload wrote cannot be deleted because the object lock cannot be had. */
  lemma FailedPinStrands() returns (steps: seq<Step>)
    ensures LeavesBehind(steps, PinObjects(5, false), Original(7, 0))
  {
    hide Run, Leads, KeysUnder, Apply, Enabled;
    StartIsInitial();
    steps := UploadToDiscard();
    PinFails();
    steps := Next(FIRST_START, steps, Busy(NO_ROWS, FIRST_OBJECTS, {}, 0, Pin(7, NAMES, false, NOTHING)), PinObjects(5, false),
                  Busy(NO_ROWS, FIRST_OBJECTS, {}, 0, Unlock(7, NOTHING)));
    var pinned := steps;
    steps := ThreadLeaves(steps, Busy(NO_ROWS, FIRST_OBJECTS, {}, 0, Unlock(7, NOTHING)));
    assert PinObjects(5, false) in pinned;
  }

  /** The thread deletes under a pin. */
  function Pinned(objects: map<Key, nat>, names: seq<Key>, ok: bool): World {
    Busy(NO_ROWS, objects, {}, 0, Deleting(7, names, ok, false, NOTHING)).(pins := {5})
  }

  lemma Goes(w: World, s: Step, m: World, wk: Work)
    requires IsThreadStep(s) && ThreadEnabled(w, s) && !s.Insert? && s.t == 5 && w.work == map[5 := w.work[5]]
    requires NextDb(w, s) == w.db && NextObjects(w, s) == m.objects && NextPins(w, s) == m.pins && NextWork(w, s) == Some(wk)
    requires m == w.(objects := m.objects, pins := m.pins, work := map[5 := wk])
    ensures Enabled(w, s) && Apply(w, s) == m
  {
    hide NextDb, NextObjects, NextWork, NextPins, ThreadEnabled;
    assert w.work[5 := wk] == m.work;
  }

  lemma PinSucceeds()
    ensures var w := Busy(NO_ROWS, FIRST_OBJECTS, {}, 0, Pin(7, NAMES, false, NOTHING));
            Enabled(w, PinObjects(5, true)) && Apply(w, PinObjects(5, true)) == Pinned(FIRST_OBJECTS, NAMES, true)
  {
    var w := Busy(NO_ROWS, FIRST_OBJECTS, {}, 0, Pin(7, NAMES, false, NOTHING));
    hide Apply;
    Goes(w, PinObjects(5, true), Pinned(FIRST_OBJECTS, NAMES, true), Deleting(7, NAMES, true, false, NOTHING));
  }

  lemma FirstDeletion()
    ensures var w := Pinned(FIRST_OBJECTS, NAMES, true);
            && Enabled(w, DeleteOne(5, true, true))
            && Apply(w, DeleteOne(5, true, true)) == Pinned(THUMB, NAMES[1..], true)
  {
    assert FIRST_OBJECTS - {Original(7, 0)} == THUMB;
    hide Apply;
    Goes(Pinned(FIRST_OBJECTS, NAMES, true), DeleteOne(5, true, true), Pinned(THUMB, NAMES[1..], true),
         Deleting(7, NAMES[1..], true, false, NOTHING));
  }

  lemma DeletionFails()
    ensures var w := Pinned(THUMB, NAMES[1..], true);
            && Enabled(w, DeleteOne(5, false, false)) && Apply(w, DeleteOne(5, false, false)) == Pinned(THUMB, [], false)
  {
    assert NAMES[1..][1..] == [];
    hide Apply;
    Goes(Pinned(THUMB, NAMES[1..], true), DeleteOne(5, false, false), Pinned(THUMB, [], false),
         Deleting(7, [], false, false, NOTHING));
  }

  lemma UnpinGoesOn()
    ensures var w := Pinned(THUMB, [], false);
            Enabled(w, Unpin(5)) && Apply(w, Unpin(5)) == Busy(NO_ROWS, THUMB, {}, 0, Unlock(7, NOTHING))
  {
    hide Apply;
    Goes(Pinned(THUMB, [], false), Unpin(5), Busy(NO_ROWS, THUMB, {}, 0, Unlock(7, NOTHING)), Unlock(7, NOTHING));
  }

  /** What a failed upload wrote cannot be deleted because the store refuses one deletion. */
  lemma FailedDeletionStrands() returns (steps: seq<Step>)
    ensures LeavesBehind(steps, DeleteOne(5, false, false), Key.Thumb(0, 7, 0))
  {
    hide Run, Leads, KeysUnder, Apply, Enabled, Pinned;
    StartIsInitial();
    steps := UploadToDiscard();
    PinSucceeds();
    FirstDeletion();
    DeletionFails();
    UnpinGoesOn();
    steps := Next(FIRST_START, steps, Busy(NO_ROWS, FIRST_OBJECTS, {}, 0, Pin(7, NAMES, false, NOTHING)), PinObjects(5, true),
                  Pinned(FIRST_OBJECTS, NAMES, true));
    steps := Next(FIRST_START, steps, Pinned(FIRST_OBJECTS, NAMES, true), DeleteOne(5, true, true), Pinned(THUMB, NAMES[1..], true));
    steps := Next(FIRST_START, steps, Pinned(THUMB, NAMES[1..], true), DeleteOne(5, false, false), Pinned(THUMB, [], false));
    assert DeleteOne(5, false, false) in steps;
    steps := Next(FIRST_START, steps, Pinned(THUMB, [], false), Unpin(5), Busy(NO_ROWS, THUMB, {}, 0, Unlock(7, NOTHING)));
    var unpinned := steps;
    assert DeleteOne(5, false, false) in unpinned;
    steps := ThreadLeaves(steps, Busy(NO_ROWS, THUMB, {}, 0, Unlock(7, NOTHING)));
  }

  // ---- with every operation working ----------------------------------------------------------------

  const SHARED := DB.(files := map[1 := ROW, 2 := ROW], blobs := map[7 := BLOB.(refcount := 2)])

  lemma RecordStands()
    ensures Leads(Busy(DB, OBJECTS, {1}, 1, UpEnsure(UP, KeysUnder(1))), Ensure(5, true, true), DB, OBJECTS, UpInsert(UP, KeysUnder(1)))
  {
    hide ContentKeys;
  }

  lemma SecondRowGoesIn()
    ensures var w := Busy(DB, OBJECTS, {1}, 1, UpInsert(UP, KeysUnder(1)));
            && Enabled(w, Insert(5, 2, true, true))
            && var m := Apply(w, Insert(5, 2, true, true));
               m.db == SHARED && m.objects == OBJECTS && m.work == map[5 := Unlock(7, NOTHING)] && m.locks == HELD
  {
    var w, s := Busy(DB, OBJECTS, {1}, 1, UpInsert(UP, KeysUnder(1))), Insert(5, 2, true, true);
    assert NewFile(w.work[5]) == ROW && DB.files[2 := ROW] == SHARED.files;
    assert DB.blobs[7 := BLOB.(refcount := 2)] == SHARED.blobs;
    assert w.work[5 := Unlock(7, NOTHING)] == map[5 := Unlock(7, NOTHING)];
    hide Apply, StoredBytes;
    assert ThreadEnabled(w, s) && NextDb(w, s) == SHARED && NextWork(w, s) == Some(Unlock(7, NOTHING));
    InsertedLike(w, s);
  }

  lemma InsertedLike(w: World, s: Step)
    requires s.Insert? && ThreadEnabled(w, s) && NextWork(w, s).Some?
    ensures Enabled(w, s)
    ensures var m := Apply(w, s);
            && m.db == NextDb(w, s) && m.objects == w.objects && m.locks == w.locks
            && m.work == w.work[s.t := NextWork(w, s).value]
  {
    hide NextWork, NextDb, ThreadEnabled;
  }

  /** The same content again, under other settings, up to its record. */
  lemma SecondIsStored(steps: seq<Step>) returns (all: seq<Step>)
    requires Run(FIRST_START, steps) == Some(Busy(DB, FIRST_OBJECTS, {1}, 1, UpStat(UP, KeysUnder(1))))
    ensures Run(FIRST_START, all) == Some(Busy(DB, OBJECTS, {1}, 1, UpInsert(UP, KeysUnder(1))))
  {
    hide Run, Leads, KeysUnder;
    var w1 := Busy(DB, FIRST_OBJECTS, {1}, 1, UpSaveThumb(UP, KeysUnder(1)));
    var w2 := Busy(DB, OBJECTS, {1}, 1, UpSavePreview(UP, KeysUnder(1)));
    var w3 := Busy(DB, OBJECTS, {1}, 1, UpEnsure(UP, KeysUnder(1)));
    StatGoesOn(DB, FIRST_OBJECTS, {1}, 1, UP);
    all := Works(FIRST_START, steps, Busy(DB, FIRST_OBJECTS, {1}, 1, UpStat(UP, KeysUnder(1))), Stat(5, true), w1);
    ThumbIsSaved(DB, FIRST_OBJECTS, {1}, 1, 21, UP);
    assert FIRST_OBJECTS[Key.Thumb(1, 7, 0) := 21] == OBJECTS;
    all := Works(FIRST_START, all, w1, Save(5, true, true, 21), w2);
    PreviewIsSkipped(DB, OBJECTS, {1}, 1, UP);
    all := Works(FIRST_START, all, w2, Save(5, true, true, 0), w3);
    RecordStands();
    all := Works(FIRST_START, all, w3, Ensure(5, true, true), Busy(DB, OBJECTS, {1}, 1, UpInsert(UP, KeysUnder(1))));
  }

  /** A server is restarted with other rendition settings and takes a content again that a file has: the
      upload stores a thumbnail of the new settings and the record goes on naming the old one. Nothing
      fails, and no record names the new thumbnail. */
  lemma NewSettingsStrand() returns (steps: seq<Step>)
    ensures Initial(FIRST_START) && Run(FIRST_START, steps).Some?
    ensures var m := Run(FIRST_START, steps).value;
            && m.work == map[] && m.db.files.Keys == {1, 2} && Key.Thumb(1, 7, 0) in m.objects
            && forall sha :: sha in m.db.blobs ==> Key.Thumb(1, 7, 0) !in m.db.blobs[sha].Keys()
  {
    hide Run, Apply, Enabled, Leads, KeysUnder;
    StartIsInitial();
    RunNothing(FIRST_START);
    steps := UploadStarts(FIRST_START, [], NO_ROWS, NONE, {}, 0, 0, UP);
    steps := UploadIsProcessed(FIRST_START, steps, NO_ROWS, NONE, {}, 0, None);
    steps := FirstObjects(FIRST_START, steps, NO_ROWS, UP);
    steps := FirstRecords(steps);
    var stored := Busy(DB, FIRST_OBJECTS, {1}, 0, Unlock(7, NOTHING));
    ServerStops();
    steps := Then(FIRST_START, steps, stored, StopServer, Idle(DB, FIRST_OBJECTS, {1}, 0));
    steps := UploadStarts(FIRST_START, steps, DB, FIRST_OBJECTS, {1}, 0, 1, UP);
    steps := UploadIsProcessed(FIRST_START, steps, DB, FIRST_OBJECTS, {1}, 1, Some(1));
    steps := SecondIsStored(steps);
    SecondRowGoesIn();
    var w := Busy(DB, OBJECTS, {1}, 1, UpInsert(UP, KeysUnder(1)));
    var m := Apply(w, Insert(5, 2, true, true));
    steps := Then(FIRST_START, steps, w, Insert(5, 2, true, true), m);
    steps := ThreadLeaves(steps, m);
    RecordNamesTheOld();
  }

  lemma ServerStops()
    ensures var w := Busy(DB, FIRST_OBJECTS, {1}, 0, Unlock(7, NOTHING));
            Enabled(w, StopServer) && Apply(w, StopServer) == Idle(DB, FIRST_OBJECTS, {1}, 0)
  {
  }

  lemma RecordNamesTheOld()
    ensures SHARED.files.Keys == {1, 2} && Key.Thumb(1, 7, 0) in OBJECTS
    ensures forall sha :: sha in SHARED.blobs ==> Key.Thumb(1, 7, 0) !in SHARED.blobs[sha].Keys()
  {
  }
}
