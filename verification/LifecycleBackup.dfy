/** Online backup: the shared and exclusive file locks of internal/instance pin every stored
    object from the moment AcquireBackup returns until it is closed, while uploads, deletions,
    sweeps, server exits and server starts go on. */
module LifecycleBackup {
  import opened Prelude
  import opened Tables
  import opened Lifecycle
  import opened LifecycleSafety

  /** Who holds which file lock: the object lock is exclusive to a backup, the compatibility slot
      keeps an older server out, and a current server deletes only under its pin. */
  ghost predicate FileLocks(w: World) {
    && (w.backup.HasObjects? || w.backup.HasAll? ==> w.pins == {})
    && (w.backup.HasAll? ==> !w.server.Older?)
    && (w.server.Current? ==> forall t :: t in w.work && w.work[t].Deleting? ==> t in w.pins)
    && (!w.server.Current? ==> w.pins == {})
    && (w.server.Stopped? ==> w.work == map[])
    && (w.maintenance ==> w.server.Stopped? && w.backup.NoBackup?)
  }

  /** What the copy needs: every object a referenced blob of the snapshot names, and the bytes of
      the original. */
  ghost predicate Pinned(w: World) {
    w.backup.HasAll? && w.backup.snapshot.Some? ==>
      var snap := w.backup.snapshot.value;
      forall sha :: sha in snap.blobs && !snap.blobs[sha].Orphaned() ==>
        && Stored(snap.blobs[sha], w.objects)
        && w.objects[snap.blobs[sha].original] == sha
        && snap.blobs[sha].original == Original(sha, snap.blobs[sha].original.ext)
  }

  lemma ThreadStepFileLocks(w: World, s: Step)
    requires FileLocks(w) && IsThreadStep(s) && ThreadEnabled(w, s)
    ensures FileLocks(ThreadStep(w, s))
  {
    var w' := ThreadStep(w, s);
    forall t | t in w'.work && w'.work[t].Deleting? && w.server.Current?
      ensures t in w'.pins
    {
      if t != s.t {
        assert w'.work[t] == w.work[t];
      }
    }
  }

  lemma LockStepFileLocks(w: World, s: Step)
    requires FileLocks(w) && IsLockStep(s) && LockEnabled(w, s)
    ensures FileLocks(LockStep(w, s))
  {
    hide ContentLock.Apply;
    var w' := LockStep(w, s);
    forall t | t in w'.work && w'.work[t].Deleting? && w.server.Current?
      ensures t in w'.pins
    {
      assert t != s.t && w'.work[t] == w.work[t];
    }
  }

  lemma ProcessStepFileLocks(w: World, s: Step)
    requires FileLocks(w) && IsProcessStep(s) && ProcessEnabled(w, s)
    ensures FileLocks(ProcessStep(w, s))
  {
  }

  lemma StepKeepsFileLocks(w: World, s: Step)
    requires FileLocks(w) && Enabled(w, s)
    ensures FileLocks(Apply(w, s))
  {
    hide Apply, ThreadStep, LockStep, ProcessStep, ThreadEnabled, LockEnabled, ProcessEnabled;
    ApplyIs(w, s);
    if IsThreadStep(s) {
      ThreadStepFileLocks(w, s);
    } else if IsLockStep(s) {
      LockStepFileLocks(w, s);
    } else if IsProcessStep(s) {
      ProcessStepFileLocks(w, s);
    }
  }

  /** The only thread step that removes an object cannot be taken: its thread would need a pin. */
  lemma HeldBackupStopsDeletion(w: World, s: Step)
    requires FileLocks(w) && w.backup.HasAll? && s.DeleteOne?
    ensures !ThreadEnabled(w, s)
  {
  }

  lemma OnlyDeleteOneRemoves(w: World, s: Step)
    requires IsThreadStep(s) && ThreadEnabled(w, s) && !s.DeleteOne?
    ensures w.objects.Keys <= NextObjects(w, s).Keys
  {
  }

  /** While a backup is held no object leaves the store, whatever step is taken. */
  lemma HeldBackupKeepsEveryObject(w: World, s: Step)
    requires FileLocks(w) && Enabled(w, s) && w.backup.HasAll?
    ensures w.objects.Keys <= Apply(w, s).objects.Keys
  {
    hide Apply, ThreadStep, LockStep, ProcessStep, ThreadEnabled, LockEnabled, ProcessEnabled, BeginWork, NextObjects, FileLocks;
    ApplyIs(w, s);
    if s.DeleteOne? {
      HeldBackupStopsDeletion(w, s);
    } else if IsThreadStep(s) {
      OnlyDeleteOneRemoves(w, s);
      ThreadFrame(w, s);
    } else if IsLockStep(s) {
      LockFrame(w, s);
    } else if IsProcessStep(s) {
      ProcessKeepsObjects(w, s);
    }
  }

  lemma ProcessKeepsObjects(w: World, s: Step)
    requires FileLocks(w) && IsProcessStep(s) && ProcessEnabled(w, s) && w.backup.HasAll?
    ensures w.objects.Keys <= ProcessStep(w, s).objects.Keys
  {
  }

  lemma PinnedKept(w: World, w': World)
    requires Pinned(w) && TrueOriginals(w'.objects) && w.objects.Keys <= w'.objects.Keys
    requires w'.backup == w.backup
    ensures Pinned(w')
  {
  }

  lemma SnapshotIsPinned(w: World)
    requires Inv(w) && w.backup == HasAll(Some(w.db))
    ensures Pinned(w)
  {
    forall sha | sha in w.db.blobs && !w.db.blobs[sha].Orphaned()
      ensures Stored(w.db.blobs[sha], w.objects)
      ensures w.objects[w.db.blobs[sha].original] == sha
      ensures w.db.blobs[sha].original == Original(sha, w.db.blobs[sha].original.ext)
    {
      assert BlobNamed(w.db.blobs[sha], sha);
    }
  }

  /** Only the backup's own steps change what it holds. */
  lemma BackupIsItsOwn(w: World, s: Step)
    requires Enabled(w, s)
    ensures Apply(w, s).backup == w.backup || s.BackupLifecycle? || s.BackupObjects? || s.BackupSlot?
            || s.TakeSnapshot? || s.CloseBackup?
  {
    hide Apply, ThreadStep, LockStep, ThreadEnabled, LockEnabled, BeginWork, NextObjects, DeleteUser;
    ApplyIs(w, s);
    if IsThreadStep(s) {
      ThreadFrame(w, s);
    } else if IsLockStep(s) {
      LockFrame(w, s);
    }
  }

  // ---- originals stay true, whatever reads fail -------------------------------------------------------

  /** A thread that is about to write an object writes it under its own key. */
  ghost predicate WritesItsOwn(wk: Work) {
    match wk
    case UpReserve(up, keys) => KeysNamed(keys, up.sha)
    case UpStat(up, keys) => KeysNamed(keys, up.sha)
    case UpSaveOriginal(up, keys) => KeysNamed(keys, up.sha)
    case UpProbe(up, keys) => KeysNamed(keys, up.sha)
    case UpSaveThumb(up, keys) => KeysNamed(keys, up.sha)
    case UpSavePreview(up, keys) => KeysNamed(keys, up.sha)
    case CopySave(_, _, key) => key.Filtered?
    case _ => true
  }

  ghost predicate OwnWrites(work: map<Tid, Work>) { forall t :: t in work ==> WritesItsOwn(work[t]) }

  lemma NextWritesItsOwn(w: World, s: Step)
    requires IsThreadStep(s) && ThreadEnabled(w, s) && WritesItsOwn(w.work[s.t])
    ensures NextWork(w, s).Some? ==> WritesItsOwn(NextWork(w, s).value)
  {
  }

  lemma SavesStayTrue(w: World, s: Step)
    requires IsThreadStep(s) && ThreadEnabled(w, s) && WritesItsOwn(w.work[s.t]) && TrueOriginals(w.objects)
    ensures TrueOriginals(NextObjects(w, s))
  {
  }

  lemma ProcessesStayTrue(w: World, s: Step)
    requires IsProcessStep(s) && ProcessEnabled(w, s) && TrueOriginals(w.objects) && OwnWrites(w.work)
    ensures TrueOriginals(ProcessStep(w, s).objects) && OwnWrites(ProcessStep(w, s).work)
  {
    hide WritesItsOwn;
  }

  lemma LockNeverWrites(wk: Work, s: Step)
    requires IsLockStep(s) && WritesItsOwn(wk)
    ensures LockWork(wk, s).Some? ==> WritesItsOwn(LockWork(wk, s).value)
  {
  }

  lemma BeginNeverWrites(w: World, s: Step)
    requires IsBegin(s) && BeginEnabled(w, s)
    ensures WritesItsOwn(BeginWork(w, s))
  {
  }

  /** No step puts other bytes under an original's key, not even the one that takes objects for unowned. */
  lemma StepKeepsOriginalsTrue(w: World, s: Step)
    requires Enabled(w, s) && TrueOriginals(w.objects) && OwnWrites(w.work)
    ensures TrueOriginals(Apply(w, s).objects) && OwnWrites(Apply(w, s).work)
  {
    hide Apply, Enabled, ThreadStep, LockStep, ProcessStep, ThreadEnabled, LockEnabled, ProcessEnabled, BeginEnabled, BeginWork;
    hide NextWork, NextObjects, NextDb, NextPins, LockWork, WritesItsOwn, TrueOriginals;
    ApplyIs(w, s);
    if IsThreadStep(s) {
      ThreadFrame(w, s);
      NextWritesItsOwn(w, s);
      SavesStayTrue(w, s);
    } else if IsLockStep(s) {
      LockFrame(w, s);
      LockNeverWrites(w.work[s.t], s);
    } else if IsProcessStep(s) {
      ProcessesStayTrue(w, s);
    } else {
      BeginNeverWrites(w, s);
    }
  }

  // ---- whole runs -------------------------------------------------------------------------------------------

  /** A backup that has its snapshot keeps what the snapshot needs, through every step whatever: the
      deletions that a harmful read leads to have to wait for it. */
  lemma StepKeepsPinned(w: World, s: Step)
    requires FileLocks(w) && Pinned(w) && TrueOriginals(w.objects) && OwnWrites(w.work) && Enabled(w, s)
    requires s.TakeSnapshot? ==> Inv(w)
    ensures Pinned(Apply(w, s))
  {
    hide Apply, Enabled, FileLocks, TrueOriginals, OwnWrites, Inv;
    var w' := Apply(w, s);
    StepKeepsOriginalsTrue(w, s);
    BackupIsItsOwn(w, s);
    if s.TakeSnapshot? {
      SnapshotStep(w, s);
    } else if w'.backup == w.backup && w.backup.HasAll? {
      HeldBackupKeepsEveryObject(w, s);
      PinnedKept(w, w');
    } else {
      NoSnapshotYet(w, s);
    }
  }

  lemma SnapshotStep(w: World, s: Step)
    requires s.TakeSnapshot? && Enabled(w, s) && Inv(w)
    ensures Pinned(Apply(w, s))
  {
    hide Counted, Threads, Locals, Pinned;
    StepKeepsInv(w, s);
    SnapshotIsPinned(Apply(w, s));
  }

  lemma NoSnapshotYet(w: World, s: Step)
    requires Enabled(w, s) && !s.TakeSnapshot?
    ensures Apply(w, s).backup == w.backup || !Apply(w, s).backup.HasAll? || Apply(w, s).backup.snapshot.None?
  {
    hide ThreadStep, LockStep, ThreadEnabled, LockEnabled, BeginWork, NextObjects, DeleteUser;
    ApplyIs(w, s);
    BackupIsItsOwn(w, s);
  }

  /** Up to every snapshot no harmful faulty read has occurred; behind the last one any read may fail. */
  ghost predicate CarefulToSnapshots(w: World, steps: seq<Step>) {
    steps != [] ==>
      var before, s := steps[..|steps| - 1], steps[|steps| - 1];
      CarefulToSnapshots(w, before) && (s.TakeSnapshot? ==> Careful(w, before))
  }

  lemma FirstStartIsTrue(w: World)
    requires Initial(w)
    ensures FileLocks(w) && Pinned(w) && TrueOriginals(w.objects) && OwnWrites(w.work)
  {
  }

  /** Every run keeps who holds which file lock, and originals true. */
  lemma {:induction false} EveryRunKeepsLocks(w: World, steps: seq<Step>)
    requires Initial(w) && Run(w, steps).Some?
    ensures var m := Run(w, steps).value; FileLocks(m) && TrueOriginals(m.objects) && OwnWrites(m.work)
  {
    hide Apply, Enabled, FileLocks, TrueOriginals, OwnWrites, Initial;
    if steps == [] {
      FirstStartIsTrue(w);
    } else {
      var before, s := steps[..|steps| - 1], steps[|steps| - 1];
      EveryRunKeepsLocks(w, before);
      StepKeepsFileLocks(Run(w, before).value, s);
      StepKeepsOriginalsTrue(Run(w, before).value, s);
    }
  }

  /** In every reachable world a backup that has taken its snapshot finds every object the snapshot's
      files need. All that is asked of the run is that the snapshot was taken before any harmful
      faulty read: while the backup is held even that read takes nothing from it. */
  lemma {:induction false} BackupNeverMissesAnObject(w: World, steps: seq<Step>)
    requires Initial(w) && Run(w, steps).Some? && CarefulToSnapshots(w, steps)
    ensures var m := Run(w, steps).value; FileLocks(m) && Pinned(m)
  {
    hide Apply, Enabled, FileLocks, TrueOriginals, OwnWrites, Pinned, Initial, Careful, Inv;
    EveryRunKeepsLocks(w, steps);
    if steps == [] {
      FirstStartIsTrue(w);
    } else {
      var before, s := steps[..|steps| - 1], steps[|steps| - 1];
      EveryRunKeepsLocks(w, before);
      BackupNeverMissesAnObject(w, before);
      if s.TakeSnapshot? {
        EveryReachableWorldIsSafe(w, before);
      }
      StepKeepsPinned(Run(w, before).value, s);
    }
  }

  /** A careful run is careful up to its snapshots. */
  lemma {:induction false} CarefulIsEnough(w: World, steps: seq<Step>)
    requires Careful(w, steps)
    ensures CarefulToSnapshots(w, steps)
  {
    if steps != [] {
      CarefulIsEnough(w, steps[..|steps| - 1]);
    }
  }

  /** An older server cannot be running while a backup is held, and cannot start; offline
      maintenance cannot start either. */
  lemma HeldBackupExcludes(w: World, newTag: Tag)
    requires FileLocks(w) && w.backup.HasAll?
    ensures !w.server.Older? && !Enabled(w, StartServer(true, newTag))
    ensures !w.maintenance && !Enabled(w, StartMaintenance)
    ensures forall t :: !Enabled(w, PinObjects(t, true))
  {
  }
}
