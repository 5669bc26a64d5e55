/** The filtered copies of a file's content: in every reachable world each copy that the record of a
    file's content names is in the object store, so that what a record promises can be served. */
module LifecycleCopies {
  import opened Prelude
  import opened Tables
  import opened Lifecycle
  import opened LifecycleSafety
  import opened LifecycleAbsence
  import ContentLock

  ghost predicate CopiesStored(b: Blob, objects: map<Key, nat>) { forall c :: c in b.copies ==> b.copies[c] in objects }

  ghost predicate NoCopies(names: seq<Key>) { forall k :: k in names ==> !k.Filtered? }

  // ---- the invariant -------------------------------------------------------------------------

  ghost predicate ReadyCopies(db: Db, objects: map<Key, nat>, sha: Sha) {
    sha in db.blobs ==> CopiesStored(db.blobs[sha], objects)
  }

  /** A thread about to add a row has the copies stored; one that deletes under a record has found it
      orphaned, and one that deletes without touches no copy; one about to name a copy has stored it. */
  ghost predicate Holding(wk: Work, db: Db, objects: map<Key, nat>) {
    match wk
    case ReuseReserve(up, _) => ReadyCopies(db, objects, up.sha)
    case ReuseInsert(up, _, _) => ReadyCopies(db, objects, up.sha)
    case UpInsert(up, _) => ReadyCopies(db, objects, up.sha)
    case Discard(_, names) => NoCopies(names)
    case Pin(sha, names, drop, _) => if drop then sha in db.blobs ==> db.blobs[sha].Orphaned() else NoCopies(names)
    case Deleting(sha, names, _, drop, _) => if drop then sha in db.blobs ==> db.blobs[sha].Orphaned() else NoCopies(names)
    case CopySet(_, _, key) => key in objects
    case _ => true
  }

  ghost predicate Referenced(db: Db, objects: map<Key, nat>) {
    forall sha :: sha in db.blobs && !db.blobs[sha].Orphaned() ==> CopiesStored(db.blobs[sha], objects)
  }

  ghost predicate Holdings(w: World) { forall t :: t in w.work ==> Holding(w.work[t], w.db, w.objects) }

  ghost predicate Copied(w: World) { Referenced(w.db, w.objects) && Holdings(w) }

  // ---- what a step leaves alone ----------------------------------------------------------------

  /** Seen from one content: no copy has been named, no reference added, and nothing stored has gone. */
  ghost predicate Unmoved(sha: Sha, db: Db, objects: map<Key, nat>, db': Db, objects': map<Key, nat>) {
    && (sha in db'.blobs ==>
          && sha in db.blobs && db'.blobs[sha].refcount <= db.blobs[sha].refcount
          && forall c :: c in db'.blobs[sha].copies ==>
               c in db.blobs[sha].copies && db'.blobs[sha].copies[c] == db.blobs[sha].copies[c])
    && (forall k :: k in objects && k.sha == sha ==> k in objects')
  }

  lemma CopiesUnmoved(sha: Sha, db: Db, objects: map<Key, nat>, db': Db, objects': map<Key, nat>)
    requires Unmoved(sha, db, objects, db', objects') && sha in db'.blobs && BlobNamed(db.blobs[sha], sha)
    requires CopiesStored(db.blobs[sha], objects)
    ensures CopiesStored(db'.blobs[sha], objects')
  {
  }

  lemma HoldingKept(wk: Work, db: Db, objects: map<Key, nat>, db': Db, objects': map<Key, nat>)
    requires Holding(wk, db, objects) && Local(wk, db, objects) && Sound(db, objects)
    requires !wk.Leave? && !wk.Refund? ==> Unmoved(ShaOf(wk), db, objects, db', objects')
    ensures Holding(wk, db', objects')
  {
    hide Stored, Harmless, ThumbNamed, PreviewNamed;
    if (wk.ReuseReserve? || wk.ReuseInsert? || wk.UpInsert?) && wk.up.sha in db'.blobs {
      CopiesUnmoved(wk.up.sha, db, objects, db', objects');
    }
  }

  lemma ObjectsStay(w: World, s: Step, sha: Sha)
    requires IsThreadStep(s) && ThreadEnabled(w, s) && Local(w.work[s.t], w.db, w.objects)
    requires sha != ShaOf(w.work[s.t]) || s.DeleteRow? || s.GiveRefund?
    ensures forall k :: k in w.objects && k.sha == sha ==> k in NextObjects(w, s)
  {
    if s.DeleteOne? {
      assert w.work[s.t].names[0] in w.work[s.t].names;
    }
  }

  lemma UnmovedElsewhere(w: World, s: Step, sha: Sha)
    requires IsThreadStep(s) && ThreadEnabled(w, s) && Local(w.work[s.t], w.db, w.objects)
    requires sha != ShaOf(w.work[s.t]) || s.DeleteRow? || s.GiveRefund?
    ensures Unmoved(sha, w.db, w.objects, NextDb(w, s), NextObjects(w, s))
  {
    hide NextDb, NextObjects, ThreadEnabled, Local;
    ObjectsStay(w, s, sha);
    if sha in NextDb(w, s).blobs {
      RecordElsewhere(w, s, sha);
      DbElsewhere(w, s, sha);
    }
  }

  // ---- what a step does to its own content -------------------------------------------------------

  lemma CheckHolds(w: World, s: Step)
    requires s.Check? && ThreadEnabled(w, s) && Counted(w.db) && Referenced(w.db, w.objects)
    ensures Holding(NextWork(w, s).value, w.db, w.objects)
  {
    if s.row.Some? {
      assert s.row.value in References(w.db.files, w.work[s.t].up.sha);
    }
  }

  lemma UploadHolds(w: World, s: Step)
    requires s.ClaimBytes? || s.GiveRefund? || s.Insert? || s.Ensure?
    requires ThreadEnabled(w, s) && Referenced(w.db, w.objects)
    requires Local(w.work[s.t], w.db, w.objects) && Holding(w.work[s.t], w.db, w.objects)
    ensures NextWork(w, s).Some? ==> Holding(NextWork(w, s).value, NextDb(w, s), NextObjects(w, s))
  {
    hide Harmless, Stored;
    if s.GiveRefund? && w.work[s.t].UpRefund? {
      NoCopyAmong(w.work[s.t].keys, w.work[s.t].up.sha);
    }
  }

  lemma NoCopyAmong(keys: Keys, sha: Sha)
    requires KeysNamed(keys, sha)
    ensures NoCopies(keys.All())
  {
  }

  lemma OthersHold(w: World, s: Step)
    requires IsThreadStep(s) && !s.Check? && !s.ClaimBytes? && !s.GiveRefund? && !s.Insert? && !s.Ensure?
    requires ThreadEnabled(w, s) && Holding(w.work[s.t], w.db, w.objects)
    ensures NextWork(w, s).Some? ==> Holding(NextWork(w, s).value, NextDb(w, s), NextObjects(w, s))
  {
    hide CopiesStored;
  }

  lemma NextHolds(w: World, s: Step)
    requires IsThreadStep(s) && ThreadEnabled(w, s) && Counted(w.db) && Referenced(w.db, w.objects)
    requires Local(w.work[s.t], w.db, w.objects) && Holding(w.work[s.t], w.db, w.objects)
    ensures NextWork(w, s).Some? ==> Holding(NextWork(w, s).value, NextDb(w, s), NextObjects(w, s))
  {
    hide NextWork, NextDb, NextObjects, Holding, Local, ThreadEnabled, Counted, Referenced;
    if s.Check? {
      CheckHolds(w, s);
      NothingMoves(w, s);
    } else if s.ClaimBytes? || s.GiveRefund? || s.Insert? || s.Ensure? {
      UploadHolds(w, s);
    } else {
      OthersHold(w, s);
    }
  }

  lemma NothingMoves(w: World, s: Step)
    requires s.Check? && ThreadEnabled(w, s)
    ensures NextDb(w, s) == w.db && NextObjects(w, s) == w.objects
  {
  }

  lemma OwnRecord(w: World, s: Step)
    requires IsThreadStep(s) && ThreadEnabled(w, s) && !s.DeleteRow? && !s.DeleteOne?
    requires Referenced(w.db, w.objects) && Holding(w.work[s.t], w.db, w.objects)
    ensures var sha, m := ShaOf(w.work[s.t]), NextDb(w, s);
            sha in m.blobs && !m.blobs[sha].Orphaned() ==> CopiesStored(m.blobs[sha], NextObjects(w, s))
  {
  }

  lemma OwnDeletion(w: World, s: Step)
    requires s.DeleteOne? && ThreadEnabled(w, s) && Sound(w.db, w.objects)
    requires Referenced(w.db, w.objects) && Holding(w.work[s.t], w.db, w.objects)
    ensures var sha, m := ShaOf(w.work[s.t]), NextDb(w, s);
            sha in m.blobs && !m.blobs[sha].Orphaned() ==> CopiesStored(m.blobs[sha], NextObjects(w, s))
  {
    hide Stored, ThumbNamed, PreviewNamed;
    assert w.work[s.t].names[0] in w.work[s.t].names;
  }

  lemma NextReferenced(w: World, s: Step)
    requires IsThreadStep(s) && ThreadEnabled(w, s) && Sound(w.db, w.objects) && Local(w.work[s.t], w.db, w.objects)
    requires Referenced(w.db, w.objects) && Holding(w.work[s.t], w.db, w.objects)
    ensures Referenced(NextDb(w, s), NextObjects(w, s))
  {
    hide NextDb, NextObjects, ThreadEnabled, Local, Holding, CopiesStored, Stored, BlobNamed;
    ActorIsLocked(w, s);
    var m := NextDb(w, s);
    forall sha | sha in m.blobs && !m.blobs[sha].Orphaned()
      ensures CopiesStored(m.blobs[sha], NextObjects(w, s))
    {
      if sha != ShaOf(w.work[s.t]) || s.DeleteRow? {
        UnmovedElsewhere(w, s, sha);
        CopiesUnmoved(sha, w.db, w.objects, m, NextObjects(w, s));
      } else if s.DeleteOne? {
        OwnDeletion(w, s);
      } else {
        OwnRecord(w, s);
      }
    }
  }

  // ---- every step --------------------------------------------------------------------------------

  lemma OtherHolds(w: World, s: Step, u: Tid)
    requires Threads(w) && IsThreadStep(s) && ThreadEnabled(w, s) && u in w.work && u != s.t
    requires Sound(w.db, w.objects) && Local(w.work[s.t], w.db, w.objects)
    requires Local(w.work[u], w.db, w.objects) && Holding(w.work[u], w.db, w.objects)
    ensures Holding(w.work[u], NextDb(w, s), NextObjects(w, s))
  {
    hide NextDb, NextObjects, Unmoved, Local, Threads, ThreadEnabled, Sound;
    ActorIsLocked(w, s);
    if Locked(w.work[u]) {
      if !s.DeleteRow? && !s.GiveRefund? {
        Apart(w, s.t, u);
      }
      UnmovedElsewhere(w, s, ShaOf(w.work[u]));
      HoldingKept(w.work[u], w.db, w.objects, NextDb(w, s), NextObjects(w, s));
    }
  }

  lemma ThreadStepCopied(w: World, s: Step)
    requires Inv(w) && Copied(w) && IsThreadStep(s) && ThreadEnabled(w, s)
    ensures Copied(ThreadStep(w, s))
  {
    hide ThreadEnabled, NextDb, NextWork, NextObjects, NextPins, Holding, Threads, Local, ThreadStep, Counted, Sound, Referenced;
    hide TrueOriginals, Exclusive;
    ThreadFrame(w, s);
    var m := ThreadStep(w, s);
    assert Local(w.work[s.t], w.db, w.objects) && Holding(w.work[s.t], w.db, w.objects);
    NextReferenced(w, s);
    NextHolds(w, s);
    forall u | u in m.work
      ensures Holding(m.work[u], m.db, m.objects)
    {
      if u != s.t {
        assert Local(w.work[u], w.db, w.objects);
        OtherHolds(w, s, u);
      }
    }
  }

  lemma BeginCopied(w: World, s: Step)
    requires Copied(w) && IsBegin(s) && BeginEnabled(w, s)
    ensures Copied(Become(w, s.t, BeginWork(w, s)))
  {
    hide Referenced;
    assert Holding(BeginWork(w, s), w.db, w.objects);
  }

  lemma LockWorkHolds(w: World, s: Step)
    requires IsLockStep(s) && LockEnabled(w, s)
    ensures LockWork(w.work[s.t], s).Some? ==> Holding(LockWork(w.work[s.t], s).value, w.db, w.objects)
  {
  }

  lemma LockStepCopied(w: World, s: Step)
    requires Copied(w) && IsLockStep(s) && LockEnabled(w, s)
    ensures Copied(LockStep(w, s))
  {
    hide LockEnabled, LockStep, LockWork, Holding, Referenced;
    LockFrame(w, s);
    LockWorkHolds(w, s);
  }

  lemma ProcessRecord(w: World, s: Step, sha: Sha)
    requires IsProcessStep(s) && ProcessEnabled(w, s) && sha in ProcessStep(w, s).db.blobs
    ensures sha in w.db.blobs && ProcessStep(w, s).db.blobs[sha].refcount <= w.db.blobs[sha].refcount
    ensures var b, b' := w.db.blobs[sha], ProcessStep(w, s).db.blobs[sha];
            forall c :: c in b'.copies ==> c in b.copies && b'.copies[c] == b.copies[c]
  {
  }

  lemma ProcessKeepsObjects(w: World, s: Step, sha: Sha, c: CopyKind)
    requires IsProcessStep(s) && ProcessEnabled(w, s) && sha in w.db.blobs && c in w.db.blobs[sha].copies
    requires w.db.blobs[sha].copies[c] in w.objects
    ensures w.db.blobs[sha].copies[c] in ProcessStep(w, s).objects
  {
    assert w.db.blobs[sha].copies[c] in w.db.blobs[sha].Keys();
  }

  lemma ProcessCopiesStored(w: World, s: Step, sha: Sha, b: Blob, b': Blob)
    requires IsProcessStep(s) && ProcessEnabled(w, s) && sha in ProcessStep(w, s).db.blobs && sha in w.db.blobs
    requires b == w.db.blobs[sha] && b' == ProcessStep(w, s).db.blobs[sha] && CopiesStored(b, w.objects)
    ensures CopiesStored(b', ProcessStep(w, s).objects)
  {
    hide ProcessStep, ProcessEnabled;
    ProcessRecord(w, s, sha);
    forall c | c in b'.copies
      ensures b'.copies[c] in ProcessStep(w, s).objects
    {
      ProcessKeepsObjects(w, s, sha, c);
    }
  }

  lemma ProcessReferenced(w: World, s: Step)
    requires Referenced(w.db, w.objects) && IsProcessStep(s) && ProcessEnabled(w, s)
    ensures Referenced(ProcessStep(w, s).db, ProcessStep(w, s).objects)
  {
    hide ProcessStep, ProcessEnabled, CopiesStored;
    var m := ProcessStep(w, s);
    forall sha | sha in m.db.blobs && !m.db.blobs[sha].Orphaned()
      ensures CopiesStored(m.db.blobs[sha], m.objects)
    {
      ProcessRecord(w, s, sha);
      ProcessCopiesStored(w, s, sha, w.db.blobs[sha], m.db.blobs[sha]);
    }
  }

  lemma ProcessUnmoved(w: World, s: Step, sha: Sha)
    requires IsProcessStep(s) && ProcessEnabled(w, s) && !w.maintenance
    ensures Unmoved(sha, w.db, w.objects, ProcessStep(w, s).db, ProcessStep(w, s).objects)
  {
  }

  lemma ProcessCopied(w: World, s: Step)
    requires Inv(w) && Copied(w) && IsProcessStep(s) && ProcessEnabled(w, s)
    ensures Copied(ProcessStep(w, s))
  {
    hide Threads, Exclusive, Local, Sound, Counted, TrueOriginals, Holding, Referenced, Unmoved, ProcessEnabled, ProcessStep;
    ProcessReferenced(w, s);
    ProcessWork(w, s);
    var m := ProcessStep(w, s);
    forall u | u in m.work
      ensures Holding(m.work[u], m.db, m.objects)
    {
      assert Local(w.work[u], w.db, w.objects) && Holding(w.work[u], w.db, w.objects);
      ProcessUnmoved(w, s, ShaOf(w.work[u]));
      HoldingKept(w.work[u], w.db, w.objects, m.db, m.objects);
    }
  }

  lemma StepKeepsCopied(w: World, s: Step)
    requires Inv(w) && Copied(w) && Enabled(w, s)
    ensures Copied(Apply(w, s))
  {
    hide Inv, Copied, Apply, Enabled, ThreadStep, LockStep, ProcessStep, ThreadEnabled, LockEnabled, BeginEnabled, ProcessEnabled;
    hide BeginWork;
    ApplyIs(w, s);
    if IsBegin(s) {
      BeginCopied(w, s);
    } else if IsLockStep(s) {
      LockStepCopied(w, s);
    } else if IsProcessStep(s) {
      ProcessCopied(w, s);
    } else {
      ThreadStepCopied(w, s);
    }
  }

  lemma {:induction false} CarefulRunsKeepCopied(w: World, steps: seq<Step>)
    requires Initial(w) && Run(w, steps).Some? && Careful(w, steps)
    ensures Copied(Run(w, steps).value)
  {
    if steps != [] {
      var before := steps[..|steps| - 1];
      CarefulRunsKeepCopied(w, before);
      EveryReachableWorldIsSafe(w, before);
      StepKeepsCopied(Run(w, before).value, steps[|steps| - 1]);
    }
  }

  /** In every reachable world: of each file, every copy its content's record names is stored, under a key
      of that content and that kind. */
  lemma EveryCopyOnRecordIsStored(w: World, steps: seq<Step>, id: Id, c: CopyKind)
    requires Initial(w) && Run(w, steps).Some? && Careful(w, steps)
    requires var m := Run(w, steps).value; id in m.db.files
    ensures var m := Run(w, steps).value;
            var sha := m.db.files[id].sha;
            && sha in m.db.blobs
            && (c in m.db.blobs[sha].copies ==>
                  var k := m.db.blobs[sha].copies[c];
                  k in m.objects && k.Filtered? && k.sha == sha && k.kind == c)
  {
    hide Run, Careful, Clear;
    CarefulRunsKeepCopied(w, steps);
    EveryReachableWorldIsSafe(w, steps);
    RunsKeepClear(w, steps);
    var m := Run(w, steps).value;
    RecordsAreNamed(m);
    ReferencedIffNamed(m.db, m.db.files[id].sha);
  }

  lemma RecordsAreNamed(w: World)
    requires Clear(w)
    ensures forall sha :: sha in w.db.blobs ==> RecordNamed(w.db.blobs[sha], sha)
  {
  }
}
