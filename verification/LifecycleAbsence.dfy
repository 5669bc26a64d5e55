/** What a release leaves behind: nothing. A content record goes only when every object it named
    is out of the store, in every run, whatever fails and whenever the server stops. */
module LifecycleAbsence {
  import opened Prelude
  import opened Tables
  import opened Lifecycle
  import opened LifecycleSafety
  import ContentLock

  /** The objects a record names, by its fields. */
  ghost predicate NamedBy(b: Blob, k: Key) {
    k == b.original || b.thumb == Some(k) || b.preview == Some(k) || exists c :: c in b.copies && b.copies[c] == k
  }

  /** None of them is stored. */
  ghost predicate NothingLeft(b: Blob, objects: map<Key, nat>) {
    forall k :: NamedBy(b, k) ==> k !in objects
  }

  /** Whatever is still stored of the record is on the list. */
  ghost predicate Listed(b: Blob, names: seq<Key>, objects: map<Key, nat>) {
    forall k :: NamedBy(b, k) ==> k in names || k !in objects
  }

  // ---- the invariant -------------------------------------------------------------------------

  /** How far a thread has come with emptying the store of its content. */
  ghost predicate Clearing(wk: Work, db: Db, objects: map<Key, nat>) {
    match wk
    case Pin(sha, names, drop, _) => drop && sha in db.blobs ==> Listed(db.blobs[sha], names, objects)
    case Deleting(sha, names, ok, drop, _) => drop && ok && sha in db.blobs ==> Listed(db.blobs[sha], names, objects)
    case DropBlob(sha, _) => sha in db.blobs ==> NothingLeft(db.blobs[sha], objects)
    case _ => true
  }

  function KeysOf(wk: Work): Option<Keys> {
    match wk
    case UpReserve(_, keys) => Some(keys)
    case UpStat(_, keys) => Some(keys)
    case UpSaveOriginal(_, keys) => Some(keys)
    case UpProbe(_, keys) => Some(keys)
    case UpSaveThumb(_, keys) => Some(keys)
    case UpSavePreview(_, keys) => Some(keys)
    case UpEnsure(_, keys) => Some(keys)
    case UpInsert(_, keys) => Some(keys)
    case UpRefund(_, keys, _) => Some(keys)
    case _ => None
  }

  ghost predicate CopyNamed(wk: Work) {
    match wk
    case CopySave(sha, kind, key) => key.Filtered? && key.sha == sha && key.kind == kind
    case CopySet(sha, kind, key) => key.Filtered? && key.sha == sha && key.kind == kind
    case _ => true
  }

  /** Every key a thread works with is one of its own content. */
  ghost predicate WorkNamed(wk: Work) {
    && (KeysOf(wk).Some? ==> KeysNamed(KeysOf(wk).value, ShaOf(wk)))
    && CopyNamed(wk)
  }

  /** A record's keys embed its hash, and a copy's key its kind. */
  ghost predicate RecordNamed(b: Blob, sha: Sha) {
    BlobNamed(b, sha) && forall c :: c in b.copies ==> b.copies[c].kind == c
  }

  ghost predicate Names(w: World) {
    && (forall sha :: sha in w.db.blobs ==> RecordNamed(w.db.blobs[sha], sha))
    && (forall t :: t in w.work ==> WorkNamed(w.work[t]))
  }

  ghost predicate Clearings(w: World) {
    forall t :: t in w.work ==> Clearing(w.work[t], w.db, w.objects)
  }

  ghost predicate Clear(w: World) {
    Threads(w) && Exclusive(w) && Names(w) && Clearings(w)
  }

  // ---- names -----------------------------------------------------------------------------------

  lemma NamedByRecord(b: Blob, sha: Sha, k: Key)
    requires RecordNamed(b, sha) && NamedBy(b, k)
    ensures k.sha == sha
  {
  }

  lemma NextWorkNamed(w: World, s: Step)
    requires IsThreadStep(s) && ThreadEnabled(w, s) && WorkNamed(w.work[s.t])
    ensures NextWork(w, s).Some? ==> WorkNamed(NextWork(w, s).value)
  {
  }

  lemma WrittenRecordNamed(w: World, s: Step, sha: Sha)
    requires s.Ensure? || s.SetCopy?
    requires ThreadEnabled(w, s) && WorkNamed(w.work[s.t]) && sha in NextDb(w, s).blobs
    requires sha in w.db.blobs ==> RecordNamed(w.db.blobs[sha], sha)
    ensures RecordNamed(NextDb(w, s).blobs[sha], sha)
  {
  }

  lemma NextRecordNamed(w: World, s: Step, sha: Sha)
    requires IsThreadStep(s) && ThreadEnabled(w, s) && WorkNamed(w.work[s.t])
    requires sha in w.db.blobs ==> RecordNamed(w.db.blobs[sha], sha)
    requires sha in NextDb(w, s).blobs
    ensures RecordNamed(NextDb(w, s).blobs[sha], sha)
  {
    hide NextDb, ThreadEnabled, WorkNamed;
    if s.Ensure? || s.SetCopy? {
      WrittenRecordNamed(w, s, sha);
    } else {
      SameNames(w, s, sha);
    }
  }

  // ---- what a step leaves alone ----------------------------------------------------------------

  /** Seen from one content: the record names no object it did not name, and none has come. */
  ghost predicate NoneGained(sha: Sha, db: Db, objects: map<Key, nat>, db': Db, objects': map<Key, nat>) {
    && (sha in db'.blobs ==>
          && sha in db.blobs
          && db'.blobs[sha].original == db.blobs[sha].original
          && db'.blobs[sha].thumb == db.blobs[sha].thumb
          && db'.blobs[sha].preview == db.blobs[sha].preview
          && forall c :: c in db'.blobs[sha].copies ==>
               c in db.blobs[sha].copies && db'.blobs[sha].copies[c] == db.blobs[sha].copies[c])
    && (forall k :: k in objects' && k.sha == sha ==> k in objects)
  }

  lemma ListedKept(sha: Sha, names: seq<Key>, db: Db, objects: map<Key, nat>, db': Db, objects': map<Key, nat>)
    requires NoneGained(sha, db, objects, db', objects') && sha in db'.blobs
    requires RecordNamed(db.blobs[sha], sha) && Listed(db.blobs[sha], names, objects)
    ensures Listed(db'.blobs[sha], names, objects')
  {
    forall k | NamedBy(db'.blobs[sha], k)
      ensures k in names || k !in objects'
    {
      assert NamedBy(db.blobs[sha], k);
      NamedByRecord(db.blobs[sha], sha, k);
    }
  }

  lemma NothingIsListed(b: Blob, objects: map<Key, nat>)
    ensures NothingLeft(b, objects) <==> Listed(b, [], objects)
  {
  }

  lemma RecordStillListed(sha: Sha, names: seq<Key>, db: Db, objects: map<Key, nat>, db': Db, objects': map<Key, nat>)
    requires NoneGained(sha, db, objects, db', objects') && (sha in db.blobs ==> RecordNamed(db.blobs[sha], sha))
    requires sha in db.blobs ==> Listed(db.blobs[sha], names, objects)
    ensures sha in db'.blobs ==> Listed(db'.blobs[sha], names, objects')
  {
    hide NoneGained, RecordNamed, Listed;
    if sha in db'.blobs {
      StillThere(sha, db, objects, db', objects');
      ListedKept(sha, names, db, objects, db', objects');
    }
  }

  lemma ClearingKept(wk: Work, db: Db, objects: map<Key, nat>, db': Db, objects': map<Key, nat>)
    requires Clearing(wk, db, objects)
    requires wk.Pin? || wk.Deleting? || wk.DropBlob? ==>
               && NoneGained(wk.sha, db, objects, db', objects')
               && (wk.sha in db.blobs ==> RecordNamed(db.blobs[wk.sha], wk.sha))
    ensures Clearing(wk, db', objects')
  {
    hide NoneGained, RecordNamed, Listed, NothingLeft;
    match wk
    case Pin(sha, names, drop, _) =>
      if drop {
        RecordStillListed(sha, names, db, objects, db', objects');
      }
    case Deleting(sha, names, ok, drop, _) =>
      if drop && ok {
        RecordStillListed(sha, names, db, objects, db', objects');
      }
    case DropBlob(sha, _) =>
      if sha in db.blobs {
        NothingIsListed(db.blobs[sha], objects);
      }
      RecordStillListed(sha, [], db, objects, db', objects');
      if sha in db'.blobs {
        NothingIsListed(db'.blobs[sha], objects');
      }
    case _ =>
  }

  lemma StillThere(sha: Sha, db: Db, objects: map<Key, nat>, db': Db, objects': map<Key, nat>)
    requires NoneGained(sha, db, objects, db', objects') && sha in db'.blobs
    ensures sha in db.blobs
  {
  }

  lemma RecordElsewhere(w: World, s: Step, sha: Sha)
    requires IsThreadStep(s) && ThreadEnabled(w, s)
    requires sha != ShaOf(w.work[s.t]) || s.DeleteRow? || s.GiveRefund?
    requires sha in NextDb(w, s).blobs
    ensures sha in w.db.blobs && NextDb(w, s).blobs[sha] == w.db.blobs[sha].(refcount := NextDb(w, s).blobs[sha].refcount)
  {
  }

  lemma ObjectsGained(w: World, s: Step, k: Key)
    requires IsThreadStep(s) && ThreadEnabled(w, s) && WorkNamed(w.work[s.t])
    requires k in NextObjects(w, s) && k !in w.objects
    ensures s.Save? && SaveKey(w.work[s.t]) == Some(k) && k.sha == ShaOf(w.work[s.t])
  {
  }

  lemma NoneGainedElsewhere(w: World, s: Step, sha: Sha)
    requires IsThreadStep(s) && ThreadEnabled(w, s) && WorkNamed(w.work[s.t])
    requires sha != ShaOf(w.work[s.t]) || s.DeleteRow? || s.GiveRefund?
    ensures NoneGained(sha, w.db, w.objects, NextDb(w, s), NextObjects(w, s))
  {
    hide WorkNamed, ThreadEnabled, NextDb, NextObjects;
    if sha in NextDb(w, s).blobs {
      RecordElsewhere(w, s, sha);
    }
    forall k | k in NextObjects(w, s) && k.sha == sha
      ensures k in w.objects
    {
      if k !in w.objects {
        ObjectsGained(w, s, k);
      }
    }
  }

  // ---- what a step does to its own content -------------------------------------------------------

  lemma ReadLists(w: World, s: Step)
    requires s.RelRead? && ThreadEnabled(w, s)
    ensures Clearing(NextWork(w, s).value, w.db, w.objects)
  {
    var wk := w.work[s.t];
    if wk.sha in w.db.blobs {
      AllListed(w.db.blobs[wk.sha], w.objects);
    }
  }

  lemma AllListed(b: Blob, objects: map<Key, nat>)
    ensures Listed(b, b.Keys(), objects)
  {
    forall k | NamedBy(b, k)
      ensures k in b.Keys()
    {
      if k == b.original || b.thumb == Some(k) || b.preview == Some(k) {
        assert k in b.Main();
      }
    }
  }

  lemma DeletedFirst(b: Blob, names: seq<Key>, objects: map<Key, nat>)
    requires names != [] && Listed(b, names, objects)
    ensures Listed(b, names[1..], objects - {names[0]})
  {
    forall k | NamedBy(b, k)
      ensures k in names[1..] || k !in objects - {names[0]}
    {
      if k in names && k != names[0] {
        assert names == [names[0]] + names[1..];
      }
    }
  }

  lemma DeleteClears(w: World, s: Step)
    requires s.DeleteOne? && ThreadEnabled(w, s) && Clearing(w.work[s.t], w.db, w.objects)
    ensures Clearing(NextWork(w, s).value, w.db, NextObjects(w, s))
  {
    var wk := w.work[s.t];
    if wk.drop && wk.ok && s.ok && wk.sha in w.db.blobs {
      DeletedFirst(w.db.blobs[wk.sha], wk.names, w.objects);
    }
  }

  lemma UnpinClears(w: World, s: Step)
    requires s.Unpin? && ThreadEnabled(w, s) && Clearing(w.work[s.t], w.db, w.objects)
    ensures Clearing(NextWork(w, s).value, w.db, w.objects)
  {
    var wk := w.work[s.t];
    if wk.sha in w.db.blobs {
      NothingIsListed(w.db.blobs[wk.sha], w.objects);
    }
  }

  lemma NextClearing(w: World, s: Step)
    requires IsThreadStep(s) && ThreadEnabled(w, s) && Clearing(w.work[s.t], w.db, w.objects)
    ensures NextWork(w, s).Some? ==> Clearing(NextWork(w, s).value, NextDb(w, s), NextObjects(w, s))
  {
    if s.RelRead? {
      ReadLists(w, s);
    } else if s.DeleteOne? {
      DeleteClears(w, s);
    } else if s.Unpin? {
      UnpinClears(w, s);
    } else {
      OtherClearing(w, s);
    }
  }

  lemma OtherClearing(w: World, s: Step)
    requires IsThreadStep(s) && ThreadEnabled(w, s) && Clearing(w.work[s.t], w.db, w.objects)
    requires !s.RelRead? && !s.DeleteOne? && !s.Unpin?
    ensures NextWork(w, s).Some? ==> Clearing(NextWork(w, s).value, NextDb(w, s), NextObjects(w, s))
  {
    hide Listed, NothingLeft;
  }

  // ---- every step --------------------------------------------------------------------------------

  lemma ThreadStepNames(w: World, s: Step)
    requires Names(w) && IsThreadStep(s) && ThreadEnabled(w, s)
    ensures Names(ThreadStep(w, s))
  {
    hide ThreadEnabled, NextDb, NextWork, NextObjects, NextPins, RecordNamed, WorkNamed, ThreadStep;
    ThreadFrame(w, s);
    var m := ThreadStep(w, s);
    assert WorkNamed(w.work[s.t]);
    NextWorkNamed(w, s);
    forall sha | sha in m.db.blobs
      ensures RecordNamed(m.db.blobs[sha], sha)
    {
      NextRecordNamed(w, s, sha);
    }
  }

  lemma OtherKeepsClearing(w: World, s: Step, u: Tid)
    requires Threads(w) && Names(w) && IsThreadStep(s) && ThreadEnabled(w, s) && u in w.work && u != s.t
    requires Clearing(w.work[u], w.db, w.objects)
    ensures Clearing(w.work[u], NextDb(w, s), NextObjects(w, s))
  {
    hide NextDb, NextObjects, NoneGained, Clearing, Threads, ThreadEnabled, RecordNamed, WorkNamed;
    ActorIsLocked(w, s);
    var wk := w.work[u];
    assert WorkNamed(w.work[s.t]);
    if wk.Pin? || wk.Deleting? || wk.DropBlob? {
      if !s.DeleteRow? && !s.GiveRefund? {
        Apart(w, s.t, u);
      }
      NoneGainedElsewhere(w, s, wk.sha);
    }
    ClearingKept(wk, w.db, w.objects, NextDb(w, s), NextObjects(w, s));
  }

  lemma ThreadStepClearings(w: World, s: Step)
    requires Threads(w) && Names(w) && Clearings(w) && IsThreadStep(s) && ThreadEnabled(w, s)
    ensures Clearings(ThreadStep(w, s))
  {
    hide ThreadEnabled, NextDb, NextWork, NextObjects, NextPins, Clearing, Threads, Names, ThreadStep;
    ThreadFrame(w, s);
    var m := ThreadStep(w, s);
    assert Clearing(w.work[s.t], w.db, w.objects);
    NextClearing(w, s);
    forall u | u in m.work
      ensures Clearing(m.work[u], m.db, m.objects)
    {
      if u != s.t {
        OtherKeepsClearing(w, s, u);
      }
    }
  }

  lemma ThreadStepKeepsClear(w: World, s: Step)
    requires Clear(w) && IsThreadStep(s) && ThreadEnabled(w, s)
    ensures Clear(ThreadStep(w, s))
  {
    hide ThreadEnabled, NextDb, NextWork, NextObjects, NextPins, Clearings, Threads, Names, ThreadStep;
    ThreadFrame(w, s);
    ThreadStepThreads(w, s);
    ThreadStepNames(w, s);
    ThreadStepClearings(w, s);
  }

  lemma BeginKeepsThreads(w: World, s: Step)
    requires Threads(w) && IsBegin(s) && BeginEnabled(w, s)
    ensures Threads(Become(w, s.t, BeginWork(w, s)))
  {
    hide ContentLock.Inv;
    assert s.t !in w.locks.phase;
    var m := Become(w, s.t, BeginWork(w, s));
    forall u | u in m.work
      ensures Matches(m.work[u], m.locks, u)
    {
      if u != s.t {
        assert m.work[u] == w.work[u] && Matches(w.work[u], w.locks, u);
      }
    }
  }

  lemma BeginKeepsClear(w: World, s: Step)
    requires Clear(w) && IsBegin(s) && BeginEnabled(w, s)
    ensures Clear(Become(w, s.t, BeginWork(w, s)))
  {
    BeginKeepsThreads(w, s);
    hide Threads, RecordNamed;
    assert WorkNamed(BeginWork(w, s)) && Clearing(BeginWork(w, s), w.db, w.objects);
  }

  lemma LockWorkIsClear(w: World, s: Step)
    requires IsLockStep(s) && LockEnabled(w, s)
    ensures var n := LockWork(w.work[s.t], s); n.Some? ==>
              WorkNamed(n.value) && Clearing(n.value, w.db, w.objects)
  {
  }

  lemma LockStepKeepsClear(w: World, s: Step)
    requires Clear(w) && IsLockStep(s) && LockEnabled(w, s)
    ensures Clear(LockStep(w, s))
  {
    hide Threads, LockEnabled, LockStep, LockWork, RecordNamed, WorkNamed, Clearing;
    LockStepThreads(w, s);
    LockFrame(w, s);
    LockWorkIsClear(w, s);
  }

  lemma ProcessRecordNamed(w: World, s: Step, sha: Sha)
    requires IsProcessStep(s) && ProcessEnabled(w, s)
    requires sha in ProcessStep(w, s).db.blobs
    requires sha in w.db.blobs ==> RecordNamed(w.db.blobs[sha], sha)
    ensures RecordNamed(ProcessStep(w, s).db.blobs[sha], sha)
  {
    if s.MaintPublish? && sha == s.sha {
      assert s.newThumb.Some? ==> s.newThumb.value in OptionSet(s.newThumb) + OptionSet(s.newPreview);
      assert s.newPreview.Some? ==> s.newPreview.value in OptionSet(s.newThumb) + OptionSet(s.newPreview);
    }
  }

  lemma ProcessNoneGained(w: World, s: Step, sha: Sha)
    requires IsProcessStep(s) && ProcessEnabled(w, s) && !w.maintenance
    ensures NoneGained(sha, w.db, w.objects, ProcessStep(w, s).db, ProcessStep(w, s).objects)
  {
  }

  lemma ProcessWork(w: World, s: Step)
    requires IsProcessStep(s) && ProcessEnabled(w, s) && Threads(w) && Exclusive(w)
    ensures var m := ProcessStep(w, s); (m.work == w.work || m.work == map[]) && Threads(m) && Exclusive(m)
    ensures w.maintenance ==> w.work == map[]
  {
    assert ContentLock.Inv(ContentLock.EMPTY);
  }

  lemma ProcessKeepsClear(w: World, s: Step)
    requires Clear(w) && IsProcessStep(s) && ProcessEnabled(w, s)
    ensures Clear(ProcessStep(w, s))
  {
    hide Threads, Exclusive, RecordNamed, WorkNamed, Clearing, ProcessEnabled, ProcessStep, NoneGained;
    ProcessWork(w, s);
    var m := ProcessStep(w, s);
    forall sha | sha in m.db.blobs
      ensures RecordNamed(m.db.blobs[sha], sha)
    {
      ProcessRecordNamed(w, s, sha);
    }
    forall u | u in m.work
      ensures Clearing(m.work[u], m.db, m.objects)
    {
      assert Clearing(w.work[u], w.db, w.objects);
      if w.work[u].Pin? || w.work[u].Deleting? || w.work[u].DropBlob? {
        ProcessNoneGained(w, s, w.work[u].sha);
      }
      ClearingKept(w.work[u], w.db, w.objects, m.db, m.objects);
    }
  }

  lemma StepKeepsClear(w: World, s: Step)
    requires Clear(w) && Enabled(w, s)
    ensures Clear(Apply(w, s))
  {
    hide Clear, Apply, Enabled, ThreadStep, LockStep, ProcessStep, ThreadEnabled, LockEnabled, BeginEnabled, ProcessEnabled, BeginWork;
    ApplyIs(w, s);
    if IsBegin(s) {
      BeginKeepsClear(w, s);
    } else if IsLockStep(s) {
      LockStepKeepsClear(w, s);
    } else if IsProcessStep(s) {
      ProcessKeepsClear(w, s);
    } else {
      ThreadStepKeepsClear(w, s);
    }
  }

  lemma {:induction false} RunsKeepClear(w: World, steps: seq<Step>)
    requires Initial(w) && Run(w, steps).Some?
    ensures Clear(Run(w, steps).value)
  {
    if steps == [] {
      assert ContentLock.Inv(ContentLock.EMPTY);
    } else {
      RunsKeepClear(w, steps[..|steps| - 1]);
      StepKeepsClear(Run(w, steps[..|steps| - 1]).value, steps[|steps| - 1]);
    }
  }

  // ---- the law -------------------------------------------------------------------------------------

  lemma ThreadRemoves(w: World, s: Step, sha: Sha)
    requires IsThreadStep(s) && ThreadEnabled(w, s) && sha in w.db.blobs && sha !in NextDb(w, s).blobs
    ensures s.DropRow? && w.work[s.t].DropBlob? && w.work[s.t].sha == sha && NextObjects(w, s) == w.objects
  {
  }

  lemma ProcessRemovesNothing(w: World, s: Step, sha: Sha)
    requires IsProcessStep(s) && ProcessEnabled(w, s) && sha in w.db.blobs
    ensures sha in ProcessStep(w, s).db.blobs
  {
  }

  lemma OnlyDropRemoves(w: World, s: Step, sha: Sha)
    requires Enabled(w, s) && sha in w.db.blobs && sha !in Apply(w, s).db.blobs
    ensures s.DropRow? && s.t in w.work && w.work[s.t].DropBlob? && w.work[s.t].sha == sha
    ensures Apply(w, s).objects == w.objects
  {
    hide Apply, Enabled, ThreadStep, LockStep, ProcessStep, ThreadEnabled, LockEnabled, BeginEnabled, ProcessEnabled, BeginWork;
    hide NextDb, NextObjects, NextWork, NextPins;
    ApplyIs(w, s);
    if IsThreadStep(s) {
      ThreadFrame(w, s);
      ThreadRemoves(w, s, sha);
    } else if IsLockStep(s) {
      LockFrame(w, s);
    } else if IsProcessStep(s) {
      ProcessRemovesNothing(w, s, sha);
    }
  }

  /** A step that takes a record away leaves none of its objects stored. */
  lemma RecordGoesLast(w: World, s: Step, sha: Sha)
    requires Clear(w) && Enabled(w, s)
    requires sha in w.db.blobs && sha !in Apply(w, s).db.blobs
    ensures NothingLeft(w.db.blobs[sha], Apply(w, s).objects)
  {
    OnlyDropRemoves(w, s, sha);
    assert Clearing(w.work[s.t], w.db, w.objects);
  }

  /** In every run, whatever fails and whenever the server stops: when a record goes, its original,
      its thumbnail, its preview and each of its filtered copies have gone before it. */
  lemma EveryReleaseIsComplete(w: World, steps: seq<Step>, s: Step, sha: Sha)
    requires Initial(w) && Run(w, steps).Some?
    requires var m := Run(w, steps).value;
             Enabled(m, s) && sha in m.db.blobs && sha !in Apply(m, s).db.blobs
    ensures var b, objects := Run(w, steps).value.db.blobs[sha], Apply(Run(w, steps).value, s).objects;
            && b.original !in objects
            && (b.thumb.Some? ==> b.thumb.value !in objects)
            && (b.preview.Some? ==> b.preview.value !in objects)
            && forall c :: c in b.copies ==> b.copies[c] !in objects
  {
    hide Run, Clear, Enabled, Apply;
    RunsKeepClear(w, steps);
    var m := Run(w, steps).value;
    RecordGoesLast(m, s, sha);
    var b := m.db.blobs[sha];
    assert NamedBy(b, b.original);
    assert b.thumb.Some? ==> NamedBy(b, b.thumb.value);
    assert b.preview.Some? ==> NamedBy(b, b.preview.value);
    assert forall c :: c in b.copies ==> NamedBy(b, b.copies[c]);
  }
}
