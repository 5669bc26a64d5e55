/** Safety of the content lifecycle: in every reachable world every file row has its blob with
    an exact count, and the blob's original and renditions are in the object store. */
module LifecycleSafety {
  import opened Prelude
  import opened Tables
  import opened Lifecycle
  import ContentLock

  // ---- the invariant -------------------------------------------------------------------------

  ghost predicate ThumbNamed(k: Option<Key>, sha: Sha) { k.Some? ==> (k.value.Thumb? || k.value.Rebuilt?) && k.value.sha == sha }
  ghost predicate PreviewNamed(k: Option<Key>, sha: Sha) { k.Some? ==> (k.value.Preview? || k.value.Rebuilt?) && k.value.sha == sha }

  /** A blob's keys embed its hash, each in its own part of the key space. */
  ghost predicate BlobNamed(b: Blob, sha: Sha) {
    && b.original.Original? && b.original.sha == sha
    && ThumbNamed(b.thumb, sha) && PreviewNamed(b.preview, sha)
    && forall c :: c in b.copies ==> b.copies[c].Filtered? && b.copies[c].sha == sha
  }

  ghost predicate KeysNamed(k: Keys, sha: Sha) {
    k.original.Original? && k.original.sha == sha && ThumbNamed(k.thumb, sha) && PreviewNamed(k.preview, sha)
  }

  ghost predicate AllOf(names: seq<Key>, sha: Sha) { forall k :: k in names ==> k.sha == sha }

  ghost predicate Present(k: Option<Key>, objects: map<Key, nat>) { k.Some? ==> k.value in objects }

  /** The original and the renditions are stored. */
  ghost predicate Stored(b: Blob, objects: map<Key, nat>) {
    b.original in objects && Present(b.thumb, objects) && Present(b.preview, objects)
  }

  /** A row may be inserted now: the blob exists and its objects are stored. */
  ghost predicate Ready(db: Db, objects: map<Key, nat>, sha: Sha) {
    sha in db.blobs && Stored(db.blobs[sha], objects)
  }

  /** Deleting these objects takes nothing from a file: the content is unreferenced, or its blob
      does not name them. */
  ghost predicate Harmless(db: Db, sha: Sha, names: seq<Key>) {
    sha in db.blobs && !db.blobs[sha].Orphaned() ==> forall k :: k in names ==> k !in db.blobs[sha].Main()
  }

  /** What a thread may rely on at its program counter, about its own content only. */
  ghost predicate Local(wk: Work, db: Db, objects: map<Key, nat>) {
    match wk
    case ReuseReserve(up, _) => Ready(db, objects, up.sha)
    case ReuseInsert(up, _, _) => Ready(db, objects, up.sha)
    case UpReserve(up, keys) => KeysNamed(keys, up.sha)
    case UpStat(up, keys) => KeysNamed(keys, up.sha)
    case UpSaveOriginal(up, keys) => KeysNamed(keys, up.sha)
    case UpProbe(up, keys) => KeysNamed(keys, up.sha) && keys.original in objects
    case UpSaveThumb(up, keys) => KeysNamed(keys, up.sha) && keys.original in objects
    case UpSavePreview(up, keys) => KeysNamed(keys, up.sha) && keys.original in objects && Present(keys.thumb, objects)
    case UpEnsure(up, keys) =>
      KeysNamed(keys, up.sha) && keys.original in objects && Present(keys.thumb, objects) && Present(keys.preview, objects)
    case UpInsert(up, keys) => KeysNamed(keys, up.sha) && Ready(db, objects, up.sha)
    case UpRefund(up, keys, _) => KeysNamed(keys, up.sha)
    case Discard(sha, names) => AllOf(names, sha)
    case Pin(sha, names, _, _) => AllOf(names, sha) && Harmless(db, sha, names)
    case Deleting(sha, names, _, _, _) => AllOf(names, sha) && Harmless(db, sha, names)
    case CopySave(sha, _, key) => key.Filtered? && key.sha == sha
    case CopySet(sha, _, key) => key.Filtered? && key.sha == sha
    case _ => true
  }

  /** The program counter and the content lock agree on who holds what. */
  ghost predicate Matches(wk: Work, l: ContentLock.Locks, t: Tid) {
    if Locked(wk) then ContentLock.Holds(l, t, ShaOf(wk))
    else if wk.Leave? then t in l.phase && l.phase[t].Leaving?
    else if AtLock(wk) then t in l.phase ==> l.phase[t].Waiting? && l.phase[t].sha == ShaOf(wk)
    else t !in l.phase
  }

  /** Every referenced blob is stored, and its keys embed its hash. */
  ghost predicate Sound(db: Db, objects: map<Key, nat>) {
    && (forall sha :: sha in db.blobs ==> BlobNamed(db.blobs[sha], sha))
    && (forall sha :: sha in db.blobs && !db.blobs[sha].Orphaned() ==> Stored(db.blobs[sha], objects))
  }

  /** An original's key holds the bytes of its hash. */
  ghost predicate TrueOriginals(objects: map<Key, nat>) {
    forall k :: k in objects && k.Original? ==> objects[k] == k.sha
  }

  ghost predicate Threads(w: World) {
    && ContentLock.Inv(w.locks)
    && (forall t :: t in w.locks.phase ==> t in w.work)
    && (forall t :: t in w.work ==> Matches(w.work[t], w.locks, t))
    && (w.server.Stopped? ==> w.work == map[])
  }

  ghost predicate Locals(w: World) {
    forall t :: t in w.work ==> Local(w.work[t], w.db, w.objects)
  }

  /** Maintenance runs only on a stopped instance, with no backup in progress. */
  ghost predicate Exclusive(w: World) {
    w.maintenance ==> w.server.Stopped? && w.backup.NoBackup?
  }

  ghost predicate Inv(w: World) {
    Counted(w.db) && Sound(w.db, w.objects) && TrueOriginals(w.objects) && Threads(w) && Locals(w) && Exclusive(w)
  }

  /** The one step the safety argument must watch: the read of the blob record after a failed
      upload fails for a reason other than absence, and the objects are taken for unowned. */
  ghost predicate Faulty(w: World, s: Step) {
    && s.DiscardRead? && s.failed && s.t in w.work && w.work[s.t].Discard?
    && !Harmless(w.db, w.work[s.t].sha, w.work[s.t].names)
  }

  // ---- what a step leaves alone ----------------------------------------------------------------

  /** Seen from one content: no main object has gone, no key has moved, no reference was added. */
  ghost predicate Kept(sha: Sha, db: Db, objects: map<Key, nat>, db': Db, objects': map<Key, nat>) {
    && (sha in db'.blobs <==> sha in db.blobs)
    && (sha in db.blobs ==>
          && db'.blobs[sha].original == db.blobs[sha].original
          && db'.blobs[sha].thumb == db.blobs[sha].thumb
          && db'.blobs[sha].preview == db.blobs[sha].preview
          && db'.blobs[sha].refcount <= db.blobs[sha].refcount)
    && (forall k :: k in objects && k.sha == sha && !k.Filtered? ==> k in objects')
  }

  lemma LocalKept(wk: Work, db: Db, objects: map<Key, nat>, db': Db, objects': map<Key, nat>)
    requires Local(wk, db, objects) && Sound(db, objects)
    requires !wk.Leave? && !wk.Refund? ==> Kept(ShaOf(wk), db, objects, db', objects')
    ensures Local(wk, db', objects')
  {
  }

  lemma StoredKept(sha: Sha, db: Db, objects: map<Key, nat>, db': Db, objects': map<Key, nat>)
    requires Kept(sha, db, objects, db', objects') && Sound(db, objects)
    requires sha in db'.blobs && !db'.blobs[sha].Orphaned()
    ensures Stored(db'.blobs[sha], objects')
  {
  }

  lemma DbElsewhere(w: World, s: Step, sha: Sha)
    requires IsThreadStep(s) && ThreadEnabled(w, s)
    requires sha != ShaOf(w.work[s.t]) || s.DeleteRow? || s.GiveRefund?
    ensures var b, b' := w.db.blobs, NextDb(w, s).blobs;
            && (sha in b' <==> sha in b)
            && (sha in b ==> b'[sha].original == b[sha].original && b'[sha].thumb == b[sha].thumb
                             && b'[sha].preview == b[sha].preview && b'[sha].refcount <= b[sha].refcount)
  {
  }

  lemma ObjectsElsewhere(w: World, s: Step, sha: Sha)
    requires IsThreadStep(s) && ThreadEnabled(w, s) && Local(w.work[s.t], w.db, w.objects)
    requires sha != ShaOf(w.work[s.t]) || !s.DeleteOne?
    ensures forall k :: k in w.objects && k.sha == sha && !k.Filtered? ==> k in NextObjects(w, s)
  {
  }

  /** A thread's step is invisible to every content but its own. */
  lemma StepElsewhere(w: World, s: Step, sha: Sha)
    requires IsThreadStep(s) && ThreadEnabled(w, s) && Local(w.work[s.t], w.db, w.objects)
    requires sha != ShaOf(w.work[s.t]) || s.DeleteRow? || s.GiveRefund?
    ensures Kept(sha, w.db, w.objects, NextDb(w, s), NextObjects(w, s))
  {
    DbElsewhere(w, s, sha);
    ObjectsElsewhere(w, s, sha);
  }

  // ---- what a step does to its own content -------------------------------------------------------

  lemma CheckLocal(w: World, s: Step)
    requires s.Check? && ThreadEnabled(w, s) && Counted(w.db) && Sound(w.db, w.objects)
    ensures Local(NextWork(w, s).value, w.db, w.objects)
  {
    if s.row.Some? {
      assert s.row.value in References(w.db.files, w.work[s.t].up.sha);
      assert !w.db.blobs[w.work[s.t].up.sha].Orphaned();
    }
  }

  lemma RecordKeysAreOwn(b: Blob, sha: Sha)
    requires BlobNamed(b, sha)
    ensures AllOf(b.Keys(), sha)
  {
  }

  lemma OrphanLocal(w: World, s: Step)
    requires s.RelRead?
    requires ThreadEnabled(w, s) && Sound(w.db, w.objects)
    ensures Local(NextWork(w, s).value, NextDb(w, s), NextObjects(w, s))
  {
    hide BlobNamed, Stored, AllOf;
    var sha := w.work[s.t].sha;
    if sha in w.db.blobs {
      RecordKeysAreOwn(w.db.blobs[sha], sha);
    }
  }

  lemma ReadLocal(w: World, s: Step)
    requires s.DiscardRead? && !Faulty(w, s)
    requires ThreadEnabled(w, s) && Sound(w.db, w.objects) && Local(w.work[s.t], w.db, w.objects)
    ensures Local(NextWork(w, s).value, NextDb(w, s), NextObjects(w, s))
  {
  }

  lemma ReleaseLocal(w: World, s: Step)
    requires s.PinObjects? || s.DeleteOne? || s.Unpin?
    requires ThreadEnabled(w, s) && Local(w.work[s.t], w.db, w.objects)
    ensures Local(NextWork(w, s).value, NextDb(w, s), NextObjects(w, s))
  {
  }

  lemma UploadLocal(w: World, s: Step)
    requires s.Process? || s.Stat? || s.Save?
    requires ThreadEnabled(w, s) && Local(w.work[s.t], w.db, w.objects)
    ensures NextWork(w, s).Some? ==> Local(NextWork(w, s).value, NextDb(w, s), NextObjects(w, s))
  {
  }

  lemma RowLocal(w: World, s: Step)
    requires s.ClaimBytes? || s.GiveRefund? || s.Insert? || s.Ensure?
    requires ThreadEnabled(w, s) && Sound(w.db, w.objects) && Local(w.work[s.t], w.db, w.objects)
    ensures NextWork(w, s).Some? ==> Local(NextWork(w, s).value, NextDb(w, s), NextObjects(w, s))
  {
  }

  /** The acting thread has what its next program counter relies on. */
  lemma NextLocal(w: World, s: Step)
    requires IsThreadStep(s) && ThreadEnabled(w, s) && !Faulty(w, s)
    requires Counted(w.db) && Sound(w.db, w.objects) && Local(w.work[s.t], w.db, w.objects)
    ensures NextWork(w, s).Some? ==> Local(NextWork(w, s).value, NextDb(w, s), NextObjects(w, s))
  {
    if s.Check? {
      CheckLocal(w, s);
    } else if s.RelRead? {
      OrphanLocal(w, s);
    } else if s.DiscardRead? {
      ReadLocal(w, s);
    } else if s.PinObjects? || s.DeleteOne? || s.Unpin? {
      ReleaseLocal(w, s);
    } else if s.Process? || s.Stat? || s.Save? {
      UploadLocal(w, s);
    } else if s.ClaimBytes? || s.GiveRefund? || s.Insert? || s.Ensure? {
      RowLocal(w, s);
    }
  }

  lemma NextCounted(w: World, s: Step)
    requires IsThreadStep(s) && ThreadEnabled(w, s) && Counted(w.db) && Local(w.work[s.t], w.db, w.objects)
    ensures Counted(NextDb(w, s))
  {
    var wk := w.work[s.t];
    match s
    case Ensure(_, _, _) =>
      EnsureBlobCounted(w.db, wk.up.sha, wk.up.size, wk.keys.original, wk.keys.thumb, wk.keys.preview);
    case Insert(_, id, _, _) =>
      if id !in w.db.files {
        InsertCounted(w.db, id, NewFile(wk));
      }
    case DropRow(_, _) => DropBlobCounted(w.db, wk.sha);
    case DeleteRow(_, _, _) => DeleteFilesCounted(w.db, {wk.id});
    case _ =>
  }

  lemma NamedByWriting(w: World, s: Step, sha: Sha)
    requires s.Ensure? || s.SetCopy?
    requires ThreadEnabled(w, s) && Sound(w.db, w.objects) && Local(w.work[s.t], w.db, w.objects)
    requires sha in NextDb(w, s).blobs
    ensures BlobNamed(NextDb(w, s).blobs[sha], sha)
  {
    hide Stored, Harmless;
  }

  /** No other step writes a key. */
  lemma SameNames(w: World, s: Step, sha: Sha)
    requires IsThreadStep(s) && ThreadEnabled(w, s) && !s.Ensure? && !s.SetCopy?
    requires sha in NextDb(w, s).blobs
    ensures sha in w.db.blobs && NextDb(w, s).blobs[sha] == w.db.blobs[sha].(refcount := NextDb(w, s).blobs[sha].refcount)
  {
  }

  lemma NextNamed(w: World, s: Step, sha: Sha)
    requires IsThreadStep(s) && ThreadEnabled(w, s) && Sound(w.db, w.objects) && Local(w.work[s.t], w.db, w.objects)
    requires sha in NextDb(w, s).blobs
    ensures BlobNamed(NextDb(w, s).blobs[sha], sha)
  {
    hide NextDb, ThreadEnabled, Local, Stored;
    if s.Ensure? || s.SetCopy? {
      NamedByWriting(w, s, sha);
    } else {
      SameNames(w, s, sha);
    }
  }

  lemma OwnStored(w: World, s: Step)
    requires IsThreadStep(s) && ThreadEnabled(w, s) && !s.DeleteRow?
    requires Sound(w.db, w.objects) && Local(w.work[s.t], w.db, w.objects)
    ensures var sha := ShaOf(w.work[s.t]); var db' := NextDb(w, s);
            sha in db'.blobs && !db'.blobs[sha].Orphaned() ==> Stored(db'.blobs[sha], NextObjects(w, s))
  {
    var wk := w.work[s.t];
    if s.DeleteOne? && wk.sha in w.db.blobs && !w.db.blobs[wk.sha].Orphaned() {
      assert wk.names[0] in wk.names && wk.names[0] !in w.db.blobs[wk.sha].Main();
    }
  }

  lemma NextSound(w: World, s: Step)
    requires IsThreadStep(s) && ThreadEnabled(w, s) && Sound(w.db, w.objects) && Local(w.work[s.t], w.db, w.objects)
    ensures Sound(NextDb(w, s), NextObjects(w, s))
  {
    var db' := NextDb(w, s);
    forall sha | sha in db'.blobs
      ensures BlobNamed(db'.blobs[sha], sha)
      ensures !db'.blobs[sha].Orphaned() ==> Stored(db'.blobs[sha], NextObjects(w, s))
    {
      NextNamed(w, s, sha);
      if sha == ShaOf(w.work[s.t]) && !s.DeleteRow? {
        OwnStored(w, s);
      } else if !db'.blobs[sha].Orphaned() {
        StepElsewhere(w, s, sha);
        StoredKept(sha, w.db, w.objects, db', NextObjects(w, s));
      }
    }
  }

  lemma NextTrueOriginals(w: World, s: Step)
    requires IsThreadStep(s) && ThreadEnabled(w, s) && TrueOriginals(w.objects) && Local(w.work[s.t], w.db, w.objects)
    ensures TrueOriginals(NextObjects(w, s))
  {
  }

  /** The acting thread stays inside or outside the lock, on the same content. */
  lemma NextMatches(w: World, s: Step)
    requires IsThreadStep(s) && ThreadEnabled(w, s) && Matches(w.work[s.t], w.locks, s.t)
    ensures NextWork(w, s).Some? ==> Matches(NextWork(w, s).value, w.locks, s.t)
    ensures NextWork(w, s).None? ==> s.t !in w.locks.phase
  {
    hide ThreadEnabled, NextWork;
    SamePlace(w, s);
  }

  /** A thread's step never takes it into or out of the lock, nor to other content inside it. */
  lemma SamePlace(w: World, s: Step)
    requires IsThreadStep(s) && ThreadEnabled(w, s)
    ensures s.t in w.work
    ensures var wk, next := w.work[s.t], NextWork(w, s);
            && !AtLock(wk) && !wk.Leave?
            && (next.Some? ==> (Locked(next.value) <==> Locked(wk)) && !next.value.Leave?)
            && (next.Some? && Locked(wk) ==> ShaOf(next.value) == ShaOf(wk))
            && (next.None? ==> !Locked(wk))
  {
    hide NextWork;
    if s.Check? || s.Process? || s.ClaimBytes? {
      SamePlaceStart(w, s);
    } else if s.Stat? || s.Save? || s.Ensure? || s.Insert? {
      SamePlaceUpload(w, s);
    } else if s.DiscardRead? || s.RelRead? || s.ReadCopy? {
      SamePlaceRead(w, s);
    } else if s.GiveRefund? || s.DeleteRow? {
      SamePlaceOutside(w, s);
    } else {
      SamePlaceRelease(w, s);
    }
  }

  lemma SamePlaceStart(w: World, s: Step)
    requires s.Check? || s.Process? || s.ClaimBytes?
    requires ThreadEnabled(w, s)
    ensures var wk, next := w.work[s.t], NextWork(w, s);
            Locked(wk) && next.Some? && Locked(next.value) && ShaOf(next.value) == ShaOf(wk)
  {
  }

  lemma SamePlaceUpload(w: World, s: Step)
    requires s.Stat? || s.Save? || s.Ensure? || s.Insert?
    requires ThreadEnabled(w, s)
    ensures var wk, next := w.work[s.t], NextWork(w, s);
            Locked(wk) && next.Some? && Locked(next.value) && ShaOf(next.value) == ShaOf(wk)
  {
  }

  lemma SamePlaceRead(w: World, s: Step)
    requires s.DiscardRead? || s.RelRead? || s.ReadCopy?
    requires ThreadEnabled(w, s)
    ensures var wk, next := w.work[s.t], NextWork(w, s);
            Locked(wk) && next.Some? && Locked(next.value) && ShaOf(next.value) == ShaOf(wk)
  {
  }

  lemma SamePlaceRelease(w: World, s: Step)
    requires s.PinObjects? || s.DeleteOne? || s.Unpin? || s.DropRow? || s.SetCopy?
    requires ThreadEnabled(w, s)
    ensures var wk, next := w.work[s.t], NextWork(w, s);
            Locked(wk) && next.Some? && Locked(next.value) && ShaOf(next.value) == ShaOf(wk)
  {
  }

  lemma SamePlaceOutside(w: World, s: Step)
    requires s.GiveRefund? || s.DeleteRow?
    requires ThreadEnabled(w, s)
    ensures var wk, next := w.work[s.t], NextWork(w, s);
            && !AtLock(wk) && !wk.Leave?
            && (next.Some? ==> (Locked(next.value) <==> Locked(wk)) && !next.value.Leave?)
            && (next.Some? && Locked(wk) ==> ShaOf(next.value) == ShaOf(wk))
            && (next.None? ==> !Locked(wk))
  {
  }

  /** Two threads inside the lock work on different contents. */
  lemma Apart(w: World, t: Tid, u: Tid)
    requires Threads(w) && t in w.work && u in w.work && t != u && Locked(w.work[t])
    requires !w.work[u].Leave? && !w.work[u].Refund?
    ensures Locked(w.work[u]) ==> ShaOf(w.work[t]) != ShaOf(w.work[u])
  {
    if Locked(w.work[u]) && ShaOf(w.work[t]) == ShaOf(w.work[u]) {
      ContentLock.MutualExclusion(w.locks, t, u, ShaOf(w.work[t]));
    }
  }

  lemma ActorIsLocked(w: World, s: Step)
    requires IsThreadStep(s) && ThreadEnabled(w, s)
    ensures s.t in w.work && (!s.DeleteRow? && !s.GiveRefund? ==> Locked(w.work[s.t]))
  {
  }

  lemma OtherKept(w: World, s: Step, u: Tid)
    requires Threads(w) && IsThreadStep(s) && ThreadEnabled(w, s) && u in w.work && u != s.t && Locked(w.work[u])
    requires Local(w.work[s.t], w.db, w.objects)
    ensures Kept(ShaOf(w.work[u]), w.db, w.objects, NextDb(w, s), NextObjects(w, s))
  {
    hide NextDb, NextObjects, Local, Kept, Threads, ThreadEnabled;
    ActorIsLocked(w, s);
    if !s.DeleteRow? && !s.GiveRefund? {
      Apart(w, s.t, u);
    }
    StepElsewhere(w, s, ShaOf(w.work[u]));
  }

  lemma OtherLocal(w: World, s: Step, u: Tid)
    requires Threads(w) && IsThreadStep(s) && ThreadEnabled(w, s) && u in w.work && u != s.t
    requires Sound(w.db, w.objects) && Local(w.work[s.t], w.db, w.objects) && Local(w.work[u], w.db, w.objects)
    ensures Local(w.work[u], NextDb(w, s), NextObjects(w, s))
  {
    if Locked(w.work[u]) {
      OtherKept(w, s, u);
      LocalKept(w.work[u], w.db, w.objects, NextDb(w, s), NextObjects(w, s));
    }
  }

  lemma ThreadStepLocals(w: World, s: Step)
    requires Inv(w) && IsThreadStep(s) && ThreadEnabled(w, s) && !Faulty(w, s)
    ensures Locals(ThreadStep(w, s))
  {
    var w' := ThreadStep(w, s);
    assert Local(w.work[s.t], w.db, w.objects);
    forall u | u in w'.work
      ensures Local(w'.work[u], w'.db, w'.objects)
    {
      if u == s.t {
        NextLocal(w, s);
      } else {
        assert Local(w.work[u], w.db, w.objects);
        OtherLocal(w, s, u);
      }
    }
  }

  lemma ThreadStepThreads(w: World, s: Step)
    requires Threads(w) && IsThreadStep(s) && ThreadEnabled(w, s)
    ensures Threads(ThreadStep(w, s))
  {
    var w' := ThreadStep(w, s);
    NextMatches(w, s);
    assert w'.locks == w.locks && w'.server == w.server;
    forall u | u in w'.work
      ensures Matches(w'.work[u], w'.locks, u)
    {
    }
    forall u | u in w'.locks.phase
      ensures u in w'.work
    {
    }
  }

  lemma ThreadStepKeepsInv(w: World, s: Step)
    requires Inv(w) && IsThreadStep(s) && ThreadEnabled(w, s) && !Faulty(w, s)
    ensures Inv(ThreadStep(w, s))
  {
    assert Local(w.work[s.t], w.db, w.objects);
    NextCounted(w, s);
    NextSound(w, s);
    NextTrueOriginals(w, s);
    ThreadStepThreads(w, s);
    ThreadStepLocals(w, s);
  }

  // ---- the other steps -----------------------------------------------------------------------------

  lemma BeginKeepsInv(w: World, s: Step)
    requires Inv(w) && IsBegin(s) && BeginEnabled(w, s)
    ensures Inv(Become(w, s.t, BeginWork(w, s)))
  {
    hide Sound, Counted, TrueOriginals, ContentLock.Inv;
    assert s.t !in w.locks.phase;
    var w' := Become(w, s.t, BeginWork(w, s));
    forall u | u in w'.work
      ensures Local(w'.work[u], w'.db, w'.objects) && Matches(w'.work[u], w'.locks, u)
    {
      if u != s.t {
        assert w'.work[u] == w.work[u] && Local(w.work[u], w.db, w.objects) && Matches(w.work[u], w.locks, u);
      }
    }
  }

  lemma LockPhases(l: ContentLock.Locks, s: ContentLock.Step)
    requires ContentLock.Enabled(l, s)
    ensures var l' := ContentLock.Apply(l, s);
            && (forall u :: u != s.t ==> (u in l'.phase <==> u in l.phase))
            && (forall u :: u != s.t && u in l.phase ==> l'.phase[u] == l.phase[u])
            && (s.t in l'.phase <==> !s.Drop?)
            && (s.Enter? ==> l'.phase[s.t].Waiting? && l'.phase[s.t].sha == s.sha)
            && (s.Take? ==> l'.phase[s.t].Holding? && l'.phase[s.t].sha == l.phase[s.t].sha)
            && (s.Cancel? || s.Give? ==> l'.phase[s.t].Leaving?)
  {
  }

  lemma LockWorkMatches(w: World, s: Step)
    requires IsLockStep(s) && LockEnabled(w, s) && Matches(w.work[s.t], w.locks, s.t)
    ensures var l', n := ContentLock.Apply(w.locks, LockOf(w, s)), LockWork(w.work[s.t], s);
            if n.Some? then Matches(n.value, l', s.t) else s.t !in l'.phase
    ensures LockWork(w.work[s.t], s).Some? ==> Local(LockWork(w.work[s.t], s).value, w.db, w.objects)
  {
    LockPhases(w.locks, LockOf(w, s));
  }

  lemma LockStepThreads(w: World, s: Step)
    requires Threads(w) && IsLockStep(s) && LockEnabled(w, s)
    ensures Threads(LockStep(w, s))
  {
    hide Matches, ContentLock.Inv, ContentLock.Apply, ContentLock.Enabled, LockWork;
    var ls := LockOf(w, s);
    ContentLock.StepKeepsInv(w.locks, ls);
    LockPhases(w.locks, ls);
    LockWorkMatches(w, s);
    OtherPhases(w, s.t, ContentLock.Apply(w.locks, ls), LockWork(w.work[s.t], s));
  }

  /** A lock operation concerns only the thread that does it. */
  lemma OtherPhases(w: World, t: Tid, l': ContentLock.Locks, n: Option<Work>)
    requires Threads(w) && t in w.work && ContentLock.Inv(l')
    requires forall u :: u != t ==> (u in l'.phase <==> u in w.locks.phase)
    requires forall u :: u != t && u in w.locks.phase ==> l'.phase[u] == w.locks.phase[u]
    requires if n.Some? then Matches(n.value, l', t) else t !in l'.phase
    ensures Threads(WithWork(w.(locks := l'), t, n))
  {
    var w' := WithWork(w.(locks := l'), t, n);
    forall u | u in w'.work
      ensures Matches(w'.work[u], l', u)
    {
      if u != t {
        assert Matches(w.work[u], w.locks, u);
      }
    }
  }

  lemma LockStepKeepsInv(w: World, s: Step)
    requires Inv(w) && IsLockStep(s) && LockEnabled(w, s)
    ensures Inv(LockStep(w, s))
  {
    hide Local, Threads, Sound, Counted, TrueOriginals, LockStep, LockWork, LockEnabled;
    assert LockEnabled(w, s) && s.t in w.work by { LockFrame(w, s); }
    LockStepThreads(w, s);
    ThreadMatches(w, s.t);
    LockWorkMatches(w, s);
    LockFrame(w, s);
    var w' := LockStep(w, s);
    forall u | u in w'.work
      ensures Local(w'.work[u], w.db, w.objects)
    {
      if u != s.t {
        assert Local(w.work[u], w.db, w.objects);
      }
    }
  }

  lemma ThreadMatches(w: World, t: Tid)
    requires Threads(w) && t in w.work
    ensures Matches(w.work[t], w.locks, t)
  {
  }

  /** Outside the threads nothing takes a main object from a referenced blob. */
  lemma ProcessElsewhere(w: World, s: Step, sha: Sha)
    requires IsProcessStep(s) && ProcessEnabled(w, s) && !s.MaintPublish?
    ensures var w' := ProcessStep(w, s);
            && (sha in w'.db.blobs <==> sha in w.db.blobs)
            && (sha in w.db.blobs ==>
                  && w'.db.blobs[sha].original == w.db.blobs[sha].original
                  && w'.db.blobs[sha].thumb == w.db.blobs[sha].thumb
                  && w'.db.blobs[sha].preview == w.db.blobs[sha].preview
                  && w'.db.blobs[sha].refcount <= w.db.blobs[sha].refcount)
  {
  }

  lemma ProcessCounted(w: World, s: Step)
    requires IsProcessStep(s) && ProcessEnabled(w, s) && Counted(w.db)
    ensures Counted(ProcessStep(w, s).db)
  {
    if s.RemoveUser? {
      DeleteFilesCounted(w.db, set id | id in w.db.files && w.db.files[id].owner == Some(s.u));
    }
  }

  lemma ProcessSound(w: World, s: Step)
    requires IsProcessStep(s) && ProcessEnabled(w, s) && Sound(w.db, w.objects)
    ensures Sound(ProcessStep(w, s).db, ProcessStep(w, s).objects)
  {
    var w' := ProcessStep(w, s);
    forall sha | sha in w'.db.blobs
      ensures BlobNamed(w'.db.blobs[sha], sha)
      ensures !w'.db.blobs[sha].Orphaned() ==> Stored(w'.db.blobs[sha], w'.objects)
    {
      assert sha in w.db.blobs && BlobNamed(w.db.blobs[sha], sha);
      if s.MaintPublish? && sha == s.sha {
        assert s.newThumb.Some? ==> s.newThumb.value in OptionSet(s.newThumb) + OptionSet(s.newPreview);
        assert s.newPreview.Some? ==> s.newPreview.value in OptionSet(s.newThumb) + OptionSet(s.newPreview);
      } else if s.MaintDelete? {
        var b := w.db.blobs[sha];
        assert b.original in b.Main() && (b.thumb.Some? ==> b.thumb.value in b.Main());
        assert b.preview.Some? ==> b.preview.value in b.Main();
        assert s.key !in b.Keys();
      }
    }
  }

  lemma ProcessLocals(w: World, s: Step)
    requires IsProcessStep(s) && ProcessEnabled(w, s) && Inv(w)
    ensures Locals(ProcessStep(w, s))
  {
    var w' := ProcessStep(w, s);
    forall u | u in w'.work
      ensures Local(w'.work[u], w'.db, w'.objects)
    {
      var sha := ShaOf(w.work[u]);
      assert !w.maintenance && Local(w.work[u], w.db, w.objects);
      ProcessElsewhere(w, s, sha);
      assert Kept(sha, w.db, w.objects, w'.db, w'.objects);
      LocalKept(w.work[u], w.db, w.objects, w'.db, w'.objects);
    }
  }

  lemma ProcessKeepsInv(w: World, s: Step)
    requires Inv(w) && IsProcessStep(s) && ProcessEnabled(w, s)
    ensures Inv(ProcessStep(w, s))
  {
    ProcessCounted(w, s);
    ProcessSound(w, s);
    ProcessLocals(w, s);
    assert ContentLock.Inv(ContentLock.EMPTY);
  }

  /** Every step of every thread and process keeps the invariant, a harmful faulty read excepted. */
  lemma StepKeepsInv(w: World, s: Step)
    requires Inv(w) && Enabled(w, s) && !Faulty(w, s)
    ensures Inv(Apply(w, s))
  {
    hide Inv, Apply, Faulty, ThreadStep, LockStep, ProcessStep, ThreadEnabled, LockEnabled, BeginEnabled, ProcessEnabled, BeginWork;
    ApplyIs(w, s);
    if IsBegin(s) {
      BeginKeepsInv(w, s);
    } else if IsLockStep(s) {
      LockStepKeepsInv(w, s);
    } else if IsProcessStep(s) {
      ProcessKeepsInv(w, s);
    } else {
      ThreadStepKeepsInv(w, s);
    }
  }

  // ---- whole runs ------------------------------------------------------------------------------------

  /** What users are promised: every file has its content, counted and stored. */
  ghost predicate Safe(w: World) {
    forall id :: id in w.db.files ==>
      var sha := w.db.files[id].sha;
      && sha in w.db.blobs
      && w.db.blobs[sha].refcount == |References(w.db.files, sha)| > 0
      && Stored(w.db.blobs[sha], w.objects)
      && w.objects[w.db.blobs[sha].original] == sha
  }

  lemma InvIsSafe(w: World)
    requires Inv(w)
    ensures Safe(w)
  {
    forall id | id in w.db.files
      ensures var sha := w.db.files[id].sha;
              && sha in w.db.blobs
              && w.db.blobs[sha].refcount == |References(w.db.files, sha)| > 0
              && Stored(w.db.blobs[sha], w.objects)
              && w.objects[w.db.blobs[sha].original] == sha
    {
      assert id in References(w.db.files, w.db.files[id].sha);
    }
  }

  /** No step of the run is a harmful faulty read. */
  ghost predicate Careful(w: World, steps: seq<Step>) {
    steps != [] ==>
      var before := steps[..|steps| - 1];
      && Careful(w, before)
      && (Run(w, before).Some? ==> !Faulty(Run(w, before).value, steps[|steps| - 1]))
  }

  /** From a sound world every careful run stays sound, and so safe. */
  lemma {:induction false} SoundWorldsStaySafe(w: World, steps: seq<Step>)
    requires Inv(w) && Run(w, steps).Some? && Careful(w, steps)
    ensures Inv(Run(w, steps).value) && Safe(Run(w, steps).value)
  {
    if steps != [] {
      SoundWorldsStaySafe(w, steps[..|steps| - 1]);
      StepKeepsInv(Run(w, steps[..|steps| - 1]).value, steps[|steps| - 1]);
    }
    InvIsSafe(Run(w, steps).value);
  }

  lemma InitialIsSound(w: World)
    requires Initial(w)
    ensures Inv(w)
  {
    assert ContentLock.Inv(ContentLock.EMPTY);
  }

  /** Under any interleaving of uploads, reuses, deletions, sweeps and copies, with storage
      failures and crashes at any step, every reachable world is safe. */
  lemma EveryReachableWorldIsSafe(w: World, steps: seq<Step>)
    requires Initial(w) && Run(w, steps).Some? && Careful(w, steps)
    ensures Inv(Run(w, steps).value) && Safe(Run(w, steps).value)
  {
    InitialIsSound(w);
    SoundWorldsStaySafe(w, steps);
  }
}
