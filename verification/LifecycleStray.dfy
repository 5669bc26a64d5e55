/** No stray objects: while a server runs, every stored original, thumbnail and preview is named by
    a record or is the work of a thread that holds its content, so that deleting the last file of
    a content frees the store. Named here are the only events that leave an object behind. */
module LifecycleStray {
  import opened Prelude
  import opened Tables
  import opened Lifecycle
  import opened LifecycleSafety
  import opened LifecycleAbsence
  import ContentLock

  /** What decoding makes of some content under the running settings. */
  datatype Media = Media(video: bool, ext: Ext, thumb: Option<Ext>, preview: Option<Ext>)

  /** The objects of a content, and of a clip that has not been probed. */
  function Full(m: Media, tag: Tag, sha: Sha): Keys {
    ContentKeys(tag, sha, m.ext, m.thumb, if m.video then None else m.preview)
  }

  function Bare(m: Media, tag: Tag, sha: Sha): Keys { ContentKeys(tag, sha, m.ext, None, None) }

  predicate MainKind(k: Key) { k.Original? || k.Thumb? || k.Preview? }

  predicate Among(keys: Keys, k: Key) { k == keys.original || keys.thumb == Some(k) || keys.preview == Some(k) }

  // ---- the steps -------------------------------------------------------------------------------

  /** Decoding the same content gives the same answer every time. */
  ghost predicate Decodes(w: World, s: Step, renders: Sha -> Media) {
    && (s.BeginUpload? ==> s.up.video == renders(s.up.sha).video)
    && (s.Process? && s.ok && s.t in w.work && UpOf(w.work[s.t]).Some? ==>
          var m := renders(ShaOf(w.work[s.t])); s.ext == m.ext && s.thumb == m.thumb && s.preview == m.preview)
  }

  /** The events that leave objects behind: the server stops, the save of an original fails and has
      written it, or what a failed upload wrote cannot be deleted. A record makes up for the last two. */
  ghost predicate Strands(w: World, s: Step) {
    || s.StopServer?
    || (s.Save? && !s.ok && s.written && s.t in w.work && w.work[s.t].UpSaveOriginal? && w.work[s.t].up.sha !in w.db.blobs)
    || (s.PinObjects? && !s.ok && s.t in w.work && w.work[s.t].Pin? && !w.work[s.t].drop && w.work[s.t].sha !in w.db.blobs)
    || (s.DeleteOne? && !s.gone && s.t in w.work && w.work[s.t].Deleting? && !w.work[s.t].drop
        && w.work[s.t].sha !in w.db.blobs)
  }

  // ---- the invariant -----------------------------------------------------------------------------

  ghost predicate Standard(b: Blob, keys: Keys) {
    b.original == keys.original && b.thumb == keys.thumb && b.preview == keys.preview
  }

  /** A thread's keys are those of its content; a clip has only its original until it is probed. */
  ghost predicate KeysFit(wk: Work, m: Media, tag: Tag) {
    && (UpOf(wk).Some? ==> UpOf(wk).value.video == m.video)
    && (wk.ReuseReserve? || wk.ReuseInsert? ==> wk.ext == m.ext)
    && (KeysOf(wk).Some? ==>
          var early := wk.UpReserve? || wk.UpStat? || wk.UpSaveOriginal? || wk.UpProbe?;
          || (KeysOf(wk).value == Full(m, tag, ShaOf(wk)) && !wk.UpProbe? && !(m.video && early))
          || (KeysOf(wk).value == Bare(m, tag, ShaOf(wk)) && m.video && (early || wk.UpRefund?)))
    && (wk.UpProbe? ==> m.video)
  }

  ghost predicate NamesFit(wk: Work, m: Media, tag: Tag) {
    match wk
    case Discard(sha, names) => AllAmong(names, Full(m, tag, sha))
    case Pin(sha, names, drop, _) => !drop ==> AllAmong(names, Full(m, tag, sha))
    case Deleting(sha, names, _, drop, _) => !drop ==> AllAmong(names, Full(m, tag, sha))
    case _ => true
  }

  ghost predicate AllAmong(names: seq<Key>, keys: Keys) { forall k :: k in names ==> Among(keys, k) }

  ghost predicate Fits(wk: Work, renders: Sha -> Media, tag: Tag) {
    KeysFit(wk, renders(ShaOf(wk)), tag) && NamesFit(wk, renders(ShaOf(wk)), tag)
  }

  /** The thread will record this object, or delete it. */
  ghost predicate Covers(wk: Work, k: Key) {
    match wk
    case UpProbe(_, keys) => Among(keys, k)
    case UpSaveThumb(_, keys) => Among(keys, k)
    case UpSavePreview(_, keys) => Among(keys, k)
    case UpEnsure(_, keys) => Among(keys, k)
    case UpRefund(_, keys, discard) => discard && Among(keys, k)
    case Discard(_, names) => k in names
    case Pin(_, names, drop, _) => !drop && k in names
    case Deleting(_, names, _, drop, _) => !drop && k in names
    case _ => false
  }

  ghost predicate Covered(w: World, k: Key) { exists t :: t in w.work && Covers(w.work[t], k) }

  /** The object is one of its content's, and a record or a thread answers for it. */
  ghost predicate Accounted(w: World, renders: Sha -> Media, k: Key) {
    Among(Full(renders(k.sha), w.tag, k.sha), k) && (k.sha in w.db.blobs || Covered(w, k))
  }

  ghost predicate Records(w: World, renders: Sha -> Media) {
    forall sha :: sha in w.db.blobs ==> Standard(w.db.blobs[sha], Full(renders(sha), w.tag, sha))
  }

  ghost predicate Works(w: World, renders: Sha -> Media) {
    forall t :: t in w.work ==> Fits(w.work[t], renders, w.tag)
  }

  ghost predicate Objects(w: World, renders: Sha -> Media) {
    forall k :: k in w.objects && MainKind(k) ==> Accounted(w, renders, k)
  }

  ghost predicate Rows(w: World, renders: Sha -> Media) {
    forall id :: id in w.db.files ==> w.db.files[id].ext == renders(w.db.files[id].sha).ext
  }

  ghost predicate Unused(w: World) {
    w.server.Stopped? ==> w.db.blobs == map[] && forall k :: k in w.objects ==> !MainKind(k)
  }

  ghost predicate Tidy(w: World, renders: Sha -> Media) {
    Records(w, renders) && Works(w, renders) && Objects(w, renders) && Rows(w, renders) && Unused(w)
  }

  // ---- a thread's step, on its own content ---------------------------------------------------------

  lemma AmongAll(keys: Keys, k: Key)
    ensures k in keys.All() <==> Among(keys, k)
  {
  }

  lemma BareIsAmong(m: Media, tag: Tag, sha: Sha, k: Key)
    requires Among(Bare(m, tag, sha), k)
    ensures Among(Full(m, tag, sha), k)
  {
  }

  lemma AllFit(m: Media, tag: Tag, sha: Sha, keys: Keys)
    requires keys == Full(m, tag, sha) || keys == Bare(m, tag, sha)
    ensures AllAmong(keys.All(), Full(m, tag, sha))
  {
    forall k | k in keys.All()
      ensures Among(Full(m, tag, sha), k)
    {
      AmongAll(keys, k);
    }
  }

  lemma DecodedKeysFit(w: World, s: Step, m: Media)
    requires s.Process? && ThreadEnabled(w, s) && KeysFit(w.work[s.t], m, w.tag)
    requires s.ok ==> s.ext == m.ext && s.thumb == m.thumb && s.preview == m.preview
    ensures KeysFit(NextWork(w, s).value, m, w.tag)
  {
  }

  lemma CheckedKeysFit(w: World, s: Step, m: Media)
    requires s.Check? && ThreadEnabled(w, s) && KeysFit(w.work[s.t], m, w.tag)
    requires s.row.Some? ==> w.db.files[s.row.value].ext == m.ext
    ensures KeysFit(NextWork(w, s).value, m, w.tag)
  {
    hide ContentKeys, Reusable;
  }

  lemma ClaimedKeysFit(w: World, s: Step, m: Media)
    requires s.ClaimBytes? || s.Stat?
    requires ThreadEnabled(w, s) && KeysFit(w.work[s.t], m, w.tag)
    ensures KeysFit(NextWork(w, s).value, m, w.tag)
  {
    hide ContentKeys, MayReserve;
  }

  lemma SavedKeysFit(w: World, s: Step, m: Media)
    requires s.Save? && ThreadEnabled(w, s) && KeysFit(w.work[s.t], m, w.tag)
    ensures KeysFit(NextWork(w, s).value, m, w.tag)
  {
    hide ContentKeys;
  }

  lemma RecordedKeysFit(w: World, s: Step, m: Media)
    requires s.Ensure? || s.Insert?
    requires ThreadEnabled(w, s) && KeysFit(w.work[s.t], m, w.tag)
    ensures KeysFit(NextWork(w, s).value, m, w.tag)
  {
    hide ContentKeys, InsertOutcome;
  }

  lemma OtherKeysFit(w: World, s: Step, m: Media)
    requires IsThreadStep(s) && ThreadEnabled(w, s) && Locked(w.work[s.t])
    requires !s.Process? && !s.Check? && !s.ClaimBytes? && !s.Stat? && !s.Save? && !s.Ensure? && !s.Insert?
    ensures NextWork(w, s).Some? ==> UpOf(NextWork(w, s).value).None? && KeysOf(NextWork(w, s).value).None?
  {
  }

  lemma NextKeysFit(w: World, s: Step, m: Media)
    requires IsThreadStep(s) && ThreadEnabled(w, s) && KeysFit(w.work[s.t], m, w.tag) && Locked(w.work[s.t])
    requires s.Process? && s.ok ==> s.ext == m.ext && s.thumb == m.thumb && s.preview == m.preview
    requires s.Check? && s.row.Some? ==> w.db.files[s.row.value].ext == m.ext
    ensures NextWork(w, s).Some? ==> KeysFit(NextWork(w, s).value, m, w.tag)
  {
    hide NextWork, ThreadEnabled, ContentKeys;
    match s
    case Process(_, _, _, _, _) => DecodedKeysFit(w, s, m);
    case Check(_, _) => CheckedKeysFit(w, s, m);
    case ClaimBytes(_, _, _) => ClaimedKeysFit(w, s, m);
    case Stat(_, _) => ClaimedKeysFit(w, s, m);
    case Save(_, _, _, _) => SavedKeysFit(w, s, m);
    case Ensure(_, _, _) => RecordedKeysFit(w, s, m);
    case Insert(_, _, _, _) => RecordedKeysFit(w, s, m);
    case _ => OtherKeysFit(w, s, m);
  }

  lemma NextNamesFit(w: World, s: Step, m: Media)
    requires IsThreadStep(s) && ThreadEnabled(w, s) && KeysFit(w.work[s.t], m, w.tag) && NamesFit(w.work[s.t], m, w.tag)
    ensures NextWork(w, s).Some? ==> NamesFit(NextWork(w, s).value, m, w.tag)
  {
    if s.GiveRefund? && w.work[s.t].UpRefund? {
      AllFit(m, w.tag, w.work[s.t].up.sha, w.work[s.t].keys);
    }
  }

  /** Outside the lock a thread has neither keys nor names. */
  lemma FreeFits(wk: Work, renders: Sha -> Media, tag: Tag)
    requires wk.DelRow? || wk.RelLock? || wk.Leave? || wk.Refund? || wk.CopyLock?
    ensures Fits(wk, renders, tag)
  {
  }

  lemma OutsideGoesOutside(w: World, s: Step)
    requires IsThreadStep(s) && ThreadEnabled(w, s) && !Locked(w.work[s.t])
    ensures NextWork(w, s).Some? ==> NextWork(w, s).value.RelLock?
  {
  }

  lemma NextFits(w: World, s: Step, renders: Sha -> Media)
    requires IsThreadStep(s) && ThreadEnabled(w, s) && Decodes(w, s, renders) && Rows(w, renders)
    requires Fits(w.work[s.t], renders, w.tag)
    ensures NextWork(w, s).Some? ==> Fits(NextWork(w, s).value, renders, w.tag)
  {
    hide NextWork, KeysFit, NamesFit;
    var wk := w.work[s.t];
    SamePlace(w, s);
    if Locked(wk) {
      NextKeysFit(w, s, renders(ShaOf(wk)));
      NextNamesFit(w, s, renders(ShaOf(wk)));
    } else {
      OutsideGoesOutside(w, s);
      if NextWork(w, s).Some? {
        FreeFits(NextWork(w, s).value, renders, w.tag);
      }
    }
  }

  lemma NextStandard(w: World, s: Step, keys: Keys, sha: Sha)
    requires IsThreadStep(s) && ThreadEnabled(w, s)
    requires sha in w.db.blobs ==> Standard(w.db.blobs[sha], keys)
    requires s.Ensure? && w.work[s.t].up.sha == sha ==> w.work[s.t].keys == keys
    requires sha in NextDb(w, s).blobs
    ensures Standard(NextDb(w, s).blobs[sha], keys)
  {
  }

  lemma NextRow(w: World, s: Step, id: Id, m: Media)
    requires IsThreadStep(s) && ThreadEnabled(w, s) && id in NextDb(w, s).files
    requires id in w.db.files ==> w.db.files[id].ext == m.ext
    requires KeysFit(w.work[s.t], m, w.tag) || id in w.db.files
    ensures NextDb(w, s).files[id].ext == m.ext
    ensures id in w.db.files ==> NextDb(w, s).files[id].sha == w.db.files[id].sha
  {
  }

  lemma NewRow(w: World, s: Step, id: Id)
    requires IsThreadStep(s) && ThreadEnabled(w, s) && id in NextDb(w, s).files && id !in w.db.files
    ensures NextDb(w, s).files[id].sha == ShaOf(w.work[s.t])
  {
  }

  // ---- what answers for an object -------------------------------------------------------------------

  lemma UploadGoesOnCovering(w: World, s: Step, m: Media, k: Key)
    requires s.Process? || s.Save? || s.Ensure? || s.GiveRefund?
    requires ThreadEnabled(w, s) && WorkNamed(w.work[s.t]) && KeysFit(w.work[s.t], m, w.tag) && Covers(w.work[s.t], k)
    ensures k.sha in NextDb(w, s).blobs || (NextWork(w, s).Some? && Covers(NextWork(w, s).value, k))
  {
    var wk := w.work[s.t];
    if s.GiveRefund? {
      AmongAll(wk.keys, k);
    }
  }

  lemma DiscardGoesOnCovering(w: World, s: Step, m: Media, k: Key)
    requires s.DiscardRead? || s.PinObjects? || s.DeleteOne? || s.Unpin?
    requires ThreadEnabled(w, s) && NamesFit(w.work[s.t], m, w.tag) && Covers(w.work[s.t], k) && !Strands(w, s)
    ensures k.sha in NextDb(w, s).blobs || k !in NextObjects(w, s) || (NextWork(w, s).Some? && Covers(NextWork(w, s).value, k))
  {
    var wk := w.work[s.t];
    assert k.sha == wk.sha;
    if s.DeleteOne? && k != wk.names[0] {
      assert wk.names == [wk.names[0]] + wk.names[1..];
    }
  }

  lemma OnlyTheseCover(w: World, s: Step, k: Key)
    requires IsThreadStep(s) && ThreadEnabled(w, s) && Covers(w.work[s.t], k)
    ensures s.Process? || s.Save? || s.Ensure? || s.GiveRefund? || s.DiscardRead? || s.PinObjects? || s.DeleteOne? || s.Unpin?
  {
  }

  /** The acting thread goes on answering for an object, or has it recorded, or has deleted it. */
  lemma CoverGoesOn(w: World, s: Step, m: Media, k: Key)
    requires IsThreadStep(s) && ThreadEnabled(w, s) && WorkNamed(w.work[s.t]) && !Strands(w, s)
    requires KeysFit(w.work[s.t], m, w.tag) && NamesFit(w.work[s.t], m, w.tag) && Covers(w.work[s.t], k)
    ensures k.sha in NextDb(w, s).blobs || k !in NextObjects(w, s) || (NextWork(w, s).Some? && Covers(NextWork(w, s).value, k))
  {
    hide NextWork, NextDb, NextObjects, KeysFit, NamesFit, ThreadEnabled, Covers, WorkNamed, Strands;
    OnlyTheseCover(w, s, k);
    if s.Process? || s.Save? || s.Ensure? || s.GiveRefund? {
      UploadGoesOnCovering(w, s, m, k);
    } else {
      DiscardGoesOnCovering(w, s, m, k);
    }
  }

  /** A new object is one of the content's, and its thread answers for it. */
  lemma SavedIsCovered(w: World, s: Step, m: Media, k: Key)
    requires s.Save? && ThreadEnabled(w, s) && WorkNamed(w.work[s.t]) && !Strands(w, s)
    requires KeysFit(w.work[s.t], m, w.tag) && SaveKey(w.work[s.t]) == Some(k) && MainKind(k) && s.written
    ensures Among(Full(m, w.tag, ShaOf(w.work[s.t])), k)
    ensures k.sha in NextDb(w, s).blobs || (NextWork(w, s).Some? && Covers(NextWork(w, s).value, k))
  {
  }

  /** A record that goes takes the last of its objects with it. */
  lemma RecordStays(w: World, s: Step, renders: Sha -> Media, k: Key)
    requires Clear(w) && Records(w, renders) && IsThreadStep(s) && ThreadEnabled(w, s)
    requires k in w.objects && Among(Full(renders(k.sha), w.tag, k.sha), k) && k.sha in w.db.blobs
    ensures k.sha in NextDb(w, s).blobs
  {
    hide NextDb, NextObjects, Threads, Names;
    var b := w.db.blobs[k.sha];
    assert NamedBy(b, k);
    assert Clearing(w.work[s.t], w.db, w.objects);
    assert w.work[s.t].DropBlob? && w.work[s.t].sha == k.sha ==> k !in w.objects;
    if k.sha !in NextDb(w, s).blobs {
      ThreadRemoves(w, s, k.sha);
    }
  }

  lemma NewIsSaved(w: World, s: Step, k: Key)
    requires IsThreadStep(s) && ThreadEnabled(w, s) && WorkNamed(w.work[s.t])
    requires k in NextObjects(w, s) && k !in w.objects
    ensures s.Save? && s.written && SaveKey(w.work[s.t]) == Some(k) && k.sha == ShaOf(w.work[s.t])
  {
    ObjectsGained(w, s, k);
  }

  lemma StillAccounted(w: World, s: Step, renders: Sha -> Media, k: Key)
    requires Clear(w) && Records(w, renders) && Works(w, renders) && IsThreadStep(s) && ThreadEnabled(w, s) && !Strands(w, s)
    requires k in w.objects && k in NextObjects(w, s) && Accounted(w, renders, k)
    ensures Accounted(ThreadStep(w, s), renders, k)
  {
    hide NextWork, NextDb, NextObjects, NextPins, ThreadEnabled, Covers, WorkNamed, Strands, ThreadStep, Among, Full;
    hide Clear, KeysFit, NamesFit;
    hide Records;
    ThreadFrame(w, s);
    var m := ThreadStep(w, s);
    if k.sha in w.db.blobs {
      RecordStays(w, s, renders, k);
    } else {
      var t :| t in w.work && Covers(w.work[t], k);
      if t == s.t {
        assert Fits(w.work[t], renders, w.tag);
        NamedWork(w, t);
        CoverGoesOn(w, s, renders(ShaOf(w.work[t])), k);
        assert k.sha !in m.db.blobs ==> t in m.work && Covers(m.work[t], k);
      } else {
        assert t in m.work && m.work[t] == w.work[t];
      }
    }
  }

  lemma NamedWork(w: World, t: Tid)
    requires Clear(w) && t in w.work
    ensures WorkNamed(w.work[t])
  {
    hide WorkNamed, RecordNamed, Threads, Clearings;
  }

  lemma NewlyAccounted(w: World, s: Step, renders: Sha -> Media, k: Key)
    requires Clear(w) && Works(w, renders) && IsThreadStep(s) && ThreadEnabled(w, s) && !Strands(w, s)
    requires k !in w.objects && k in NextObjects(w, s) && MainKind(k)
    ensures Accounted(ThreadStep(w, s), renders, k)
  {
    hide NextWork, NextDb, NextObjects, NextPins, ThreadEnabled, Covers, WorkNamed, Strands, ThreadStep, Among, Full;
    hide Clear, KeysFit, NamesFit;
    ThreadFrame(w, s);
    NamedWork(w, s.t);
    NewIsSaved(w, s, k);
    assert Fits(w.work[s.t], renders, w.tag);
    SavedIsCovered(w, s, renders(ShaOf(w.work[s.t])), k);
    var m := ThreadStep(w, s);
    assert k.sha !in m.db.blobs ==> s.t in m.work && Covers(m.work[s.t], k);
  }

  lemma ThreadStepObjects(w: World, s: Step, renders: Sha -> Media)
    requires Clear(w) && Tidy(w, renders) && IsThreadStep(s) && ThreadEnabled(w, s) && !Strands(w, s)
    ensures Objects(ThreadStep(w, s), renders)
  {
    hide ThreadStep, NextWork, NextDb, NextObjects, NextPins, ThreadEnabled, Strands, Clear, Records, Works, Accounted;
    ThreadFrame(w, s);
    var m := ThreadStep(w, s);
    forall k | k in m.objects && MainKind(k)
      ensures Accounted(m, renders, k)
    {
      if k in w.objects {
        StillAccounted(w, s, renders, k);
      } else {
        NewlyAccounted(w, s, renders, k);
      }
    }
  }

  lemma ThreadStepWorks(w: World, s: Step, renders: Sha -> Media)
    requires Works(w, renders) && Rows(w, renders) && IsThreadStep(s) && ThreadEnabled(w, s) && Decodes(w, s, renders)
    ensures Works(ThreadStep(w, s), renders)
  {
    hide ThreadStep, NextWork, NextDb, NextObjects, NextPins, ThreadEnabled, Fits, Decodes, Rows;
    ThreadFrame(w, s);
    assert Fits(w.work[s.t], renders, w.tag);
    NextFits(w, s, renders);
  }

  lemma EnsuredKeys(wk: Work, m: Media, tag: Tag)
    requires KeysFit(wk, m, tag) && (wk.UpEnsure? || wk.UpInsert?)
    ensures wk.keys == Full(m, tag, wk.up.sha)
  {
  }

  lemma ThreadStepRecords(w: World, s: Step, renders: Sha -> Media)
    requires Records(w, renders) && Works(w, renders) && IsThreadStep(s) && ThreadEnabled(w, s)
    ensures Records(ThreadStep(w, s), renders)
  {
    hide ThreadStep, NextWork, NextDb, NextObjects, NextPins, Standard, KeysFit, NamesFit;
    ThreadFrame(w, s);
    var m := ThreadStep(w, s);
    assert Fits(w.work[s.t], renders, w.tag);
    if s.Ensure? {
      EnsuredKeys(w.work[s.t], renders(ShaOf(w.work[s.t])), w.tag);
    }
    forall sha | sha in m.db.blobs
      ensures Standard(m.db.blobs[sha], Full(renders(sha), m.tag, sha))
    {
      NextStandard(w, s, Full(renders(sha), w.tag, sha), sha);
    }
  }

  lemma ThreadStepRows(w: World, s: Step, renders: Sha -> Media)
    requires Rows(w, renders) && Works(w, renders) && IsThreadStep(s) && ThreadEnabled(w, s)
    ensures Rows(ThreadStep(w, s), renders)
  {
    hide ThreadStep, NextWork, NextDb, NextObjects, NextPins, KeysFit, NamesFit, ThreadEnabled;
    ThreadFrame(w, s);
    var m := ThreadStep(w, s);
    assert Fits(w.work[s.t], renders, w.tag);
    forall id | id in m.db.files
      ensures m.db.files[id].ext == renders(m.db.files[id].sha).ext
    {
      if id in w.db.files {
        NextRow(w, s, id, renders(w.db.files[id].sha));
      } else {
        NewRow(w, s, id);
        NextRow(w, s, id, renders(ShaOf(w.work[s.t])));
      }
    }
  }

  lemma ThreadStepKeepsTidy(w: World, s: Step, renders: Sha -> Media)
    requires Clear(w) && Tidy(w, renders) && IsThreadStep(s) && ThreadEnabled(w, s)
    requires Decodes(w, s, renders) && !Strands(w, s)
    ensures Tidy(ThreadStep(w, s), renders)
  {
    ThreadStepObjects(w, s, renders);
    ThreadStepWorks(w, s, renders);
    ThreadStepRecords(w, s, renders);
    ThreadStepRows(w, s, renders);
    hide ThreadStep, NextWork, NextDb, NextObjects, NextPins, Strands, Objects, Works, Records, Rows, Decodes, ThreadEnabled;
    ThreadFrame(w, s);
    assert s.t in w.work && w.work != map[];
  }

  // ---- the other steps -------------------------------------------------------------------------------

  /** The tables' contents and the objects stay, and so do the threads that answer for them. */
  lemma SameObjects(w: World, m: World, renders: Sha -> Media)
    requires Objects(w, renders) && m.tag == w.tag && m.db.blobs.Keys == w.db.blobs.Keys
    requires forall k :: k in m.objects && MainKind(k) ==> k in w.objects
    requires forall t, k :: t in w.work && Covers(w.work[t], k) ==> t in m.work && Covers(m.work[t], k)
    ensures Objects(m, renders)
  {
    hide Among, Full, Covers;
    forall k | k in m.objects && MainKind(k)
      ensures Accounted(m, renders, k)
    {
      assert Accounted(w, renders, k);
      if k.sha !in w.db.blobs {
        var t :| t in w.work && Covers(w.work[t], k);
        assert t in m.work && Covers(m.work[t], k);
      }
    }
  }

  lemma BeginFits(w: World, s: Step, renders: Sha -> Media)
    requires IsBegin(s) && BeginEnabled(w, s) && Decodes(w, s, renders)
    ensures Fits(BeginWork(w, s), renders, w.tag)
  {
  }

  lemma BeginKeepsTidy(w: World, s: Step, renders: Sha -> Media)
    requires Tidy(w, renders) && IsBegin(s) && BeginEnabled(w, s) && Decodes(w, s, renders)
    ensures Tidy(Become(w, s.t, BeginWork(w, s)), renders)
  {
    hide Objects, Fits, Covers, Decodes, Standard, BeginWork;
    BeginFits(w, s, renders);
    SameObjects(w, Become(w, s.t, BeginWork(w, s)), renders);
  }

  lemma LockWorkFits(w: World, s: Step, renders: Sha -> Media)
    requires IsLockStep(s) && LockEnabled(w, s) && Fits(w.work[s.t], renders, w.tag)
    ensures LockWork(w.work[s.t], s).Some? ==> Fits(LockWork(w.work[s.t], s).value, renders, w.tag)
    ensures forall k :: !Covers(w.work[s.t], k)
  {
  }

  lemma LockStepKeepsTidy(w: World, s: Step, renders: Sha -> Media)
    requires Tidy(w, renders) && IsLockStep(s) && LockEnabled(w, s)
    ensures Tidy(LockStep(w, s), renders)
  {
    hide Objects, Fits, Covers, Standard, LockStep, LockWork, LockEnabled;
    LockFrame(w, s);
    assert Fits(w.work[s.t], renders, w.tag);
    LockWorkFits(w, s, renders);
    SameObjects(w, LockStep(w, s), renders);
  }

  lemma RunningProcess(w: World, s: Step, sha: Sha)
    requires IsProcessStep(s) && ProcessEnabled(w, s) && !s.StartServer? && !s.StopServer? && !s.MaintPublish?
    ensures var m := ProcessStep(w, s);
            && m.tag == w.tag && m.work == w.work && m.server == w.server
            && (sha in m.db.blobs <==> sha in w.db.blobs)
            && (sha in w.db.blobs ==> m.db.blobs[sha].original == w.db.blobs[sha].original
                                      && m.db.blobs[sha].thumb == w.db.blobs[sha].thumb
                                      && m.db.blobs[sha].preview == w.db.blobs[sha].preview)
  {
  }

  lemma ProcessObjects(w: World, s: Step, k: Key)
    requires IsProcessStep(s) && ProcessEnabled(w, s) && k in ProcessStep(w, s).objects && MainKind(k)
    ensures k in w.objects
  {
  }

  lemma ProcessRow(w: World, s: Step, id: Id)
    requires IsProcessStep(s) && ProcessEnabled(w, s) && id in ProcessStep(w, s).db.files
    ensures id in w.db.files && ProcessStep(w, s).db.files[id] == w.db.files[id]
  {
  }

  lemma ProcessRows(w: World, s: Step, renders: Sha -> Media)
    requires Rows(w, renders) && IsProcessStep(s) && ProcessEnabled(w, s)
    ensures Rows(ProcessStep(w, s), renders)
  {
    hide ProcessStep, ProcessEnabled;
    forall id | id in ProcessStep(w, s).db.files
      ensures ProcessStep(w, s).db.files[id].ext == renders(ProcessStep(w, s).db.files[id].sha).ext
    {
      ProcessRow(w, s, id);
    }
  }

  lemma StartKeepsTidy(w: World, s: Step, renders: Sha -> Media)
    requires Clear(w) && Tidy(w, renders) && s.StartServer? && ProcessEnabled(w, s)
    ensures Tidy(ProcessStep(w, s), renders)
  {
  }

  lemma ProcessKeepsTidy(w: World, s: Step, renders: Sha -> Media)
    requires Clear(w) && Tidy(w, renders) && IsProcessStep(s) && ProcessEnabled(w, s) && !s.StopServer?
    ensures Tidy(ProcessStep(w, s), renders)
  {
    assert !s.MaintPublish? by { hide Clearings, Names, Threads; }
    hide Clear, ProcessStep, ProcessEnabled, Fits, Covers, Standard, Objects;
    var m := ProcessStep(w, s);
    if s.StartServer? {
      StartKeepsTidy(w, s, renders);
    } else {
      ProcessRows(w, s, renders);
      forall sha
        ensures (sha in m.db.blobs <==> sha in w.db.blobs) && m.tag == w.tag && m.work == w.work && m.server == w.server
        ensures sha in m.db.blobs ==> Standard(m.db.blobs[sha], Full(renders(sha), m.tag, sha))
      {
        RunningProcess(w, s, sha);
        SameRecord(w, m, renders, sha);
      }
      forall k | k in m.objects && MainKind(k)
        ensures k in w.objects
      {
        ProcessObjects(w, s, k);
      }
      assert m.tag == w.tag && m.work == w.work by { RunningProcess(w, s, 0); }
      assert m.db.blobs.Keys == w.db.blobs.Keys;
      SameObjects(w, m, renders);
      assert Works(m, renders) && Records(m, renders);
      StillUnused(w, m);
    }
  }

  lemma StillUnused(w: World, m: World)
    requires Unused(w) && m.server == w.server && m.db.blobs.Keys == w.db.blobs.Keys
    requires forall k :: k in m.objects && MainKind(k) ==> k in w.objects
    ensures Unused(m)
  {
    if w.server.Stopped? {
      assert m.db.blobs.Keys == {};
    }
  }

  lemma SameRecord(w: World, m: World, renders: Sha -> Media, sha: Sha)
    requires Records(w, renders) && m.tag == w.tag && (sha in m.db.blobs <==> sha in w.db.blobs)
    requires sha in w.db.blobs ==> m.db.blobs[sha].original == w.db.blobs[sha].original
                                   && m.db.blobs[sha].thumb == w.db.blobs[sha].thumb
                                   && m.db.blobs[sha].preview == w.db.blobs[sha].preview
    ensures sha in m.db.blobs ==> Standard(m.db.blobs[sha], Full(renders(sha), m.tag, sha))
  {
  }

  lemma StepKeepsTidy(w: World, s: Step, renders: Sha -> Media)
    requires Clear(w) && Tidy(w, renders) && Enabled(w, s) && Decodes(w, s, renders) && !Strands(w, s)
    ensures Tidy(Apply(w, s), renders)
  {
    assert !s.StopServer?;
    hide Clear, Tidy, Apply, Enabled, ThreadStep, LockStep, ProcessStep, ThreadEnabled, LockEnabled, BeginEnabled, ProcessEnabled;
    hide BeginWork, Decodes, Strands;
    ApplyIs(w, s);
    if IsBegin(s) {
      BeginKeepsTidy(w, s, renders);
    } else if IsLockStep(s) {
      LockStepKeepsTidy(w, s, renders);
    } else if IsProcessStep(s) {
      ProcessKeepsTidy(w, s, renders);
    } else {
      ThreadStepKeepsTidy(w, s, renders);
    }
  }

  // ---- whole runs ----------------------------------------------------------------------------------------

  /** Decoding is repeatable and nothing is stranded, all through the run. */
  ghost predicate Orderly(w: World, steps: seq<Step>, renders: Sha -> Media) {
    steps != [] ==>
      var before, s := steps[..|steps| - 1], steps[|steps| - 1];
      && Orderly(w, before, renders)
      && (Run(w, before).Some? ==> Decodes(Run(w, before).value, s, renders) && !Strands(Run(w, before).value, s))
  }

  lemma {:induction false} OrderlyRunsAreTidy(w: World, steps: seq<Step>, renders: Sha -> Media)
    requires Initial(w) && Run(w, steps).Some? && Orderly(w, steps, renders)
    ensures Tidy(Run(w, steps).value, renders)
  {
    if steps != [] {
      var before := steps[..|steps| - 1];
      OrderlyRunsAreTidy(w, before, renders);
      RunsKeepClear(w, before);
      StepKeepsTidy(Run(w, before).value, steps[|steps| - 1], renders);
    }
  }

  lemma CoverIsAtWork(w: World, renders: Sha -> Media, t: Tid, k: Key)
    requires t in w.work && Fits(w.work[t], renders, w.tag) && WorkNamed(w.work[t]) && Covers(w.work[t], k)
    ensures Locked(w.work[t]) && ShaOf(w.work[t]) == k.sha
  {
  }

  /** Every stored original, thumbnail and preview is named by the record of its content, or a
      thread that holds its content is at work on it: in every orderly run, under any
      interleaving and with any other failure. */
  lemma NothingIsStray(w: World, steps: seq<Step>, renders: Sha -> Media, k: Key)
    requires Initial(w) && Run(w, steps).Some? && Orderly(w, steps, renders)
    requires k in Run(w, steps).value.objects && (k.Original? || k.Thumb? || k.Preview?)
    ensures var m := Run(w, steps).value;
            || (k.sha in m.db.blobs && k in m.db.blobs[k.sha].Main())
            || exists t :: t in m.work && Locked(m.work[t]) && ShaOf(m.work[t]) == k.sha
  {
    hide Run, Orderly, Clear, KeysFit, NamesFit, Covers, WorkNamed;
    OrderlyRunsAreTidy(w, steps, renders);
    RunsKeepClear(w, steps);
    var m := Run(w, steps).value;
    assert Accounted(m, renders, k);
    if k.sha !in m.db.blobs {
      var t :| t in m.work && Covers(m.work[t], k);
      NamedWork(m, t);
      assert Fits(m.work[t], renders, m.tag);
      CoverIsAtWork(m, renders, t, k);
    }
  }

  /** So once no thread is at work and no record is orphaned, what is stored belongs to files: each
      original, thumbnail and preview is named by the record of some file's content. */
  lemma AtRestOnlyFilesAreStored(w: World, steps: seq<Step>, renders: Sha -> Media, k: Key)
    requires Initial(w) && Run(w, steps).Some? && Orderly(w, steps, renders) && Careful(w, steps)
    requires var m := Run(w, steps).value; m.work == map[] && forall sha :: sha in m.db.blobs ==> !m.db.blobs[sha].Orphaned()
    requires k in Run(w, steps).value.objects && (k.Original? || k.Thumb? || k.Preview?)
    ensures var m := Run(w, steps).value;
            exists id :: id in m.db.files && m.db.files[id].sha == k.sha && k.sha in m.db.blobs && k in m.db.blobs[k.sha].Main()
  {
    hide Run, Orderly, Careful;
    NothingIsStray(w, steps, renders, k);
    EveryReachableWorldIsSafe(w, steps);
    var m := Run(w, steps).value;
    ReferencedIffNamed(m.db, k.sha);
  }

  /** A file's extension is the one under which its original is stored. */
  lemma RowsCarryTheExtension(w: World, steps: seq<Step>, renders: Sha -> Media, id: Id)
    requires Initial(w) && Run(w, steps).Some? && Orderly(w, steps, renders)
    requires id in Run(w, steps).value.db.files
    ensures var m := Run(w, steps).value; var f := m.db.files[id];
            f.sha in m.db.blobs ==> m.db.blobs[f.sha].original == Original(f.sha, f.ext)
  {
    hide Run, Orderly, Works, Objects;
    OrderlyRunsAreTidy(w, steps, renders);
  }
}
