/** With every operation working, the threads get where they are going: a release empties the store of
    its content and of nothing else, and an upload ends with its file recorded and its objects stored. */
module LifecycleProgress {
  import opened Prelude
  import opened Tables
  import opened Lifecycle
  import opened LifecycleAbsence
  import opened LifecycleFault
  import ContentLock

  // ---- a release -------------------------------------------------------------------------------

  /** A step of a release by thread t in which the operation works. */
  ghost predicate Releases(s: Step, t: Tid) {
    match s
    case RelRead(u, failed) => u == t && !failed
    case PinObjects(u, ok) => u == t && ok
    case DeleteOne(u, ok, _) => u == t && ok
    case Unpin(u) => u == t
    case DropRow(u, ok) => u == t && ok
    case _ => false
  }

  ghost predicate AllRelease(steps: seq<Step>, t: Tid) { forall x :: x in steps ==> Releases(x, t) }

  lemma FirstIsDeleted(m: World, t: Tid)
    requires t in m.work && m.work[t].Deleting? && m.work[t].names != []
    ensures Enabled(m, DeleteOne(t, true, true))
    ensures var n, wk := Apply(m, DeleteOne(t, true, true)), m.work[t];
            && t in n.work && n.work[t] == Deleting(wk.sha, wk.names[1..], wk.ok, wk.drop, wk.due)
            && n.db == m.db && n.objects == m.objects - {wk.names[0]}
  {
  }

  lemma WithoutFirst(names: seq<Key>, objects: map<Key, nat>, rest: map<Key, nat>)
    requires names != [] && rest == objects - {names[0]} - (set k | k in names[1..])
    ensures rest == objects - (set k | k in names)
  {
    assert names == [names[0]] + names[1..];
    assert {names[0]} + (set k | k in names[1..]) == (set k | k in names);
  }

  lemma {:induction false} DeletesAll(w: World, steps: seq<Step>, t: Tid) returns (all: seq<Step>)
    requires Run(w, steps).Some? && AllRelease(steps, t)
    requires var m := Run(w, steps).value; t in m.work && m.work[t].Deleting? && m.work[t].ok
    ensures Run(w, all).Some? && AllRelease(all, t)
    ensures var m, n := Run(w, steps).value, Run(w, all).value; var wk := m.work[t];
            && t in n.work && n.work[t] == Deleting(wk.sha, [], true, wk.drop, wk.due)
            && n.db == m.db && n.objects == m.objects - (set k | k in m.work[t].names)
    decreases |Run(w, steps).value.work[t].names|
  {
    hide Apply, Enabled;
    var m := Run(w, steps).value;
    var names := m.work[t].names;
    if names == [] {
      all := steps;
      assert m.objects - (set k | k in names) == m.objects;
    } else {
      FirstIsDeleted(m, t);
      RunOneMore(w, steps, DeleteOne(t, true, true));
      all := DeletesAll(w, steps + [DeleteOne(t, true, true)], t);
      WithoutFirst(names, m.objects, Run(w, all).value.objects);
    }
  }

  lemma ReleaseBegins(w: World, t: Tid)
    requires t in w.work && w.work[t].RelCheck? && w.work[t].sha in w.db.blobs && w.db.blobs[w.work[t].sha].Orphaned()
    requires w.server.Current? ==> w.backup.NoBackup? || w.backup.HasLifecycle?
    ensures Enabled(w, RelRead(t, false))
    ensures var m, wk := Apply(w, RelRead(t, false)), w.work[t];
            && Enabled(m, PinObjects(t, true))
            && var n := Apply(m, PinObjects(t, true));
               && t in n.work && n.db == w.db && n.objects == w.objects
               && n.work[t] == Deleting(wk.sha, w.db.blobs[wk.sha].Keys(), true, true, wk.due)
  {
  }

  lemma ReleaseEnds(w: World, t: Tid)
    requires t in w.work && w.work[t].Deleting? && w.work[t].names == [] && w.work[t].ok && w.work[t].drop
    requires w.work[t].sha in w.db.blobs && w.db.blobs[w.work[t].sha].Orphaned()
    ensures Enabled(w, Unpin(t))
    ensures var m, wk := Apply(w, Unpin(t)), w.work[t];
            && Enabled(m, DropRow(t, true))
            && var n := Apply(m, DropRow(t, true));
               && t in n.work && n.work[t] == Unlock(wk.sha, wk.due) && n.objects == w.objects
               && n.db == w.db.(blobs := w.db.blobs - {wk.sha})
  {
  }

  lemma KeysAreNamed(b: Blob, k: Key)
    ensures k in b.Keys() <==> NamedBy(b, k)
  {
    if NamedBy(b, k) && (k == b.original || b.thumb == Some(k) || b.preview == Some(k)) {
      assert k in b.Main();
    }
  }

  lemma ReleaseGoesAhead(w: World, t: Tid) returns (steps: seq<Step>)
    requires t in w.work && w.work[t].RelCheck? && w.work[t].sha in w.db.blobs && w.db.blobs[w.work[t].sha].Orphaned()
    requires w.server.Current? ==> w.backup.NoBackup? || w.backup.HasLifecycle?
    ensures AllRelease(steps, t) && Run(w, steps).Some?
    ensures var m, wk := Run(w, steps).value, w.work[t];
            && t in m.work && m.work[t] == Deleting(wk.sha, [], true, true, wk.due) && m.db == w.db
            && m.objects == w.objects - (set k | k in w.db.blobs[wk.sha].Keys())
  {
    hide Run, Apply, Enabled;
    ReleaseBegins(w, t);
    RunNothing(w);
    RunOneMore(w, [], RelRead(t, false));
    RunOneMore(w, [] + [RelRead(t, false)], PinObjects(t, true));
    steps := DeletesAll(w, [] + [RelRead(t, false)] + [PinObjects(t, true)], t);
  }

  lemma GoneWereNamed(b: Blob, objects: map<Key, nat>, rest: map<Key, nat>)
    requires rest == objects - (set k | k in b.Keys())
    ensures forall k :: k in rest <==> k in objects && !NamedBy(b, k)
    ensures forall k :: k in rest ==> rest[k] == objects[k]
  {
    hide NamedBy;
    forall k
      ensures k in rest <==> k in objects && !NamedBy(b, k)
    {
      KeysAreNamed(b, k);
    }
  }

  /** A release that finds its content orphaned, with every operation working, ends with the record
      gone and with it exactly the objects it named: the original, the renditions and the copies. */
  lemma ReleaseFrees(w: World, t: Tid) returns (steps: seq<Step>)
    requires t in w.work && w.work[t].RelCheck? && w.work[t].sha in w.db.blobs && w.db.blobs[w.work[t].sha].Orphaned()
    requires w.server.Current? ==> w.backup.NoBackup? || w.backup.HasLifecycle?
    ensures AllRelease(steps, t) && Run(w, steps).Some?
    ensures var m, wk := Run(w, steps).value, w.work[t];
            && t in m.work && m.work[t] == Unlock(wk.sha, wk.due)
            && m.db == w.db.(blobs := w.db.blobs - {wk.sha})
            && (forall k :: k in m.objects <==> k in w.objects && !NamedBy(w.db.blobs[wk.sha], k))
            && (forall k :: k in m.objects ==> m.objects[k] == w.objects[k])
  {
    hide Run, Apply, Enabled, NamedBy;
    steps := ReleaseGoesAhead(w, t);
    var n := Run(w, steps).value;
    ReleaseEnds(n, t);
    RunOneMore(w, steps, Unpin(t));
    RunOneMore(w, steps + [Unpin(t)], DropRow(t, true));
    steps := steps + [Unpin(t)] + [DropRow(t, true)];
    GoneWereNamed(w.db.blobs[w.work[t].sha], w.objects, n.objects);
  }

  // ---- a failed upload -------------------------------------------------------------------------

  lemma DiscardBegins(w: World, t: Tid)
    requires t in w.work && w.work[t].Discard? && w.work[t].sha !in w.db.blobs
    requires w.server.Current? ==> w.backup.NoBackup? || w.backup.HasLifecycle?
    ensures Enabled(w, DiscardRead(t, false))
    ensures var m, wk := Apply(w, DiscardRead(t, false)), w.work[t];
            && Enabled(m, PinObjects(t, true))
            && var n := Apply(m, PinObjects(t, true));
               && t in n.work && n.db == w.db && n.objects == w.objects
               && n.work[t] == Deleting(wk.sha, wk.names, true, false, NOTHING)
  {
  }

  lemma DiscardEnds(w: World, t: Tid)
    requires t in w.work && w.work[t].Deleting? && w.work[t].names == [] && !w.work[t].drop
    ensures Enabled(w, Unpin(t))
    ensures var m, wk := Apply(w, Unpin(t)), w.work[t];
            t in m.work && m.work[t] == Unlock(wk.sha, wk.due) && m.db == w.db && m.objects == w.objects
  {
  }

  lemma RecordIsFound(w: World, t: Tid)
    requires t in w.work && w.work[t].Discard? && w.work[t].sha in w.db.blobs
    ensures Enabled(w, DiscardRead(t, false))
    ensures var sha := w.work[t].sha;
            Apply(w, DiscardRead(t, false))
            == At(w, t, if w.db.blobs[sha].Orphaned() then RelCheck(sha, NOTHING) else Unlock(sha, NOTHING))
  {
    hide Enabled, Apply;
    var sha := w.work[t].sha;
    Moves(w, DiscardRead(t, false), if w.db.blobs[sha].Orphaned() then RelCheck(sha, NOTHING) else Unlock(sha, NOTHING));
  }

  lemma DiscardWithoutRecord(w: World, t: Tid) returns (steps: seq<Step>)
    requires t in w.work && w.work[t].Discard? && w.work[t].sha !in w.db.blobs
    requires w.server.Current? ==> w.backup.NoBackup? || w.backup.HasLifecycle?
    ensures Run(w, steps).Some?
    ensures var m, wk := Run(w, steps).value, w.work[t];
            && t in m.work && m.work[t] == Unlock(wk.sha, NOTHING) && m.db == w.db
            && m.objects == w.objects - (set k | k in wk.names)
  {
    hide Run, Apply, Enabled;
    DiscardBegins(w, t);
    RunNothing(w);
    RunOneMore(w, [], DiscardRead(t, false));
    var m := Apply(w, DiscardRead(t, false));
    RunNothing(m);
    RunOneMore(m, [], PinObjects(t, true));
    var rest := DeletesAll(m, [] + [PinObjects(t, true)], t);
    var n := Run(m, rest).value;
    DiscardEnds(n, t);
    RunOneMore(m, rest, Unpin(t));
    RunJoins(w, [] + [DiscardRead(t, false)], rest + [Unpin(t)]);
    steps := [] + [DiscardRead(t, false)] + (rest + [Unpin(t)]);
  }

  /** What a failed upload leaves to be discarded, with every operation working: without a record what it
      wrote is gone, with an orphaned one the record and everything it names are gone, and content that
      a file has is not touched. */
  lemma DiscardArrives(w: World, t: Tid) returns (steps: seq<Step>)
    requires t in w.work && w.work[t].Discard?
    requires w.server.Current? ==> w.backup.NoBackup? || w.backup.HasLifecycle?
    ensures Run(w, steps).Some?
    ensures var m, sha := Run(w, steps).value, w.work[t].sha;
            && t in m.work && m.work[t] == Unlock(sha, NOTHING)
            && (if sha !in w.db.blobs then m.db == w.db && m.objects == w.objects - (set k | k in w.work[t].names)
                else if w.db.blobs[sha].Orphaned() then
                  && m.db == w.db.(blobs := w.db.blobs - {sha})
                  && forall k :: k in m.objects <==> k in w.objects && !NamedBy(w.db.blobs[sha], k)
                else m.db == w.db && m.objects == w.objects)
  {
    hide Run, Apply, Enabled, NamedBy;
    var sha := w.work[t].sha;
    if sha !in w.db.blobs {
      steps := DiscardWithoutRecord(w, t);
    } else {
      RecordIsFound(w, t);
      RunNothing(w);
      RunOneMore(w, [], DiscardRead(t, false));
      steps := [] + [DiscardRead(t, false)];
      if w.db.blobs[sha].Orphaned() {
        var m := At(w, t, RelCheck(sha, NOTHING));
        var rest := ReleaseFrees(m, t);
        RunJoins(w, steps, rest);
        steps := steps + rest;
      }
    }
  }

  // ---- an upload -------------------------------------------------------------------------------

  /** A thread's step, when it stays at work, takes no pin and adds no row. */
  lemma Moves(w: World, s: Step, next: Work)
    requires IsThreadStep(s) && ThreadEnabled(w, s) && !s.Insert? && !s.PinObjects? && !s.Unpin?
    requires NextWork(w, s) == Some(next)
    ensures Enabled(w, s)
    ensures Apply(w, s) == w.(db := NextDb(w, s), objects := NextObjects(w, s), work := w.work[s.t := next])
  {
    hide NextWork, NextDb, NextObjects, ThreadEnabled;
  }

  /** What decoding an upload gives, and what its renditions hold. */
  datatype Decoded = Decoded(ext: Ext, thumb: Option<Ext>, preview: Option<Ext>, small: nat, large: nat)

  /** The objects of an upload: a clip has no preview. */
  function KeysFor(w: World, up: Up, d: Decoded): Keys {
    ContentKeys(w.tag, up.sha, d.ext, d.thumb, if up.video then None else d.preview)
  }

  /** Until a clip is probed it has no thumbnail either. */
  function EarlyKeys(w: World, up: Up, d: Decoded): Keys {
    if up.video then ContentKeys(w.tag, up.sha, d.ext, None, None) else KeysFor(w, up, d)
  }

  function Charged(db: Db, up: Up): Db { if up.owner.Some? then Reserve(db, up.owner.value, up.size) else db }

  function With(objects: map<Key, nat>, k: Option<Key>, content: nat): map<Key, nat> {
    if k.Some? then objects[k.value := content] else objects
  }

  function WithOriginal(objects: map<Key, nat>, k: Key, sha: Sha): map<Key, nat> {
    if k in objects then objects else objects[k := sha]
  }

  /** The upload may be charged to its account and fits the instance, and the id is new. */
  ghost predicate MayStore(w: World, up: Up, id: Id) {
    && (up.owner.Some? ==> up.owner.value in w.db.used && MayReserve(w.db, up.owner.value, up.size, w.limit))
    && (w.limit > 0 ==> StoredBytes(w.db.files) + up.size <= w.limit)
    && id !in w.used && id !in w.db.files
  }

  function At(w: World, t: Tid, wk: Work): World { w.(work := w.work[t := wk]) }

  lemma AtAgain(w: World, t: Tid, a: Work, b: Work)
    ensures At(At(w, t, a), t, b) == At(w, t, b)
  {
    assert w.work[t := a][t := b] == w.work[t := b];
  }

  lemma UploadIsDecoded(w: World, t: Tid, up: Up, d: Decoded)
    ensures var a := At(w, t, UpCheck(up));
            Enabled(a, Check(t, None)) && Apply(a, Check(t, None)) == At(w, t, UpProcess(up))
    ensures var a, s := At(w, t, UpProcess(up)), Process(t, true, d.ext, d.thumb, d.preview);
            Enabled(a, s) && Apply(a, s) == At(w, t, UpReserve(up, EarlyKeys(w, up, d)))
  {
    hide Enabled, Apply;
    Moves(At(w, t, UpCheck(up)), Check(t, None), UpProcess(up));
    AtAgain(w, t, UpCheck(up), UpProcess(up));
    var a, s := At(w, t, UpProcess(up)), Process(t, true, d.ext, d.thumb, d.preview);
    Moves(a, s, UpReserve(up, EarlyKeys(w, up, d)));
    AtAgain(w, t, UpProcess(up), UpReserve(up, EarlyKeys(w, up, d)));
  }

  lemma UploadIsCharged(w: World, t: Tid, up: Up, keys: Keys)
    requires up.owner.Some? ==> MayReserve(w.db, up.owner.value, up.size, w.limit)
    ensures var a, s := At(w, t, UpReserve(up, keys)), ClaimBytes(t, true, true);
            Enabled(a, s) && Apply(a, s) == At(w.(db := Charged(w.db, up)), t, UpStat(up, keys))
  {
    hide Enabled, Apply, MayReserve, Reserve;
    var a := At(w, t, UpReserve(up, keys));
    Moves(a, ClaimBytes(t, true, true), UpStat(up, keys));
    AtAgain(w, t, UpReserve(up, keys), UpStat(up, keys));
  }

  lemma OriginalIsLookedUp(w: World, t: Tid, up: Up, keys: Keys)
    ensures var a, s := At(w, t, UpStat(up, keys)), Stat(t, true);
            && Enabled(a, s)
            && Apply(a, s) == At(w, t, if keys.original in w.objects then AfterOriginal(up, keys) else UpSaveOriginal(up, keys))
  {
    hide Enabled, Apply, AfterOriginal;
    var next := if keys.original in w.objects then AfterOriginal(up, keys) else UpSaveOriginal(up, keys);
    Moves(At(w, t, UpStat(up, keys)), Stat(t, true), next);
    AtAgain(w, t, UpStat(up, keys), next);
  }

  lemma OriginalIsSaved(w: World, t: Tid, up: Up, keys: Keys)
    ensures var a, s := At(w, t, UpSaveOriginal(up, keys)), Save(t, true, true, up.sha);
            && Enabled(a, s)
            && Apply(a, s) == At(w.(objects := w.objects[keys.original := up.sha]), t, AfterOriginal(up, keys))
  {
    hide Enabled, Apply, AfterOriginal;
    Moves(At(w, t, UpSaveOriginal(up, keys)), Save(t, true, true, up.sha), AfterOriginal(up, keys));
    AtAgain(w, t, UpSaveOriginal(up, keys), AfterOriginal(up, keys));
  }

  lemma ClipIsProbed(w: World, t: Tid, up: Up, d: Decoded)
    requires up.video
    ensures var a, s := At(w, t, UpProbe(up, EarlyKeys(w, up, d))), Process(t, true, d.ext, d.thumb, d.preview);
            Enabled(a, s) && Apply(a, s) == At(w, t, UpSaveThumb(up, KeysFor(w, up, d)))
  {
    hide Enabled, Apply;
    var a, s := At(w, t, UpProbe(up, EarlyKeys(w, up, d))), Process(t, true, d.ext, d.thumb, d.preview);
    Moves(a, s, UpSaveThumb(up, KeysFor(w, up, d)));
    AtAgain(w, t, UpProbe(up, EarlyKeys(w, up, d)), UpSaveThumb(up, KeysFor(w, up, d)));
  }

  lemma ThumbnailIsSaved(w: World, t: Tid, up: Up, keys: Keys, small: nat)
    ensures var a, s := At(w, t, UpSaveThumb(up, keys)), Save(t, true, true, small);
            && Enabled(a, s)
            && Apply(a, s) == At(w.(objects := With(w.objects, keys.thumb, small)), t, UpSavePreview(up, keys))
  {
    hide Enabled, Apply;
    Moves(At(w, t, UpSaveThumb(up, keys)), Save(t, true, true, small), UpSavePreview(up, keys));
    AtAgain(w, t, UpSaveThumb(up, keys), UpSavePreview(up, keys));
  }

  lemma PreviewIsSaved(w: World, t: Tid, up: Up, keys: Keys, large: nat)
    ensures var a, s := At(w, t, UpSavePreview(up, keys)), Save(t, true, true, large);
            && Enabled(a, s)
            && Apply(a, s) == At(w.(objects := With(w.objects, keys.preview, large)), t, UpEnsure(up, keys))
  {
    hide Enabled, Apply;
    Moves(At(w, t, UpSavePreview(up, keys)), Save(t, true, true, large), UpEnsure(up, keys));
    AtAgain(w, t, UpSavePreview(up, keys), UpEnsure(up, keys));
  }

  function Recorded(db: Db, up: Up, keys: Keys): Db {
    EnsureBlob(db, up.sha, up.size, keys.original, keys.thumb, keys.preview)
  }

  lemma ContentIsRecorded(w: World, t: Tid, up: Up, keys: Keys)
    ensures var a, s := At(w, t, UpEnsure(up, keys)), Ensure(t, true, true);
            && Enabled(a, s)
            && Apply(a, s) == At(w.(db := Recorded(w.db, up, keys)), t, UpInsert(up, keys))
  {
    hide Enabled, Apply, EnsureBlob;
    Moves(At(w, t, UpEnsure(up, keys)), Ensure(t, true, true), UpInsert(up, keys));
    AtAgain(w, t, UpEnsure(up, keys), UpInsert(up, keys));
  }

  /** A row goes in, from either kind of upload. */
  lemma RowIsInserted(w: World, t: Tid, wk: Work, id: Id)
    requires (wk.UpInsert? || wk.ReuseInsert?) && id !in w.used && InsertOutcome(w.db, id, NewFile(wk), w.limit).Inserted?
    ensures var a, s := At(w, t, wk), Insert(t, id, true, true);
            && Enabled(a, s)
            && var m := Apply(a, s);
               && m.db == InsertFile(w.db, id, NewFile(wk)) && m.objects == w.objects
               && t in m.work && m.work[t] == Unlock(wk.up.sha, NOTHING)
  {
    hide InsertOutcome, InsertFile, Apply, Enabled;
    var a, s := At(w, t, wk), Insert(t, id, true, true);
    assert ThreadEnabled(a, s) && NextWork(a, s) == Some(Unlock(wk.up.sha, NOTHING)) && NextDb(a, s) == InsertFile(w.db, id, NewFile(wk));
    InsertApplies(a, s);
  }

  lemma InsertApplies(w: World, s: Step)
    requires s.Insert? && ThreadEnabled(w, s) && NextWork(w, s).Some?
    ensures Enabled(w, s)
    ensures var m := Apply(w, s);
            && m.db == NextDb(w, s) && m.objects == w.objects && s.t in m.work && m.work[s.t] == NextWork(w, s).value
  {
    hide NextWork, NextDb, ThreadEnabled;
  }

  /** The objects once an upload has stored its own. */
  function StoredWith(objects: map<Key, nat>, keys: Keys, sha: Sha, d: Decoded): map<Key, nat> {
    With(With(WithOriginal(objects, keys.original, sha), keys.thumb, d.small), keys.preview, d.large)
  }

  lemma UploadOpens(w: World, t: Tid, up: Up, d: Decoded) returns (steps: seq<Step>)
    requires w == At(w, t, UpCheck(up)) && (up.owner.Some? ==> MayReserve(w.db, up.owner.value, up.size, w.limit))
    ensures Run(w, steps) == Some(At(w.(db := Charged(w.db, up)), t, UpStat(up, EarlyKeys(w, up, d))))
  {
    hide Run, Apply, Enabled, At, EarlyKeys, Charged, MayReserve;
    RunNothing(w);
    UploadIsDecoded(w, t, up, d);
    UploadIsCharged(w, t, up, EarlyKeys(w, up, d));
    steps := Then(w, [], w, Check(t, None), At(w, t, UpProcess(up)));
    steps := Then(w, steps, At(w, t, UpProcess(up)), Process(t, true, d.ext, d.thumb, d.preview),
                  At(w, t, UpReserve(up, EarlyKeys(w, up, d))));
    steps := Then(w, steps, At(w, t, UpReserve(up, EarlyKeys(w, up, d))), ClaimBytes(t, true, true),
                  At(w.(db := Charged(w.db, up)), t, UpStat(up, EarlyKeys(w, up, d))));
  }

  /** From the look-up of the original to the renditions. */
  lemma OriginalIsStored(first: World, steps: seq<Step>, w: World, t: Tid, up: Up, keys: Keys) returns (all: seq<Step>)
    requires Run(first, steps) == Some(At(w, t, UpStat(up, keys)))
    ensures Run(first, all) == Some(At(w.(objects := WithOriginal(w.objects, keys.original, up.sha)), t, AfterOriginal(up, keys)))
  {
    hide Run, Apply, Enabled, At, AfterOriginal;
    OriginalIsLookedUp(w, t, up, keys);
    OriginalIsSaved(w, t, up, keys);
    if keys.original in w.objects {
      all := Then(first, steps, At(w, t, UpStat(up, keys)), Stat(t, true), At(w, t, AfterOriginal(up, keys)));
    } else {
      all := Then(first, steps, At(w, t, UpStat(up, keys)), Stat(t, true), At(w, t, UpSaveOriginal(up, keys)));
      all := Then(first, all, At(w, t, UpSaveOriginal(up, keys)), Save(t, true, true, up.sha),
                  At(w.(objects := w.objects[keys.original := up.sha]), t, AfterOriginal(up, keys)));
    }
  }

  lemma OriginalGoesOn(first: World, steps: seq<Step>, w: World, t: Tid, up: Up, d: Decoded) returns (all: seq<Step>)
    requires Run(first, steps) == Some(At(w, t, AfterOriginal(up, EarlyKeys(w, up, d))))
    ensures Run(first, all) == Some(At(w, t, UpSaveThumb(up, KeysFor(w, up, d))))
  {
    hide Run, Apply, Enabled, At, KeysFor;
    if up.video {
      ClipIsProbed(w, t, up, d);
      all := Then(first, steps, At(w, t, UpProbe(up, EarlyKeys(w, up, d))), Process(t, true, d.ext, d.thumb, d.preview),
                  At(w, t, UpSaveThumb(up, KeysFor(w, up, d))));
    } else {
      all := steps;
    }
  }

  lemma RenditionsAreStored(first: World, steps: seq<Step>, w: World, t: Tid, up: Up, keys: Keys, d: Decoded)
    returns (all: seq<Step>)
    requires Run(first, steps) == Some(At(w, t, UpSaveThumb(up, keys)))
    ensures var objects := With(With(w.objects, keys.thumb, d.small), keys.preview, d.large);
            Run(first, all) == Some(At(w.(db := Recorded(w.db, up, keys), objects := objects), t, UpInsert(up, keys)))
  {
    hide Run, Apply, Enabled, At, With, Recorded;
    var one := w.(objects := With(w.objects, keys.thumb, d.small));
    var two := w.(objects := With(one.objects, keys.preview, d.large));
    ThumbnailIsSaved(w, t, up, keys, d.small);
    PreviewIsSaved(one, t, up, keys, d.large);
    ContentIsRecorded(two, t, up, keys);
    all := Then(first, steps, At(w, t, UpSaveThumb(up, keys)), Save(t, true, true, d.small), At(one, t, UpSavePreview(up, keys)));
    all := Then(first, all, At(one, t, UpSavePreview(up, keys)), Save(t, true, true, d.large), At(two, t, UpEnsure(up, keys)));
    all := Then(first, all, At(two, t, UpEnsure(up, keys)), Ensure(t, true, true),
                At(two.(db := Recorded(w.db, up, keys)), t, UpInsert(up, keys)));
  }

  lemma SameOriginal(w: World, up: Up, d: Decoded)
    ensures EarlyKeys(w, up, d).original == KeysFor(w, up, d).original
  {
  }

  lemma UploadReachesInsert(w: World, t: Tid, up: Up, d: Decoded) returns (steps: seq<Step>)
    requires w == At(w, t, UpCheck(up)) && (up.owner.Some? ==> MayReserve(w.db, up.owner.value, up.size, w.limit))
    ensures var keys := KeysFor(w, up, d);
            Run(w, steps) == Some(At(w.(db := Recorded(Charged(w.db, up), up, keys),
                                        objects := StoredWith(w.objects, keys, up.sha, d)), t, UpInsert(up, keys)))
  {
    hide Run, Apply, Enabled, At, KeysFor, EarlyKeys, Charged, MayReserve, Recorded, AfterOriginal, With;
    var charged, keys := w.(db := Charged(w.db, up)), KeysFor(w, up, d);
    SameKeys(w, charged, up, d);
    SameOriginal(w, up, d);
    steps := UploadOpens(w, t, up, d);
    steps := OriginalIsStored(w, steps, charged, t, up, EarlyKeys(w, up, d));
    var saved := charged.(objects := WithOriginal(w.objects, keys.original, up.sha));
    SameKeys(w, saved, up, d);
    steps := OriginalGoesOn(w, steps, saved, t, up, d);
    steps := RenditionsAreStored(w, steps, saved, t, up, keys, d);
  }

  /** The keys depend on the settings alone. */
  lemma SameKeys(w: World, m: World, up: Up, d: Decoded)
    requires m.tag == w.tag
    ensures KeysFor(m, up, d) == KeysFor(w, up, d) && EarlyKeys(m, up, d) == EarlyKeys(w, up, d)
  {
  }

  lemma RecordedMayInsert(w: World, up: Up, keys: Keys, id: Id, f: File)
    requires MayStore(w, up, id) && f.owner == up.owner && f.size == up.size
    ensures InsertOutcome(Recorded(Charged(w.db, up), up, keys), id, f, w.limit).Inserted?
    ensures Recorded(Charged(w.db, up), up, keys).files == w.db.files
    ensures Recorded(Charged(w.db, up), up, keys).blobs == Recorded(w.db, up, keys).blobs
  {
    hide StoredBytes;
  }

  /** The tables behind an upload. */
  ghost predicate Holds(db: Db, up: Up, keys: Keys, id: Id, f: File, n: Db) {
    && n.files == db.files[id := f]
    && up.sha in n.blobs
    && (if up.sha in db.blobs && !db.blobs[up.sha].Orphaned()
        then n.blobs[up.sha] == db.blobs[up.sha].(refcount := db.blobs[up.sha].refcount + 1)
        else n.blobs[up.sha].original == keys.original && n.blobs[up.sha].thumb == keys.thumb
             && n.blobs[up.sha].preview == keys.preview && n.blobs[up.sha].copies == map[])
    && (forall sha :: sha != up.sha ==> (sha in n.blobs <==> sha in db.blobs))
    && (forall sha :: sha in db.blobs && sha != up.sha ==> n.blobs[sha] == db.blobs[sha])
  }

  lemma TablesHold(db: Db, up: Up, keys: Keys, id: Id, f: File)
    requires f.sha == up.sha
    ensures Holds(db, up, keys, id, f, InsertFile(Recorded(Charged(db, up), up, keys), id, f))
  {
  }

  /** An upload that holds its content, may be charged and fits, with every operation working: it ends
      with a row of its own, under its owner and with its size, counted; its content recorded under
      today's settings unless a file already has it; the original stored, the renditions too; and
      nothing that was stored or recorded of other content touched. */
  lemma UploadArrives(w: World, t: Tid, up: Up, d: Decoded, id: Id) returns (steps: seq<Step>)
    requires t in w.work && w.work[t] == UpCheck(up) && MayStore(w, up, id)
    ensures Run(w, steps).Some?
    ensures var n, keys := Run(w, steps).value, KeysFor(w, up, d);
            && t in n.work && n.work[t] == Unlock(up.sha, NOTHING)
            && Holds(w.db, up, keys, id, File(up.sha, d.ext, up.owner, up.size), n.db)
            && n.objects == StoredWith(w.objects, keys, up.sha, d)
  {
    hide Run, Apply, Enabled, KeysFor, MayStore, StoredWith, Recorded, Charged, InsertFile, InsertOutcome, Holds;
    assert w.work[t := UpCheck(up)] == w.work;
    var keys := KeysFor(w, up, d);
    assert keys.original == Original(up.sha, d.ext) by { OriginalKey(w, up, d); }
    assert up.owner.Some? ==> MayReserve(w.db, up.owner.value, up.size, w.limit) by { StoreMeansReserve(w, up, id); }
    steps := UploadReachesInsert(w, t, up, d);
    var db := Recorded(Charged(w.db, up), up, keys);
    var m := w.(db := db, objects := StoredWith(w.objects, keys, up.sha, d));
    var wk := UpInsert(up, keys);
    RecordedMayInsert(w, up, keys, id, NewFile(wk));
    assert id !in w.used by { StoreMeansReserve(w, up, id); }
    RowIsInserted(m, t, wk, id);
    TablesHold(w.db, up, keys, id, NewFile(wk));
    var at := At(m, t, wk);
    steps := Then(w, steps, at, Insert(t, id, true, true), Apply(at, Insert(t, id, true, true)));
  }

  lemma StoreMeansReserve(w: World, up: Up, id: Id)
    requires MayStore(w, up, id)
    ensures up.owner.Some? ==> MayReserve(w.db, up.owner.value, up.size, w.limit)
    ensures id !in w.used
  {
  }

  lemma OriginalKey(w: World, up: Up, d: Decoded)
    ensures KeysFor(w, up, d).original == Original(up.sha, d.ext)
  {
  }

  /** Its objects are all there, the original with the bytes of its hash, and no other has gone. */
  lemma UploadIsStored(objects: map<Key, nat>, keys: Keys, sha: Sha, d: Decoded)
    requires keys.original.Original? && (keys.thumb.Some? ==> keys.thumb.value.Thumb?)
    requires keys.preview.Some? ==> keys.preview.value.Preview?
    requires keys.original in objects ==> objects[keys.original] == sha
    ensures var n := StoredWith(objects, keys, sha, d);
            && keys.original in n && n[keys.original] == sha
            && (keys.thumb.Some? ==> keys.thumb.value in n && n[keys.thumb.value] == d.small)
            && (keys.preview.Some? ==> keys.preview.value in n && n[keys.preview.value] == d.large)
            && (forall k :: k in objects ==> k in n)
            && (forall k :: k in objects && keys.thumb != Some(k) && keys.preview != Some(k) ==> n[k] == objects[k])
  {
  }

  // ---- a reused upload -------------------------------------------------------------------------

  /** The record names today's objects: the original under the row's extension, and renditions of the
      running settings, or a thumbnail that maintenance has rebuilt. */
  predicate IsCurrent(b: Blob, tag: Tag, sha: Sha, ext: Ext) {
    && b.original == Original(sha, ext)
    && (|| (b.thumb.Some? && b.thumb.value.Rebuilt?)
        || (&& (b.thumb.Some? ==> b.thumb.value.Thumb? && b.thumb.value.tag == tag && b.thumb.value.sha == sha)
            && (b.preview.Some? ==> b.preview.value.Preview? && b.preview.value.tag == tag && b.preview.value.sha == sha)))
  }

  /** An upload shares what is stored exactly when the row found has a record of today's objects; it is
      then charged the size on file, and otherwise it is processed. */
  lemma ReuseExactly(w: World, s: Step)
    requires s.Check? && ThreadEnabled(w, s)
    ensures var up, next := w.work[s.t].up, NextWork(w, s).value;
            && (next.ReuseReserve? <==>
                  s.row.Some? && up.sha in w.db.blobs && IsCurrent(w.db.blobs[up.sha], w.tag, up.sha, w.db.files[s.row.value].ext))
            && (if next.ReuseReserve?
                then var f := w.db.files[s.row.value]; next == ReuseReserve(up.(size := f.size), f.ext)
                else next == UpProcess(up))
  {
    if s.row.Some? && w.work[s.t].up.sha in w.db.blobs {
      CurrentIsReusable(w.tag, w.db.files[s.row.value], w.db.blobs[w.work[s.t].up.sha]);
    }
  }

  lemma CurrentIsReusable(tag: Tag, file: File, b: Blob)
    ensures Reusable(tag, file, b) <==> IsCurrent(b, tag, file.sha, file.ext)
  {
  }

  lemma ReuseIsClaimed(w: World, t: Tid, up: Up, row: Id)
    requires row in w.db.files && w.db.files[row].sha == up.sha && up.sha in w.db.blobs
    requires IsCurrent(w.db.blobs[up.sha], w.tag, up.sha, w.db.files[row].ext)
    requires up.owner.Some? ==> MayReserve(w.db, up.owner.value, w.db.files[row].size, w.limit)
    ensures var f := w.db.files[row]; var shared := up.(size := f.size);
            var a, b := At(w, t, UpCheck(up)), At(w, t, ReuseReserve(shared, f.ext));
            && Enabled(a, Check(t, Some(row))) && Apply(a, Check(t, Some(row))) == b
            && Enabled(b, ClaimBytes(t, true, true))
            && Apply(b, ClaimBytes(t, true, true)) == At(w.(db := Charged(w.db, shared)), t, ReuseInsert(shared, f.ext, 4))
  {
    hide Enabled, Apply, MayReserve, Reserve, IsCurrent, Reusable;
    var f := w.db.files[row];
    var shared := up.(size := f.size);
    var a, b := At(w, t, UpCheck(up)), At(w, t, ReuseReserve(shared, f.ext));
    ReuseExactly(a, Check(t, Some(row)));
    Moves(a, Check(t, Some(row)), ReuseReserve(shared, f.ext));
    AtAgain(w, t, UpCheck(up), ReuseReserve(shared, f.ext));
    Moves(b, ClaimBytes(t, true, true), ReuseInsert(shared, f.ext, 4));
    AtAgain(w, t, ReuseReserve(shared, f.ext), ReuseInsert(shared, f.ext, 4));
  }

  lemma SharedMayInsert(w: World, up: Up, id: Id, f: File)
    requires MayStore(w, up, id) && f.owner == up.owner && f.size == up.size
    ensures InsertOutcome(Charged(w.db, up), id, f, w.limit).Inserted?
    ensures Charged(w.db, up).files == w.db.files && Charged(w.db, up).blobs == w.db.blobs
  {
    hide StoredBytes;
  }

  /** An upload of content that is on file under today's settings, with every operation working: it ends
      with a row of its own that shares the content, which is counted once more, and no object is
      written. */
  lemma ReuseArrives(w: World, t: Tid, up: Up, row: Id, id: Id) returns (steps: seq<Step>)
    requires t in w.work && w.work[t] == UpCheck(up) && row in w.db.files && w.db.files[row].sha == up.sha
    requires up.sha in w.db.blobs && IsCurrent(w.db.blobs[up.sha], w.tag, up.sha, w.db.files[row].ext)
    requires MayStore(w, up.(size := w.db.files[row].size), id)
    ensures Run(w, steps).Some?
    ensures var n, f := Run(w, steps).value, w.db.files[row];
            && t in n.work && n.work[t] == Unlock(up.sha, NOTHING)
            && n.db.files == w.db.files[id := File(up.sha, f.ext, up.owner, f.size)]
            && n.db.blobs == w.db.blobs[up.sha := w.db.blobs[up.sha].(refcount := w.db.blobs[up.sha].refcount + 1)]
            && n.objects == w.objects
  {
    hide Run, Apply, Enabled, MayStore, IsCurrent, Charged, InsertOutcome;
    assert w.work[t := UpCheck(up)] == w.work;
    var f := w.db.files[row];
    var shared := up.(size := f.size);
    StoreMeansReserve(w, shared, id);
    ReuseIsClaimed(w, t, up, row);
    RunNothing(w);
    steps := Then(w, [], w, Check(t, Some(row)), At(w, t, ReuseReserve(shared, f.ext)));
    var charged, wk := w.(db := Charged(w.db, shared)), ReuseInsert(shared, f.ext, 4);
    var at := At(charged, t, wk);
    steps := Then(w, steps, At(w, t, ReuseReserve(shared, f.ext)), ClaimBytes(t, true, true), at);
    SharedMayInsert(w, shared, id, NewFile(wk));
    RowIsInserted(charged, t, wk, id);
    steps := Then(w, steps, at, Insert(t, id, true, true), Apply(at, Insert(t, id, true, true)));
  }

  /** Four ids are tried, and only an id that is taken is a reason to try another. */
  lemma FourIdsAreTried(w: World, s: Step)
    requires s.ClaimBytes? && ThreadEnabled(w, s) && w.work[s.t].ReuseReserve?
    ensures NextWork(w, s).value.ReuseInsert? ==> NextWork(w, s).value.tries == 4
  {
  }

  lemma TakenIdIsTriedAgain(w: World, s: Step)
    requires s.Insert? && ThreadEnabled(w, s) && w.work[s.t].ReuseInsert?
    ensures var wk, next := w.work[s.t], NextWork(w, s).value;
            next.ReuseInsert? <==>
            s.ok && s.id in w.db.files && wk.tries > 1 && !(w.limit > 0 && StoredBytes(w.db.files) + wk.up.size > w.limit)
    ensures var wk, next := w.work[s.t], NextWork(w, s).value;
            next.ReuseInsert? ==> next == wk.(tries := wk.tries - 1)
  {
    hide StoredBytes;
  }

  // ---- a filtered copy ---------------------------------------------------------------------------

  /** The record with a copy on it. */
  function WithCopy(db: Db, sha: Sha, kind: CopyKind, key: Key): Db
    requires sha in db.blobs
  {
    db.(blobs := db.blobs[sha := db.blobs[sha].(copies := db.blobs[sha].copies[kind := key])])
  }

  lemma CopyIsMissing(w: World, t: Tid, sha: Sha, kind: CopyKind, rebuild: bool)
    requires sha in w.db.blobs && (kind !in w.db.blobs[sha].copies || (rebuild && !kind.Clean?))
    ensures var a, s := At(w, t, CopyRead(sha, kind)), ReadCopy(t, rebuild, false);
            && Enabled(a, s)
            && Apply(a, s) == At(w, t, CopySave(sha, kind, Filtered(sha, kind, w.db.blobs[sha].original.ext)))
  {
    hide Enabled, Apply;
    var next := CopySave(sha, kind, Filtered(sha, kind, w.db.blobs[sha].original.ext));
    Moves(At(w, t, CopyRead(sha, kind)), ReadCopy(t, rebuild, false), next);
    AtAgain(w, t, CopyRead(sha, kind), next);
  }

  lemma CopyIsSaved(w: World, t: Tid, sha: Sha, kind: CopyKind, key: Key, content: nat)
    ensures var a, s := At(w, t, CopySave(sha, kind, key)), Save(t, true, true, content);
            && Enabled(a, s)
            && Apply(a, s) == At(w.(objects := w.objects[key := content]), t, CopySet(sha, kind, key))
  {
    hide Enabled, Apply;
    Moves(At(w, t, CopySave(sha, kind, key)), Save(t, true, true, content), CopySet(sha, kind, key));
    AtAgain(w, t, CopySave(sha, kind, key), CopySet(sha, kind, key));
  }

  lemma CopyIsNamed(w: World, t: Tid, sha: Sha, kind: CopyKind, key: Key)
    requires sha in w.db.blobs && (kind !in w.db.blobs[sha].copies || !kind.Clean?)
    ensures var a, s := At(w, t, CopySet(sha, kind, key)), SetCopy(t, true);
            && Enabled(a, s)
            && Apply(a, s) == At(w.(db := WithCopy(w.db, sha, kind, key)), t, Unlock(sha, NOTHING))
  {
    hide Enabled, Apply;
    Moves(At(w, t, CopySet(sha, kind, key)), SetCopy(t, true), Unlock(sha, NOTHING));
    AtAgain(w, t, CopySet(sha, kind, key), Unlock(sha, NOTHING));
  }

  /** A copy that is missing, or is to be made anew and is not the clean one, is made with every operation
      working: it is stored, the record names it under its kind, and nothing else changes. */
  lemma CopyArrives(w: World, t: Tid, rebuild: bool, content: nat) returns (steps: seq<Step>)
    requires t in w.work && w.work[t].CopyRead? && w.work[t].sha in w.db.blobs
    requires w.work[t].kind !in w.db.blobs[w.work[t].sha].copies || (rebuild && !w.work[t].kind.Clean?)
    ensures Run(w, steps).Some?
    ensures var n, sha, kind := Run(w, steps).value, w.work[t].sha, w.work[t].kind;
            var key := Filtered(sha, kind, w.db.blobs[sha].original.ext);
            && t in n.work && n.work[t] == Unlock(sha, NOTHING)
            && n.db == WithCopy(w.db, sha, kind, key) && n.objects == w.objects[key := content]
  {
    hide Run, Apply, Enabled;
    var sha, kind := w.work[t].sha, w.work[t].kind;
    var key := Filtered(sha, kind, w.db.blobs[sha].original.ext);
    assert w.work[t := CopyRead(sha, kind)] == w.work;
    var saved := w.(objects := w.objects[key := content]);
    CopyIsMissing(w, t, sha, kind, rebuild);
    CopyIsSaved(w, t, sha, kind, key, content);
    CopyIsNamed(saved, t, sha, kind, key);
    RunNothing(w);
    steps := Then(w, [], w, ReadCopy(t, rebuild, false), At(w, t, CopySave(sha, kind, key)));
    steps := Then(w, steps, At(w, t, CopySave(sha, kind, key)), Save(t, true, true, content), At(saved, t, CopySet(sha, kind, key)));
    steps := Then(w, steps, At(saved, t, CopySet(sha, kind, key)), SetCopy(t, true),
                  At(saved.(db := WithCopy(w.db, sha, kind, key)), t, Unlock(sha, NOTHING)));
  }
}
