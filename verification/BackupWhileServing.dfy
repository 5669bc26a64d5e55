/** A backup while the server goes on: internal/maintenance/backup.go copies the inventory of its
    database snapshot object by object, and between two copies any steps of the lifecycle may be
    taken. The file locks are what makes this succeed. */
module BackupWhileServing {
  import opened Prelude
  import opened Inventory
  import opened Copying
  import Tables
  import Lifecycle
  import LifecycleSafety
  import LifecycleBackup
  import Restore

  type World = Lifecycle.World

  /** How keys are spelled, and how long the bytes of a hash are. */
  type Naming = Tables.Key -> Path
  type Length = Sha -> nat

  /** Different keys are spelled differently, validly and not like the two files of a backup. */
  ghost predicate Spells(name: Naming, valid: Path -> bool) {
    && (forall a, b :: name(a) == name(b) ==> a == b)
    && (forall k :: name(k) != "" && valid(name(k)) && name(k) != Restore.DATABASE && name(k) != Restore.SECRET)
  }

  function Names(ks: seq<Tables.Key>, name: Naming): seq<Path> {
    if ks == [] then [] else [name(ks[0])] + Names(ks[1..], name)
  }

  function RowOf(b: Tables.Blob, name: Naming): Row {
    Row(b.size, name(b.original), Names(b.Keys()[1..], name), b.refcount)
  }

  /** The tables, as maintenance reads them. */
  function SnapshotOf(db: Tables.Db, name: Naming): Snapshot {
    Snapshot(map id | id in db.files :: db.files[id].sha, map sha | sha in db.blobs :: RowOf(db.blobs[sha], name))
  }

  /** The object store, as maintenance reads it. */
  ghost function StoreOf(objects: map<Tables.Key, nat>, name: Naming, length: Length): Store
    requires forall a, b :: name(a) == name(b) ==> a == b
  {
    map k | k in objects :: name(k) := Content(objects[k], length(objects[k]))
  }

  // ---- recorded sizes are the sizes of the bytes ---------------------------------------------------------------------

  /** An upload knows how many bytes it has hashed. */
  predicate Measured(s: Lifecycle.Step, length: Length) { s.BeginUpload? ==> s.up.size == length(s.up.sha) }

  ghost predicate AllMeasured(steps: seq<Lifecycle.Step>, length: Length) { forall s :: s in steps ==> Measured(s, length) }

  ghost predicate SizedBlobs(db: Tables.Db, length: Length) { forall sha :: sha in db.blobs ==> db.blobs[sha].size == length(sha) }

  /** A reused upload goes by the size on file instead. */
  predicate SizedWork(wk: Lifecycle.Work, length: Length) {
    var up := Lifecycle.UpOf(wk);
    up.Some? && !wk.ReuseReserve? && !wk.ReuseInsert? && !wk.ReuseRefund? ==> up.value.size == length(up.value.sha)
  }

  ghost predicate Sized(w: World, length: Length) {
    && SizedBlobs(w.db, length)
    && SizedThreads(w.work, length)
    && (w.backup.HasAll? && w.backup.snapshot.Some? ==>
          SizedBlobs(w.backup.snapshot.value, length) && Tables.Counted(w.backup.snapshot.value))
  }

  lemma ThreadStepSized(w: World, s: Lifecycle.Step, length: Length)
    requires Lifecycle.IsThreadStep(s) && Lifecycle.ThreadEnabled(w, s) && SizedBlobs(w.db, length) && SizedWork(w.work[s.t], length)
    ensures SizedBlobs(Lifecycle.NextDb(w, s), length)
    ensures Lifecycle.NextWork(w, s).Some? ==> SizedWork(Lifecycle.NextWork(w, s).value, length)
  {
    NextDbSized(w, s, length);
    NextWorkSized(w, s, length);
  }

  lemma NextDbSized(w: World, s: Lifecycle.Step, length: Length)
    requires Lifecycle.IsThreadStep(s) && Lifecycle.ThreadEnabled(w, s) && SizedBlobs(w.db, length) && SizedWork(w.work[s.t], length)
    ensures SizedBlobs(Lifecycle.NextDb(w, s), length)
  {
  }

  lemma NextWorkSized(w: World, s: Lifecycle.Step, length: Length)
    requires Lifecycle.IsThreadStep(s) && Lifecycle.ThreadEnabled(w, s) && SizedWork(w.work[s.t], length)
    ensures Lifecycle.NextWork(w, s).Some? ==> SizedWork(Lifecycle.NextWork(w, s).value, length)
  {
  }

  lemma BeginSized(w: World, s: Lifecycle.Step, length: Length)
    requires Lifecycle.IsBegin(s) && Lifecycle.BeginEnabled(w, s) && Measured(s, length)
    ensures SizedWork(Lifecycle.BeginWork(w, s), length)
  {
  }

  lemma LockStepSized(w: World, s: Lifecycle.Step, length: Length)
    requires Lifecycle.IsLockStep(s) && Lifecycle.LockEnabled(w, s) && SizedWork(w.work[s.t], length)
    ensures Lifecycle.LockWork(w.work[s.t], s).Some? ==> SizedWork(Lifecycle.LockWork(w.work[s.t], s).value, length)
  {
  }

  lemma ProcessStepSized(w: World, s: Lifecycle.Step, length: Length)
    requires Lifecycle.IsProcessStep(s) && Lifecycle.ProcessEnabled(w, s) && SizedBlobs(w.db, length)
    ensures SizedBlobs(Lifecycle.ProcessStep(w, s).db, length)
    ensures Lifecycle.ProcessStep(w, s).work == if s.StopServer? then map[] else w.work
  {
  }

  lemma SnapshotTaken(w: World, s: Lifecycle.Step)
    requires Lifecycle.Enabled(w, s)
    ensures var b := Lifecycle.Apply(w, s).backup;
            b.HasAll? && b.snapshot.Some? ==> b == w.backup || (s.TakeSnapshot? && b.snapshot == Some(w.db))
  {
    hide Lifecycle.ThreadStep, Lifecycle.LockStep, Lifecycle.BeginWork, Lifecycle.ThreadEnabled, Lifecycle.LockEnabled;
    Lifecycle.ApplyIs(w, s);
    if Lifecycle.IsThreadStep(s) {
      Lifecycle.ThreadFrame(w, s);
    } else if Lifecycle.IsLockStep(s) {
      Lifecycle.LockFrame(w, s);
    }
  }

  ghost predicate SizedThreads(work: map<Tid, Lifecycle.Work>, length: Length) {
    forall t :: t in work ==> SizedWork(work[t], length)
  }

  lemma ThreadMoves(work: map<Tid, Lifecycle.Work>, t: Tid, next: Option<Lifecycle.Work>, length: Length)
    requires SizedThreads(work, length) && (next.Some? ==> SizedWork(next.value, length))
    ensures SizedThreads(if next.Some? then work[t := next.value] else work - {t}, length)
  {
    hide SizedWork;
  }

  lemma StepKeepsSizes(w: World, s: Lifecycle.Step, length: Length)
    requires SizedBlobs(w.db, length) && SizedThreads(w.work, length) && Lifecycle.Enabled(w, s) && Measured(s, length)
    ensures SizedBlobs(Lifecycle.Apply(w, s).db, length) && SizedThreads(Lifecycle.Apply(w, s).work, length)
  {
    hide Lifecycle.Apply, Lifecycle.Enabled, Lifecycle.ThreadStep, Lifecycle.LockStep, Lifecycle.ProcessStep, Lifecycle.BeginWork;
    hide Lifecycle.ThreadEnabled, Lifecycle.LockEnabled, Lifecycle.ProcessEnabled, Lifecycle.BeginEnabled;
    hide Lifecycle.NextWork, Lifecycle.NextDb, Lifecycle.NextObjects, Lifecycle.NextPins, Lifecycle.LockWork, SizedBlobs, SizedWork;
    Lifecycle.ApplyIs(w, s);
    if Lifecycle.IsThreadStep(s) {
      Lifecycle.ThreadFrame(w, s);
      ThreadStepSized(w, s, length);
      ThreadMoves(w.work, s.t, Lifecycle.NextWork(w, s), length);
    } else if Lifecycle.IsLockStep(s) {
      Lifecycle.LockFrame(w, s);
      LockStepSized(w, s, length);
      ThreadMoves(w.work, s.t, Lifecycle.LockWork(w.work[s.t], s), length);
    } else if Lifecycle.IsProcessStep(s) {
      ProcessStepSized(w, s, length);
    } else {
      BeginSized(w, s, length);
      ThreadMoves(w.work, s.t, Some(Lifecycle.BeginWork(w, s)), length);
    }
  }

  lemma StepKeepsSized(w: World, s: Lifecycle.Step, length: Length)
    requires Sized(w, length) && Lifecycle.Enabled(w, s) && Measured(s, length) && (s.TakeSnapshot? ==> Tables.Counted(w.db))
    ensures Sized(Lifecycle.Apply(w, s), length)
  {
    hide Lifecycle.Apply, Lifecycle.Enabled, Tables.Counted, SizedBlobs, SizedThreads;
    SnapshotTaken(w, s);
    StepKeepsSizes(w, s, length);
  }

  /** A world that some run reaches, with sizes measured, in which a backup is held that has taken this
      snapshot; no harmful faulty read has come before a snapshot, but any may have come since. */
  ghost predicate Holding(first: World, steps: seq<Lifecycle.Step>, snap: Tables.Db, length: Length) {
    && Lifecycle.Initial(first) && Lifecycle.Run(first, steps).Some?
    && LifecycleBackup.CarefulToSnapshots(first, steps) && AllMeasured(steps, length)
    && Lifecycle.Run(first, steps).value.backup == Lifecycle.HasAll(Some(snap))
  }

  lemma {:induction false} RunIsSized(first: World, steps: seq<Lifecycle.Step>, length: Length)
    requires Lifecycle.Initial(first) && Lifecycle.Run(first, steps).Some?
    requires LifecycleBackup.CarefulToSnapshots(first, steps) && AllMeasured(steps, length)
    ensures Sized(Lifecycle.Run(first, steps).value, length)
  {
    hide Lifecycle.Apply, Lifecycle.Enabled, Sized, LifecycleSafety.Careful;
    if steps == [] {
      FirstIsSized(first, length);
    } else {
      var before, s := steps[..|steps| - 1], steps[|steps| - 1];
      RunIsSized(first, before, length);
      if s.TakeSnapshot? {
        LifecycleSafety.EveryReachableWorldIsSafe(first, before);
      }
      assert s in steps;
      StepKeepsSized(Lifecycle.Run(first, before).value, s, length);
    }
  }

  lemma FirstIsSized(first: World, length: Length)
    requires Lifecycle.Initial(first)
    ensures Sized(first, length)
  {
  }

  // ---- the snapshot has an inventory, and the store is complete for it -------------------------------------------------

  lemma {:induction false} NamesAreValid(ks: seq<Tables.Key>, name: Naming, valid: Path -> bool)
    requires Spells(name, valid)
    ensures forall p :: p in NonEmpty(Names(ks, name)) ==> valid(p) && p != Restore.DATABASE && p != Restore.SECRET
  {
    if ks != [] {
      NamesAreValid(ks[1..], name, valid);
    }
  }

  lemma RowKeysAreValid(b: Tables.Blob, name: Naming, valid: Path -> bool)
    requires Spells(name, valid)
    ensures RowValid(RowOf(b, name), valid)
    ensures forall p :: p in RowOf(b, name).Keys() ==> p != Restore.DATABASE && p != Restore.SECRET
  {
    var rest := Names(b.Keys()[1..], name);
    NamesAreValid(b.Keys()[1..], name, valid);
    assert ([name(b.original)] + rest)[1..] == rest;
  }

  /** A database in which every row has its blob, and of referenced content every original is its own. */
  ghost predicate Orderly(db: Tables.Db, length: Length) {
    && Tables.Counted(db) && SizedBlobs(db, length)
    && forall sha :: sha in db.blobs && !db.blobs[sha].Orphaned() ==> db.blobs[sha].original.Original? && db.blobs[sha].original.sha == sha
  }

  lemma OrderlyIsConsistent(db: Tables.Db, name: Naming, length: Length, valid: Path -> bool)
    requires Spells(name, valid) && Orderly(db, length)
    ensures Consistent(SnapshotOf(db, name), valid) && Restore.Counted(SnapshotOf(db, name))
  {
    hide Row.Keys, RowValid, Names;
    var s := SnapshotOf(db, name);
    forall sha | sha in Referenced(s)
      ensures RowValid(s.rows[sha], valid)
    {
      RowKeysAreValid(db.blobs[sha], name, valid);
    }
    forall id | id in s.files
      ensures s.files[id] in s.rows && s.files[id] in Referenced(s)
    {
      assert id in Tables.References(db.files, db.files[id].sha);
    }
  }

  /** At every moment the backup is held, the store has every original of the snapshot, as recorded. */
  lemma StoreIsComplete(first: World, steps: seq<Lifecycle.Step>, snap: Tables.Db, name: Naming, length: Length,
                        valid: Path -> bool, entries: seq<Object>)
    requires Holding(first, steps, snap, length) && Spells(name, valid) && IsInventory(SnapshotOf(snap, name), entries)
    ensures Orderly(snap, length)
    ensures Complete(StoreOf(Lifecycle.Run(first, steps).value.objects, name, length), entries)
  {
    hide Lifecycle.Run, Lifecycle.Initial, LifecycleBackup.CarefulToSnapshots, LifecycleBackup.FileLocks;
    hide AllMeasured, Tables.Counted, Rightly, Named;
    var m := Lifecycle.Run(first, steps).value;
    LifecycleBackup.BackupNeverMissesAnObject(first, steps);
    RunIsSized(first, steps, length);
    OrderlyIsConsistent(snap, name, length, valid);
    Restore.InventoryEntries(SnapshotOf(snap, name), entries, valid);
    var store := StoreOf(m.objects, name, length);
    forall e | e in entries && !IsDerived(e)
      ensures e.key in store && Matches(e, store[e.key])
    {
      OriginalIsStored(m, snap, name, length, e);
    }
  }

  lemma OriginalIsStored(m: World, snap: Tables.Db, name: Naming, length: Length, e: Object)
    requires LifecycleBackup.Pinned(m) && m.backup == Lifecycle.HasAll(Some(snap)) && SizedBlobs(snap, length)
    requires forall a, b :: name(a) == name(b) ==> a == b
    requires Rightly(SnapshotOf(snap, name), Referenced(SnapshotOf(snap, name)), e.key, e) && !IsDerived(e)
    ensures var store := StoreOf(m.objects, name, length); e.key in store && Matches(e, store[e.key])
  {
    var sha := e.sha.value;
    assert sha in snap.blobs && !snap.blobs[sha].Orphaned();
    assert LifecycleSafety.Stored(snap.blobs[sha], m.objects);
  }

  // ---- copying from a store that moves on ------------------------------------------------------------------------------

  /** copyInventory into an empty directory, when the source is another store at every entry. */
  function CopyOver(sources: seq<Store>, entries: seq<Object>, luck: nat -> Luck, n: nat): Run
    requires n <= |entries| == |sources|
    decreases n
  {
    if n == 0 then Run(Some([]), map[], 0)
    else Next(sources[n - 1], CopyOver(sources, entries, luck, n - 1), entries[n - 1], luck(n - 1))
  }

  /** What the copy sees of all those stores. */
  function Seen(sources: seq<Store>, entries: seq<Object>, n: nat): Store
    requires n <= |entries| == |sources|
    decreases n
  {
    if n == 0 then map[]
    else
      var before, key := Seen(sources, entries, n - 1), entries[n - 1].key;
      if key in sources[n - 1] then before[key := sources[n - 1][key]] else before
  }

  lemma {:induction false} SeenAt(sources: seq<Store>, entries: seq<Object>, n: nat)
    requires n <= |entries| == |sources| && Restore.DistinctKeys(entries)
    ensures var s := Seen(sources, entries, n);
            && (forall i :: 0 <= i < n ==> SameAt(s, sources[i], entries[i].key))
            && (forall k :: k in s ==> exists i :: 0 <= i < n && entries[i].key == k)
    decreases n
  {
    if n > 0 {
      SeenAt(sources, entries, n - 1);
      assert forall i :: 0 <= i < n - 1 ==> entries[i].key != entries[n - 1].key;
    }
  }

  predicate SameAt(a: Store, b: Store, key: Path) { (key in a <==> key in b) && (key in a ==> a[key] == b[key]) }

  lemma NextLooksOnce(a: Store, b: Store, run: Run, e: Object, luck: Luck)
    requires SameAt(a, b, e.key)
    ensures Next(a, run, e, luck) == Next(b, run, e, luck)
  {
  }

  lemma {:induction false} CopyOverIsCopy(sources: seq<Store>, entries: seq<Object>, luck: nat -> Luck, n: nat)
    requires n <= |entries| == |sources| && Restore.DistinctKeys(entries)
    ensures CopyOver(sources, entries, luck, n) == Progress(Seen(sources, entries, |entries|), map[], entries, luck, n)
    decreases n
  {
    hide Next, Seen, Restore.DistinctKeys, SameAt;
    if n > 0 {
      CopyOverIsCopy(sources, entries, luck, n - 1);
      SeenAt(sources, entries, |entries|);
      NextLooksOnce(Seen(sources, entries, |entries|), sources[n - 1], CopyOver(sources, entries, luck, n - 1),
                    entries[n - 1], luck(n - 1));
    }
  }

  lemma SeenIsComplete(sources: seq<Store>, entries: seq<Object>)
    requires |entries| == |sources| && Restore.DistinctKeys(entries)
    requires forall i :: 0 <= i < |sources| ==> Complete(sources[i], entries)
    ensures Complete(Seen(sources, entries, |entries|), entries)
  {
    hide Seen, Restore.DistinctKeys;
    SeenAt(sources, entries, |entries|);
    var s := Seen(sources, entries, |entries|);
    forall e | e in entries && !IsDerived(e)
      ensures e.key in s && Matches(e, s[e.key])
    {
      var i :| 0 <= i < |entries| && entries[i] == e;
      assert SameAt(s, sources[i], e.key) && Complete(sources[i], entries);
    }
  }

  /** No storage operation of the copy goes wrong. */
  predicate Lucky(sources: seq<Store>, entries: seq<Object>, luck: nat -> Luck)
    requires |entries| == |sources|
  {
    forall i: nat :: i < |entries| ==>
      !luck(i).readFails && (entries[i].key in sources[i] ==> !Unlucky(luck(i), sources[i][entries[i].key]))
  }

  /** Every entry that is there when its turn comes is taken, as it is then. */
  ghost predicate AllTaken(sources: seq<Store>, entries: seq<Object>, dest: Store)
    requires |entries| == |sources|
  {
    forall i: nat :: i < |entries| && entries[i].key in sources[i] ==>
      entries[i].key in dest && dest[entries[i].key] == sources[i][entries[i].key]
  }

  lemma LuckyCopyOver(db: Snapshot, sources: seq<Store>, entries: seq<Object>, luck: nat -> Luck, valid: Path -> bool)
    requires |entries| == |sources| && Lucky(sources, entries, luck) && Consistent(db, valid) && IsInventory(db, entries)
    requires forall i :: 0 <= i < |sources| ==> Complete(sources[i], entries)
    ensures var run := CopyOver(sources, entries, luck, |entries|);
            && run.copied.Some?
            && (forall o :: o in run.copied.value ==> Restore.Sealed(o, valid)) && Restore.HoldsExactly(run.copied.value, run.dest)
            && Restore.DistinctKeys(run.copied.value) && Restore.Accepts(db, run.copied.value, valid)
            && AllTaken(sources, entries, run.dest)
  {
    hide Progress, Seen, CopyOver, Consistent, IsInventory, Restore.DistinctKeys, Restore.Accepts, Complete, Named, Rightly, Unlucky;
    Restore.InventoryEntries(db, entries, valid);
    CopyOverIsCopy(sources, entries, luck, |entries|);
    SeenIsComplete(sources, entries);
    SeenAt(sources, entries, |entries|);
    var seen := Seen(sources, entries, |entries|);
    forall i: nat | i < |entries| && entries[i].key in seen
      ensures !Unlucky(luck(i), seen[entries[i].key])
    {
      assert SameAt(seen, sources[i], entries[i].key);
    }
    LuckyRunSucceeds(seen, map[], entries, luck, |entries|);
    assert entries[..|entries|] == entries;
    Restore.BackupIsAccepted(db, seen, entries, luck, valid);
    SuccessMeansEqual(seen, map[], entries, luck, |entries|);
    var dest := CopyOver(sources, entries, luck, |entries|).dest;
    forall i: nat | i < |entries| && entries[i].key in sources[i]
      ensures entries[i].key in dest && dest[entries[i].key] == sources[i][entries[i].key]
    {
      assert SameAt(seen, sources[i], entries[i].key) && entries[i] in entries;
    }
  }

  // ---- the whole promise -----------------------------------------------------------------------------------------------

  /** The stores the copy meets: one at each entry, each of a world in which this backup is held. */
  ghost predicate Meets(first: World, runs: nat -> seq<Lifecycle.Step>, snap: Tables.Db, name: Naming, length: Length,
                        sources: seq<Store>)
    requires forall a, b :: name(a) == name(b) ==> a == b
  {
    && Holding(first, runs(|sources|), snap, length)
    && forall i: nat :: i < |sources| ==>
         Holding(first, runs(i), snap, length)
         && sources[i] == StoreOf(Lifecycle.Run(first, runs(i)).value.objects, name, length)
  }

  lemma SourcesAreComplete(first: World, runs: nat -> seq<Lifecycle.Step>, snap: Tables.Db, name: Naming, length: Length,
                           valid: Path -> bool, entries: seq<Object>, sources: seq<Store>)
    requires Spells(name, valid) && Meets(first, runs, snap, name, length, sources)
    requires IsInventory(SnapshotOf(snap, name), entries)
    ensures Orderly(snap, length) && forall i :: 0 <= i < |sources| ==> Complete(sources[i], entries)
  {
    hide Holding, Complete, IsInventory, SnapshotOf, StoreOf, Orderly;
    StoreIsComplete(first, runs(|sources|), snap, name, length, valid, entries);
    forall i: nat | i < |sources|
      ensures Complete(sources[i], entries)
    {
      StoreIsComplete(first, runs(i), snap, name, length, valid, entries);
    }
  }

  /** The renditions of every referenced content are there at every moment as well. */
  lemma RenditionsAreStored(first: World, steps: seq<Lifecycle.Step>, snap: Tables.Db, name: Naming, length: Length, sha: Sha,
                            k: Tables.Key)
    requires Holding(first, steps, snap, length) && forall a, b :: name(a) == name(b) ==> a == b
    requires sha in snap.blobs && !snap.blobs[sha].Orphaned() && k in snap.blobs[sha].Main()
    ensures name(k) in StoreOf(Lifecycle.Run(first, steps).value.objects, name, length)
  {
    hide Lifecycle.Run, Lifecycle.Initial, LifecycleBackup.CarefulToSnapshots, LifecycleBackup.FileLocks, AllMeasured;
    LifecycleBackup.BackupNeverMissesAnObject(first, steps);
    assert LifecycleSafety.Stored(snap.blobs[sha], Lifecycle.Run(first, steps).value.objects);
  }

  lemma {:induction false} NamesHave(ks: seq<Tables.Key>, name: Naming, k: Tables.Key)
    requires k in ks
    ensures name(k) in Names(ks, name)
  {
    if ks[0] != k {
      NamesHave(ks[1..], name, k);
    }
  }

  /** Every key of a record is a key of its row. */
  lemma KeyIsNamed(snap: Tables.Db, name: Naming, valid: Path -> bool, sha: Sha, k: Tables.Key)
    requires Spells(name, valid) && sha in snap.blobs && !snap.blobs[sha].Orphaned()
    requires k in snap.blobs[sha].Main() || exists c :: c in snap.blobs[sha].copies && snap.blobs[sha].copies[c] == k
    ensures Named(SnapshotOf(snap, name), Referenced(SnapshotOf(snap, name)), name(k))
  {
    hide NonEmpty;
    var b := snap.blobs[sha];
    var others := b.Keys()[1..];
    assert k in b.Keys() && b.Keys() == [b.original] + others;
    if k != b.original {
      NamesHave(others, name, k);
    }
    NonEmptyHas([name(b.original)] + Names(others, name), name(k));
    var db := SnapshotOf(snap, name);
    assert sha in Referenced(db) && name(k) in db.rows[sha].Keys();
  }

  lemma RenditionIsKept(first: World, runs: nat -> seq<Lifecycle.Step>, snap: Tables.Db, name: Naming, length: Length,
                        valid: Path -> bool, entries: seq<Object>, sources: seq<Store>, dest: Store, sha: Sha, k: Tables.Key)
    requires Spells(name, valid) && Meets(first, runs, snap, name, length, sources) && |entries| == |sources|
    requires Consistent(SnapshotOf(snap, name), valid) && IsInventory(SnapshotOf(snap, name), entries)
    requires AllTaken(sources, entries, dest)
    requires sha in snap.blobs && !snap.blobs[sha].Orphaned() && k in snap.blobs[sha].Main()
    ensures name(k) in dest
  {
    hide Holding, StoreOf, SnapshotOf, Consistent, IsInventory, Named, Rightly, Restore.DistinctKeys;
    var db := SnapshotOf(snap, name);
    KeyIsNamed(snap, name, valid, sha, k);
    Restore.InventoryEntries(db, entries, valid);
    var e :| e in entries && e.key == name(k);
    var i: nat :| i < |entries| && entries[i] == e;
    RenditionsAreStored(first, runs(i), snap, name, length, sha, k);
  }

  /** An online backup succeeds and can be restored, whatever the server does meanwhile. Between any two
      of its copies the lifecycle may take any steps, with storage failures, stops, starts and reads
      that fail, the harmful one among them. While the locks are held and the backup's own storage
      works, and given that the snapshot was taken before any harmful faulty read, every entry of its
      inventory that is there when its turn comes is copied as it is then, a restore accepts the result,
      and it holds for every file of the snapshot its original, with the bytes and the length on record,
      its thumbnail and its preview. */
  lemma BackupSucceeds(first: World, runs: nat -> seq<Lifecycle.Step>, snap: Tables.Db, name: Naming, length: Length,
                       valid: Path -> bool, entries: seq<Object>, sources: seq<Store>, luck: nat -> Luck,
                       database: Content, secret: Content, open: Restore.Open)
    requires Spells(name, valid) && valid(Restore.DATABASE) && valid(Restore.SECRET)
    requires Meets(first, runs, snap, name, length, sources) && |entries| == |sources|
    requires IsInventory(SnapshotOf(snap, name), entries) && Lucky(sources, entries, luck)
    requires open(database.sha, secret.sha) == Some(SnapshotOf(snap, name))
    ensures Consistent(SnapshotOf(snap, name), valid)
    ensures var run := CopyOver(sources, entries, luck, |entries|);
            && run.copied.Some?
            && Restore.Restorable(Restore.Directory(Some(Restore.ManifestOf(database, secret, run.copied.value)),
                                                    map[Restore.DATABASE := database, Restore.SECRET := secret], run.dest), open, valid)
            && AllTaken(sources, entries, run.dest)
            && forall id :: id in snap.files ==> KeptFile(snap, name, length, snap.files[id].sha, run.dest)
  {
    hide CopyOver, Seen, IsInventory, SnapshotOf, Orderly, Lucky, Meets, Consistent, Complete, RowOf;
    hide Restore.Restorable, Restore.DistinctKeys, Restore.Accepts, Restore.NoClash, Restore.Counted, Restore.Sealed, Restore.HoldsExactly;
    SourcesAreComplete(first, runs, snap, name, length, valid, entries, sources);
    OrderlyIsConsistent(snap, name, length, valid);
    var db := SnapshotOf(snap, name);
    LuckyCopyOver(db, sources, entries, luck, valid);
    var run := CopyOver(sources, entries, luck, |entries|);
    var out := Restore.Directory(Some(Restore.ManifestOf(database, secret, run.copied.value)),
                                 map[Restore.DATABASE := database, Restore.SECRET := secret], run.dest);
    NoObjectClashes(snap, name, valid, run.copied.value);
    assert Restore.Published(db, database, secret, out, true, valid);
    Restore.BackupsAreRestorable(database, secret, open, valid, out);
    forall id | id in snap.files
      ensures KeptFile(snap, name, length, snap.files[id].sha, run.dest)
    {
      var sha := snap.files[id].sha;
      FileIsKept(snap, name, length, id, run.copied.value, run.dest, valid);
      forall k | k in snap.blobs[sha].Main()
        ensures name(k) in run.dest
      {
        RenditionIsKept(first, runs, snap, name, length, valid, entries, sources, run.dest, sha, k);
      }
    }
  }

  /** The original of a content is there, with its bytes and its length, and so are its renditions. */
  ghost predicate KeptFile(snap: Tables.Db, name: Naming, length: Length, sha: Sha, dest: Store) {
    && sha in snap.blobs && name(snap.blobs[sha].original) in dest
    && dest[name(snap.blobs[sha].original)] == Content(sha, length(sha))
    && forall k :: k in snap.blobs[sha].Main() ==> name(k) in dest
  }

  lemma NoObjectClashes(snap: Tables.Db, name: Naming, valid: Path -> bool, objects: seq<Object>)
    requires Spells(name, valid) && Restore.Accepts(SnapshotOf(snap, name), objects, valid)
    ensures Restore.NoClash(objects)
  {
    hide Row.Keys, RowOf, Consistent;
    var db := SnapshotOf(snap, name);
    forall o | o in objects
      ensures o.key != Restore.DATABASE && o.key != Restore.SECRET
    {
      assert Named(db, Referenced(db), o.key);
      var s :| s in Referenced(db) && o.key in db.rows[s].Keys();
      RowKeysAreValid(snap.blobs[s], name, valid);
    }
  }

  lemma FileIsKept(snap: Tables.Db, name: Naming, length: Length, id: Tables.Id, objects: seq<Object>, dest: Store, valid: Path -> bool)
    requires Orderly(snap, length) && id in snap.files && Restore.Counted(SnapshotOf(snap, name))
    requires Restore.Accepts(SnapshotOf(snap, name), objects, valid) && Restore.HoldsExactly(objects, dest)
    ensures var sha := snap.files[id].sha;
            && sha in snap.blobs && !snap.blobs[sha].Orphaned() && name(snap.blobs[sha].original) in dest
            && dest[name(snap.blobs[sha].original)] == Content(sha, length(sha))
  {
    hide Consistent, Named;
    var db, sha := SnapshotOf(snap, name), snap.files[id].sha;
    assert db.files[id] == sha && sha in db.rows && sha in Referenced(db);
    assert Restore.OriginalOf(db, sha) in objects;
  }
}
