/** Backup and restore of internal/maintenance: what a manifest must say, what a backup publishes and
    what a restore accepts. A database file stands for the rows it holds. */
module Restore {
  import opened Prelude
  import opened Inventory
  import opened Copying

  const DATABASE: Path := "imvault.db"
  const SECRET: Path := "secret.key"

  /** `objects` is None when the manifest has none at all. */
  datatype Manifest = Manifest(version: int, database: Object, secret: Object, objects: Option<seq<Object>>)

  /** A published directory: its manifest, unless it cannot be read back, the database and secret
      beside it, and its objects. */
  datatype Directory = Directory(manifest: Option<Manifest>, top: Store, objects: Store)

  /** What a database file holds, when it opens, its checks pass and the secret decrypts its secrets. */
  type Open = (Sha, Sha) -> Option<Snapshot>

  // ---- the manifest -----------------------------------------------------------------------------------------------

  predicate Sealed(o: Object, valid: Path -> bool) { valid(o.key) && o.sha.Some? && o.size >= 0 }

  ghost predicate DistinctKeys(os: seq<Object>) { forall i, j :: 0 <= i < j < |os| ==> os[i].key != os[j].key }

  ghost predicate ValidManifest(m: Manifest, valid: Path -> bool) {
    && m.version == 1 && m.database.key == DATABASE && m.secret.key == SECRET && m.objects.Some?
    && Sealed(m.database, valid) && Sealed(m.secret, valid) && (forall o :: o in m.objects.value ==> Sealed(o, valid))
    && DistinctKeys([m.database, m.secret] + m.objects.value)
  }

  method ValidateManifest(m: Manifest, valid: Path -> bool) returns (ok: bool)
    ensures ok <==> ValidManifest(m, valid)
  {
    if m.version != 1 || m.database.key != DATABASE || m.secret.key != SECRET || m.objects.None? {
      return false;
    }
    var all := [m.database, m.secret] + m.objects.value;
    assert all[0] == m.database && all[1] == m.secret && all[2..] == m.objects.value;
    var seen: set<Path> := {};
    for i := 0 to |all|
      invariant forall j :: 0 <= j < i ==> Sealed(all[j], valid)
      invariant seen == set j | 0 <= j < i :: all[j].key
      invariant forall j, k :: 0 <= j < k < i ==> all[j].key != all[k].key
    {
      if !Sealed(all[i], valid) {
        assert all[i] in all;
        return false;
      }
      if all[i].key in seen {
        var j :| 0 <= j < i && all[j].key == all[i].key;
        return false;
      }
      seen := seen + {all[i].key};
    }
    return true;
  }

  // ---- the manifest against the database ----------------------------------------------------------------------------

  function OriginalOf(db: Snapshot, s: Sha): Object
    requires s in db.rows
  {
    Object(db.rows[s].original, db.rows[s].size, Some(s))
  }

  /** What validateInventory demands: a consistent database, every referenced original as recorded, and
      nothing the database does not name. */
  ghost predicate Accepts(db: Snapshot, objects: seq<Object>, valid: Path -> bool) {
    && Consistent(db, valid)
    && (forall o :: o in objects ==> Named(db, Referenced(db), o.key))
    && (forall s :: s in Referenced(db) ==> OriginalOf(db, s) in objects)
  }

  /** What an inventory holds, entry by entry. */
  lemma InventoryEntries(db: Snapshot, want: seq<Object>, valid: Path -> bool)
    requires Consistent(db, valid) && IsInventory(db, want)
    ensures DistinctKeys(want)
    ensures forall e :: e in want ==> Named(db, Referenced(db), e.key) && Rightly(db, Referenced(db), e.key, e)
    ensures forall k :: Named(db, Referenced(db), k) ==> exists e :: e in want && e.key == k
    ensures forall s :: s in Referenced(db) ==> OriginalOf(db, s) in want
  {
    hide Named, Rightly;
    var entries :| Covers(db, Referenced(db), entries) && Lists(entries, want);
    KeysAreTheirs(db, Referenced(db), entries);
    forall k | Named(db, Referenced(db), k)
      ensures exists e :: e in want && e.key == k
    {
      assert entries[k] in want;
    }
    forall s | s in Referenced(db)
      ensures OriginalOf(db, s) in want
    {
      OriginalEntry(db, s, entries, valid);
    }
  }

  lemma OriginalEntry(db: Snapshot, s: Sha, entries: map<Path, Object>, valid: Path -> bool)
    requires Consistent(db, valid) && Covers(db, Referenced(db), entries) && s in Referenced(db)
    ensures var k := db.rows[s].original;
            k in entries && entries[k] == OriginalOf(db, s)
  {
    hide NonEmpty;
    OriginalsAreKeys(db, Referenced(db), valid);
    var k := db.rows[s].original;
    assert Named(db, Referenced(db), k);
    if entries[k].sha.Some? {
      var t := entries[k].sha.value;
      assert t in Referenced(db) && s in Referenced(db);
    }
  }

  predicate IsOriginal(e: Object) { e.sha.Some? }

  /** The map of what a manifest names; None when it names a key the database does not. */
  method NamedObjects(objects: seq<Object>, expected: set<Path>) returns (present: Option<map<Path, Object>>)
    requires DistinctKeys(objects)
    ensures present.Some? <==> forall o :: o in objects ==> o.key in expected
    ensures present.Some? ==> Indexes(objects, present.value)
  {
    var found: map<Path, Object> := map[];
    for i := 0 to |objects|
      invariant forall j :: 0 <= j < i ==> objects[j].key in expected
      invariant forall k :: k in found ==> exists j :: 0 <= j < i && objects[j] == found[k] && objects[j].key == k
      invariant forall j :: 0 <= j < i ==> objects[j].key in found && found[objects[j].key] == objects[j]
    {
      if objects[i].key !in expected {
        assert objects[i] in objects;
        return None;
      }
      found := found[objects[i].key := objects[i]];
    }
    return Some(found);
  }

  ghost predicate Indexes(objects: seq<Object>, present: map<Path, Object>) {
    && (forall o :: o in objects ==> o.key in present && present[o.key] == o)
    && (forall k :: k in present ==> present[k] in objects && present[k].key == k)
  }

  /** The second half of validateInventory: every original is there as recorded; a derived object may
      be missing. */
  method HasOriginals(want: seq<Object>, objects: seq<Object>, present: map<Path, Object>) returns (ok: bool)
    requires Indexes(objects, present)
    ensures ok <==> forall e :: e in want && IsOriginal(e) ==> e in objects
  {
    for i := 0 to |want|
      invariant forall j :: 0 <= j < i && IsOriginal(want[j]) ==> want[j] in objects
    {
      var e := want[i];
      assert e in want;
      if e.key !in present {
        if IsDerived(e) {
          continue;
        }
        return false;
      }
      var got := present[e.key];
      if !IsDerived(e) && (got.sha != e.sha || got.size != e.size) {
        return false;
      }
      assert IsOriginal(e) ==> got == e;
    }
    return true;
  }

  method ValidateInventory(db: Snapshot, objects: seq<Object>, valid: Path -> bool) returns (ok: bool)
    requires DistinctKeys(objects)
    ensures ok <==> Accepts(db, objects, valid)
  {
    hide Consistent, Named, Rightly, IsInventory, DistinctKeys;
    var taken := TakeInventory(db, valid);
    if taken.None? {
      return false;
    }
    var want := taken.value;
    InventoryEntries(db, want, valid);
    var expected := set e | e in want :: e.key;
    var present := NamedObjects(objects, expected);
    assert forall o :: o in objects ==> (o.key in expected <==> Named(db, Referenced(db), o.key));
    if present.None? {
      return false;
    }
    ok := HasOriginals(want, objects, present.value);
    OriginalsAreWanted(db, want, objects);
  }

  lemma OriginalsAreWanted(db: Snapshot, want: seq<Object>, objects: seq<Object>)
    requires forall e :: e in want ==> Rightly(db, Referenced(db), e.key, e)
    requires forall s :: s in Referenced(db) ==> OriginalOf(db, s) in want
    ensures (forall e :: e in want && IsOriginal(e) ==> e in objects)
       <==> (forall s :: s in Referenced(db) ==> OriginalOf(db, s) in objects)
  {
    if forall s :: s in Referenced(db) ==> OriginalOf(db, s) in objects {
      forall e | e in want && IsOriginal(e)
        ensures e in objects
      {
        assert e == OriginalOf(db, e.sha.value);
      }
    }
  }

  // ---- restoring ---------------------------------------------------------------------------------------------------

  datatype Restored = Restored(top: Store, objects: Store)

  /** A store that holds exactly these objects. */
  ghost predicate HoldsExactly(objects: seq<Object>, store: Store) {
    && (forall o :: o in objects ==> o.key in store && AsObject(o.key, store[o.key]) == o)
    && (forall k :: k in store ==> exists o :: o in objects && o.key == k)
  }

  /** What a backup has to be for Restore to accept it. */
  ghost predicate Restorable(input: Directory, open: Open, valid: Path -> bool) {
    && input.manifest.Some? && ValidManifest(input.manifest.value, valid)
    && var m := input.manifest.value;
    && Complete(input.top, [m.database, m.secret]) && Complete(input.objects, m.objects.value)
    && var db := open(m.database.sha.value, m.secret.sha.value);
    && db.Some? && Accepts(db.value, m.objects.value, valid)
  }

  /** What may be said of a directory that Restore published. */
  ghost predicate Faithful(input: Directory, open: Open, valid: Path -> bool, out: Restored) {
    && Restorable(input, open, valid)
    && var m := input.manifest.value;
    && HoldsExactly([m.database, m.secret], out.top) && HoldsExactly(m.objects.value, out.objects)
  }

  predicate AlwaysLucky(source: Store, entries: seq<Object>, luck: nat -> Luck) {
    forall i: nat :: i < |entries| ==> !luck(i).readFails && (entries[i].key in source ==> !Unlucky(luck(i), source[entries[i].key]))
  }

  /** No storage operation goes wrong while this directory is restored. */
  predicate WorkingStorage(input: Directory, topLuck: nat -> Luck, luck: nat -> Luck) {
    input.manifest.Some? ==>
      var m := input.manifest.value;
      && AlwaysLucky(input.top, [m.database, m.secret], topLuck)
      && (m.objects.Some? ==> AlwaysLucky(input.objects, m.objects.value, luck))
  }

  /** Restore into a new directory. What it publishes is faithful, and when the storage works and the
      new directory can be put in place it publishes exactly the backups that are restorable. */
  method RestoreInstance(input: Directory, open: Open, valid: Path -> bool, topLuck: nat -> Luck, luck: nat -> Luck,
                         placed: bool) returns (r: Option<Restored>)
    ensures r.Some? ==> Faithful(input, open, valid, r.value)
    ensures placed && WorkingStorage(input, topLuck, luck) ==> (r.Some? <==> Restorable(input, open, valid))
  {
    hide Accepts, Finished, DistinctKeys;
    if input.manifest.None? {
      return None;
    }
    var m := input.manifest.value;
    var sound := ValidateManifest(m, valid);
    if !sound {
      return None;
    }
    var top := new Backend(input.top);
    var stageTop := new Backend(map[]);
    var entries := [m.database, m.secret];
    var copiedTop, _ := CopyInventory(top, stageTop, entries, topLuck);
    CopyOutcome(input.top, entries, topLuck, valid);
    if copiedTop.None? {
      return None;
    }
    assert m.database in entries && m.secret in entries;
    var db := open(stageTop.objects[DATABASE].sha, stageTop.objects[SECRET].sha);
    if db.None? {
      return None;
    }
    DistinctTail(m);
    var accepted := ValidateInventory(db.value, m.objects.value, valid);
    if !accepted {
      return None;
    }
    var objects := new Backend(input.objects);
    var stageObjects := new Backend(map[]);
    var copied, _ := CopyInventory(objects, stageObjects, m.objects.value, luck);
    CopyOutcome(input.objects, m.objects.value, luck, valid);
    if copied.None? || !placed {
      return None;
    }
    return Some(Restored(stageTop.objects, stageObjects.objects));
  }

  lemma DistinctTail(m: Manifest)
    requires m.objects.Some? && DistinctKeys([m.database, m.secret] + m.objects.value)
    ensures DistinctKeys(m.objects.value)
  {
    var all := [m.database, m.secret] + m.objects.value;
    forall i, j | 0 <= i < j < |m.objects.value|
      ensures m.objects.value[i].key != m.objects.value[j].key
    {
      assert all[i + 2] == m.objects.value[i] && all[j + 2] == m.objects.value[j];
    }
  }

  /** Copying sealed entries into an empty store: it ends with exactly them, and when the storage works
      it succeeds exactly if the source has them all. */
  lemma CopyOutcome(source: Store, entries: seq<Object>, luck: nat -> Luck, valid: Path -> bool)
    requires forall o :: o in entries ==> Sealed(o, valid)
    ensures var run := Finished(source, map[], entries, luck);
            && (run.copied.Some? ==> Complete(source, entries) && HoldsExactly(entries, run.dest))
            && (AlwaysLucky(source, entries, luck) ==> (run.copied.Some? <==> Complete(source, entries)))
  {
    hide Next;
    var run := Finished(source, map[], entries, luck);
    assert entries[..|entries|] == entries;
    NothingIsOverwritten(source, map[], entries, luck, |entries|);
    if run.copied.Some? {
      SuccessMeansEqual(source, map[], entries, luck, |entries|);
      forall o | o in entries
        ensures o.key in run.dest && AsObject(o.key, run.dest[o.key]) == o
      {
        assert o.key in source && Matches(o, source[o.key]);
      }
    }
    if AlwaysLucky(source, entries, luck) {
      LuckyRunSucceeds(source, map[], entries, luck, |entries|);
    }
  }

  /** The counts are right: content that a file row names is referenced. */
  ghost predicate Counted(db: Snapshot) { forall id :: id in db.files && db.files[id] in db.rows ==> db.files[id] in Referenced(db) }

  /** Restore is sound: if it publishes, every file row of the restored database has its content row,
      and its original is there with the recorded size and hash, given accurate reference counts. */
  lemma EveryFileHasItsOriginal(input: Directory, open: Open, valid: Path -> bool, out: Restored, id: nat)
    requires Faithful(input, open, valid, out)
    requires var m := input.manifest.value;
             var db := open(m.database.sha.value, m.secret.sha.value).value;
             Counted(db) && id in db.files
    ensures DATABASE in out.top && SECRET in out.top
    ensures var db := open(out.top[DATABASE].sha, out.top[SECRET].sha);
            && db.Some? && id in db.value.files && db.value.files[id] in db.value.rows
            && var sha := db.value.files[id];
               var row := db.value.rows[sha];
               row.original in out.objects && out.objects[row.original].sha == sha && out.objects[row.original].size == row.size
  {
    var m := input.manifest.value;
    assert m.database in [m.database, m.secret] && m.secret in [m.database, m.secret];
    var db := open(m.database.sha.value, m.secret.sha.value).value;
    var sha := db.files[id];
    assert sha in Referenced(db);
    assert OriginalOf(db, sha) in m.objects.value;
  }

  // ---- backing up ----------------------------------------------------------------------------------------------------

  function Fingerprinted(key: Path, c: Content): Object { AsObject(key, c) }

  function ManifestOf(database: Content, secret: Content, objects: seq<Object>): Manifest {
    Manifest(1, Fingerprinted(DATABASE, database), Fingerprinted(SECRET, secret), Some(objects))
  }

  /** A backup holds everything its database names and the source has: originals, renditions and
      filtered copies, each with the source's bytes. */
  ghost predicate Whole(db: Snapshot, source: Store, objects: Store) {
    forall k :: Named(db, Referenced(db), k) && k in source ==> k in objects && objects[k] == source[k]
  }

  /** A successful copy of an inventory is whole, and has nothing else. */
  lemma BackupIsWhole(db: Snapshot, source: Store, entries: seq<Object>, luck: nat -> Luck, valid: Path -> bool)
    requires Consistent(db, valid) && IsInventory(db, entries)
    requires Finished(source, map[], entries, luck).copied.Some?
    ensures var dest := Finished(source, map[], entries, luck).dest;
            Whole(db, source, dest) && forall k :: k in dest ==> k in source && Named(db, Referenced(db), k)
  {
    hide Progress, Consistent, Named, IsInventory, Rightly, Complete, Present, DistinctKeys;
    assert entries[..|entries|] == entries;
    SuccessMeansEqual(source, map[], entries, luck, |entries|);
    NothingIsOverwritten(source, map[], entries, luck, |entries|);
    InventoryEntries(db, entries, valid);
  }

  /** No object takes the name of a file of the backup itself. */
  ghost predicate NoClash(objects: seq<Object>) { forall o :: o in objects ==> o.key != DATABASE && o.key != SECRET }

  /** What Backup publishes: the objects it copied, each as its manifest says. */
  ghost predicate Published(db: Snapshot, database: Content, secret: Content, out: Directory, small: bool, valid: Path -> bool) {
    exists objects: seq<Object> ::
      && out.manifest == (if small then Some(ManifestOf(database, secret, objects)) else None)
      && out.top == map[DATABASE := database, SECRET := secret]
      && (forall o :: o in objects ==> Sealed(o, valid)) && HoldsExactly(objects, out.objects)
      && DistinctKeys(objects) && Accepts(db, objects, valid)
  }

  /** The store has every referenced original, as recorded. */
  ghost predicate HasEveryOriginal(db: Snapshot, source: Store) {
    forall s :: s in Referenced(db) ==>
      db.rows[s].original in source && source[db.rows[s].original].sha == s && source[db.rows[s].original].size == db.rows[s].size
  }

  /** An inventory is complete in a store exactly when the store has every referenced original. */
  lemma CompleteIsEveryOriginal(db: Snapshot, source: Store, entries: seq<Object>, valid: Path -> bool)
    requires Consistent(db, valid) && IsInventory(db, entries)
    ensures Complete(source, entries) <==> HasEveryOriginal(db, source)
  {
    hide Consistent, IsInventory, DistinctKeys, Named;
    InventoryEntries(db, entries, valid);
    if Complete(source, entries) {
      forall s | s in Referenced(db)
        ensures db.rows[s].original in source && Matches(OriginalOf(db, s), source[db.rows[s].original])
      {
        assert OriginalOf(db, s) in entries;
      }
    }
  }

  /** What the storage does at each entry, when it depends on the key alone. */
  function InOrder(entries: seq<Object>, luck: Path -> Luck): nat -> Luck {
    (i: nat) => luck(if i < |entries| then entries[i].key else DATABASE)
  }

  /** No storage operation of the copy goes wrong. */
  ghost predicate WorkingSource(source: Store, luck: Path -> Luck) {
    (forall k :: k in source ==> !Unlucky(luck(k), source[k])) && forall k: Path :: !luck(k).readFails
  }

  lemma WorkingCopy(db: Snapshot, source: Store, entries: seq<Object>, luck: Path -> Luck, valid: Path -> bool)
    requires Consistent(db, valid) && IsInventory(db, entries) && WorkingSource(source, luck)
    ensures Finished(source, map[], entries, InOrder(entries, luck)).copied.Some? <==> HasEveryOriginal(db, source)
  {
    hide Consistent, IsInventory, Progress, HasEveryOriginal, Complete, Unlucky;
    assert entries[..|entries|] == entries;
    LuckyRunSucceeds(source, map[], entries, InOrder(entries, luck), |entries|);
    CompleteIsEveryOriginal(db, source, entries, valid);
  }

  /** Backup, from the database file that VACUUM INTO wrote: the snapshot is checked, its inventory
      copied and verified, and the manifest says what was copied. `small` is whether the manifest can
      be read back within its limit. With working storage it succeeds exactly when the snapshot opens
      and is consistent and every referenced original is there. */
  method BackupInstance(database: Content, secret: Content, source: Backend, open: Open, valid: Path -> bool,
                        luck: Path -> Luck, small: bool, placed: bool) returns (r: Option<Directory>)
    ensures r.Some? ==> open(database.sha, secret.sha).Some?
                        && Published(open(database.sha, secret.sha).value, database, secret, r.value, small, valid)
    ensures r.Some? ==> Whole(open(database.sha, secret.sha).value, source.objects, r.value.objects)
    ensures r.Some? ==> forall k :: k in r.value.objects ==> k in source.objects
    ensures placed && WorkingSource(source.objects, luck) ==>
              (r.Some? <==> var db := open(database.sha, secret.sha);
                            db.Some? && Consistent(db.value, valid) && HasEveryOriginal(db.value, source.objects))
  {
    hide Accepts, Finished, DistinctKeys, IsInventory, Consistent, HasEveryOriginal, InOrder, WorkingSource, Whole;
    var db := open(database.sha, secret.sha);
    if db.None? {
      return None;
    }
    var entries := TakeInventory(db.value, valid);
    if entries.None? {
      return None;
    }
    var dest := new Backend(map[]);
    ghost var stored := source.objects;
    var copied, _ := CopyInventory(source, dest, entries.value, InOrder(entries.value, luck));
    if WorkingSource(stored, luck) {
      WorkingCopy(db.value, stored, entries.value, luck, valid);
    }
    if copied.None? || !placed {
      return None;
    }
    BackupIsAccepted(db.value, source.objects, entries.value, InOrder(entries.value, luck), valid);
    BackupIsWhole(db.value, source.objects, entries.value, InOrder(entries.value, luck), valid);
    var out := Directory(if small then Some(ManifestOf(database, secret, copied.value)) else None,
                         map[DATABASE := database, SECRET := secret], dest.objects);
    return Some(out);
  }

  lemma {:induction false} PresentEntries(source: Store, entries: seq<Object>)
    ensures Those(source, entries, Present(source, entries))
    ensures DistinctKeys(entries) ==> DistinctKeys(Present(source, entries))
    decreases |entries|
  {
    if entries != [] {
      var front, e := entries[..|entries| - 1], entries[|entries| - 1];
      PresentEntries(source, front);
      assert entries == front + [e];
      if DistinctKeys(entries) && e.key in source {
        forall o | o in Present(source, front)
          ensures o.key != e.key
        {
          var f :| f in front && f.key in source && o == AsObject(f.key, source[f.key]);
          var i :| 0 <= i < |front| && front[i] == f;
          assert entries[i] == f && entries[|entries| - 1] == e;
        }
      }
    }
  }

  /** A successful copy of an inventory passes the checks that a restore makes of it. */
  lemma BackupIsAccepted(db: Snapshot, source: Store, entries: seq<Object>, luck: nat -> Luck, valid: Path -> bool)
    requires Consistent(db, valid) && IsInventory(db, entries)
    requires Finished(source, map[], entries, luck).copied.Some?
    ensures var run := Finished(source, map[], entries, luck);
            var objects := run.copied.value;
            && (forall o :: o in objects ==> Sealed(o, valid)) && HoldsExactly(objects, run.dest)
            && DistinctKeys(objects) && Accepts(db, objects, valid)
  {
    hide Progress, Consistent, DistinctKeys, Named, Rightly, IsInventory, Sealed, Equal, Complete, Present;
    var run := Finished(source, map[], entries, luck);
    assert entries[..|entries|] == entries;
    SuccessMeansEqual(source, map[], entries, luck, |entries|);
    NothingIsOverwritten(source, map[], entries, luck, |entries|);
    PresentEntries(source, entries);
    InventoryEntries(db, entries, valid);
    ObjectsAreSealed(db, source, entries, run.copied.value, valid);
    OriginalsAreCopied(db, source, entries, run.copied.value);
    CopiesAreHeld(source, entries, run.copied.value, run.dest);
  }

  /** The entries the source has, as objects. */
  ghost predicate Those(source: Store, entries: seq<Object>, objects: seq<Object>) {
    forall o :: o in objects <==> exists e :: e in entries && e.key in source && o == AsObject(e.key, source[e.key])
  }

  lemma ObjectsAreSealed(db: Snapshot, source: Store, entries: seq<Object>, objects: seq<Object>, valid: Path -> bool)
    requires Consistent(db, valid) && Those(source, entries, objects)
    requires forall e :: e in entries ==> Named(db, Referenced(db), e.key)
    ensures forall o :: o in objects ==> Sealed(o, valid) && Named(db, Referenced(db), o.key)
  {
    hide Named, Consistent;
    forall o | o in objects
      ensures Sealed(o, valid) && Named(db, Referenced(db), o.key)
    {
      var e :| e in entries && e.key in source && o == AsObject(e.key, source[e.key]);
      NamedIsValid(db, e.key, valid);
    }
  }

  lemma OriginalsAreCopied(db: Snapshot, source: Store, entries: seq<Object>, objects: seq<Object>)
    requires Complete(source, entries) && Those(source, entries, objects)
    requires forall s :: s in Referenced(db) ==> OriginalOf(db, s) in entries
    ensures forall s :: s in Referenced(db) ==> OriginalOf(db, s) in objects
  {
    forall s | s in Referenced(db)
      ensures OriginalOf(db, s) in objects
    {
      var e := OriginalOf(db, s);
      assert e in entries && e.key in source && Matches(e, source[e.key]);
      assert AsObject(e.key, source[e.key]) == e;
    }
  }

  lemma CopiesAreHeld(source: Store, entries: seq<Object>, objects: seq<Object>, dest: Store)
    requires Equal(source, dest, entries) && Those(source, entries, objects)
    requires forall k :: k in dest ==> k in source && exists e :: e in entries && e.key == k
    ensures HoldsExactly(objects, dest)
  {
    forall o | o in objects
      ensures o.key in dest && AsObject(o.key, dest[o.key]) == o
    {
      var e :| e in entries && e.key in source && o == AsObject(e.key, source[e.key]);
    }
    forall k | k in dest
      ensures exists o :: o in objects && o.key == k
    {
      var e :| e in entries && e.key == k;
      assert AsObject(e.key, source[e.key]) in objects;
    }
  }

  lemma NamedIsValid(db: Snapshot, key: Path, valid: Path -> bool)
    requires Consistent(db, valid) && Named(db, Referenced(db), key)
    ensures valid(key)
  {
    hide NonEmpty;
    var s :| s in Referenced(db) && key in db.rows[s].Keys();
    assert RowValid(db.rows[s], valid);
  }

  /** Restore is complete: a backup that Backup published can be restored if and only if no object of it
      is called imvault.db or secret.key, given a manifest within its limit. */
  lemma BackupsAreRestorable(database: Content, secret: Content, open: Open, valid: Path -> bool, out: Directory)
    requires open(database.sha, secret.sha).Some? && valid(DATABASE) && valid(SECRET)
    requires Published(open(database.sha, secret.sha).value, database, secret, out, true, valid)
    ensures Restorable(out, open, valid) <==> NoClash(out.manifest.value.objects.value)
  {
    hide Accepts;
    var m := out.manifest.value;
    assert Complete(out.top, [m.database, m.secret]);
    assert Complete(out.objects, m.objects.value);
    DistinctWithFiles(m);
  }

  lemma DistinctWithFiles(m: Manifest)
    requires m.objects.Some? && DistinctKeys(m.objects.value) && m.database.key == DATABASE && m.secret.key == SECRET
    ensures DistinctKeys([m.database, m.secret] + m.objects.value) <==> NoClash(m.objects.value)
  {
    var all := [m.database, m.secret] + m.objects.value;
    if NoClash(m.objects.value) {
      forall i, j | 0 <= i < j < |all|
        ensures all[i].key != all[j].key
      {
        if j >= 2 {
          assert all[j] == m.objects.value[j - 2] && all[j] in m.objects.value;
        }
      }
    } else {
      var o :| o in m.objects.value && (o.key == DATABASE || o.key == SECRET);
      var i :| 0 <= i < |m.objects.value| && m.objects.value[i] == o;
      assert all[i + 2] == o && all[0] == m.database && all[1] == m.secret;
    }
  }

  /** Two stores that hold exactly the same objects are equal. */
  lemma SameObjects(objects: seq<Object>, a: Store, b: Store)
    requires HoldsExactly(objects, a) && HoldsExactly(objects, b) && forall o :: o in objects ==> o.sha.Some? && o.size >= 0
    ensures a == b
  {
    forall k | k in a || k in b
      ensures k in a && k in b && a[k] == b[k]
    {
      var o :| o in objects && o.key == k;
      assert AsObject(k, a[k]) == o == AsObject(k, b[k]);
    }
  }

  /** What is restored from a backup is the backup: its database, its secret and every object that was
      copied, so that nothing the database names and the source had is lost on the way. */
  lemma BackupComesBack(db: Snapshot, database: Content, secret: Content, source: Store, backup: Directory, open: Open,
                        valid: Path -> bool, out: Restored)
    requires Published(db, database, secret, backup, true, valid) && Faithful(backup, open, valid, out)
    ensures out.objects == backup.objects && out.top == map[DATABASE := database, SECRET := secret]
    ensures Whole(db, source, backup.objects) ==> Whole(db, source, out.objects)
  {
    hide Accepts, Restorable, DistinctKeys, Named;
    var m := backup.manifest.value;
    SameObjects(m.objects.value, backup.objects, out.objects);
    SameObjects([m.database, m.secret], backup.top, out.top);
  }
}
