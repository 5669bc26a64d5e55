/** The tables behind stored content and the SQL statements that touch them: internal/store
    (blobs.go, files.go, users.go) with the reference-count triggers of migration 011.
    Each statement is atomic, so each is one function from table state to table state. */
module Tables {
  import opened Prelude

  type User = nat
  type Id = nat
  type Ext = nat
  type Tag = nat

  datatype CopyKind = Clean | Camera | Location

  /** An object key, by the parts its path is joined from. Every key embeds the hash. */
  datatype Key =
    | Original(sha: Sha, ext: Ext)
    | Thumb(tag: Tag, sha: Sha, ext: Ext)
    | Preview(tag: Tag, sha: Sha, ext: Ext)
    | Rebuilt(sha: Sha, checksum: nat, ext: Ext)
    | Filtered(sha: Sha, kind: CopyKind, ext: Ext)

  datatype File = File(sha: Sha, ext: Ext, owner: Option<User>, size: nat)

  datatype Blob = Blob(size: nat, original: Key, thumb: Option<Key>, preview: Option<Key>,
                       copies: map<CopyKind, Key>, refcount: int)
  {
    predicate Orphaned() { refcount <= 0 }

    /** The original and its renditions, without the rebuildable filtered copies. */
    function Main(): set<Key> {
      {original} + OptionSet(thumb) + OptionSet(preview)
    }

    /** models.Blob.Keys: every stored object of the content. */
    function Keys(): (keys: seq<Key>)
      ensures forall k :: k in Main() ==> k in keys
      ensures forall c :: c in copies ==> copies[c] in keys
      ensures forall k :: k in keys ==> k in Main() || exists c :: c in copies && copies[c] == k
    {
      CopiesAreListed(copies);
      [original] + OptionSeq(thumb) + OptionSeq(preview) + CopyKeys(copies)
    }
  }

  function OptionSet(k: Option<Key>): set<Key> { if k.Some? then {k.value} else {} }
  function OptionSeq(k: Option<Key>): seq<Key> { if k.Some? then [k.value] else [] }
  function CopySeq(m: map<CopyKind, Key>, kind: CopyKind): seq<Key> { if kind in m then [m[kind]] else [] }

  function CopyKeys(m: map<CopyKind, Key>): seq<Key> {
    CopySeq(m, Clean) + CopySeq(m, Camera) + CopySeq(m, Location)
  }

  lemma CopiesAreListed(m: map<CopyKind, Key>)
    ensures forall c :: c in m ==> m[c] in CopyKeys(m)
    ensures forall k :: k in CopyKeys(m) ==> exists c :: c in m && m[c] == k
  {
    forall c | c in m
      ensures m[c] in CopyKeys(m)
    {
      assert m[c] in CopySeq(m, c);
      match c case Clean => case Camera => case Location =>
    }
  }

  /** `used` holds users.storage_used; an account exists while it is a key of `used`. A quota of
      zero is unlimited. */
  datatype Db = Db(files: map<Id, File>, blobs: map<Sha, Blob>, used: map<User, int>, quota: map<User, nat>)

  function References(files: map<Id, File>, sha: Sha): set<Id> {
    set id | id in files && files[id].sha == sha
  }

  /** Every row has its blob and every count is exact. */
  ghost predicate Counted(db: Db) {
    && (forall id :: id in db.files ==> db.files[id].sha in db.blobs)
    && (forall sha :: sha in db.blobs ==> db.blobs[sha].refcount == |References(db.files, sha)|)
  }

  // ---- sums ------------------------------------------------------------------------------

  ghost function Total<K(!new)>(m: map<K, nat>): nat
    decreases |m|
  {
    if m == map[] then 0 else var k :| k in m; m[k] + Total(m - {k})
  }

  lemma {:induction false} TotalWithout<K(!new)>(m: map<K, nat>, k: K)
    requires k in m
    ensures Total(m) == m[k] + Total(m - {k})
    decreases |m|
  {
    var j :| j in m && Total(m) == m[j] + Total(m - {j});
    if j != k {
      TotalWithout(m - {j}, k);
      TotalWithout(m - {k}, j);
      assert m - {j} - {k} == m - {k} - {j};
    }
  }

  lemma TotalSet<K(!new)>(m: map<K, nat>, k: K, v: nat)
    ensures Total(m[k := v]) == Total(m - {k}) + v
    ensures k in m ==> Total(m[k := v]) == Total(m) - m[k] + v
    ensures k !in m ==> Total(m[k := v]) == Total(m) + v
  {
    TotalWithout(m[k := v], k);
    assert m[k := v] - {k} == m - {k};
    if k in m {
      TotalWithout(m, k);
    } else {
      assert m - {k} == m;
    }
  }

  lemma {:induction false} TotalDrop<K(!new)>(m: map<K, nat>, gone: set<K>)
    ensures Total(m - gone) <= Total(m)
    ensures (forall k :: k in m && k in gone ==> m[k] == 0) ==> Total(m - gone) == Total(m)
    decreases |gone|
  {
    if gone == {} {
      assert m - gone == m;
    } else {
      var k :| k in gone;
      TotalDrop(m - {k}, gone - {k});
      assert m - {k} - (gone - {k}) == m - gone;
      if k in m {
        TotalWithout(m, k);
      } else {
        assert m - {k} == m;
      }
    }
  }

  ghost function SizeFor(f: File, u: User): nat { if f.owner == Some(u) then f.size else 0 }

  function Sizes(files: map<Id, File>): map<Id, nat> { map id | id in files :: files[id].size }
  ghost function SizesFor(files: map<Id, File>, u: User): map<Id, nat> { map id | id in files :: SizeFor(files[id], u) }

  /** SELECT SUM(size) FROM files, over everything and for one owner. */
  ghost function StoredBytes(files: map<Id, File>): nat { Total(Sizes(files)) }
  ghost function Owned(files: map<Id, File>, u: User): nat { Total(SizesFor(files, u)) }

  lemma SumsAfterInsert(files: map<Id, File>, id: Id, f: File, u: User)
    requires id !in files
    ensures StoredBytes(files[id := f]) == StoredBytes(files) + f.size
    ensures Owned(files[id := f], u) == Owned(files, u) + SizeFor(f, u)
  {
    TotalSet(Sizes(files), id, f.size);
    assert Sizes(files[id := f]) == Sizes(files)[id := f.size];
    TotalSet(SizesFor(files, u), id, SizeFor(f, u));
    assert SizesFor(files[id := f], u) == SizesFor(files, u)[id := SizeFor(f, u)];
  }

  lemma SumsAfterDelete(files: map<Id, File>, id: Id, u: User)
    requires id in files
    ensures StoredBytes(files - {id}) == StoredBytes(files) - files[id].size
    ensures Owned(files - {id}, u) == Owned(files, u) - SizeFor(files[id], u)
  {
    var rest := files - {id};
    assert rest[id := files[id]] == files;
    SumsAfterInsert(rest, id, files[id], u);
  }

  lemma SumsAfterCascade(files: map<Id, File>, gone: set<Id>, u: User)
    ensures StoredBytes(files - gone) <= StoredBytes(files)
    ensures (forall id :: id in files && id in gone ==> files[id].owner != Some(u)) ==>
              Owned(files - gone, u) == Owned(files, u)
  {
    assert Sizes(files - gone) == Sizes(files) - gone;
    TotalDrop(Sizes(files), gone);
    assert SizesFor(files - gone, u) == SizesFor(files, u) - gone;
    TotalDrop(SizesFor(files, u), gone);
  }

  // ---- statements ------------------------------------------------------------------------

  /** INSERT ... ON CONFLICT DO UPDATE ... WHERE refcount <= 0. */
  function EnsureBlob(db: Db, sha: Sha, size: nat, original: Key, thumb: Option<Key>, preview: Option<Key>): Db {
    if sha !in db.blobs then
      db.(blobs := db.blobs[sha := Blob(size, original, thumb, preview, map[], 0)])
    else if db.blobs[sha].Orphaned() then
      db.(blobs := db.blobs[sha := db.blobs[sha].(original := original, thumb := thumb, preview := preview, copies := map[])])
    else
      db
  }

  /** DELETE ... WHERE refcount <= 0. */
  function DeleteBlobIfUnreferenced(db: Db, sha: Sha): Db {
    if sha in db.blobs && db.blobs[sha].Orphaned() then db.(blobs := db.blobs - {sha}) else db
  }

  /** SetBlobCleanKey writes only an empty column; SetBlobFilteredKey always writes. */
  function SetCopyKey(db: Db, sha: Sha, kind: CopyKind, key: Key): Db {
    if sha !in db.blobs || (kind == Clean && kind in db.blobs[sha].copies) then db
    else db.(blobs := db.blobs[sha := db.blobs[sha].(copies := db.blobs[sha].copies[kind := key])])
  }

  function ClearCopyKeys(db: Db, sha: Sha): Db {
    if sha !in db.blobs then db else db.(blobs := db.blobs[sha := db.blobs[sha].(copies := map[])])
  }

  datatype Insertion = Inserted | Conflict | Full | Refused

  /** What CreateFileWithLimit answers: the ceiling is part of the statement, an existing id is a
      conflict, and an owner that no longer exists breaks the foreign key. */
  ghost function InsertOutcome(db: Db, id: Id, f: File, limit: nat): Insertion {
    if limit > 0 && StoredBytes(db.files) + f.size > limit then Full
    else if id in db.files then Conflict
    else if f.owner.Some? && f.owner.value !in db.used then Refused
    else Inserted
  }

  /** The insert with its trigger: the count moves only if the blob is already there. */
  function InsertFile(db: Db, id: Id, f: File): Db {
    db.(files := db.files[id := f],
        blobs := if f.sha in db.blobs
                 then db.blobs[f.sha := db.blobs[f.sha].(refcount := db.blobs[f.sha].refcount + 1)]
                 else db.blobs)
  }

  /** Deleting rows, with the trigger run once for each: one row for DELETE ... WHERE id, a set of
      them for ON DELETE CASCADE. */
  function DeleteFiles(db: Db, gone: set<Id>): Db {
    db.(files := db.files - gone, blobs := Uncounted(db, gone))
  }

  function Uncounted(db: Db, gone: set<Id>): map<Sha, Blob> {
    map sha | sha in db.blobs ::
      db.blobs[sha].(refcount := db.blobs[sha].refcount - |References(db.files, sha) * gone|)
  }

  function DeleteUser(db: Db, u: User): Db {
    var cascaded := DeleteFiles(db, set id | id in db.files && db.files[id].owner == Some(u));
    cascaded.(used := db.used - {u})
  }

  /** ReserveStorage's guard: the account's quota and the instance's ceiling. */
  ghost predicate MayReserve(db: Db, u: User, size: nat, limit: nat) {
    size == 0 ||
    (&& u in db.used
     && (u !in db.quota || db.quota[u] == 0 || db.used[u] + size <= db.quota[u])
     && (limit == 0 || StoredBytes(db.files) + size <= limit))
  }

  function Reserve(db: Db, u: User, size: nat): Db {
    if size == 0 || u !in db.used then db else db.(used := db.used[u := db.used[u] + size])
  }

  /** ReleaseStorage clamps at zero. */
  function Release(db: Db, u: User, size: nat): Db {
    if size == 0 || u !in db.used then db
    else db.(used := db.used[u := if db.used[u] - size < 0 then 0 else db.used[u] - size])
  }

  /** RecomputeStorageUsage sets every account to what its rows add up to. */
  ghost function Recompute(db: Db): Db {
    db.(used := map u | u in db.used :: Owned(db.files, u))
  }

  // ---- the triggers keep the counts exact -------------------------------------------------

  /** EnsureBlob leaves the count alone; that is why the blob must exist before the row. */
  lemma EnsureBlobCounted(db: Db, sha: Sha, size: nat, original: Key, thumb: Option<Key>, preview: Option<Key>)
    requires Counted(db)
    ensures Counted(EnsureBlob(db, sha, size, original, thumb, preview))
  {
    if sha !in db.blobs {
      assert References(db.files, sha) == {};
    }
  }

  lemma ReferencesAfterInsert(files: map<Id, File>, id: Id, f: File, sha: Sha)
    requires id !in files
    ensures References(files[id := f], sha) == References(files, sha) + (if sha == f.sha then {id} else {})
    ensures |References(files[id := f], sha)| == |References(files, sha)| + (if sha == f.sha then 1 else 0)
  {
    assert References(files[id := f], sha) == References(files, sha) + (if sha == f.sha then {id} else {});
  }

  /** Inserting a row keeps the counts exact if and only if its blob is already recorded. */
  lemma InsertCounted(db: Db, id: Id, f: File)
    requires Counted(db) && id !in db.files
    ensures Counted(InsertFile(db, id, f)) <==> f.sha in db.blobs
  {
    var db' := InsertFile(db, id, f);
    if f.sha in db.blobs {
      forall sha | sha in db'.blobs
        ensures db'.blobs[sha].refcount == |References(db'.files, sha)|
      {
        ReferencesAfterInsert(db.files, id, f, sha);
      }
    } else {
      assert id in db'.files && db'.files[id].sha !in db'.blobs;
    }
  }

  lemma {:induction false} DeleteFilesCounted(db: Db, gone: set<Id>)
    requires Counted(db)
    ensures Counted(DeleteFiles(db, gone))
  {
    hide References;
    var db' := DeleteFiles(db, gone);
    forall sha | sha in db'.blobs
      ensures db'.blobs[sha].refcount == |References(db'.files, sha)|
    {
      ReferencesWithout(db.files, gone, sha);
      Partition(References(db.files, sha), gone);
    }
  }

  lemma ReferencesWithout(files: map<Id, File>, gone: set<Id>, sha: Sha)
    ensures References(files - gone, sha) == References(files, sha) - gone
  {
  }

  lemma Partition(r: set<Id>, gone: set<Id>)
    ensures |r| == |r - gone| + |r * gone|
  {
    assert r == (r - gone) + (r * gone);
  }

  lemma CountSplit(r: set<Id>, id: Id, rest: set<Id>)
    requires id !in rest
    ensures |r * ({id} + rest)| == |r * {id}| + |(r - {id}) * rest|
  {
    assert r * ({id} + rest) == (r * {id}) + ((r - {id}) * rest);
  }

  lemma UncountedAt(db: Db, gone: set<Id>, sha: Sha)
    ensures sha in Uncounted(db, gone) <==> sha in db.blobs
    ensures sha in db.blobs ==>
              Uncounted(db, gone)[sha] == db.blobs[sha].(refcount := db.blobs[sha].refcount - |References(db.files, sha) * gone|)
  {
    hide References;
  }

  lemma UncountedRowByRow(db: Db, id: Id, rest: set<Id>, sha: Sha)
    requires id !in rest
    ensures sha in Uncounted(DeleteFiles(db, {id}), rest) <==> sha in Uncounted(db, {id} + rest)
    ensures sha in db.blobs ==> Uncounted(DeleteFiles(db, {id}), rest)[sha] == Uncounted(db, {id} + rest)[sha]
  {
    hide Uncounted, References;
    UncountedAt(db, {id}, sha);
    UncountedAt(DeleteFiles(db, {id}), rest, sha);
    UncountedAt(db, {id} + rest, sha);
    ReferencesWithout(db.files, {id}, sha);
    CountSplit(References(db.files, sha), id, rest);
  }

  lemma FilesRowByRow(files: map<Id, File>, id: Id, rest: set<Id>)
    ensures files - {id} - rest == files - ({id} + rest)
  {
  }

  lemma BlobsRowByRow(db: Db, id: Id, rest: set<Id>, one: map<Sha, Blob>, all: map<Sha, Blob>)
    requires id !in rest
    requires one == Uncounted(DeleteFiles(db, {id}), rest) && all == Uncounted(db, {id} + rest)
    ensures one == all
  {
    hide Uncounted, References;
    forall sha
      ensures (sha in one <==> sha in all) && (sha in one ==> one[sha] == all[sha])
    {
      UncountedRowByRow(db, id, rest, sha);
      UncountedAt(db, {id} + rest, sha);
    }
    assert one.Keys == all.Keys;
  }

  /** A cascade may be taken one row at a time: the triggers add up. */
  lemma CascadeRowByRow(db: Db, id: Id, rest: set<Id>)
    requires id !in rest
    ensures DeleteFiles(DeleteFiles(db, {id}), rest) == DeleteFiles(db, {id} + rest)
  {
    var one, all := DeleteFiles(DeleteFiles(db, {id}), rest), DeleteFiles(db, {id} + rest);
    FilesRowByRow(db.files, id, rest);
    BlobsRowByRow(db, id, rest, one.blobs, all.blobs);
  }

  lemma DropBlobCounted(db: Db, sha: Sha)
    requires Counted(db)
    ensures Counted(DeleteBlobIfUnreferenced(db, sha))
  {
    forall id | id in db.files
      ensures db.files[id].sha in DeleteBlobIfUnreferenced(db, sha).blobs
    {
      assert id in References(db.files, db.files[id].sha);
    }
  }

  /** A referenced blob is exactly one that some row names. */
  lemma ReferencedIffNamed(db: Db, sha: Sha)
    requires Counted(db) && sha in db.blobs
    ensures !db.blobs[sha].Orphaned() <==> exists id :: id in db.files && db.files[id].sha == sha
  {
    if id :| id in References(db.files, sha) {
      assert |References(db.files, sha)| > 0;
    } else {
      assert References(db.files, sha) == {};
      forall id | id in db.files
        ensures db.files[id].sha != sha
      {
        assert id !in References(db.files, sha);
      }
    }
  }

  // ---- accounts and copies ------------------------------------------------------------------

  /** A removed account leaves no row behind; every other row and account is as it was, and the counts
      stay exact. */
  lemma RemovedUserLeavesNothing(db: Db, u: User)
    requires Counted(db)
    ensures var m := DeleteUser(db, u);
            && (forall id :: id in m.files <==> id in db.files && db.files[id].owner != Some(u))
            && (forall id :: id in m.files ==> m.files[id] == db.files[id])
            && (forall v :: v in m.used <==> v in db.used && v != u)
            && (forall v :: v in m.used ==> m.used[v] == db.used[v])
            && Owned(m.files, u) == 0 && Counted(m)
  {
    hide Owned, Uncounted, Counted;
    var gone := set id | id in db.files && db.files[id].owner == Some(u);
    DeleteFilesCounted(db, gone);
    assert Counted(DeleteUser(db, u)) by { SameRows(DeleteFiles(db, gone), db.used - {u}); }
    NothingOwned(DeleteUser(db, u).files, u);
  }

  lemma SameRows(db: Db, used: map<User, int>)
    requires Counted(db)
    ensures Counted(db.(used := used))
  {
  }

  lemma NothingOwned(files: map<Id, File>, u: User)
    requires forall id :: id in files ==> files[id].owner != Some(u)
    ensures Owned(files, u) == 0
  {
    ZerosAddUp(SizesFor(files, u));
  }

  lemma {:induction false} ZerosAddUp<K(!new)>(m: map<K, nat>)
    requires forall k :: k in m ==> m[k] == 0
    ensures Total(m) == 0
    decreases |m|
  {
    if m != map[] {
      var k :| k in m;
      TotalWithout(m, k);
      ZerosAddUp(m - {k});
    }
  }

  /** The first clean copy stands, a filtered copy is replaced, and nothing else in the tables moves. */
  lemma FirstCleanCopyStands(db: Db, sha: Sha, kind: CopyKind, key: Key)
    requires sha in db.blobs
    ensures var m, b := SetCopyKey(db, sha, kind, key), db.blobs[sha];
            && m.files == db.files && m.used == db.used && m.quota == db.quota && m.blobs.Keys == db.blobs.Keys
            && (forall t :: t in db.blobs && t != sha ==> m.blobs[t] == db.blobs[t])
            && m.blobs[sha] == b.(copies := m.blobs[sha].copies)
            && kind in m.blobs[sha].copies
            && m.blobs[sha].copies[kind] == (if kind.Clean? && Clean in b.copies then b.copies[Clean] else key)
            && (forall c :: c != kind ==> (c in m.blobs[sha].copies <==> c in b.copies))
            && (forall c :: c != kind && c in b.copies ==> m.blobs[sha].copies[c] == b.copies[c])
  {
  }
}
