/** Paging over the referenced content and the inventory of its objects: internal/maintenance/objects.go
    with BlobsAfter of internal/store/blobs.go. Keys are paths here, as a manifest spells them. */
module Inventory {
  import opened Prelude

  type Path = string

  /** What an object holds, by its hash and length. */
  datatype Content = Content(sha: Sha, size: nat)

  /** A row of blobs: a path is empty when that copy does not exist. */
  datatype Row = Row(size: int, original: Path, others: seq<Path>, refcount: int) {
    /** models.Blob.Keys. */
    function Keys(): seq<Path> { NonEmpty([original] + others) }
  }

  function NonEmpty(ps: seq<Path>): seq<Path> {
    if ps == [] then [] else (if ps[0] == "" then [] else [ps[0]]) + NonEmpty(ps[1..])
  }

  lemma {:induction false} NonEmptyHas(ps: seq<Path>, p: Path)
    ensures p in NonEmpty(ps) <==> p in ps && p != ""
  {
    if ps != [] {
      NonEmptyHas(ps[1..], p);
      assert ps == [ps[0]] + ps[1..];
    }
  }

  /** A database as maintenance sees it: which content each file row names, and the content rows. */
  datatype Snapshot = Snapshot(files: map<nat, Sha>, rows: map<Sha, Row>)

  /** An inventory or manifest entry; a derived one carries no hash. */
  datatype Object = Object(key: Path, size: int, sha: Option<Sha>)

  function Derived(key: Path): Object { Object(key, -1, None) }

  function Referenced(db: Snapshot): set<Sha> { set s | s in db.rows && db.rows[s].refcount > 0 }

  // ---- paging ------------------------------------------------------------------------------------------------

  lemma {:induction false} LeastExists(s: set<Sha>)
    requires s != {}
    ensures exists m :: m in s && forall x :: x in s ==> m <= x
  {
    var a :| a in s;
    if s != {a} {
      LeastExists(s - {a});
      var m :| m in s - {a} && forall x :: x in s - {a} ==> m <= x;
      var n := if a < m then a else m;
      forall x | x in s
        ensures n <= x
      {
        assert x == a || x in s - {a};
      }
      assert n in s && forall x :: x in s ==> n <= x;
    } else {
      assert a in s && forall x :: x in s ==> a <= x;
    }
  }

  function Least(s: set<Sha>): (m: Sha)
    requires s != {}
    ensures m in s && forall x :: x in s ==> m <= x
  {
    LeastExists(s);
    var m :| m in s && forall x :: x in s ==> m <= x;
    m
  }

  /** ORDER BY sha256 LIMIT. */
  function Page(s: set<Sha>, limit: nat): seq<Sha>
    decreases limit
  {
    if limit == 0 || s == {} then [] else [Least(s)] + Page(s - {Least(s)}, limit - 1)
  }

  /** BlobsAfter; the empty string that paging starts from is below every hash. */
  function BlobsAfter(db: Snapshot, after: int, limit: nat): seq<Sha> {
    Page((set s | s in Referenced(db) && s > after), limit)
  }

  ghost predicate Ascending(ss: seq<Sha>) { forall i, j :: 0 <= i < j < |ss| ==> ss[i] < ss[j] }

  /** A page is ascending, it has something whenever there is something, and nothing before its last
      hash is passed over. */
  lemma {:induction false} PageIsAPrefix(s: set<Sha>, limit: nat)
    ensures var p := Page(s, limit);
            && Ascending(p) && (forall x :: x in p ==> x in s)
            && (p == [] <==> limit == 0 || s == {})
            && (forall x, y :: x in s && y in p && x <= y ==> x in p)
    decreases limit
  {
    if limit != 0 && s != {} {
      var m := Least(s);
      var rest := Page(s - {m}, limit - 1);
      PageIsAPrefix(s - {m}, limit - 1);
      forall x | x in rest
        ensures m < x
      {
        assert x in s - {m};
      }
      forall x, y | x in s && y in [m] + rest && x <= y
        ensures x in [m] + rest
      {
        if x != m {
          assert m <= x && y != m;
          assert x in s - {m} && y in rest;
        }
      }
      Led(m, rest);
    }
  }

  lemma Led(m: Sha, rest: seq<Sha>)
    requires Ascending(rest) && forall x :: x in rest ==> m < x
    ensures Ascending([m] + rest)
  {
    var all := [m] + rest;
    forall i, j | 0 <= i < j < |all|
      ensures all[i] < all[j]
    {
      assert all[j] == rest[j - 1] && rest[j - 1] in rest;
      if i > 0 {
        assert all[i] == rest[i - 1];
      }
    }
  }

  function Elements(ss: seq<Sha>): set<Sha> { set x | x in ss }

  /** eachBlob, with the visitor left out: what it visits and in which order. Every referenced content
      is visited once, nothing else is, and the paging ends. */
  method EachBlob(db: Snapshot) returns (visited: seq<Sha>)
    ensures Ascending(visited) && Elements(visited) == Referenced(db)
  {
    hide Page;
    visited := [];
    var after: int := -1;
    while true
      invariant Ascending(visited) && Reached(db, after, visited)
      decreases Referenced(db) - Elements(visited)
    {
      var batch := BlobsAfter(db, after, 100);
      PageIsAPrefix((set s | s in Referenced(db) && s > after), 100);
      if |batch| == 0 {
        AllReached(db, after, visited);
        return;
      }
      ghost var before, cursor := visited, after;
      var i := 0;
      while i < |batch|
        invariant 0 <= i <= |batch| && visited == before + batch[..i]
        invariant i > 0 ==> after == batch[i - 1]
      {
        assert batch[..i + 1] == batch[..i] + [batch[i]];
        visited := visited + [batch[i]];
        after := batch[i];
        i := i + 1;
      }
      assert batch[..i] == batch;
      NextPage(db, cursor, before, batch, visited);
    }
  }

  /** The paging has visited exactly what lies up to its cursor. */
  ghost predicate Reached(db: Snapshot, after: int, visited: seq<Sha>) {
    forall s :: s in visited <==> s in Referenced(db) && s <= after
  }

  lemma AllReached(db: Snapshot, after: int, visited: seq<Sha>)
    requires Reached(db, after, visited) && BlobsAfter(db, after, 100) == []
    ensures Elements(visited) == Referenced(db)
  {
    hide Page;
    var s := set s | s in Referenced(db) && s > after;
    PageIsAPrefix(s, 100);
    forall x | x in Referenced(db)
      ensures x in visited
    {
      assert x !in s;
    }
  }

  lemma NextPage(db: Snapshot, after: int, before: seq<Sha>, batch: seq<Sha>, visited: seq<Sha>)
    requires batch != [] && visited == before + batch && Ascending(before) && Ascending(batch)
    requires Reached(db, after, before) && (forall x :: x in batch ==> x in Referenced(db) && x > after)
    requires forall x, y :: x in Referenced(db) && x > after && y in batch && x <= y ==> x in batch
    ensures Ascending(visited) && Reached(db, batch[|batch| - 1], visited)
    ensures Referenced(db) - Elements(visited) < Referenced(db) - Elements(before)
  {
    var last := batch[|batch| - 1];
    assert forall x :: x in batch ==> x <= last;
    forall i, j | 0 <= i < j < |visited|
      ensures visited[i] < visited[j]
    {
      if i < |before| <= j {
        assert visited[i] in before && visited[j] in batch;
      }
    }
    forall s
      ensures s in visited <==> s in Referenced(db) && s <= last
    {
      assert last in batch && (s in visited <==> s in before || s in batch);
      if s in Referenced(db) && s <= last && s > after {
        assert s in batch;
      }
    }
    var one := batch[0];
    assert one in batch && one in visited && one !in before;
    assert one in Referenced(db) - Elements(before) && one !in Referenced(db) - Elements(visited);
  }

  // ---- the inventory --------------------------------------------------------------------------------------------

  ghost predicate Named(db: Snapshot, seen: set<Sha>, key: Path)
    requires seen <= db.rows.Keys
  {
    exists s :: s in seen && key in db.rows[s].Keys()
  }

  /** The entry of a path: that of the content it is the original of, or else a derived one. */
  ghost predicate Rightly(db: Snapshot, seen: set<Sha>, key: Path, entry: Object)
    requires seen <= db.rows.Keys
  {
    match entry.sha
    case None => entry == Derived(key) && forall s :: s in seen ==> db.rows[s].original != key
    case Some(s) => s in seen && db.rows[s].original == key && entry == Object(key, db.rows[s].size, Some(s))
  }

  /** The inventory of some contents: every path they name, and nothing else. */
  ghost predicate Covers(db: Snapshot, seen: set<Sha>, entries: map<Path, Object>)
    requires seen <= db.rows.Keys
  {
    forall k :: (k in entries <==> Named(db, seen, k)) && (k in entries ==> Rightly(db, seen, k, entries[k]))
  }

  /** No two of these contents share an original. */
  ghost predicate Separate(db: Snapshot, seen: set<Sha>)
    requires seen <= db.rows.Keys
  {
    forall s, t :: s in seen && t in seen && s != t ==> db.rows[s].original != db.rows[t].original
  }

  predicate RowValid(row: Row, valid: Path -> bool) {
    row.original != "" && valid(row.original) && forall k :: k in row.Keys() ==> valid(k)
  }

  ghost predicate AllValid(db: Snapshot, seen: set<Sha>, valid: Path -> bool)
    requires seen <= db.rows.Keys
  {
    forall s :: s in seen ==> RowValid(db.rows[s], valid)
  }

  /** What Inventory demands of a database: every file row has its content row, every path is a valid
      key, and no two referenced contents share an original. */
  ghost predicate Consistent(db: Snapshot, valid: Path -> bool) {
    && (forall id :: id in db.files ==> db.files[id] in db.rows)
    && AllValid(db, Referenced(db), valid) && Separate(db, Referenced(db))
  }

  /** The entries with some keys of a row put in. */
  ghost predicate Merged(entries: map<Path, Object>, s: Sha, row: Row, keys: seq<Path>, out: map<Path, Object>) {
    forall k ::
      && (k in out <==> k in entries || k in keys)
      && (k in out ==>
            out[k] == if k == row.original && k in keys then Object(k, row.size, Some(s))
                      else if k in entries then entries[k] else Derived(k))
  }

  lemma Unmerged(entries: map<Path, Object>, s: Sha, row: Row)
    ensures Merged(entries, s, row, [], entries)
  {
  }

  /** One key more: what the visitor does with it. */
  lemma MergeOne(entries: map<Path, Object>, s: Sha, row: Row, keys: seq<Path>, key: Path, out: map<Path, Object>)
    requires Merged(entries, s, row, keys, out)
    requires row.original in entries ==> entries[row.original].sha.None?
    requires forall k :: k in entries && entries[k].sha.None? ==> entries[k] == Derived(k)
    ensures var item := if key == row.original then Object(key, row.size, Some(s)) else Derived(key);
            && !(key in out && out[key].sha.Some? && item.sha.Some? && out[key] != item)
            && Merged(entries, s, row, keys + [key],
                      if key !in out || out[key].sha.None? then out[key := item] else out)
  {
    assert forall k :: k in keys + [key] <==> k in keys || k == key;
  }

  /** The visitor of Inventory for one content row; None when a key is invalid or an original is
      already another content's. */
  method Visit(db: Snapshot, s: Sha, entries: map<Path, Object>, valid: Path -> bool, ghost seen: set<Sha>)
      returns (r: Option<map<Path, Object>>)
    requires s in db.rows && seen <= db.rows.Keys && s !in seen && Covers(db, seen, entries)
    requires AllValid(db, seen, valid) && Separate(db, seen)
    ensures r.Some? <==> RowValid(db.rows[s], valid) && Separate(db, seen + {s})
    ensures r.Some? ==> Covers(db, seen + {s}, r.value)
  {
    hide Covers, Merged, NonEmpty, AllValid, Separate;
    var row := db.rows[s];
    if row.original == "" || !valid(row.original) {
      return None;
    }
    NonEmptyHas([row.original] + row.others, row.original);
    Taken(db, seen, s, entries, valid);
    var keys := row.Keys();
    var out := entries;
    var i := 0;
    Unmerged(entries, s, row);
    while i < |keys|
      invariant 0 <= i <= |keys|
      invariant forall k :: k in keys[..i] ==> valid(k)
      invariant if Separate(db, seen + {s}) then Merged(entries, s, row, keys[..i], out)
                else row.original !in keys[..i] && Kept(entries, row, out)
    {
      var key := keys[i];
      if !valid(key) {
        assert key in keys;
        return None;
      }
      var item := if key == row.original then Object(key, row.size, Some(s)) else Derived(key);
      assert keys[..i + 1] == keys[..i] + [key];
      if Separate(db, seen + {s}) {
        MergeOne(entries, s, row, keys[..i], key, out);
      }
      if key in out && out[key].sha.Some? && item.sha.Some? && out[key] != item {
        return None;
      }
      if key !in out || out[key].sha.None? {
        out := out[key := item];
      }
      i := i + 1;
    }
    assert keys[..i] == keys;
    OriginalsAreKeys(db, seen, valid);
    MergedCovers(db, seen, entries, s, out);
    return Some(out);
  }

  /** The original that is already taken stays where it is. */
  ghost predicate Kept(entries: map<Path, Object>, row: Row, out: map<Path, Object>) {
    row.original in entries && row.original in out && out[row.original] == entries[row.original]
  }

  lemma OriginalsAreKeys(db: Snapshot, seen: set<Sha>, valid: Path -> bool)
    requires seen <= db.rows.Keys && AllValid(db, seen, valid)
    ensures forall s :: s in seen ==> db.rows[s].original in db.rows[s].Keys()
  {
    hide NonEmpty;
    forall s | s in seen
      ensures db.rows[s].original in db.rows[s].Keys()
    {
      assert RowValid(db.rows[s], valid);
      NonEmptyHas([db.rows[s].original] + db.rows[s].others, db.rows[s].original);
    }
  }

  /** An original is taken exactly when its entry carries a hash. */
  lemma Taken(db: Snapshot, seen: set<Sha>, s: Sha, entries: map<Path, Object>, valid: Path -> bool)
    requires s in db.rows && seen <= db.rows.Keys && s !in seen && Covers(db, seen, entries)
    requires AllValid(db, seen, valid) && Separate(db, seen)
    ensures var k := db.rows[s].original;
            && (Separate(db, seen + {s}) ==> k in entries ==> entries[k].sha.None?)
            && (!Separate(db, seen + {s}) ==> k in entries && entries[k].sha.Some? && entries[k].sha != Some(s))
    ensures forall k :: k in entries && entries[k].sha.None? ==> entries[k] == Derived(k)
  {
    hide NonEmpty;
    var k := db.rows[s].original;
    OriginalsAreKeys(db, seen, valid);
    if !Separate(db, seen + {s}) {
      var a, b :| a in seen + {s} && b in seen + {s} && a != b && db.rows[a].original == db.rows[b].original;
      var t := if a == s then b else a;
      assert t in seen && (a in seen && b in seen ==> false);
      assert db.rows[t].original == k;
      assert Named(db, seen, k);
    } else {
      forall t | t in seen
        ensures db.rows[t].original != k
      {
        assert t in seen + {s} && s in seen + {s};
      }
    }
  }

  lemma MergedCovers(db: Snapshot, seen: set<Sha>, entries: map<Path, Object>, s: Sha, out: map<Path, Object>)
    requires s in db.rows && seen <= db.rows.Keys && Covers(db, seen, entries)
    requires Merged(entries, s, db.rows[s], db.rows[s].Keys(), out) && db.rows[s].original in db.rows[s].Keys()
    requires Separate(db, seen + {s}) && s !in seen && forall t :: t in seen ==> db.rows[t].original in db.rows[t].Keys()
    ensures Covers(db, seen + {s}, out)
  {
    hide NonEmpty, Separate, Named, Rightly, Row.Keys;
    forall k
      ensures k in out <==> Named(db, seen + {s}, k)
      ensures k in out ==> Rightly(db, seen + {s}, k, out[k])
    {
      NamedMore(db, seen, s, k);
      if k in out {
        RightlyMore(db, seen, entries, s, k, out);
      }
    }
  }

  lemma NamedMore(db: Snapshot, seen: set<Sha>, s: Sha, k: Path)
    requires s in db.rows && seen <= db.rows.Keys
    ensures Named(db, seen + {s}, k) <==> Named(db, seen, k) || k in db.rows[s].Keys()
  {
    hide NonEmpty;
    if Named(db, seen, k) {
      var t :| t in seen && k in db.rows[t].Keys();
      assert t in seen + {s};
    }
    if k in db.rows[s].Keys() {
      assert s in seen + {s};
    }
  }

  lemma RightlyMore(db: Snapshot, seen: set<Sha>, entries: map<Path, Object>, s: Sha, k: Path, out: map<Path, Object>)
    requires s in db.rows && seen <= db.rows.Keys && k in out && s !in seen
    requires k in entries ==> Rightly(db, seen, k, entries[k])
    requires k !in entries ==> !Named(db, seen, k)
    requires Separate(db, seen + {s}) && db.rows[s].original in db.rows[s].Keys()
    requires out[k] == if k == db.rows[s].original then Object(k, db.rows[s].size, Some(s))
                       else if k in entries then entries[k] else Derived(k)
    requires forall t :: t in seen ==> db.rows[t].original in db.rows[t].Keys()
    ensures Rightly(db, seen + {s}, k, out[k])
  {
    hide NonEmpty;
  }

  /** An inventory as a list: each entry once. */
  ghost predicate Lists(entries: map<Path, Object>, list: seq<Object>) {
    && (forall i, j :: 0 <= i < j < |list| ==> list[i].key != list[j].key)
    && (forall e :: e in list <==> e.key in entries && entries[e.key] == e)
  }

  method AsList(entries: map<Path, Object>) returns (list: seq<Object>)
    requires forall k :: k in entries ==> entries[k].key == k
    ensures Lists(entries, list)
  {
    list := [];
    var rest := entries.Keys;
    while rest != {}
      invariant rest <= entries.Keys
      invariant forall i, j :: 0 <= i < j < |list| ==> list[i].key != list[j].key
      invariant forall e :: e in list <==> e.key in entries.Keys - rest && entries[e.key] == e
      decreases |rest|
    {
      var k :| k in rest;
      rest := rest - {k};
      list := list + [entries[k]];
    }
  }

  /** The inventory of a database, whatever the order of its list. */
  ghost predicate IsInventory(db: Snapshot, list: seq<Object>) {
    exists entries :: Covers(db, Referenced(db), entries) && Lists(entries, list)
  }

  /** Inventory; the order of the list, which the original sorts, is left open. */
  method TakeInventory(db: Snapshot, valid: Path -> bool) returns (list: Option<seq<Object>>)
    ensures list.Some? <==> Consistent(db, valid)
    ensures list.Some? ==> IsInventory(db, list.value)
  {
    hide Covers, RowValid, Separate, AllValid, Rightly;
    if exists id :: id in db.files && db.files[id] !in db.rows {
      return None;
    }
    var visited := EachBlob(db);
    var entries: map<Path, Object> := map[];
    Nothing(db, valid);
    var i := 0;
    ghost var seen: set<Sha> := {};
    while i < |visited|
      invariant 0 <= i <= |visited| && seen == Elements(visited[..i]) && seen <= Referenced(db)
      invariant Covers(db, seen, entries) && AllValid(db, seen, valid) && Separate(db, seen)
    {
      var s := visited[i];
      assert s in Elements(visited);
      OneMore(visited, i);
      var r := Visit(db, s, entries, valid, seen);
      Outcome(db, seen, s, valid);
      if r.None? {
        return None;
      }
      entries := r.value;
      seen := seen + {s};
      i := i + 1;
    }
    assert visited[..i] == visited;
    KeysAreTheirs(db, seen, entries);
    var all := AsList(entries);
    return Some(all);
  }

  lemma KeysAreTheirs(db: Snapshot, seen: set<Sha>, entries: map<Path, Object>)
    requires seen <= db.rows.Keys && Covers(db, seen, entries)
    ensures forall k :: k in entries ==> entries[k].key == k
  {
    hide Named;
  }

  lemma Nothing(db: Snapshot, valid: Path -> bool)
    ensures Covers(db, {}, map[]) && AllValid(db, {}, valid) && Separate(db, {})
  {
    hide NonEmpty;
  }

  lemma OneMore(visited: seq<Sha>, i: nat)
    requires i < |visited| && Ascending(visited)
    ensures visited[i] !in visited[..i] && Elements(visited[..i + 1]) == Elements(visited[..i]) + {visited[i]}
  {
    assert visited[..i + 1] == visited[..i] + [visited[i]];
    forall s | s in visited[..i]
      ensures s != visited[i]
    {
      var j :| 0 <= j < i && visited[j] == s;
    }
  }

  /** One content more is fine, or the database is not. */
  lemma Outcome(db: Snapshot, seen: set<Sha>, s: Sha, valid: Path -> bool)
    requires seen <= Referenced(db) && s in Referenced(db)
    ensures RowValid(db.rows[s], valid) && AllValid(db, seen, valid) ==> AllValid(db, seen + {s}, valid)
    ensures !RowValid(db.rows[s], valid) || !Separate(db, seen + {s}) ==> !Consistent(db, valid)
  {
    hide RowValid;
    if !Separate(db, seen + {s}) {
      var t, u :| t in seen + {s} && u in seen + {s} && t != u && db.rows[t].original == db.rows[u].original;
      assert t in Referenced(db) && u in Referenced(db);
    }
  }
}
