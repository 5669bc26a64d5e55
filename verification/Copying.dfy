/** CopyVerified and copyInventory of internal/maintenance/objects.go: copying that can be resumed
    without a journal. A destination object is written once and never again. */
module Copying {
  import opened Prelude
  import opened Inventory

  type Store = map<Path, Content>

  datatype Outcome = Done | NotFound | Mismatch | ShortWrite | Failed

  /** What the storage does during one copy: any operation may fail, and a save may leave something
      other than it was given or report another length. */
  datatype Luck = Luck(readFails: bool, statFails: bool, openFails: bool, saveFails: bool, rereadFails: bool,
                       stored: Content, reported: nat)

  predicate Unlucky(l: Luck, actual: Content) {
    l.readFails || l.statFails || l.openFails || l.saveFails || l.rereadFails || l.stored != actual || l.reported != actual.size
  }

  datatype Copy = Copy(outcome: Outcome, dest: Store, saved: bool)

  predicate Matches(want: Object, actual: Content) {
    want.sha.Some? ==> actual.sha == want.sha.value && actual.size == want.size
  }

  function Verified(dest: Store, key: Path, actual: Content, rereadFails: bool): Outcome
    requires key in dest
  {
    if rereadFails then Failed else if dest[key] == actual then Done else Mismatch
  }

  /** CopyVerified, as a function of both stores. */
  function CopyOne(source: Store, dest: Store, want: Object, luck: Luck): Copy {
    var key := want.key;
    if luck.readFails then Copy(Failed, dest, false)
    else if key !in source then Copy(NotFound, dest, false)
    else if !Matches(want, source[key]) then Copy(Mismatch, dest, false)
    else if luck.statFails then Copy(Failed, dest, false)
    else if key in dest then Copy(Verified(dest, key, source[key], luck.rereadFails), dest, false)
    else if luck.openFails || luck.saveFails then Copy(Failed, dest, false)
    else
      var after := dest[key := luck.stored];
      Copy(if luck.reported != source[key].size then ShortWrite else Verified(after, key, source[key], luck.rereadFails),
           after, true)
  }

  // ---- the storage backends ---------------------------------------------------------------------------------------

  /** A storage backend, by what it holds. */
  class Backend {
    var objects: Store

    constructor (initial: Store)
      ensures objects == initial
    {
      objects := initial;
    }

    /** Fingerprint: what reading an object gives. */
    method Fingerprint(key: Path, fails: bool) returns (r: Option<Content>, outcome: Outcome)
      ensures outcome == if fails then Failed else if key in objects then Done else NotFound
      ensures r == if outcome == Done then Some(objects[key]) else None
    {
      if fails {
        return None, Failed;
      }
      if key !in objects {
        return None, NotFound;
      }
      return Some(objects[key]), Done;
    }

    /** verify. */
    method Verify(key: Path, actual: Content, fails: bool) returns (outcome: Outcome)
      requires key in objects
      ensures outcome == Verified(objects, key, actual, fails)
    {
      var got, result := Fingerprint(key, fails);
      if result != Done {
        return result;
      }
      outcome := if got.value == actual then Done else Mismatch;
    }

    /** Save replaces an object atomically or not at all. */
    method Save(key: Path, luck: Luck) returns (outcome: Outcome)
      modifies this
      ensures luck.saveFails ==> outcome == Failed && objects == old(objects)
      ensures !luck.saveFails ==> outcome == Done && objects == old(objects)[key := luck.stored]
    {
      if luck.saveFails {
        return Failed;
      }
      objects := objects[key := luck.stored];
      return Done;
    }
  }

  method CopyVerified(source: Backend, dest: Backend, want: Object, luck: Luck)
      returns (actual: Option<Content>, outcome: Outcome, saved: bool)
    requires source != dest
    modifies dest
    ensures Copy(outcome, dest.objects, saved) == CopyOne(source.objects, old(dest.objects), want, luck)
    ensures outcome == Done ==> want.key in source.objects && actual == Some(source.objects[want.key])
  {
    saved := false;
    actual, outcome := source.Fingerprint(want.key, luck.readFails);
    if outcome != Done {
      return;
    }
    if want.sha.Some? && (actual.value.sha != want.sha.value || actual.value.size != want.size) {
      return actual, Mismatch, false;
    }
    if luck.statFails {
      return actual, Failed, false;
    }
    if want.key in dest.objects {
      outcome := dest.Verify(want.key, actual.value, luck.rereadFails);
      return;
    }
    if luck.openFails {
      return actual, Failed, false;
    }
    outcome := dest.Save(want.key, luck);
    if outcome != Done {
      return;
    }
    saved := true;
    if luck.reported != actual.value.size {
      return actual, ShortWrite, true;
    }
    outcome := dest.Verify(want.key, actual.value, luck.rereadFails);
  }

  // ---- a whole inventory ------------------------------------------------------------------------------------------

  predicate IsDerived(entry: Object) { entry.sha.None? }

  /** Where copying stands: what has been copied, None once it has stopped on an error. */
  datatype Run = Run(copied: Option<seq<Object>>, dest: Store, saves: nat)

  function AsObject(key: Path, c: Content): Object { Object(key, c.size, Some(c.sha)) }

  function Next(source: Store, run: Run, entry: Object, luck: Luck): Run {
    if run.copied.None? then run
    else
      var c := CopyOne(source, run.dest, entry, luck);
      var saves := run.saves + (if c.saved then 1 else 0);
      if c.outcome == NotFound && IsDerived(entry) then Run(run.copied, c.dest, saves)
      else if c.outcome != Done || entry.key !in source then Run(None, c.dest, saves)
      else Run(Some(run.copied.value + [AsObject(entry.key, source[entry.key])]), c.dest, saves)
  }

  /** copyInventory after its first n entries, whatever the storage did at each. */
  function Progress(source: Store, dest: Store, entries: seq<Object>, luck: nat -> Luck, n: nat): Run
    requires n <= |entries|
    decreases n
  {
    if n == 0 then Run(Some([]), dest, 0)
    else Next(source, Progress(source, dest, entries, luck, n - 1), entries[n - 1], luck(n - 1))
  }

  function Finished(source: Store, dest: Store, entries: seq<Object>, luck: nat -> Luck): Run {
    Progress(source, dest, entries, luck, |entries|)
  }

  method CopyInventory(source: Backend, dest: Backend, entries: seq<Object>, luck: nat -> Luck)
      returns (copied: Option<seq<Object>>, saves: nat)
    requires source != dest
    modifies dest
    ensures Run(copied, dest.objects, saves) == Finished(source.objects, old(dest.objects), entries, luck)
  {
    hide CopyOne;
    var done: seq<Object> := [];
    saves := 0;
    var i := 0;
    while i < |entries|
      invariant 0 <= i <= |entries|
      invariant Run(Some(done), dest.objects, saves) == Progress(source.objects, old(dest.objects), entries, luck, i)
    {
      var entry := entries[i];
      DoneIsThere(source.objects, dest.objects, entry, luck(i));
      var actual, outcome, saved := CopyVerified(source, dest, entry, luck(i));
      if saved {
        saves := saves + 1;
      }
      if outcome == NotFound && IsDerived(entry) {
        i := i + 1;
        continue;
      }
      if outcome != Done {
        StopsHere(source.objects, old(dest.objects), entries, luck, i + 1, |entries|);
        return None, saves;
      }
      done := done + [AsObject(entry.key, actual.value)];
      i := i + 1;
    }
    return Some(done), saves;
  }

  lemma DoneIsThere(source: Store, dest: Store, want: Object, luck: Luck)
    ensures CopyOne(source, dest, want, luck).outcome == Done ==>
              && want.key in source && Matches(want, source[want.key])
              && want.key in CopyOne(source, dest, want, luck).dest
              && CopyOne(source, dest, want, luck).dest[want.key] == source[want.key]
    ensures CopyOne(source, dest, want, luck).outcome == NotFound ==> want.key !in source
  {
  }

  lemma {:induction false} StopsHere(source: Store, dest: Store, entries: seq<Object>, luck: nat -> Luck, n: nat, m: nat)
    requires n <= m <= |entries| && Progress(source, dest, entries, luck, n).copied.None?
    ensures Progress(source, dest, entries, luck, m) == Progress(source, dest, entries, luck, n)
    decreases m
  {
    hide CopyOne;
    if n < m {
      StopsHere(source, dest, entries, luck, n, m - 1);
    }
  }

  // ---- what copying keeps and achieves ----------------------------------------------------------------------------

  /** Nothing that was in the destination is changed. */
  ghost predicate Untouched(before: Store, after: Store) { forall k :: k in before ==> k in after && after[k] == before[k] }

  /** Every entry that the source has is in the destination as the source has it. */
  ghost predicate Equal(source: Store, dest: Store, entries: seq<Object>) {
    forall e :: e in entries && e.key in source ==> e.key in dest && dest[e.key] == source[e.key]
  }

  /** Every original is in the source, as recorded. */
  ghost predicate Complete(source: Store, entries: seq<Object>) {
    forall e :: e in entries && !IsDerived(e) ==> e.key in source && Matches(e, source[e.key])
  }

  /** The entries the source has, with what it has. */
  function Present(source: Store, entries: seq<Object>): seq<Object> {
    if entries == [] then []
    else Present(source, entries[..|entries| - 1])
         + (var e := entries[|entries| - 1]; if e.key in source then [AsObject(e.key, source[e.key])] else [])
  }

  lemma {:induction false} NothingIsOverwritten(source: Store, dest: Store, entries: seq<Object>, luck: nat -> Luck, n: nat)
    requires n <= |entries|
    ensures var run := Progress(source, dest, entries, luck, n);
            && Untouched(dest, run.dest)
            && (forall k :: k in run.dest ==> k in dest || (k in source && exists e :: e in entries && e.key == k))
            && (run.saves == 0 ==> run.dest == dest)
    decreases n
  {
    if n > 0 {
      NothingIsOverwritten(source, dest, entries, luck, n - 1);
      assert entries[n - 1] in entries;
    }
  }

  /** A run that succeeds leaves every original, and every derived object there is, equal to the source. */
  lemma {:induction false} SuccessMeansEqual(source: Store, dest: Store, entries: seq<Object>, luck: nat -> Luck, n: nat)
    requires n <= |entries| && Progress(source, dest, entries, luck, n).copied.Some?
    ensures var run := Progress(source, dest, entries, luck, n);
            && Equal(source, run.dest, entries[..n]) && Complete(source, entries[..n])
            && run.copied.value == Present(source, entries[..n])
    decreases n
  {
    hide Next, Equal, Complete, Present;
    if n == 0 {
      NothingIsEqual(source, dest, entries);
    } else {
      var before, e := Progress(source, dest, entries, luck, n - 1), entries[n - 1];
      NextNeedsCopied(source, before, e, luck(n - 1));
      SuccessMeansEqual(source, dest, entries, luck, n - 1);
      assert entries[..n] == entries[..n - 1] + [e];
      OneMoreEqual(source, before, entries[..n - 1], e, luck(n - 1));
    }
  }

  lemma NextNeedsCopied(source: Store, before: Run, e: Object, luck: Luck)
    requires Next(source, before, e, luck).copied.Some?
    ensures before.copied.Some?
  {
  }

  lemma NothingIsEqual(source: Store, dest: Store, entries: seq<Object>)
    ensures Equal(source, dest, entries[..0]) && Complete(source, entries[..0]) && Present(source, entries[..0]) == []
  {
  }

  lemma OneMoreEqual(source: Store, before: Run, es: seq<Object>, e: Object, luck: Luck)
    requires before.copied.Some? && Next(source, before, e, luck).copied.Some?
    requires Equal(source, before.dest, es) && Complete(source, es) && before.copied.value == Present(source, es)
    ensures var run := Next(source, before, e, luck);
            && Equal(source, run.dest, es + [e]) && Complete(source, es + [e])
            && run.copied.value == Present(source, es + [e])
  {
    hide CopyOne;
    assert (es + [e])[..|es|] == es;
    DoneIsThere(source, before.dest, e, luck);
    OneCopyTouchesNothing(source, before.dest, e, luck);
  }

  lemma OneCopyTouchesNothing(source: Store, dest: Store, want: Object, luck: Luck)
    ensures Untouched(dest, CopyOne(source, dest, want, luck).dest)
  {
  }

  /** When the destination has every entry the source has, nothing is saved, whatever happens. */
  lemma {:induction false} SettledRunSavesNothing(source: Store, dest: Store, entries: seq<Object>, luck: nat -> Luck, n: nat)
    requires n <= |entries| && forall e :: e in entries && e.key in source ==> e.key in dest
    ensures var run := Progress(source, dest, entries, luck, n);
            run.saves == 0 && run.dest == dest
    decreases n
  {
    if n > 0 {
      SettledRunSavesNothing(source, dest, entries, luck, n - 1);
      assert entries[n - 1] in entries;
    }
  }

  /** Migration resumes without a journal. Whatever the first run left behind when it stopped, at any
      entry and after any trouble, a second run that succeeds makes every original and every existing
      derived object equal to the source, nothing that was in the destination before either run is
      changed, and a third run saves nothing at all. */
  lemma MigrationResumes(source: Store, dest: Store, entries: seq<Object>, first: nat -> Luck, stopped: nat,
                         second: nat -> Luck, third: nat -> Luck)
    requires stopped <= |entries|
    requires Finished(source, Progress(source, dest, entries, first, stopped).dest, entries, second).copied.Some?
    ensures var left := Progress(source, dest, entries, first, stopped).dest;
            var result := Finished(source, left, entries, second).dest;
            && Equal(source, result, entries) && Complete(source, entries)
            && Untouched(dest, left) && Untouched(left, result)
            && Finished(source, result, entries, third).saves == 0
            && Finished(source, result, entries, third).dest == result
  {
    hide Next;
    var left := Progress(source, dest, entries, first, stopped).dest;
    NothingIsOverwritten(source, dest, entries, first, stopped);
    NothingIsOverwritten(source, left, entries, second, |entries|);
    SuccessMeansEqual(source, left, entries, second, |entries|);
    assert entries[..|entries|] == entries;
    var result := Finished(source, left, entries, second).dest;
    SettledRunSavesNothing(source, result, entries, third, |entries|);
  }

  /** And with storage that works, a run succeeds exactly when the source has every original as
      recorded and the destination holds nothing that differs. */
  lemma {:induction false} LuckyRunSucceeds(source: Store, dest: Store, entries: seq<Object>, luck: nat -> Luck, n: nat)
    requires n <= |entries|
    requires forall i: nat :: i < |entries| && entries[i].key in source ==> !Unlucky(luck(i), source[entries[i].key])
    requires forall i: nat :: i < |entries| ==> !luck(i).readFails
    ensures Progress(source, dest, entries, luck, n).copied.Some? <==>
              Complete(source, entries[..n])
              && forall e :: e in entries[..n] && e.key in source && e.key in dest ==> dest[e.key] == source[e.key]
    decreases n
  {
    hide Next, Complete, Unlucky;
    if n == 0 {
      NothingIsEqual(source, dest, entries);
    } else {
      LuckyRunSucceeds(source, dest, entries, luck, n - 1);
      var before, e := Progress(source, dest, entries, luck, n - 1), entries[n - 1];
      assert entries[..n] == entries[..n - 1] + [e];
      CompleteMore(source, entries[..n - 1], e);
      if before.copied.Some? {
        SuccessMeansEqual(source, dest, entries, luck, n - 1);
        NothingIsOverwritten(source, dest, entries, luck, n - 1);
        NewIsEqual(source, dest, entries, luck, n - 1);
        LuckyNext(source, before, e, luck(n - 1));
      } else {
        StoppedStays(source, before, e, luck(n - 1));
      }
    }
  }

  lemma CompleteMore(source: Store, es: seq<Object>, e: Object)
    ensures Complete(source, es + [e]) <==> Complete(source, es) && (!IsDerived(e) ==> e.key in source && Matches(e, source[e.key]))
  {
    if Complete(source, es + [e]) {
      forall x | x in es && !IsDerived(x)
        ensures x.key in source && Matches(x, source[x.key])
      {
        assert x in es + [e];
      }
      assert e in es + [e];
    }
  }

  lemma StoppedStays(source: Store, before: Run, e: Object, luck: Luck)
    requires before.copied.None?
    ensures Next(source, before, e, luck).copied.None?
  {
  }

  lemma LuckyNext(source: Store, before: Run, e: Object, luck: Luck)
    requires before.copied.Some? && !luck.readFails && (e.key in source ==> !Unlucky(luck, source[e.key]))
    ensures Next(source, before, e, luck).copied.Some? <==>
              if e.key !in source then IsDerived(e)
              else Matches(e, source[e.key]) && (e.key in before.dest ==> before.dest[e.key] == source[e.key])
  {
    hide CopyOne;
    LuckyCopy(source, before.dest, e, luck);
  }

  lemma LuckyCopy(source: Store, dest: Store, want: Object, luck: Luck)
    requires !luck.readFails && (want.key in source ==> !Unlucky(luck, source[want.key]))
    ensures CopyOne(source, dest, want, luck).outcome ==
            if want.key !in source then NotFound
            else if !Matches(want, source[want.key]) then Mismatch
            else if want.key in dest && dest[want.key] != source[want.key] then Mismatch
            else Done
  {
  }

  /** What a run has added so far is equal to the source. */
  lemma {:induction false} NewIsEqual(source: Store, dest: Store, entries: seq<Object>, luck: nat -> Luck, n: nat)
    requires n <= |entries| && Progress(source, dest, entries, luck, n).copied.Some?
    ensures forall k :: k in Progress(source, dest, entries, luck, n).dest && k !in dest ==>
              k in source && Progress(source, dest, entries, luck, n).dest[k] == source[k]
    decreases n
  {
    if n > 0 {
      NewIsEqual(source, dest, entries, luck, n - 1);
    }
  }
}
