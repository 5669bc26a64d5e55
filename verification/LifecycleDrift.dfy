/** Runs from the first start of an installation, one for each kind of step that charges an account too
    much or too little, to a world in which nothing is in flight and the charge is wrong. */
module LifecycleDrift {
  import opened Prelude
  import opened Tables
  import opened Lifecycle
  import opened LifecycleAccounts
  import opened LifecycleFault
  import ContentLock

  // ---- one account and one content ---------------------------------------------------------------------------------

  const OWNER: User := 3
  const OWN := Up(7, 1, Some(OWNER), false)
  const OWNED := File(7, 0, Some(OWNER), 1)

  const NO_FILES: map<Id, File> := map[]
  const ONE_FILE: map<Id, File> := map[1 := OWNED]
  const TWO_FILES: map<Id, File> := map[1 := OWNED, 2 := OWNED]
  const SECOND_FILE: map<Id, File> := map[2 := OWNED]

  const NO_BLOBS: map<Sha, Blob> := map[]

  function Counting(n: int): map<Sha, Blob> { map[7 := BLOB.(refcount := n)] }

  function Ledger(charged: int, files: map<Id, File>, blobs: map<Sha, Blob>): Db {
    Db(files, blobs, map[OWNER := charged], map[])
  }

  const EMPTY_ACCOUNT := FIRST_START.(db := Ledger(0, NO_FILES, NO_BLOBS))

  /** The account is charged so much and owns so much, and no thread owes it anything. */
  ghost predicate Settled(steps: seq<Step>, charged: int, owned: nat) {
    && Initial(EMPTY_ACCOUNT) && Run(EMPTY_ACCOUNT, steps).Some?
    && var m := Run(EMPTY_ACCOUNT, steps).value;
       m.work == map[] && OWNER in m.db.used && m.db.used[OWNER] == charged && Owned(m.db.files, OWNER) == owned
  }

  lemma WhatIsOwned()
    ensures Owned(NO_FILES, OWNER) == 0 && Owned(ONE_FILE, OWNER) == 1 && Owned(SECOND_FILE, OWNER) == 1
  {
    assert SizesFor(NO_FILES, OWNER) == map[];
    SumsAfterInsert(NO_FILES, 1, OWNED, OWNER);
    SumsAfterInsert(NO_FILES, 2, OWNED, OWNER);
    assert NO_FILES[1 := OWNED] == ONE_FILE && NO_FILES[2 := OWNED] == SECOND_FILE;
  }

  lemma AccountIsNew()
    ensures Initial(EMPTY_ACCOUNT)
  {
  }

  /** The server stops with nothing left to lose, or with what is lost. */
  lemma Stopped(steps: seq<Step>, db: Db, objects: map<Key, nat>, used: set<Id>, wk: Work) returns (all: seq<Step>)
    requires Run(EMPTY_ACCOUNT, steps) == Some(Busy(db, objects, used, 0, wk))
    ensures Run(EMPTY_ACCOUNT, all) == Some(Idle(db, objects, used, 0))
  {
    hide Run;
    all := Then(EMPTY_ACCOUNT, steps, Busy(db, objects, used, 0, wk), StopServer, Idle(db, objects, used, 0));
  }

  // ---- an upload, as far as it goes ----------------------------------------------------------------------------------

  lemma ClaimGoesOn(ok: bool)
    ensures Leads(Busy(Ledger(0, NO_FILES, NO_BLOBS), map[], {}, 0, UpReserve(OWN, KeysUnder(0))), ClaimBytes(5, ok, true),
                  Ledger(1, NO_FILES, NO_BLOBS), map[], if ok then UpStat(OWN, KeysUnder(0)) else Unlock(7, NOTHING))
  {
    var db := Ledger(0, NO_FILES, NO_BLOBS);
    assert db.used[OWNER := 1] == map[OWNER := 1];
  }

  /** An upload by the account gets as far as its reservation, which takes effect. */
  lemma Claimed(ok: bool) returns (steps: seq<Step>)
    ensures Run(EMPTY_ACCOUNT, steps) == Some(Busy(Ledger(1, NO_FILES, NO_BLOBS), map[], {}, 0,
                                                   if ok then UpStat(OWN, KeysUnder(0)) else Unlock(7, NOTHING)))
  {
    hide Run, Leads, KeysUnder, Ledger;
    var db := Ledger(0, NO_FILES, NO_BLOBS);
    var next := if ok then UpStat(OWN, KeysUnder(0)) else Unlock(7, NOTHING);
    RunNothing(EMPTY_ACCOUNT);
    steps := UploadStarts(EMPTY_ACCOUNT, [], db, map[], {}, 0, 0, OWN);
    NothingIsFound(db, map[], {}, 0, OWN);
    steps := Works(EMPTY_ACCOUNT, steps, Busy(db, map[], {}, 0, UpCheck(OWN)), Check(5, None), Busy(db, map[], {}, 0, UpProcess(OWN)));
    UploadIsRendered(db, map[], {}, 0, OWN);
    steps := Works(EMPTY_ACCOUNT, steps, Busy(db, map[], {}, 0, UpProcess(OWN)), Process(5, true, 0, Some(0), None),
                   Busy(db, map[], {}, 0, UpReserve(OWN, KeysUnder(0))));
    ClaimGoesOn(ok);
    steps := Works(EMPTY_ACCOUNT, steps, Busy(db, map[], {}, 0, UpReserve(OWN, KeysUnder(0))), ClaimBytes(5, ok, true),
                   Busy(Ledger(1, NO_FILES, NO_BLOBS), map[], {}, 0, next));
  }

  lemma InsertGoesOn(charged: int, ok: bool)
    ensures var w := Busy(Ledger(charged, NO_FILES, NOTED), FIRST_OBJECTS, {}, 0, UpInsert(OWN, KeysUnder(0)));
            && Enabled(w, Insert(5, 1, ok, true))
            && Apply(w, Insert(5, 1, ok, true))
               == Busy(Ledger(charged, ONE_FILE, Counting(1)), FIRST_OBJECTS, {1}, 0,
                       if ok then Unlock(7, NOTHING) else UpRefund(OWN, KeysUnder(0), true))
  {
    var w := Busy(Ledger(charged, NO_FILES, NOTED), FIRST_OBJECTS, {}, 0, UpInsert(OWN, KeysUnder(0)));
    assert NewFile(w.work[5]) == OWNED && NO_FILES[1 := OWNED] == ONE_FILE;
    assert NOTED[7 := NOTED[7].(refcount := 1)] == Counting(1);
    hide Apply, ThreadStep, LockStep, ProcessStep, LockEnabled, ProcessEnabled, BeginEnabled, BeginWork, StoredBytes;
    assert ThreadEnabled(w, Insert(5, 1, ok, true));
    assert NextDb(w, Insert(5, 1, ok, true)) == Ledger(charged, ONE_FILE, Counting(1));
    assert {} + ONE_FILE.Keys == {1};
    ApplyIs(w, Insert(5, 1, ok, true));
    ThreadFrame(w, Insert(5, 1, ok, true));
    var next := if ok then Unlock(7, NOTHING) else UpRefund(OWN, KeysUnder(0), true);
    assert w.work[5 := next] == map[5 := next];
  }

  /** From its reservation on the upload goes through, whatever the account is charged meanwhile, to an
      insert that takes effect. */
  lemma Recorded(steps: seq<Step>, charged: int, ok: bool) returns (all: seq<Step>)
    requires Run(EMPTY_ACCOUNT, steps) == Some(Busy(Ledger(charged, NO_FILES, NO_BLOBS), map[], {}, 0, UpStat(OWN, KeysUnder(0))))
    ensures Run(EMPTY_ACCOUNT, all) == Some(Busy(Ledger(charged, ONE_FILE, Counting(1)), FIRST_OBJECTS, {1}, 0,
                                                 if ok then Unlock(7, NOTHING) else UpRefund(OWN, KeysUnder(0), true)))
  {
    hide Run, Leads, KeysUnder, Apply, Enabled;
    var db := Ledger(charged, NO_FILES, NO_BLOBS);
    all := FirstObjects(EMPTY_ACCOUNT, steps, db, OWN);
    var w := Busy(Ledger(charged, NO_FILES, NOTED), FIRST_OBJECTS, {}, 0, UpInsert(OWN, KeysUnder(0)));
    RecordGoesOn(db, OWN);
    all := Works(EMPTY_ACCOUNT, all, Busy(db, FIRST_OBJECTS, {}, 0, UpEnsure(OWN, KeysUnder(0))), Ensure(5, true, true), w);
    InsertGoesOn(charged, ok);
    all := Then(EMPTY_ACCOUNT, all, w, Insert(5, 1, ok, true),
                Busy(Ledger(charged, ONE_FILE, Counting(1)), FIRST_OBJECTS, {1}, 0,
                     if ok then Unlock(7, NOTHING) else UpRefund(OWN, KeysUnder(0), true)));
  }

  // ---- charged too much ------------------------------------------------------------------------------------------------

  /** The server stops while an upload has its reservation. */
  lemma StopOvercharges() returns (steps: seq<Step>)
    ensures Settled(steps, 1, 0)
  {
    hide Run;
    AccountIsNew();
    WhatIsOwned();
    steps := Claimed(true);
    steps := Stopped(steps, Ledger(1, NO_FILES, NO_BLOBS), map[], {}, UpStat(OWN, KeysUnder(0)));
  }

  /** The reservation takes effect and answers with an error. */
  lemma UnheardClaimOvercharges() returns (steps: seq<Step>)
    ensures Settled(steps, 1, 0)
  {
    hide Run;
    AccountIsNew();
    WhatIsOwned();
    steps := Claimed(false);
    steps := Stopped(steps, Ledger(1, NO_FILES, NO_BLOBS), map[], {}, Unlock(7, NOTHING));
  }

  lemma FailureGoesOn()
    ensures var db := Ledger(1, NO_FILES, NO_BLOBS);
            && Leads(Busy(db, map[], {}, 0, UpStat(OWN, KeysUnder(0))), Stat(5, false), db, map[], UpRefund(OWN, KeysUnder(0), false))
            && Leads(Busy(db, map[], {}, 0, UpRefund(OWN, KeysUnder(0), false)), GiveRefund(5, false), db, map[], Unlock(7, NOTHING))
  {
    hide ContentKeys;
  }

  /** The upload fails, and so does its release. */
  lemma ReleaseFailureOvercharges() returns (steps: seq<Step>)
    ensures Settled(steps, 1, 0)
  {
    hide Run, Leads, KeysUnder;
    AccountIsNew();
    WhatIsOwned();
    var db := Ledger(1, NO_FILES, NO_BLOBS);
    steps := Claimed(true);
    FailureGoesOn();
    steps := Works(EMPTY_ACCOUNT, steps, Busy(db, map[], {}, 0, UpStat(OWN, KeysUnder(0))), Stat(5, false),
                   Busy(db, map[], {}, 0, UpRefund(OWN, KeysUnder(0), false)));
    steps := Works(EMPTY_ACCOUNT, steps, Busy(db, map[], {}, 0, UpRefund(OWN, KeysUnder(0), false)), GiveRefund(5, false),
                   Busy(db, map[], {}, 0, Unlock(7, NOTHING)));
    steps := Stopped(steps, db, map[], {}, Unlock(7, NOTHING));
  }

  // ---- charged too little ----------------------------------------------------------------------------------------------

  /** Usage is recomputed while the upload has its reservation and not yet its row. */
  lemma RecountUndercharges() returns (steps: seq<Step>)
    ensures Settled(steps, 0, 1)
  {
    hide Run, KeysUnder, Recompute;
    AccountIsNew();
    WhatIsOwned();
    steps := Claimed(true);
    var w := Busy(Ledger(1, NO_FILES, NO_BLOBS), map[], {}, 0, UpStat(OWN, KeysUnder(0)));
    Recounted();
    steps := Then(EMPTY_ACCOUNT, steps, w, RecomputeUsage, w.(db := Ledger(0, NO_FILES, NO_BLOBS)));
    steps := Recorded(steps, 0, true);
    steps := Stopped(steps, Ledger(0, ONE_FILE, Counting(1)), FIRST_OBJECTS, {1}, Unlock(7, NOTHING));
  }

  lemma Recounted()
    ensures Recompute(Ledger(1, NO_FILES, NO_BLOBS)) == Ledger(0, NO_FILES, NO_BLOBS)
  {
    WhatIsOwned();
    assert Recompute(Ledger(1, NO_FILES, NO_BLOBS)).used == map[OWNER := 0];
  }

  lemma RefundGoesOn()
    ensures Leads(Busy(Ledger(1, ONE_FILE, Counting(1)), FIRST_OBJECTS, {1}, 0, UpRefund(OWN, KeysUnder(0), true)), GiveRefund(5, true),
                  Ledger(0, ONE_FILE, Counting(1)), FIRST_OBJECTS, Discard(7, KeysUnder(0).All()))
  {
    hide ContentKeys;
    assert Ledger(1, ONE_FILE, Counting(1)).used[OWNER := 0] == map[OWNER := 0];
  }

  /** The insert takes effect and answers with an error, and the upload gives its bytes back. */
  lemma UnheardInsertUndercharges() returns (steps: seq<Step>)
    ensures Settled(steps, 0, 1)
  {
    hide Run, Leads, KeysUnder;
    AccountIsNew();
    WhatIsOwned();
    steps := Claimed(true);
    steps := Recorded(steps, 1, false);
    RefundGoesOn();
    steps := Works(EMPTY_ACCOUNT, steps,
                   Busy(Ledger(1, ONE_FILE, Counting(1)), FIRST_OBJECTS, {1}, 0, UpRefund(OWN, KeysUnder(0), true)), GiveRefund(5, true),
                   Busy(Ledger(0, ONE_FILE, Counting(1)), FIRST_OBJECTS, {1}, 0, Discard(7, KeysUnder(0).All())));
    steps := Stopped(steps, Ledger(0, ONE_FILE, Counting(1)), FIRST_OBJECTS, {1}, Discard(7, KeysUnder(0).All()));
  }

  // ---- deletions -------------------------------------------------------------------------------------------------------

  /** A server that runs, with these threads at work outside the content lock. */
  function Serving(db: Db, used: set<Id>, work: map<Tid, Work>): World {
    World(db, FIRST_OBJECTS, ContentLock.EMPTY, work, used, Current, false, {}, NoBackup, 0, 0)
  }

  const LOADED := DelRow(1, OWNED, false)
  const OWED := Claim(Some(OWNER), 1)

  /** The upload is through and the server was stopped. */
  lemma Stored() returns (steps: seq<Step>)
    ensures Run(EMPTY_ACCOUNT, steps) == Some(Idle(Ledger(1, ONE_FILE, Counting(1)), FIRST_OBJECTS, {1}, 0))
  {
    hide Run, KeysUnder;
    steps := Claimed(true);
    steps := Recorded(steps, 1, true);
    steps := Stopped(steps, Ledger(1, ONE_FILE, Counting(1)), FIRST_OBJECTS, {1}, Unlock(7, NOTHING));
  }

  /** The server is started and a request loads the first file to delete it. */
  lemma Loaded(steps: seq<Step>, db: Db, used: set<Id>) returns (all: seq<Step>)
    requires Run(EMPTY_ACCOUNT, steps) == Some(Idle(db, FIRST_OBJECTS, used, 0)) && 1 in db.files && db.files[1] == OWNED
    ensures Run(EMPTY_ACCOUNT, all) == Some(Serving(db, used, map[5 := LOADED]))
  {
    hide Run;
    all := Then(EMPTY_ACCOUNT, steps, Idle(db, FIRST_OBJECTS, used, 0), StartServer(false, 0), Serving(db, used, map[]));
    assert map[][5 := LOADED] == map[5 := LOADED];
    all := Then(EMPTY_ACCOUNT, all, Serving(db, used, map[]), BeginDelete(5, 1, false), Serving(db, used, map[5 := LOADED]));
  }

  lemma FileIsDeleted(charged: int, files: map<Id, File>, n: int, rest: map<Id, File>, gone: set<Id>)
    requires files - {1} == rest && References(files, 7) * {1} == gone
    ensures DeleteFiles(Ledger(charged, files, Counting(n)), {1}) == Ledger(charged, rest, Counting(n - |gone|))
  {
    hide References;
    var db := Ledger(charged, files, Counting(n));
    UncountedAt(db, {1}, 7);
    assert Uncounted(db, {1}) == Counting(n - |gone|);
  }

  lemma OneFileIsDeleted()
    ensures DeleteFiles(Ledger(1, ONE_FILE, Counting(1)), {1}) == Ledger(1, NO_FILES, Counting(0))
  {
    hide DeleteFiles;
    assert References(ONE_FILE, 7) * {1} == {1};
    FileIsDeleted(1, ONE_FILE, 1, NO_FILES, {1});
  }

  lemma DeletionGoesUnheard()
    ensures var w := Serving(Ledger(1, ONE_FILE, Counting(1)), {1}, map[5 := LOADED]);
            && Enabled(w, DeleteRow(5, false, true))
            && Apply(w, DeleteRow(5, false, true)) == Serving(Ledger(1, NO_FILES, Counting(0)), {1}, map[])
  {
    OneFileIsDeleted();
    var none: map<Tid, Work> := map[];
    assert map[5 := LOADED] - {5} == none;
  }

  /** The deletion takes effect and answers with an error, and gives nothing back. */
  lemma UnheardDeletionOvercharges() returns (steps: seq<Step>)
    ensures Settled(steps, 1, 0)
  {
    hide Run, Apply, Enabled;
    AccountIsNew();
    WhatIsOwned();
    steps := Stored();
    steps := Loaded(steps, Ledger(1, ONE_FILE, Counting(1)), {1});
    DeletionGoesUnheard();
    steps := Then(EMPTY_ACCOUNT, steps, Serving(Ledger(1, ONE_FILE, Counting(1)), {1}, map[5 := LOADED]), DeleteRow(5, false, true),
                  Serving(Ledger(1, NO_FILES, Counting(0)), {1}, map[]));
  }

  lemma ReuseIsFound()
    ensures Leads(Busy(Ledger(1, ONE_FILE, Counting(1)), FIRST_OBJECTS, {1}, 0, UpCheck(OWN)), Check(5, Some(1)),
                  Ledger(1, ONE_FILE, Counting(1)), FIRST_OBJECTS, ReuseReserve(OWN, 0))
  {
    hide NextDb, NextObjects, Reusable;
    NothingElseHappens(Busy(Ledger(1, ONE_FILE, Counting(1)), FIRST_OBJECTS, {1}, 0, UpCheck(OWN)), Check(5, Some(1)));
    SameRenditions();
  }

  lemma NothingElseHappens(w: World, s: Step)
    requires s.Check? && ThreadEnabled(w, s)
    ensures NextDb(w, s) == w.db && NextObjects(w, s) == w.objects
  {
    hide NextWork;
  }

  lemma SameRenditions()
    ensures Reusable(0, OWNED, Counting(1)[7])
  {
  }

  lemma ReuseIsClaimed()
    ensures Leads(Busy(Ledger(1, ONE_FILE, Counting(1)), FIRST_OBJECTS, {1}, 0, ReuseReserve(OWN, 0)), ClaimBytes(5, true, true),
                  Ledger(2, ONE_FILE, Counting(1)), FIRST_OBJECTS, ReuseInsert(OWN, 0, 4))
  {
    hide StoredBytes;
    assert Ledger(1, ONE_FILE, Counting(1)).used[OWNER := 2] == map[OWNER := 2];
  }

  lemma SecondRowGoesOn()
    ensures var w := Busy(Ledger(2, ONE_FILE, Counting(1)), FIRST_OBJECTS, {1}, 0, ReuseInsert(OWN, 0, 4));
            && Enabled(w, Insert(5, 2, true, true))
            && Apply(w, Insert(5, 2, true, true)) == Busy(Ledger(2, TWO_FILES, Counting(2)), FIRST_OBJECTS, {1, 2}, 0, Unlock(7, NOTHING))
  {
    var w := Busy(Ledger(2, ONE_FILE, Counting(1)), FIRST_OBJECTS, {1}, 0, ReuseInsert(OWN, 0, 4));
    assert NewFile(w.work[5]) == OWNED && ONE_FILE[2 := OWNED] == TWO_FILES;
    assert Counting(1)[7 := Counting(1)[7].(refcount := 2)] == Counting(2);
    hide Apply, ThreadStep, LockStep, ProcessStep, LockEnabled, ProcessEnabled, BeginEnabled, BeginWork, StoredBytes;
    assert ThreadEnabled(w, Insert(5, 2, true, true));
    assert NextDb(w, Insert(5, 2, true, true)) == Ledger(2, TWO_FILES, Counting(2));
    assert {1} + TWO_FILES.Keys == {1, 2};
    ApplyIs(w, Insert(5, 2, true, true));
    ThreadFrame(w, Insert(5, 2, true, true));
    assert w.work[5 := Unlock(7, NOTHING)] == map[5 := Unlock(7, NOTHING)];
  }

  /** The account uploads the same content again, and it is reused. */
  lemma StoredTwice() returns (steps: seq<Step>)
    ensures Run(EMPTY_ACCOUNT, steps) == Some(Idle(Ledger(2, TWO_FILES, Counting(2)), FIRST_OBJECTS, {1, 2}, 0))
  {
    hide Run, Leads, Apply, Enabled;
    steps := Stored();
    var one, two := Ledger(1, ONE_FILE, Counting(1)), Ledger(2, ONE_FILE, Counting(1));
    steps := UploadStarts(EMPTY_ACCOUNT, steps, one, FIRST_OBJECTS, {1}, 0, 0, OWN);
    ReuseIsFound();
    ReuseIsClaimed();
    steps := Works(EMPTY_ACCOUNT, steps, Busy(one, FIRST_OBJECTS, {1}, 0, UpCheck(OWN)), Check(5, Some(1)),
                   Busy(one, FIRST_OBJECTS, {1}, 0, ReuseReserve(OWN, 0)));
    steps := Works(EMPTY_ACCOUNT, steps, Busy(one, FIRST_OBJECTS, {1}, 0, ReuseReserve(OWN, 0)), ClaimBytes(5, true, true),
                   Busy(two, FIRST_OBJECTS, {1}, 0, ReuseInsert(OWN, 0, 4)));
    SecondRowGoesOn();
    steps := Then(EMPTY_ACCOUNT, steps, Busy(two, FIRST_OBJECTS, {1}, 0, ReuseInsert(OWN, 0, 4)), Insert(5, 2, true, true),
                  Busy(Ledger(2, TWO_FILES, Counting(2)), FIRST_OBJECTS, {1, 2}, 0, Unlock(7, NOTHING)));
    steps := Stopped(steps, Ledger(2, TWO_FILES, Counting(2)), FIRST_OBJECTS, {1, 2}, Unlock(7, NOTHING));
  }

  lemma FirstOfTwoIsDeleted()
    ensures DeleteFiles(Ledger(2, TWO_FILES, Counting(2)), {1}) == Ledger(2, SECOND_FILE, Counting(1))
  {
    hide DeleteFiles;
    assert References(TWO_FILES, 7) * {1} == {1};
    FileIsDeleted(2, TWO_FILES, 2, SECOND_FILE, {1});
  }

  lemma NothingIsDeleted()
    ensures DeleteFiles(Ledger(2, SECOND_FILE, Counting(1)), {1}) == Ledger(2, SECOND_FILE, Counting(1))
  {
    hide DeleteFiles;
    assert References(SECOND_FILE, 7) * {1} == {};
    FileIsDeleted(2, SECOND_FILE, 1, SECOND_FILE, {});
  }

  lemma DeletionGoesOn(db: Db, next: Db, t: Tid, work: map<Tid, Work>)
    requires t in work && work[t] == LOADED && DeleteFiles(db, {1}) == next
    ensures var w := Serving(db, {1, 2}, work);
            && Enabled(w, DeleteRow(t, true, true))
            && Apply(w, DeleteRow(t, true, true)) == Serving(next, {1, 2}, work[t := RelLock(7, OWED)])
  {
    hide DeleteFiles;
  }

  /** The lock table while one thread stands in it, at this place. */
  function Alone(l: ContentLock.Locks, slot: nat, ready: bool, t: Tid, phase: ContentLock.Phase): ContentLock.Locks {
    ContentLock.Locks(map[7 := slot], l.heap[slot := ContentLock.Entry(ready, 1)], map[t := phase])
  }

  /** And when it has left. */
  function Left(l: ContentLock.Locks, slot: nat): ContentLock.Locks { l.(heap := l.heap[slot := ContentLock.Entry(true, 0)]) }

  ghost predicate Free(l: ContentLock.Locks, slot: nat) { l.table == map[] && l.phase == map[] && slot !in l.heap }

  /** A thread that has deleted a row of content that is still referenced takes the content lock, finds
      it referenced, lets go and gives the row's bytes back. */
  lemma ReleaseGoesThrough(steps: seq<Step>, w: World, t: Tid, slot: nat) returns (all: seq<Step>)
    requires Run(EMPTY_ACCOUNT, steps) == Some(w) && t in w.work && w.work[t] == RelLock(7, OWED) && Free(w.locks, slot)
    requires 7 in w.db.blobs && !w.db.blobs[7].Orphaned()
    ensures Run(EMPTY_ACCOUNT, all) == Some(w.(db := Release(w.db, OWNER, 1), work := w.work - {t}, locks := Left(w.locks, slot)))
  {
    hide Run, Apply, Enabled, Alone, Left;
    var unlocking := w.(locks := Alone(w.locks, slot, false, t, ContentLock.Holding(7, slot)), work := w.work[t := Unlock(7, OWED)]);
    all := LockIsHeld(steps, w, t, slot, unlocking);
    var done := w.(locks := Left(w.locks, slot), work := w.work[t := Refund(OWED)]);
    all := LockIsGone(all, w, t, slot, unlocking, done);
    BytesAreGivenBack(done, t);
    var last := done.(db := Release(w.db, OWNER, 1), work := done.work - {t});
    all := Then(EMPTY_ACCOUNT, all, done, GiveRefund(t, true), last);
    assert last.work == w.work - {t};
  }

  lemma LockIsHeld(steps: seq<Step>, w: World, t: Tid, slot: nat, next: World) returns (all: seq<Step>)
    requires Run(EMPTY_ACCOUNT, steps) == Some(w) && t in w.work && w.work[t] == RelLock(7, OWED) && Free(w.locks, slot)
    requires 7 in w.db.blobs && !w.db.blobs[7].Orphaned()
    requires next == w.(locks := Alone(w.locks, slot, false, t, ContentLock.Holding(7, slot)), work := w.work[t := Unlock(7, OWED)])
    ensures Run(EMPTY_ACCOUNT, all) == Some(next)
  {
    hide Run, Apply, Enabled, Alone;
    var waits := w.(locks := Alone(w.locks, slot, true, t, ContentLock.Waiting(7, slot)));
    var holds := w.(locks := Alone(w.locks, slot, false, t, ContentLock.Holding(7, slot)), work := w.work[t := RelCheck(7, OWED)]);
    LockIsTaken(w, t, slot, waits, holds);
    all := Then(EMPTY_ACCOUNT, steps, w, Acquire(t, slot), waits);
    all := Then(EMPTY_ACCOUNT, all, waits, Obtain(t), holds);
    assert holds.work[t := Unlock(7, OWED)] == next.work;
    ContentIsReferenced(holds, t, next);
    all := Then(EMPTY_ACCOUNT, all, holds, RelRead(t, false), next);
  }

  lemma LockIsGone(steps: seq<Step>, w: World, t: Tid, slot: nat, now: World, next: World) returns (all: seq<Step>)
    requires Run(EMPTY_ACCOUNT, steps) == Some(now) && Free(w.locks, slot)
    requires now == w.(locks := Alone(w.locks, slot, false, t, ContentLock.Holding(7, slot)), work := w.work[t := Unlock(7, OWED)])
    requires next == w.(locks := Left(w.locks, slot), work := w.work[t := Refund(OWED)])
    ensures Run(EMPTY_ACCOUNT, all) == Some(next)
  {
    hide Run, Apply, Enabled, Alone, Left;
    var leaves := w.(locks := Alone(w.locks, slot, true, t, ContentLock.Leaving(7, slot)), work := w.work[t := Leave(OWED)]);
    LockIsLeft(w, t, slot, now, leaves, next);
    all := Then(EMPTY_ACCOUNT, steps, now, GiveBack(t), leaves);
    all := Then(EMPTY_ACCOUNT, all, leaves, CountOut(t), next);
  }

  /** A lock step changes the lock table and the place of its thread, and nothing else. */
  lemma LockLeads(w: World, s: Step, locks: ContentLock.Locks, wk: Work)
    requires IsLockStep(s) && LockEnabled(w, s)
    requires ContentLock.Apply(w.locks, LockOf(w, s)) == locks && LockWork(w.work[s.t], s) == Some(wk)
    ensures Enabled(w, s) && Apply(w, s) == w.(locks := locks, work := w.work[s.t := wk])
  {
    hide Apply, LockStep, LockEnabled, LockOf, LockWork, ContentLock.Apply;
    hide ThreadStep, ProcessStep, ThreadEnabled, ProcessEnabled, BeginEnabled, BeginWork;
    ApplyIs(w, s);
    LockFrame(w, s);
  }

  /** The four lock operations of a thread that is alone. */
  lemma AloneInLock(l: ContentLock.Locks, slot: nat, t: Tid)
    requires Free(l, slot)
    ensures var waits := Alone(l, slot, true, t, ContentLock.Waiting(7, slot));
            var holds := Alone(l, slot, false, t, ContentLock.Holding(7, slot));
            var leaves := Alone(l, slot, true, t, ContentLock.Leaving(7, slot));
            && ContentLock.Enabled(l, ContentLock.Enter(t, 7, slot)) && ContentLock.Apply(l, ContentLock.Enter(t, 7, slot)) == waits
            && ContentLock.Enabled(waits, ContentLock.Take(t)) && ContentLock.Apply(waits, ContentLock.Take(t)) == holds
            && ContentLock.Enabled(holds, ContentLock.Give(t)) && ContentLock.Apply(holds, ContentLock.Give(t)) == leaves
            && ContentLock.Enabled(leaves, ContentLock.Drop(t)) && ContentLock.Apply(leaves, ContentLock.Drop(t)) == Left(l, slot)
  {
    var entry := ContentLock.Entry(true, 1);
    assert l.heap[slot := entry][slot := ContentLock.Entry(false, 1)] == l.heap[slot := ContentLock.Entry(false, 1)];
    assert l.heap[slot := ContentLock.Entry(false, 1)][slot := entry] == l.heap[slot := entry];
    assert l.heap[slot := entry][slot := ContentLock.Entry(true, 0)] == l.heap[slot := ContentLock.Entry(true, 0)];
    assert map[7 := slot] - {7} == l.table && map[t := ContentLock.Leaving(7, slot)] - {t} == l.phase;
  }

  lemma LockIsTaken(w: World, t: Tid, slot: nat, waits: World, holds: World)
    requires t in w.work && w.work[t] == RelLock(7, OWED) && Free(w.locks, slot)
    requires waits == w.(locks := Alone(w.locks, slot, true, t, ContentLock.Waiting(7, slot)))
    requires holds == w.(locks := Alone(w.locks, slot, false, t, ContentLock.Holding(7, slot)), work := w.work[t := RelCheck(7, OWED)])
    ensures Enabled(w, Acquire(t, slot)) && Apply(w, Acquire(t, slot)) == waits
    ensures Enabled(waits, Obtain(t)) && Apply(waits, Obtain(t)) == holds
  {
    hide Apply, Enabled, Alone, Free, ContentLock.Apply, ContentLock.Enabled;
    AloneInLock(w.locks, slot, t);
    assert w.work[t := w.work[t]] == w.work;
    LockLeads(w, Acquire(t, slot), waits.locks, w.work[t]);
    LockLeads(waits, Obtain(t), holds.locks, RelCheck(7, OWED));
  }

  lemma ContentIsReferenced(w: World, t: Tid, next: World)
    requires t in w.work && w.work[t] == RelCheck(7, OWED) && 7 in w.db.blobs && !w.db.blobs[7].Orphaned()
    requires next == w.(work := w.work[t := Unlock(7, OWED)])
    ensures Enabled(w, RelRead(t, false)) && Apply(w, RelRead(t, false)) == next
  {
  }

  lemma GiveBackIs(w: World, t: Tid)
    requires t in w.work && w.work[t] == Unlock(7, OWED) && ContentLock.Enabled(w.locks, ContentLock.Give(t))
    ensures LockEnabled(w, GiveBack(t)) && LockOf(w, GiveBack(t)) == ContentLock.Give(t)
    ensures LockWork(w.work[t], GiveBack(t)) == Some(Leave(OWED))
  {
    hide ContentLock.Enabled;
  }

  lemma CountOutIs(w: World, t: Tid)
    requires t in w.work && w.work[t] == Leave(OWED) && ContentLock.Enabled(w.locks, ContentLock.Drop(t))
    ensures LockEnabled(w, CountOut(t)) && LockOf(w, CountOut(t)) == ContentLock.Drop(t)
    ensures LockWork(w.work[t], CountOut(t)) == Some(Refund(OWED))
  {
    hide ContentLock.Enabled;
  }

  lemma LockIsLeft(w: World, t: Tid, slot: nat, now: World, leaves: World, left: World)
    requires Free(w.locks, slot)
    requires now == w.(locks := Alone(w.locks, slot, false, t, ContentLock.Holding(7, slot)), work := w.work[t := Unlock(7, OWED)])
    requires leaves == w.(locks := Alone(w.locks, slot, true, t, ContentLock.Leaving(7, slot)), work := w.work[t := Leave(OWED)])
    requires left == w.(locks := Left(w.locks, slot), work := w.work[t := Refund(OWED)])
    ensures Enabled(now, GiveBack(t)) && Apply(now, GiveBack(t)) == leaves
    ensures Enabled(leaves, CountOut(t)) && Apply(leaves, CountOut(t)) == left
  {
    hide Apply, Enabled, Alone, Left, Free, ContentLock.Apply, ContentLock.Enabled, LockEnabled, LockOf, LockWork;
    AloneInLock(w.locks, slot, t);
    GiveBackIs(now, t);
    LockLeads(now, GiveBack(t), leaves.locks, Leave(OWED));
    CountOutIs(leaves, t);
    LockLeads(leaves, CountOut(t), left.locks, Refund(OWED));
    assert now.work[t := Leave(OWED)] == leaves.work && leaves.work[t := Refund(OWED)] == left.work;
  }

  lemma BytesAreGivenBack(w: World, t: Tid)
    requires t in w.work && w.work[t] == Refund(OWED)
    ensures Enabled(w, GiveRefund(t, true))
    ensures Apply(w, GiveRefund(t, true)) == w.(db := Release(w.db, OWNER, 1), work := w.work - {t})
  {
    hide Release;
  }

  /** Two requests have loaded the same of two files. */
  lemma BothLoaded() returns (steps: seq<Step>)
    ensures Run(EMPTY_ACCOUNT, steps) == Some(Serving(Ledger(2, TWO_FILES, Counting(2)), {1, 2}, map[5 := LOADED, 6 := LOADED]))
  {
    hide Run, Apply, Enabled;
    var full := Ledger(2, TWO_FILES, Counting(2));
    steps := StoredTwice();
    steps := Loaded(steps, full, {1, 2});
    SecondIsLoaded(full);
    steps := Then(EMPTY_ACCOUNT, steps, Serving(full, {1, 2}, map[5 := LOADED]), BeginDelete(6, 1, false),
                  Serving(full, {1, 2}, map[5 := LOADED, 6 := LOADED]));
  }

  /** Both delete it. */
  lemma BothDeleted() returns (steps: seq<Step>)
    ensures Run(EMPTY_ACCOUNT, steps)
            == Some(Serving(Ledger(2, SECOND_FILE, Counting(1)), {1, 2}, map[5 := RelLock(7, OWED), 6 := RelLock(7, OWED)]))
  {
    hide Run, Apply, Enabled, DeleteFiles, Ledger, Counting;
    var full, less := Ledger(2, TWO_FILES, Counting(2)), Ledger(2, SECOND_FILE, Counting(1));
    steps := BothLoaded();
    var w0 := Serving(full, {1, 2}, map[5 := LOADED, 6 := LOADED]);
    FirstOfTwoIsDeleted();
    DeletionGoesOn(full, less, 5, w0.work);
    var w1 := Serving(less, {1, 2}, w0.work[5 := RelLock(7, OWED)]);
    steps := Then(EMPTY_ACCOUNT, steps, w0, DeleteRow(5, true, true), w1);
    NothingIsDeleted();
    DeletionGoesOn(less, less, 6, w1.work);
    var w2 := Serving(less, {1, 2}, w1.work[6 := RelLock(7, OWED)]);
    steps := Then(EMPTY_ACCOUNT, steps, w1, DeleteRow(6, true, true), w2);
    assert w2.work == map[5 := RelLock(7, OWED), 6 := RelLock(7, OWED)];
  }

  /** Two requests load the same file and delete it one after the other, and both give its bytes back:
      the account still owns a file and is charged nothing. */
  lemma SecondDeletionUndercharges() returns (steps: seq<Step>)
    ensures Settled(steps, 0, 1)
  {
    hide Run, Counting;
    AccountIsNew();
    WhatIsOwned();
    steps := BothDeleted();
    var w := Serving(Ledger(2, SECOND_FILE, Counting(1)), {1, 2}, map[5 := RelLock(7, OWED), 6 := RelLock(7, OWED)]);
    steps := BothGiveBack(steps, w);
  }

  lemma SecondIsLoaded(db: Db)
    requires 1 in db.files && db.files[1] == OWNED
    ensures var w := Serving(db, {1, 2}, map[5 := LOADED]);
            && Enabled(w, BeginDelete(6, 1, false))
            && Apply(w, BeginDelete(6, 1, false)) == Serving(db, {1, 2}, map[5 := LOADED, 6 := LOADED])
  {
    assert map[5 := LOADED][6 := LOADED] == map[5 := LOADED, 6 := LOADED];
  }

  lemma BothGiveBack(steps: seq<Step>, w: World) returns (all: seq<Step>)
    requires Run(EMPTY_ACCOUNT, steps) == Some(w) && w.work.Keys == {5, 6} && w.work[5] == w.work[6] == RelLock(7, OWED)
    requires w == Serving(Ledger(2, SECOND_FILE, Counting(1)), {1, 2}, w.work)
    ensures Run(EMPTY_ACCOUNT, all).Some?
    ensures var m := Run(EMPTY_ACCOUNT, all).value; m.work == map[] && m.db == Ledger(0, SECOND_FILE, Counting(1))
  {
    hide Run;
    all := ReleaseGoesThrough(steps, w, 5, 0);
    var m := Run(EMPTY_ACCOUNT, all).value;
    all := ReleaseGoesThrough(all, m, 6, 1);
    assert w.work - {5} - {6} == map[];
    assert Release(Release(w.db, OWNER, 1), OWNER, 1).used == map[OWNER := 0];
  }
}
