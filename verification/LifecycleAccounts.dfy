/** Storage accounting over the same machine: what an account is charged, against what it owns and
    what its threads have claimed or still have to give back. */
module LifecycleAccounts {
  import opened Prelude
  import opened Tables
  import opened Lifecycle

  /** The bytes of account u a thread has claimed and not yet turned into a row or given back, or
      owes back for a row it has deleted. */
  ghost function Due(wk: Work, u: User): nat {
    if wk.ReuseInsert? || wk.ReuseRefund? || wk.UpStat? || wk.UpSaveOriginal? || wk.UpProbe? || wk.UpSaveThumb?
       || wk.UpSavePreview? || wk.UpEnsure? || wk.UpInsert? || wk.UpRefund?
    then if wk.up.owner == Some(u) then wk.up.size else 0
    else if DueOf(wk).owner == Some(u) then DueOf(wk).size else 0
  }

  ghost function DueNext(wk: Option<Work>, u: User): nat { if wk.Some? then Due(wk.value, u) else 0 }

  ghost function Dues(work: map<Tid, Work>, u: User): map<Tid, nat> { map t | t in work :: Due(work[t], u) }

  ghost function Pending(work: map<Tid, Work>, u: User): nat { Total(Dues(work, u)) }

  /** storage_used is owned bytes plus pending claims and releases, for every account. */
  ghost predicate Balanced(w: World) {
    forall u :: u in w.db.used ==> w.db.used[u] == Owned(w.db.files, u) + Pending(w.work, u)
  }

  /** What an account is charged beyond that. */
  ghost function Surplus(w: World, u: User): int
    requires u in w.db.used
  {
    w.db.used[u] - Owned(w.db.files, u) - Pending(w.work, u)
  }

  /** Nobody is charged too little. */
  ghost predicate Covered(w: World) { forall u :: u in w.db.used ==> Surplus(w, u) >= 0 }

  /** No account is over its quota and all files together fit the instance. */
  ghost predicate WithinLimits(w: World) {
    && (forall u :: u in w.db.used && u in w.db.quota && w.db.quota[u] != 0 ==> w.db.used[u] <= w.db.quota[u])
    && (w.limit != 0 ==> StoredBytes(w.db.files) <= w.limit)
  }

  /** Ids are never handed out twice, so a thread about to delete a row still means that row. */
  ghost predicate FreshIds(w: World) {
    && w.db.files.Keys <= w.used
    && forall t :: t in w.work && w.work[t].DelRow? ==>
         w.work[t].id in w.used && (w.work[t].id in w.db.files ==> w.db.files[w.work[t].id] == w.work[t].file)
  }

  /** A deletion that does not look at whether its row was still there, of bytes somebody pays for. */
  ghost predicate DoubleDelete(w: World, s: Step) {
    && s.DeleteRow? && s.ok && s.t in w.work && w.work[s.t].DelRow? && !w.work[s.t].checked
    && w.work[s.t].id !in w.db.files
    && w.work[s.t].file.size > 0 && w.work[s.t].file.owner.Some? && w.work[s.t].file.owner.value in w.db.used
  }

  /** The release of a failed upload or of a deleted row fails, which the server only logs. */
  ghost predicate FailedRelease(w: World, s: Step) {
    && s.GiveRefund? && !s.ok && s.t in w.work
    && exists u :: u in w.db.used && Due(w.work[s.t], u) > 0
  }

  ghost predicate InFlight(w: World) { exists u :: u in w.db.used && Pending(w.work, u) > 0 }

  /** The server stops while some account has claims or releases in flight. */
  ghost predicate LosesClaims(w: World, s: Step) { s.StopServer? && InFlight(w) }

  /** Usage is recomputed from the rows while some account has claims or releases in flight. */
  ghost predicate ForgetsClaims(w: World, s: Step) { s.RecomputeUsage? && InFlight(w) }

  /** The thread's upload has an owner who is charged for it. */
  ghost predicate Paid(w: World, up: Up) { up.size > 0 && up.owner.Some? && up.owner.value in w.db.used }

  /** A reservation takes effect and answers with an error: the upload ends without giving it back. */
  ghost predicate UnheardClaim(w: World, s: Step) {
    && s.ClaimBytes? && !s.ok && s.written && s.t in w.work && (w.work[s.t].ReuseReserve? || w.work[s.t].UpReserve?)
    && Paid(w, w.work[s.t].up) && MayReserve(w.db, w.work[s.t].up.owner.value, w.work[s.t].up.size, w.limit)
  }

  /** An insert takes effect and answers with an error: the row stays, and its bytes are given back. */
  ghost predicate UnheardInsert(w: World, s: Step) {
    && s.Insert? && !s.ok && s.written && s.t in w.work && (w.work[s.t].ReuseInsert? || w.work[s.t].UpInsert?)
    && Paid(w, w.work[s.t].up) && InsertOutcome(w.db, s.id, NewFile(w.work[s.t]), w.limit).Inserted?
  }

  /** A deletion takes effect and answers with an error: the row is gone, and its bytes stay charged. */
  ghost predicate UnheardDeletion(w: World, s: Step) {
    && s.DeleteRow? && !s.ok && s.written && s.t in w.work && w.work[s.t].DelRow? && w.work[s.t].id in w.db.files
    && w.work[s.t].file.size > 0 && w.work[s.t].file.owner.Some? && w.work[s.t].file.owner.value in w.db.used
  }

  /** The steps after which somebody is charged too much, and those after which somebody is charged too
      little. */
  ghost predicate Overcharges(w: World, s: Step) {
    FailedRelease(w, s) || LosesClaims(w, s) || UnheardClaim(w, s) || UnheardDeletion(w, s)
  }

  ghost predicate Undercharges(w: World, s: Step) { DoubleDelete(w, s) || ForgetsClaims(w, s) || UnheardInsert(w, s) }

  /** By how much a step moves what an account is charged away from what it should be. */
  ghost function Drift(w: World, s: Step, u: User): int
    requires u in w.db.used
  {
    if s.GiveRefund? && !s.ok && s.t in w.work then Due(w.work[s.t], u)
    else if s.StopServer? then Pending(w.work, u)
    else if s.RecomputeUsage? then -Surplus(w, u) - Pending(w.work, u)
    else if DoubleDelete(w, s) && w.work[s.t].file.owner == Some(u) then -(w.work[s.t].file.size as int)
    else if UnheardClaim(w, s) && w.work[s.t].up.owner == Some(u) then w.work[s.t].up.size
    else if UnheardInsert(w, s) && w.work[s.t].up.owner == Some(u) then -(w.work[s.t].up.size as int)
    else if UnheardDeletion(w, s) && w.work[s.t].file.owner == Some(u) then w.work[s.t].file.size
    else 0
  }

  // ---- pending sums ----------------------------------------------------------------------------

  lemma PendingAfter(work: map<Tid, Work>, t: Tid, wk: Option<Work>, u: User)
    ensures var work' := if wk.Some? then work[t := wk.value] else work - {t};
            Pending(work', u) + (if t in work then Due(work[t], u) else 0) == Pending(work, u) + DueNext(wk, u)
  {
    if wk.Some? {
      assert Dues(work[t := wk.value], u) == Dues(work, u)[t := Due(wk.value, u)];
      TotalSet(Dues(work, u), t, Due(wk.value, u));
    } else if t in work {
      assert Dues(work - {t}, u) == Dues(work, u) - {t};
      TotalWithout(Dues(work, u), t);
    } else {
      assert work - {t} == work;
    }
  }

  lemma PendingCovers(work: map<Tid, Work>, t: Tid, u: User)
    requires t in work
    ensures Due(work[t], u) <= Pending(work, u)
  {
    TotalWithout(Dues(work, u), t);
  }

  // ---- thread steps -------------------------------------------------------------------------------

  /** The steps that write neither rows nor charges. */
  predicate Quiet(s: Step) {
    IsThreadStep(s) && !s.ClaimBytes? && !s.Insert? && !s.GiveRefund? && !s.DeleteRow?
  }

  lemma QuietUploadDue(w: World, s: Step, u: User)
    requires s.Check? || s.Process? || s.Stat? || s.Save? || s.Ensure?
    requires ThreadEnabled(w, s)
    ensures DueNext(NextWork(w, s), u) == Due(w.work[s.t], u)
  {
  }

  lemma QuietReleaseDue(w: World, s: Step, u: User)
    requires Quiet(s) && !s.Check? && !s.Process? && !s.Stat? && !s.Save? && !s.Ensure?
    requires ThreadEnabled(w, s)
    ensures DueNext(NextWork(w, s), u) == Due(w.work[s.t], u)
  {
    if s.DiscardRead? || s.RelRead? {
      ReadDue(w, s, u);
    }
  }

  lemma ReadDue(w: World, s: Step, u: User)
    requires (s.DiscardRead? || s.RelRead?) && ThreadEnabled(w, s)
    ensures DueNext(NextWork(w, s), u) == Due(w.work[s.t], u)
  {
  }

  lemma QuietTables(w: World, s: Step)
    requires Quiet(s) && ThreadEnabled(w, s)
    ensures NextDb(w, s).files == w.db.files && NextDb(w, s).used == w.db.used
  {
  }

  /** Such a step leaves what its thread owes as it was. */
  lemma QuietDelta(w: World, s: Step, u: User)
    requires Quiet(s) && ThreadEnabled(w, s)
    ensures DueNext(NextWork(w, s), u) == Due(w.work[s.t], u)
    ensures NextDb(w, s).files == w.db.files && NextDb(w, s).used == w.db.used
  {
    QuietTables(w, s);
    if s.Check? || s.Process? || s.Stat? || s.Save? || s.Ensure? {
      QuietUploadDue(w, s, u);
    } else {
      QuietReleaseDue(w, s, u);
    }
  }

  lemma ClaimDelta(w: World, s: Step, u: User)
    requires s.ClaimBytes? && ThreadEnabled(w, s) && u in w.db.used
    ensures u in NextDb(w, s).used && NextDb(w, s).files == w.db.files
    ensures NextDb(w, s).used[u] - w.db.used[u] == DueNext(NextWork(w, s), u) - Due(w.work[s.t], u) + Drift(w, s, u)
  {
  }

  lemma InsertDelta(w: World, s: Step, u: User)
    requires s.Insert? && ThreadEnabled(w, s) && u in w.db.used
    ensures NextDb(w, s).used == w.db.used
    ensures Owned(NextDb(w, s).files, u) - Owned(w.db.files, u) ==
            Due(w.work[s.t], u) - DueNext(NextWork(w, s), u) - Drift(w, s, u)
  {
    hide StoredBytes;
    if s.id !in w.db.files {
      SumsAfterInsert(w.db.files, s.id, NewFile(w.work[s.t]), u);
    }
  }

  lemma RefundDelta(w: World, s: Step, u: User)
    requires s.GiveRefund? && ThreadEnabled(w, s) && u in w.db.used && Due(w.work[s.t], u) <= w.db.used[u]
    ensures u in NextDb(w, s).used && NextDb(w, s).files == w.db.files
    ensures NextDb(w, s).used[u] == w.db.used[u] - (if s.ok then Due(w.work[s.t], u) else 0)
    ensures DueNext(NextWork(w, s), u) == 0
  {
    hide NextWork, NextDb;
    RefundIs(w, s, u);
  }

  /** What a refund gives back is all that its thread still owed. */
  lemma RefundIs(w: World, s: Step, u: User)
    requires s.GiveRefund? && ThreadEnabled(w, s)
    ensures var wk := w.work[s.t];
            var due := if wk.Refund? then wk.due else Claim(wk.up.owner, wk.up.size);
            && NextDb(w, s) == (if s.ok then ReleaseTo(w.db, due.owner, due.size) else w.db)
            && Due(wk, u) == (if due.owner == Some(u) then due.size else 0)
            && DueNext(NextWork(w, s), u) == 0
  {
    hide Release;
  }

  lemma DeleteDelta(w: World, s: Step, u: User)
    requires s.DeleteRow? && ThreadEnabled(w, s) && u in w.db.used && FreshIds(w)
    ensures NextDb(w, s).used == w.db.used
    ensures Owned(w.db.files, u) - Owned(NextDb(w, s).files, u) ==
            DueNext(NextWork(w, s), u) - Due(w.work[s.t], u) + Drift(w, s, u)
  {
    var id := w.work[s.t].id;
    if id in w.db.files {
      SumsAfterDelete(w.db.files, id, u);
    } else {
      assert w.db.files - {id} == w.db.files;
    }
  }

  lemma RefundDrift(w: World, s: Step, u: User)
    requires s.GiveRefund? && s.t in w.work && u in w.db.used
    ensures Drift(w, s, u) == if s.ok then 0 else Due(w.work[s.t], u)
  {
  }

  lemma QuietDrift(w: World, s: Step, u: User)
    requires Quiet(s) && u in w.db.used
    ensures Drift(w, s, u) == 0
  {
  }

  /** The books move together: charge, ownership and debt of the thread, but for the drift. */
  lemma NextDrifts(w: World, s: Step, u: User)
    requires IsThreadStep(s) && ThreadEnabled(w, s) && u in w.db.used && FreshIds(w) && Due(w.work[s.t], u) <= w.db.used[u]
    ensures u in NextDb(w, s).used
    ensures NextDb(w, s).used[u] - w.db.used[u] ==
            Owned(NextDb(w, s).files, u) - Owned(w.db.files, u) + DueNext(NextWork(w, s), u) - Due(w.work[s.t], u) + Drift(w, s, u)
  {
    hide NextWork, NextDb, Owned, FreshIds, Due, DueNext, Drift;
    match s
    case ClaimBytes(_, _, _) => ClaimDelta(w, s, u);
    case Insert(_, _, _, _) => InsertDelta(w, s, u);
    case GiveRefund(_, _) =>
      RefundDelta(w, s, u);
      RefundDrift(w, s, u);
    case DeleteRow(_, _, _) => DeleteDelta(w, s, u);
    case _ =>
      QuietDelta(w, s, u);
      QuietDrift(w, s, u);
  }

  lemma ThreadStepDrifts(w: World, s: Step, u: User)
    requires IsThreadStep(s) && ThreadEnabled(w, s) && u in w.db.used && FreshIds(w) && Surplus(w, u) >= 0
    ensures u in ThreadStep(w, s).db.used && Surplus(ThreadStep(w, s), u) == Surplus(w, u) + Drift(w, s, u)
  {
    hide NextWork, NextDb, NextObjects, NextPins, ThreadEnabled, ThreadStep, Pending, Owned, FreshIds, Due, DueNext, Drift;
    ThreadFrame(w, s);
    PendingAfter(w.work, s.t, NextWork(w, s), u);
    PendingCovers(w.work, s.t, u);
    NextDrifts(w, s, u);
  }

  /** No thread creates an account. */
  lemma AccountsStay(w: World, s: Step)
    requires IsThreadStep(s) && ThreadEnabled(w, s)
    ensures NextDb(w, s).used.Keys == w.db.used.Keys && NextDb(w, s).quota == w.db.quota
  {
  }

  lemma ThreadStepFresh(w: World, s: Step)
    requires IsThreadStep(s) && ThreadEnabled(w, s) && FreshIds(w)
    ensures FreshIds(ThreadStep(w, s))
  {
    var w' := ThreadStep(w, s);
    RowsOnlyGrowByInsert(w, s);
    forall t | t in w'.work && w'.work[t].DelRow?
      ensures w'.work[t].id in w'.used && (w'.work[t].id in w'.db.files ==> w'.db.files[w'.work[t].id] == w'.work[t].file)
    {
      assert t != s.t && w'.work[t] == w.work[t];
    }
  }

  lemma RowsOnlyGrowByInsert(w: World, s: Step)
    requires IsThreadStep(s) && ThreadEnabled(w, s)
    ensures NextWork(w, s).Some? ==> !NextWork(w, s).value.DelRow?
    ensures forall id :: id in NextDb(w, s).files ==>
              (id in w.db.files && NextDb(w, s).files[id] == w.db.files[id]) || (s.Insert? && id !in w.used)
    ensures s.Insert? || NextDb(w, s).files.Keys <= w.db.files.Keys
  {
  }

  lemma InsertLimits(w: World, s: Step)
    requires s.Insert? && ThreadEnabled(w, s) && WithinLimits(w)
    ensures w.limit != 0 ==> StoredBytes(NextDb(w, s).files) <= w.limit
    ensures NextDb(w, s).used == w.db.used
  {
    if s.id !in w.db.files {
      SumsAfterInsert(w.db.files, s.id, NewFile(w.work[s.t]), 0);
    }
  }

  lemma DeleteLimits(w: World, s: Step)
    requires s.DeleteRow? && ThreadEnabled(w, s) && WithinLimits(w)
    ensures w.limit != 0 ==> StoredBytes(NextDb(w, s).files) <= w.limit
    ensures NextDb(w, s).used == w.db.used
  {
    if w.work[s.t].id in w.db.files {
      SumsAfterDelete(w.db.files, w.work[s.t].id, 0);
    } else {
      assert w.db.files - {w.work[s.t].id} == w.db.files;
    }
  }

  /** A claim is granted only within the quota, and a refund only lowers what an account uses. */
  lemma ChargeLimits(w: World, s: Step)
    requires IsThreadStep(s) && ThreadEnabled(w, s) && !s.Insert? && !s.DeleteRow? && WithinLimits(w)
    requires forall u :: u in w.db.used ==> w.db.used[u] >= 0
    ensures NextDb(w, s).files == w.db.files
    ensures forall u :: u in NextDb(w, s).used && u in w.db.quota && w.db.quota[u] != 0 ==> NextDb(w, s).used[u] <= w.db.quota[u]
  {
  }

  lemma ThreadStepLimits(w: World, s: Step)
    requires IsThreadStep(s) && ThreadEnabled(w, s) && WithinLimits(w)
    requires forall u :: u in w.db.used ==> w.db.used[u] >= 0
    ensures WithinLimits(ThreadStep(w, s))
  {
    hide NextWork, NextDb, NextObjects, NextPins, StoredBytes, ThreadEnabled;
    AccountsStay(w, s);
    if s.Insert? {
      InsertLimits(w, s);
    } else if s.DeleteRow? {
      DeleteLimits(w, s);
    } else {
      ChargeLimits(w, s);
    }
  }

  // ---- the other steps ------------------------------------------------------------------------------

  lemma BeginBalances(w: World, s: Step, u: User)
    requires IsBegin(s) && BeginEnabled(w, s)
    ensures Pending(Become(w, s.t, BeginWork(w, s)).work, u) == Pending(w.work, u)
  {
    PendingAfter(w.work, s.t, Some(BeginWork(w, s)), u);
  }

  lemma LockStepDue(w: World, s: Step, u: User)
    requires IsLockStep(s) && LockEnabled(w, s)
    ensures DueNext(LockWork(w.work[s.t], s), u) == Due(w.work[s.t], u)
  {
  }

  lemma LockStepBalances(w: World, s: Step, u: User)
    requires IsLockStep(s) && LockEnabled(w, s)
    ensures LockStep(w, s).db == w.db && Pending(LockStep(w, s).work, u) == Pending(w.work, u)
  {
    hide LockStep, LockWork, LockEnabled;
    LockFrame(w, s);
    LockStepDue(w, s, u);
    PendingAfter(w.work, s.t, LockWork(w.work[s.t], s), u);
  }

  lemma ProcessRows(w: World, s: Step)
    requires IsProcessStep(s) && ProcessEnabled(w, s)
    ensures var w' := ProcessStep(w, s);
            && w'.db.quota == w.db.quota && w'.limit == w.limit && w'.used == w.used
            && w'.db.used.Keys <= w.db.used.Keys
            && StoredBytes(w'.db.files) <= StoredBytes(w.db.files)
            && w'.db.files.Keys <= w.db.files.Keys
            && (forall id :: id in w'.db.files ==> w'.db.files[id] == w.db.files[id])
    ensures forall u :: u in ProcessStep(w, s).db.used ==>
              ProcessStep(w, s).db.used[u] == if s.RecomputeUsage? then Owned(w.db.files, u) else w.db.used[u]
  {
    if s.RemoveUser? {
      SumsAfterCascade(w.db.files, (set id | id in w.db.files && w.db.files[id].owner == Some(s.u)), s.u);
    }
  }

  lemma ProcessOwned(w: World, s: Step, u: User)
    requires IsProcessStep(s) && ProcessEnabled(w, s) && u in ProcessStep(w, s).db.used
    ensures Owned(ProcessStep(w, s).db.files, u) == Owned(w.db.files, u)
    ensures ProcessStep(w, s).work == if s.StopServer? then map[] else w.work
  {
    if s.RemoveUser? {
      SumsAfterCascade(w.db.files, (set id | id in w.db.files && w.db.files[id].owner == Some(s.u)), u);
    }
  }

  /** Never too little charged, limits, and fresh ids. */
  ghost predicate Books(w: World) { Covered(w) && WithinLimits(w) && FreshIds(w) }

  /** The accounting invariant: balance, limits and fresh ids. */
  ghost predicate Accounts(w: World) {
    && (forall u :: u in w.db.used ==> w.db.used[u] >= 0)
    && Balanced(w) && WithinLimits(w) && FreshIds(w)
  }

  lemma BalanceIsNoSurplus(w: World)
    ensures Balanced(w) <==> forall u :: u in w.db.used ==> Surplus(w, u) == 0
    ensures Covered(w) ==> forall u :: u in w.db.used ==> w.db.used[u] >= 0
    ensures Accounts(w) <==> Books(w) && Balanced(w)
  {
    assert forall u :: u in w.db.used ==>
      (Surplus(w, u) == 0 <==> w.db.used[u] == Owned(w.db.files, u) + Pending(w.work, u));
    assert Covered(w) ==> forall u :: u in w.db.used ==> Surplus(w, u) >= 0;
  }

  lemma ProcessDrifts(w: World, s: Step, u: User)
    requires IsProcessStep(s) && ProcessEnabled(w, s) && u in ProcessStep(w, s).db.used
    ensures u in w.db.used && Surplus(ProcessStep(w, s), u) == Surplus(w, u) + Drift(w, s, u)
  {
    hide ProcessEnabled, ProcessStep, Owned, Due, StoredBytes;
    ProcessRows(w, s);
    ProcessOwned(w, s, u);
    assert Dues(map[], u) == map[];
  }

  lemma ThreadDrifts(w: World, s: Step, u: User)
    requires IsThreadStep(s) && ThreadEnabled(w, s) && u in ThreadStep(w, s).db.used && Books(w)
    ensures u in w.db.used && Surplus(ThreadStep(w, s), u) == Surplus(w, u) + Drift(w, s, u)
  {
    hide ThreadStep, ThreadEnabled, NextWork, NextDb, NextObjects, NextPins, Drift, Surplus, WithinLimits, FreshIds;
    ThreadFrame(w, s);
    AccountsStay(w, s);
    ThreadStepDrifts(w, s, u);
  }

  /** Every step moves what an account is charged beyond its due by exactly its drift. */
  lemma StepDrifts(w: World, s: Step, u: User)
    requires Books(w) && Enabled(w, s) && u in Apply(w, s).db.used
    ensures u in w.db.used && Surplus(Apply(w, s), u) == Surplus(w, u) + Drift(w, s, u)
  {
    hide Apply, Enabled, ThreadStep, LockStep, BeginWork, ProcessStep, ThreadEnabled, LockEnabled, ProcessEnabled;
    hide Owned, Pending, Due, Books;
    ApplyIs(w, s);
    if IsThreadStep(s) {
      ThreadDrifts(w, s, u);
    } else if IsLockStep(s) {
      LockStepBalances(w, s, u);
    } else if IsBegin(s) {
      BeginBalances(w, s, u);
    } else {
      ProcessDrifts(w, s, u);
    }
  }

  lemma StepFresh(w: World, s: Step)
    requires FreshIds(w) && Enabled(w, s)
    ensures FreshIds(Apply(w, s))
  {
    hide Apply, ThreadStep, LockStep, ThreadEnabled, LockEnabled;
    ApplyIs(w, s);
    if IsThreadStep(s) {
      ThreadStepFresh(w, s);
    } else if IsLockStep(s) {
      LockFrame(w, s);
      LockNeverBegins(w, s);
    } else if IsProcessStep(s) {
      ProcessFresh(w, s);
    } else {
      BeginFresh(w, s);
    }
  }

  lemma BeginFresh(w: World, s: Step)
    requires FreshIds(w) && IsBegin(s) && BeginEnabled(w, s)
    ensures FreshIds(Become(w, s.t, BeginWork(w, s)))
  {
  }

  lemma LockNeverBegins(w: World, s: Step)
    requires IsLockStep(s) && LockEnabled(w, s)
    ensures LockWork(w.work[s.t], s).Some? ==> !LockWork(w.work[s.t], s).value.DelRow?
  {
  }

  lemma ProcessFresh(w: World, s: Step)
    requires FreshIds(w) && IsProcessStep(s) && ProcessEnabled(w, s)
    ensures FreshIds(ProcessStep(w, s))
  {
    hide ProcessStep, ProcessEnabled;
    ProcessRows(w, s);
    ProcessWork(w, s);
  }

  lemma ProcessWork(w: World, s: Step)
    requires IsProcessStep(s) && ProcessEnabled(w, s)
    ensures forall t :: t in ProcessStep(w, s).work ==> t in w.work && ProcessStep(w, s).work[t] == w.work[t]
  {
  }

  lemma ProcessLimits(w: World, s: Step)
    requires IsProcessStep(s) && ProcessEnabled(w, s) && Covered(w) && WithinLimits(w)
    ensures WithinLimits(ProcessStep(w, s))
  {
    hide ProcessStep, ProcessEnabled, Covered, StoredBytes, Owned;
    ProcessRows(w, s);
    OwnedIsCharged(w);
  }

  lemma ThreadLimits(w: World, s: Step)
    requires IsThreadStep(s) && ThreadEnabled(w, s) && Covered(w) && WithinLimits(w)
    ensures WithinLimits(ThreadStep(w, s))
  {
    hide ThreadEnabled, ThreadStep, WithinLimits, Covered;
    BalanceIsNoSurplus(w);
    ThreadStepLimits(w, s);
  }

  lemma LockLimits(w: World, s: Step)
    requires IsLockStep(s) && LockEnabled(w, s) && WithinLimits(w)
    ensures WithinLimits(LockStep(w, s))
  {
    hide LockStep, LockEnabled, StoredBytes;
    LockFrame(w, s);
  }

  lemma StepLimits(w: World, s: Step)
    requires Books(w) && Enabled(w, s)
    ensures WithinLimits(Apply(w, s))
  {
    hide Apply, Enabled, ThreadStep, LockStep, ProcessStep, ThreadEnabled, LockEnabled, ProcessEnabled, BeginWork;
    hide Covered, StoredBytes, FreshIds;
    ApplyIs(w, s);
    if IsThreadStep(s) {
      ThreadLimits(w, s);
    } else if IsLockStep(s) {
      LockLimits(w, s);
    } else if IsProcessStep(s) {
      ProcessLimits(w, s);
    }
  }

  lemma OwnedIsCharged(w: World)
    requires Covered(w)
    ensures forall u :: u in w.db.used ==> Owned(w.db.files, u) <= w.db.used[u]
  {
    assert forall u :: u in w.db.used ==> Surplus(w, u) >= 0;
  }

  /** A step drifts some account that stays exactly when it is of one of these kinds. */
  lemma DriftIsNamed(w: World, s: Step)
    requires Balanced(w) && Enabled(w, s)
    ensures (forall u :: u in Apply(w, s).db.used ==> u in w.db.used && Drift(w, s, u) == 0) <==>
            !Overcharges(w, s) && !Undercharges(w, s)
    ensures (forall u :: u in Apply(w, s).db.used ==> u in w.db.used && Drift(w, s, u) >= 0) <==> !Undercharges(w, s)
  {
    hide Apply, Enabled, Drift, Overcharges, Undercharges;
    SameAccounts(w, s);
    NeverBoth(w, s);
    if Undercharges(w, s) {
      var u := Undercharged(w, s);
    } else if Overcharges(w, s) {
      var u := Overcharged(w, s);
    }
    forall u | u in w.db.used
      ensures Drift(w, s, u) < 0 ==> Undercharges(w, s)
      ensures Drift(w, s, u) > 0 ==> Overcharges(w, s)
    {
      DriftHasAKind(w, s, u);
    }
  }

  lemma NeverBoth(w: World, s: Step)
    ensures Overcharges(w, s) || Undercharges(w, s) ==> !s.RemoveUser?
    ensures !(Overcharges(w, s) && Undercharges(w, s))
  {
    hide Pending, Due, MayReserve, InsertOutcome;
  }

  lemma Undercharged(w: World, s: Step) returns (u: User)
    requires Balanced(w) && Undercharges(w, s)
    ensures u in w.db.used && Drift(w, s, u) < 0
  {
    hide Pending, Due, Owned, MayReserve, InsertOutcome;
    if DoubleDelete(w, s) {
      u := w.work[s.t].file.owner.value;
    } else if UnheardInsert(w, s) {
      u := w.work[s.t].up.owner.value;
    } else {
      u :| u in w.db.used && Pending(w.work, u) > 0;
      assert Drift(w, s, u) == -(Pending(w.work, u) as int);
    }
  }

  lemma Overcharged(w: World, s: Step) returns (u: User)
    requires Overcharges(w, s)
    ensures u in w.db.used && Drift(w, s, u) > 0
  {
    hide Pending, Due, Owned, MayReserve, InsertOutcome;
    if FailedRelease(w, s) {
      u :| u in w.db.used && Due(w.work[s.t], u) > 0;
    } else if LosesClaims(w, s) {
      u :| u in w.db.used && Pending(w.work, u) > 0;
    } else if UnheardClaim(w, s) {
      u := w.work[s.t].up.owner.value;
    } else {
      u := w.work[s.t].file.owner.value;
    }
  }

  lemma DriftHasAKind(w: World, s: Step, u: User)
    requires u in w.db.used && (s.RecomputeUsage? ==> Surplus(w, u) >= 0)
    ensures Surplus(w, u) + Drift(w, s, u) < 0 <= Surplus(w, u) ==> Undercharges(w, s)
    ensures Drift(w, s, u) < 0 && Surplus(w, u) == 0 ==> Undercharges(w, s)
    ensures Drift(w, s, u) > 0 ==> Overcharges(w, s)
  {
    hide Owned, Due, MayReserve, InsertOutcome;
  }

  lemma ProcessAccounts(w: World, s: Step)
    requires IsProcessStep(s) && ProcessEnabled(w, s)
    ensures ProcessStep(w, s).db.used.Keys <= w.db.used.Keys
    ensures !s.RemoveUser? ==> ProcessStep(w, s).db.used.Keys == w.db.used.Keys
  {
  }

  /** Accounts only ever go by being removed, which drifts nothing. */
  lemma SameAccounts(w: World, s: Step)
    requires Enabled(w, s)
    ensures Apply(w, s).db.used.Keys <= w.db.used.Keys
    ensures !s.RemoveUser? ==> Apply(w, s).db.used.Keys == w.db.used.Keys
  {
    hide Apply, Enabled, ThreadStep, LockStep, ThreadEnabled, LockEnabled, ProcessEnabled, ProcessStep, BeginWork;
    hide NextDb, NextWork, NextObjects, NextPins, LockWork;
    ApplyIs(w, s);
    if IsThreadStep(s) {
      ThreadFrame(w, s);
      AccountsStay(w, s);
    } else if IsLockStep(s) {
      LockFrame(w, s);
    } else if IsProcessStep(s) {
      ProcessAccounts(w, s);
    }
  }

  lemma StepKeepsBooks(w: World, s: Step)
    requires Books(w) && Enabled(w, s) && !Undercharges(w, s)
    ensures Books(Apply(w, s))
  {
    hide Apply, Enabled, Pending, Due, Surplus, Drift, WithinLimits, FreshIds, Undercharges, Overcharges;
    forall u | u in Apply(w, s).db.used
      ensures Surplus(Apply(w, s), u) >= 0
    {
      StepDrifts(w, s, u);
      DriftHasAKind(w, s, u);
    }
    StepFresh(w, s);
    StepLimits(w, s);
  }

  lemma StepKeepsAccounts(w: World, s: Step)
    requires Accounts(w) && Enabled(w, s) && !Overcharges(w, s) && !Undercharges(w, s)
    ensures Accounts(Apply(w, s))
  {
    hide Apply, Enabled, Overcharges, Undercharges, Balanced, Books, Accounts;
    BalanceIsNoSurplus(w);
    StepKeepsBooks(w, s);
    BalanceIsKeptExactly(w, s);
    BalanceIsNoSurplus(Apply(w, s));
  }

  /** The books balance after a step exactly when it is of none of the named kinds: neither a release
      that fails, nor a stop with claims in flight, nor a reservation or a deletion that takes effect
      unheard; nor a second deletion of the same row by a path that does not check, nor a recount with
      claims in flight, nor an insert that takes effect unheard. And nobody is charged too little
      after it exactly when it is none of the last three. */
  lemma BalanceIsKeptExactly(w: World, s: Step)
    requires Accounts(w) && Enabled(w, s)
    ensures Balanced(Apply(w, s)) <==> !Overcharges(w, s) && !Undercharges(w, s)
    ensures Covered(Apply(w, s)) <==> !Undercharges(w, s)
  {
    hide Apply, Enabled, Pending, Due, Surplus, Drift, WithinLimits, FreshIds, Overcharges, Undercharges;
    BalanceIsNoSurplus(w);
    BalanceIsNoSurplus(Apply(w, s));
    DriftIsNamed(w, s);
    forall u | u in Apply(w, s).db.used
      ensures u in w.db.used && Surplus(Apply(w, s), u) == Drift(w, s, u)
    {
      StepDrifts(w, s, u);
    }
  }

  /** A release that fails leaves the account charged for bytes it does not own. */
  lemma FailedReleaseOvercharges(w: World, s: Step, u: User)
    requires Accounts(w) && Enabled(w, s) && s.GiveRefund? && !s.ok && u in w.db.used
    ensures var w' := Apply(w, s);
            && w'.db == w.db
            && w'.db.used[u] == Owned(w'.db.files, u) + Pending(w'.work, u) + Due(w.work[s.t], u)
  {
    hide Apply, Enabled, ThreadStep, NextWork, Pending, Due, Owned, WithinLimits, FreshIds;
    ApplyIs(w, s);
    ThreadFrame(w, s);
    BalanceIsNoSurplus(w);
    StepDrifts(w, s, u);
  }

  /** Recomputing usage balances the books of any world, however they stood, exactly when nothing
      is in flight. */
  lemma RecomputeRepairs(w: World)
    requires Enabled(w, RecomputeUsage)
    ensures Balanced(Apply(w, RecomputeUsage)) <==> !InFlight(w)
  {
    hide Owned, Pending;
    var w' := Apply(w, RecomputeUsage);
    assert forall u :: u in w.db.used ==> w'.db.used[u] == Owned(w.db.files, u);
  }

  // ---- runs -----------------------------------------------------------------------------------------

  /** No step of the run charges anybody too much or too little. */
  ghost predicate Orderly(w: World, steps: seq<Step>) {
    steps != [] ==>
      var before, s := steps[..|steps| - 1], steps[|steps| - 1];
      && Orderly(w, before)
      && (Run(w, before).Some? ==> !Overcharges(Run(w, before).value, s) && !Undercharges(Run(w, before).value, s))
  }

  /** No step of the run charges anybody too little; releases may fail, the server may stop at any step,
      and reservations and deletions may take effect unheard. */
  ghost predicate Generous(w: World, steps: seq<Step>) {
    steps != [] ==>
      var before, s := steps[..|steps| - 1], steps[|steps| - 1];
      Generous(w, before) && (Run(w, before).Some? ==> !Undercharges(Run(w, before).value, s))
  }

  /** The drift of a whole run. */
  ghost function Drifts(w: World, steps: seq<Step>, u: User): int {
    if steps == [] then 0
    else
      var before, s := steps[..|steps| - 1], steps[|steps| - 1];
      Drifts(w, before, u) +
      if Run(w, before).Some? && u in Run(w, before).value.db.used then Drift(Run(w, before).value, s, u) else 0
  }

  lemma BooksAtFirst(w: World)
    requires Initial(w)
    ensures Accounts(w) && Books(w) && forall u :: u in w.db.used ==> Surplus(w, u) == 0
  {
    assert forall u :: SizesFor(w.db.files, u) == map[] && Dues(w.work, u) == map[];
    assert Sizes(w.db.files) == map[];
    BalanceIsNoSurplus(w);
  }

  /** Across every orderly run the books balance and no limit is passed; once the threads are
      done an account is charged exactly what it owns, however its uploads fared. */
  lemma {:induction false} BooksBalance(w: World, steps: seq<Step>)
    requires Initial(w) && Run(w, steps).Some? && Orderly(w, steps)
    ensures var m := Run(w, steps).value;
            && Accounts(m)
            && (m.work == map[] ==> forall u :: u in m.db.used ==> m.db.used[u] == Owned(m.db.files, u))
  {
    if steps != [] {
      BooksBalance(w, steps[..|steps| - 1]);
      StepKeepsAccounts(Run(w, steps[..|steps| - 1]).value, steps[|steps| - 1]);
    } else {
      BooksAtFirst(w);
    }
    assert forall u :: Dues(map[], u) == map[];
  }

  /** However the server stops and whatever releases fail, nobody is ever charged too little, and
      no limit is passed; and an account is charged too much by exactly what the steps of the run
      have drifted. */
  lemma {:induction false} NobodyIsUndercharged(w: World, steps: seq<Step>)
    requires Initial(w) && Run(w, steps).Some? && Generous(w, steps)
    ensures var m := Run(w, steps).value;
            && Books(m)
            && forall u :: u in m.db.used ==>
                 m.db.used[u] == Owned(m.db.files, u) + Pending(m.work, u) + Drifts(w, steps, u)
  {
    hide Apply, Enabled, Pending, Due, Owned, Drift, WithinLimits, FreshIds, Undercharges, Books;
    if steps != [] {
      var before, s := steps[..|steps| - 1], steps[|steps| - 1];
      var m := Run(w, before).value;
      NobodyIsUndercharged(w, before);
      StepKeepsBooks(m, s);
      forall u | u in Apply(m, s).db.used
        ensures u in m.db.used && Surplus(Apply(m, s), u) == Surplus(m, u) + Drift(m, s, u)
      {
        StepDrifts(m, s, u);
      }
    } else {
      BooksAtFirst(w);
      assert forall u :: u in w.db.used ==> Surplus(w, u) == 0;
    }
  }

  /** The unchecked path does meet the case: when two requests have loaded the same paid-for file,
      the deletion that comes second is one. */
  lemma SecondDeletionIsDouble(w: World, a: Tid, b: Tid)
    requires a != b && a in w.work && b in w.work && w.work[a].DelRow? && w.work[a] == w.work[b] && !w.work[a].checked
    requires w.work[a].id in w.db.files && w.work[a].file.size > 0
    requires w.work[a].file.owner.Some? && w.work[a].file.owner.value in w.db.used
    ensures Enabled(w, DeleteRow(a, true, true)) && !DoubleDelete(w, DeleteRow(a, true, true))
    ensures DoubleDelete(Apply(w, DeleteRow(a, true, true)), DeleteRow(b, true, true))
  {
    var m := ThreadStep(w, DeleteRow(a, true, true));
    assert m.work[b] == w.work[b] && w.work[b].id !in m.db.files;
  }
}
