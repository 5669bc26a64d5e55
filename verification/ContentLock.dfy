/** The per-content lock of internal/web/content_lock.go: a mutex-guarded table of
    reference-counted entries, each with a one-slot channel that carries the right to proceed.
    Every critical section and every channel operation is one step of a state machine. */
module ContentLock {
  import opened Prelude

  /** `ready` says whether the token lies in the channel; `users` counts the threads that
      have entered and not yet left. */
  datatype Entry = Entry(ready: bool, users: int)

  /** Where a thread stands between entering acquire and returning from its release. */
  datatype Phase =
    | Waiting(sha: Sha, entry: nat)
    | Holding(sha: Sha, entry: nat)
    | Leaving(sha: Sha, entry: nat)

  /** `table` is the map the mutex guards; `heap` keeps every entry ever allocated, so that a
      thread could in principle still point at one the table has forgotten. */
  datatype Locks = Locks(table: map<Sha, nat>, heap: map<nat, Entry>, phase: map<Tid, Phase>)

  const EMPTY := Locks(map[], map[], map[])

  datatype Step =
    | Enter(t: Tid, sha: Sha, slot: nat)
    | Take(t: Tid)
    | Cancel(t: Tid)
    | Give(t: Tid)
    | Drop(t: Tid)

  /** The first critical section of acquire: find or allocate the entry and count in. */
  function EnterEntry(l: Locks, t: Tid, sha: Sha, slot: nat): Locks {
    var e := if sha in l.table then l.table[sha] else slot;
    var prior := if sha in l.table && e in l.heap then l.heap[e] else Entry(true, 0);
    Locks(l.table[sha := e],
          l.heap[e := prior.(users := prior.users + 1)],
          l.phase[t := Waiting(sha, e)])
  }

  /** releaseRef: count out, and forget the entry when nobody is left. The deletion is by hash. */
  function ReleaseRef(l: Locks, t: Tid, sha: Sha, e: nat): Locks
    requires e in l.heap
  {
    var left := l.heap[e].(users := l.heap[e].users - 1);
    Locks(if left.users == 0 then l.table - {sha} else l.table, l.heap[e := left], l.phase - {t})
  }

  predicate Enabled(l: Locks, s: Step) {
    match s
    case Enter(t, sha, slot) => t !in l.phase && slot !in l.heap
    case Take(t) => t in l.phase && l.phase[t].Waiting? && l.phase[t].entry in l.heap && l.heap[l.phase[t].entry].ready
    case Cancel(t) => t in l.phase && l.phase[t].Waiting?
    case Give(t) => t in l.phase && l.phase[t].Holding? && l.phase[t].entry in l.heap && !l.heap[l.phase[t].entry].ready
    case Drop(t) => t in l.phase && l.phase[t].Leaving? && l.phase[t].entry in l.heap
  }

  function Apply(l: Locks, s: Step): Locks
    requires Enabled(l, s)
  {
    match s
    case Enter(t, sha, slot) => EnterEntry(l, t, sha, slot)
    case Take(t) =>
      var p := l.phase[t];
      l.(heap := l.heap[p.entry := l.heap[p.entry].(ready := false)], phase := l.phase[t := Holding(p.sha, p.entry)])
    case Cancel(t) =>
      l.(phase := l.phase[t := Leaving(l.phase[t].sha, l.phase[t].entry)])
    case Give(t) =>
      var p := l.phase[t];
      l.(heap := l.heap[p.entry := l.heap[p.entry].(ready := true)], phase := l.phase[t := Leaving(p.sha, p.entry)])
    case Drop(t) => ReleaseRef(l, t, l.phase[t].sha, l.phase[t].entry)
  }

  /** The threads counted on one hash, and those that hold it. */
  function Users(phase: map<Tid, Phase>, sha: Sha): set<Tid> {
    set t | t in phase && phase[t].sha == sha
  }

  function Holders(phase: map<Tid, Phase>, sha: Sha): set<Tid> {
    set t | t in phase && phase[t].Holding? && phase[t].sha == sha
  }

  predicate Holds(l: Locks, t: Tid, sha: Sha) {
    t in l.phase && l.phase[t].Holding? && l.phase[t].sha == sha
  }

  /** No thread points at an entry the table has forgotten or replaced. */
  ghost predicate Pointers(l: Locks) {
    && (forall t :: t in l.phase ==> l.phase[t].sha in l.table && l.table[l.phase[t].sha] == l.phase[t].entry)
    && (forall sha :: sha in l.table ==> l.table[sha] in l.heap)
    && (forall a, b :: a in l.table && b in l.table && l.table[a] == l.table[b] ==> a == b)
  }

  /** The count of a listed entry is exact and positive, and its token is in one place. */
  ghost predicate Exact(l: Locks, sha: Sha)
    requires sha in l.table && l.table[sha] in l.heap
  {
    var e := l.heap[l.table[sha]];
    && e.users == |Users(l.phase, sha)| > 0
    && (if e.ready then 1 else 0) + |Holders(l.phase, sha)| == 1
  }

  ghost predicate Inv(l: Locks) {
    && Pointers(l)
    && forall sha :: sha in l.table ==> Exact(l, sha)
  }

  lemma UsersAfter(phase: map<Tid, Phase>, t: Tid, p: Phase, sha: Sha)
    ensures Users(phase[t := p], sha) == if p.sha == sha then Users(phase, sha) + {t} else Users(phase, sha) - {t}
    ensures Holders(phase[t := p], sha) ==
            if p.sha == sha && p.Holding? then Holders(phase, sha) + {t} else Holders(phase, sha) - {t}
    ensures Users(phase - {t}, sha) == Users(phase, sha) - {t}
    ensures Holders(phase - {t}, sha) == Holders(phase, sha) - {t}
  {
  }

  /** Whether some thread is counted on an entry is enough to keep the pointers right. */
  lemma PointersKept(l: Locks, s: Step)
    requires Inv(l) && Enabled(l, s)
    ensures Pointers(Apply(l, s))
  {
    hide Exact, Users, Holders;
    if s.Drop? {
      DropPointersKept(l, s);
    }
  }

  lemma DropPointersKept(l: Locks, s: Step)
    requires s.Drop? && Inv(l) && Enabled(l, s)
    ensures Pointers(Apply(l, s))
  {
    hide Holders;
    var l', mine := Apply(l, s), l.phase[s.t].sha;
    UsersAfter(l.phase, s.t, l.phase[s.t], mine);
    assert Exact(l, mine) && s.t in Users(l.phase, mine);
    forall u | u in l'.phase && l'.phase[u].sha == mine
      ensures mine in l'.table
    {
      assert u in Users(l'.phase, mine);
      assert |Users(l.phase, mine)| == |Users(l'.phase, mine)| + 1;
    }
  }

  lemma EnterKept(l: Locks, s: Step, sha: Sha)
    requires s.Enter? && Inv(l) && Enabled(l, s) && Pointers(Apply(l, s)) && sha in Apply(l, s).table
    ensures Exact(Apply(l, s), sha)
  {
    var l' := Apply(l, s);
    UsersAfter(l.phase, s.t, l'.phase[s.t], sha);
    if sha in l.table {
      assert Exact(l, sha);
    } else {
      assert Users(l.phase, sha) == {} && Holders(l.phase, sha) == {};
    }
  }

  /** Another hash has another entry, and the same threads as before. */
  lemma OthersKept(l: Locks, s: Step, sha: Sha)
    requires s.Take? || s.Cancel? || s.Give?
    requires Inv(l) && Enabled(l, s) && sha in l.table && sha != l.phase[s.t].sha
    ensures Exact(Apply(l, s), sha)
  {
    var p, l' := l.phase[s.t], Apply(l, s);
    assert Exact(l, sha) && l.table[sha] != p.entry;
    assert Users(l'.phase, sha) == Users(l.phase, sha) && Holders(l'.phase, sha) == Holders(l.phase, sha);
  }

  lemma TakeKept(l: Locks, s: Step, sha: Sha)
    requires s.Take? && Inv(l) && Enabled(l, s) && sha in l.table
    ensures Exact(Apply(l, s), sha)
  {
    var p, l' := l.phase[s.t], Apply(l, s);
    if sha != p.sha {
      OthersKept(l, s, sha);
    } else {
      assert Exact(l, sha) && s.t !in Holders(l.phase, sha);
      assert Users(l'.phase, sha) == Users(l.phase, sha) && Holders(l'.phase, sha) == Holders(l.phase, sha) + {s.t};
    }
  }

  lemma CancelKept(l: Locks, s: Step, sha: Sha)
    requires s.Cancel? && Inv(l) && Enabled(l, s) && sha in l.table
    ensures Exact(Apply(l, s), sha)
  {
    var p, l' := l.phase[s.t], Apply(l, s);
    if sha != p.sha {
      OthersKept(l, s, sha);
    } else {
      assert Exact(l, sha) && s.t !in Holders(l.phase, sha);
      assert Users(l'.phase, sha) == Users(l.phase, sha) && Holders(l'.phase, sha) == Holders(l.phase, sha);
    }
  }

  lemma GiveKept(l: Locks, s: Step, sha: Sha)
    requires s.Give? && Inv(l) && Enabled(l, s) && sha in l.table
    ensures Exact(Apply(l, s), sha)
  {
    var p, l' := l.phase[s.t], Apply(l, s);
    if sha != p.sha {
      OthersKept(l, s, sha);
    } else {
      assert Exact(l, sha) && s.t in Holders(l.phase, sha);
      assert Users(l'.phase, sha) == Users(l.phase, sha) && Holders(l'.phase, sha) == Holders(l.phase, sha) - {s.t};
    }
  }

  lemma DropKept(l: Locks, s: Step, sha: Sha)
    requires s.Drop? && Inv(l) && Enabled(l, s) && Pointers(Apply(l, s)) && sha in Apply(l, s).table
    ensures Exact(Apply(l, s), sha)
  {
    assert Exact(l, sha);
    UsersAfter(l.phase, s.t, l.phase[s.t], sha);
    assert s.t in Users(l.phase, l.phase[s.t].sha);
  }

  /** Every step of every thread keeps the lock invariant. */
  lemma StepKeepsInv(l: Locks, s: Step)
    requires Inv(l) && Enabled(l, s)
    ensures Inv(Apply(l, s))
  {
    PointersKept(l, s);
    forall sha | sha in Apply(l, s).table
      ensures Exact(Apply(l, s), sha)
    {
      match s
      case Enter(_, _, _) => EnterKept(l, s, sha);
      case Drop(_) => DropKept(l, s, sha);
      case Take(_) => TakeKept(l, s, sha);
      case Cancel(_) => CancelKept(l, s, sha);
      case Give(_) => GiveKept(l, s, sha);
    }
  }

  /** At most one thread holds a hash. */
  lemma MutualExclusion(l: Locks, a: Tid, b: Tid, sha: Sha)
    requires Inv(l) && Holds(l, a, sha) && Holds(l, b, sha)
    ensures a == b
  {
    var holders := Holders(l.phase, sha);
    assert a in holders && b in holders;
    if a != b {
      assert {a, b} <= holders;
      CardinalityMonotone({a, b}, holders);
    }
  }

  lemma CardinalityMonotone(a: set<Tid>, b: set<Tid>)
    requires a <= b
    ensures |a| <= |b|
  {
    if a != {} {
      var x :| x in a;
      CardinalityMonotone(a - {x}, b - {x});
    }
  }

  /** A holder always finds the channel empty, so its release never blocks. */
  lemma ReleaseNeverBlocks(l: Locks, t: Tid)
    requires Inv(l) && t in l.phase && l.phase[t].Holding?
    ensures Enabled(l, Give(t))
  {
    assert t in Holders(l.phase, l.phase[t].sha);
  }

  /** Nobody can be left waiting for a token that no longer exists: it is in the channel, or
      some thread holds it. */
  lemma WaiterIsServed(l: Locks, t: Tid)
    requires Inv(l) && t in l.phase && l.phase[t].Waiting?
    ensures Enabled(l, Take(t)) || exists h :: Holds(l, h, l.phase[t].sha)
  {
    var sha := l.phase[t].sha;
    if !l.heap[l.table[sha]].ready {
      var h :| h in Holders(l.phase, sha);
      assert Holds(l, h, sha);
    }
  }

  /** The table lists a hash exactly while some thread counts on it. */
  lemma TableIsExact(l: Locks, sha: Sha)
    requires Inv(l)
    ensures sha in l.table <==> exists t :: t in l.phase && l.phase[t].sha == sha
  {
    if sha in l.table {
      var t :| t in Users(l.phase, sha);
    }
  }

  /** Every run of the lock machine from the empty table. */
  function Run(steps: seq<Step>): Option<Locks> {
    if steps == [] then Some(EMPTY)
    else
      match Run(steps[..|steps| - 1])
      case None => None
      case Some(l) => var s := steps[|steps| - 1]; if Enabled(l, s) then Some(Apply(l, s)) else None
  }

  /** The contract of the lock over whole runs: exclusion, no stale entry, no blocked release,
      and an empty table once every thread has left. */
  lemma {:induction false} RunIsSafe(steps: seq<Step>)
    requires Run(steps).Some?
    ensures var l := Run(steps).value;
            && Inv(l)
            && (forall a, b, sha :: Holds(l, a, sha) && Holds(l, b, sha) ==> a == b)
            && (forall t :: t in l.phase && l.phase[t].Holding? ==> Enabled(l, Give(t)))
            && (l.phase == map[] ==> l.table == map[])
  {
    if steps != [] {
      RunIsSafe(steps[..|steps| - 1]);
      StepKeepsInv(Run(steps[..|steps| - 1]).value, steps[|steps| - 1]);
    }
    var l := Run(steps).value;
    forall a, b, sha | Holds(l, a, sha) && Holds(l, b, sha)
      ensures a == b
    {
      MutualExclusion(l, a, b, sha);
    }
    forall t | t in l.phase && l.phase[t].Holding?
      ensures Enabled(l, Give(t))
    {
      ReleaseNeverBlocks(l, t);
    }
    if l.phase == map[] {
      forall sha | sha in l.table
        ensures false
      {
        TableIsExact(l, sha);
      }
    }
  }

  /** The table as an object. The mutex makes each critical section one method here; a send or
      a receive on an entry's channel is one method too. `phase` records which thread stands
      where, which in the program is the position of the goroutine. */
  class ContentLocks {
    var table: map<Sha, nat>
    var heap: map<nat, Entry>
    var phase: map<Tid, Phase>

    function State(): Locks
      reads this
    {
      Locks(table, heap, phase)
    }

    constructor ()
      ensures State() == EMPTY && Inv(State())
    {
      table, heap, phase := map[], map[], map[];
    }

    /** The first half of acquire, up to the unlock of the mutex. */
    method EnterTable(t: Tid, sha: Sha, slot: nat)
      requires Inv(State()) && Enabled(State(), Enter(t, sha, slot))
      modifies this
      ensures State() == Apply(old(State()), Enter(t, sha, slot)) && Inv(State())
    {
      StepKeepsInv(State(), Enter(t, sha, slot));
      if sha !in table {
        heap := heap[slot := Entry(true, 0)];
        table := table[sha := slot];
      }
      var e := table[sha];
      heap := heap[e := heap[e].(users := heap[e].users + 1)];
      phase := phase[t := Waiting(sha, e)];
      assert table == Apply(old(State()), Enter(t, sha, slot)).table;
    }

    /** Receiving the token; the select takes this branch only when it lies in the channel. */
    method Receive(t: Tid)
      requires Inv(State()) && Enabled(State(), Take(t))
      modifies this
      ensures State() == Apply(old(State()), Take(t)) && Inv(State())
      ensures Holds(State(), t, old(phase)[t].sha)
    {
      StepKeepsInv(State(), Take(t));
      var p := phase[t];
      heap := heap[p.entry := heap[p.entry].(ready := false)];
      phase := phase[t := Holding(p.sha, p.entry)];
    }

    /** The select's other branch, taken when the request is over: the thread leaves without the
        token, which stays where it is for the next. */
    method GiveUp(t: Tid)
      requires Inv(State()) && t in phase && phase[t].Waiting?
      modifies this
      ensures old(Enabled(State(), Cancel(t)))
      ensures State() == Apply(old(State()), Cancel(t)) && Inv(State())
      ensures heap == old(heap) && phase[t].Leaving?
    {
      StepKeepsInv(State(), Cancel(t));
      var p := phase[t];
      phase := phase[t := Leaving(p.sha, p.entry)];
    }

    /** The release closure's send. It needs no guard: the channel is always empty here. */
    method Send(t: Tid)
      requires Inv(State()) && t in phase && phase[t].Holding?
      modifies this
      ensures old(Enabled(State(), Give(t)))
      ensures State() == Apply(old(State()), Give(t)) && Inv(State())
    {
      ReleaseNeverBlocks(State(), t);
      StepKeepsInv(State(), Give(t));
      var p := phase[t];
      heap := heap[p.entry := heap[p.entry].(ready := true)];
      phase := phase[t := Leaving(p.sha, p.entry)];
    }

    /** releaseRef. */
    method Leave(t: Tid)
      requires Inv(State()) && t in phase && phase[t].Leaving?
      modifies this
      ensures old(Enabled(State(), Drop(t)))
      ensures State() == Apply(old(State()), Drop(t)) && Inv(State())
    {
      StepKeepsInv(State(), Drop(t));
      var p := phase[t];
      heap := heap[p.entry := heap[p.entry].(users := heap[p.entry].users - 1)];
      if heap[p.entry].users == 0 {
        table := table - {p.sha};
      }
      phase := phase - {t};
    }
  }
}
