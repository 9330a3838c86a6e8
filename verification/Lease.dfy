/** The leases for mutation runs and for workloads: threads that take, wait for, share and drop file
    locks, in any interleaving, next to other processes that take the same locks. */
module Lease {
  type Path = string
  type Thread = nat
  type Id = nat

  /** A lease that is alive: its thread, its path, and the handles that share it. */
  datatype Inner = Inner(thread: Thread, path: Path, handles: nat)
  datatype Waiter = Waiter(path: Path, deadline: nat, workload: bool)
  datatype Holder = Ours(id: Id) | Other

  /** `held` is each thread's weak reference to the last lease it took. */
  datatype World = World(now: nat, next: Id, live: map<Id, Inner>, held: map<Thread, Id>, waiting: map<Thread, Waiter>,
                         locks: map<Path, Holder>)

  datatype Step =
    | Acquire(thread: Thread, path: Path, deadline: nat, child: bool, cancelled: bool)
    | AcquireWorkload(thread: Thread, path: Path, deadline: nat)
    | Poll(thread: Thread, cancelled: bool)
    | Drop(id: Id)
    | Tick
    | OtherLocks(path: Path)
    | OtherUnlocks(path: Path)

  datatype Outcome = Quiet | Acquired(id: Id) | Failed | Waiting

  const START := World(0, 0, map[], map[], map[], map[])

  /** A waiting thread does nothing but poll; only a lease that is alive has a handle to drop. */
  predicate Enabled(w: World, s: Step) {
    match s
    case Acquire(t, _, _, _, _) => t !in w.waiting
    case AcquireWorkload(t, _, _) => t !in w.waiting
    case Poll(t, _) => t in w.waiting
    case Drop(id) => id in w.live && w.live[id].thread !in w.waiting
    case Tick => true
    case OtherLocks(p) => p !in w.locks
    case OtherUnlocks(p) => p in w.locks && w.locks[p].Other?
  }

  predicate Shares(w: World, t: Thread, p: Path) {
    t in w.held && w.held[t] in w.live && w.live[w.held[t]].path == p
  }

  function AcquireAt(w: World, t: Thread, p: Path, deadline: nat, child: bool, cancelled: bool): (World, Outcome) {
    if child || cancelled then (w, Failed)
    else if Shares(w, t, p) then
      var id := w.held[t];
      (w.(live := w.live[id := w.live[id].(handles := w.live[id].handles + 1)]), Acquired(id))
    else (w.(waiting := w.waiting[t := Waiter(p, deadline, false)]), Waiting)
  }

  /** A workload's lease is never shared: whatever the thread holds, it waits for the lock. */
  function AcquireWorkloadAt(w: World, t: Thread, p: Path, deadline: nat): (World, Outcome) {
    (w.(waiting := w.waiting[t := Waiter(p, deadline, true)]), Waiting)
  }

  /** The lock is tried before the clock is read.  A workload that is cancelled gives the lock back. */
  function TryLockOrWait(w: World, t: Thread, cancelled: bool): (World, Outcome)
    requires t in w.waiting
  {
    var Waiter(p, deadline, workload) := w.waiting[t];
    if p !in w.locks && workload && cancelled then (w.(waiting := w.waiting - {t}), Failed)
    else if p !in w.locks then
      (World(w.now, w.next + 1, w.live[w.next := Inner(t, p, 1)], w.held[t := w.next], w.waiting - {t},
             w.locks[p := Ours(w.next)]),
       Acquired(w.next))
    else if cancelled || w.now >= deadline then (w.(waiting := w.waiting - {t}), Failed)
    else (w, Waiting)
  }

  function Dropped(w: World, id: Id): World
    requires id in w.live
  {
    if w.live[id].handles > 1 then w.(live := w.live[id := w.live[id].(handles := w.live[id].handles - 1)])
    else w.(live := w.live - {id}, locks := w.locks - {w.live[id].path})
  }

  function Stepped(w: World, s: Step): (World, Outcome)
    requires Enabled(w, s)
  {
    match s
    case Acquire(t, p, deadline, child, cancelled) => AcquireAt(w, t, p, deadline, child, cancelled)
    case AcquireWorkload(t, p, deadline) => AcquireWorkloadAt(w, t, p, deadline)
    case Poll(t, cancelled) => TryLockOrWait(w, t, cancelled)
    case Drop(id) => (Dropped(w, id), Quiet)
    case Tick => (w.(now := w.now + 1), Quiet)
    case OtherLocks(p) => (w.(locks := w.locks[p := Other]), Quiet)
    case OtherUnlocks(p) => (w.(locks := w.locks - {p}), Quiet)
  }

  // ---------- runs ----------

  predicate Runs(w: World, steps: seq<Step>)
    decreases |steps|
  {
    steps == [] || (Enabled(w, steps[0]) && Runs(Stepped(w, steps[0]).0, steps[1..]))
  }

  function After(w: World, steps: seq<Step>): World
    requires Runs(w, steps)
    decreases |steps|
  {
    if steps == [] then w else After(Stepped(w, steps[0]).0, steps[1..])
  }

  // ---------- the invariant ----------

  ghost predicate LocksAreLive(w: World) {
    forall p :: p in w.locks && w.locks[p].Ours? ==> w.locks[p].id in w.live && w.live[w.locks[p].id].path == p
  }

  ghost predicate LiveAreLocked(w: World) {
    forall id :: id in w.live ==>
      w.live[id].path in w.locks && w.locks[w.live[id].path] == Ours(id) && w.live[id].handles > 0
  }

  ghost predicate IdsAreOld(w: World) {
    (forall id :: id in w.live ==> id < w.next) && (forall t :: t in w.held ==> w.held[t] < w.next)
  }

  ghost predicate HeldIsOwn(w: World) {
    && (forall t :: t in w.held && w.held[t] in w.live ==> w.live[w.held[t]].thread == t)
    && (forall id :: id in w.live ==> w.live[id].thread in w.held)
  }

  ghost predicate Inv(w: World) {
    LocksAreLive(w) && LiveAreLocked(w) && IdsAreOld(w) && HeldIsOwn(w)
  }

  lemma AcquireKeepsInv(w: World, t: Thread, p: Path, deadline: nat, child: bool, cancelled: bool)
    requires Inv(w)
    ensures Inv(AcquireAt(w, t, p, deadline, child, cancelled).0)
  {
  }

  lemma PollKeepsInv(w: World, t: Thread, cancelled: bool)
    requires Inv(w) && t in w.waiting
    ensures Inv(TryLockOrWait(w, t, cancelled).0)
  {
  }

  lemma DropKeepsInv(w: World, id: Id)
    requires Inv(w) && id in w.live
    ensures Inv(Dropped(w, id))
  {
  }

  lemma StepKeepsInv(w: World, s: Step)
    requires Inv(w) && Enabled(w, s)
    ensures Inv(Stepped(w, s).0)
  {
    match s
    case Acquire(t, p, deadline, child, cancelled) => AcquireKeepsInv(w, t, p, deadline, child, cancelled);
    case Poll(t, cancelled) => PollKeepsInv(w, t, cancelled);
    case Drop(id) => DropKeepsInv(w, id);
    case _ =>
  }

  lemma {:induction false} RunKeepsInv(w: World, steps: seq<Step>)
    requires Inv(w) && Runs(w, steps)
    ensures Inv(After(w, steps))
    decreases |steps|
  {
    if steps != [] {
      StepKeepsInv(w, steps[0]);
      RunKeepsInv(Stepped(w, steps[0]).0, steps[1..]);
    }
  }

  /** In every reachable state a path has at most one live lease, and the lock on a path is ours
      exactly while such a lease is alive: it is free of us as soon as the last handle is gone. */
  lemma OneLeasePerPath(steps: seq<Step>, p: Path)
    requires Runs(START, steps)
    ensures var w := After(START, steps);
            && (forall i, j :: i in w.live && j in w.live && w.live[i].path == p && w.live[j].path == p ==> i == j)
            && (p in w.locks && w.locks[p].Ours? <==> exists i :: i in w.live && w.live[i].path == p)
  {
    RunKeepsInv(START, steps);
    var w := After(START, steps);
    forall i, j | i in w.live && j in w.live && w.live[i].path == p && w.live[j].path == p ensures i == j {
      assert w.locks[p] == Ours(i) && w.locks[p] == Ours(j);
    }
  }

  // ---------- handles ----------

  /** Handles given out for a lease less handles dropped, over a run. */
  function Balance(w: World, steps: seq<Step>, id: Id): int
    requires Runs(w, steps)
    decreases |steps|
  {
    if steps == [] then 0
    else
      var (next, outcome) := Stepped(w, steps[0]);
      (if outcome == Acquired(id) then 1 else 0) - (if steps[0] == Drop(id) then 1 else 0) +
      Balance(next, steps[1..], id)
  }

  function Handles(w: World, id: Id): nat {
    if id in w.live then w.live[id].handles else 0
  }

  lemma StepBalances(w: World, s: Step, id: Id)
    requires Inv(w) && Enabled(w, s)
    ensures var (next, outcome) := Stepped(w, s);
            Handles(next, id) == Handles(w, id) +
            (if outcome == Acquired(id) then 1 else 0) - (if s == Drop(id) then 1 else 0)
  {
    assert w.next !in w.live;
  }

  lemma {:induction false} HandlesBalance(w: World, steps: seq<Step>, id: Id)
    requires Inv(w) && Runs(w, steps)
    ensures Handles(After(w, steps), id) == Handles(w, id) + Balance(w, steps, id)
    decreases |steps|
  {
    if steps != [] {
      StepBalances(w, steps[0], id);
      StepKeepsInv(w, steps[0]);
      HandlesBalance(Stepped(w, steps[0]).0, steps[1..], id);
    }
  }

  /** A lease keeps its lock exactly as long as more handles were given out for it than dropped. */
  lemma LockedWhileHandlesRemain(steps: seq<Step>, id: Id)
    requires Runs(START, steps)
    ensures Balance(START, steps, id) >= 0
    ensures var w := After(START, steps);
            Balance(START, steps, id) > 0 <==> exists p :: p in w.locks && w.locks[p] == Ours(id)
  {
    RunKeepsInv(START, steps);
    HandlesBalance(START, steps, id);
    var w := After(START, steps);
    if id in w.live {
      assert w.locks[w.live[id].path] == Ours(id);
    }
  }

  // ---------- sharing ----------

  /** A request succeeds at once exactly when the lease the thread took last is alive and on the
      same path; it then shares that lease and leaves every lock as it is. */
  lemma SharedExactly(w: World, t: Thread, p: Path, deadline: nat)
    requires Inv(w) && t !in w.waiting
    ensures var (next, outcome) := Stepped(w, Acquire(t, p, deadline, false, false));
            && (outcome.Acquired? <==> t in w.held && w.held[t] in w.live && w.live[w.held[t]].path == p)
            && (outcome.Acquired? ==>
                w.live[outcome.id].thread == t && next.locks == w.locks && next.live.Keys == w.live.Keys)
            && (!outcome.Acquired? ==> outcome == Waiting && next.live == w.live)
  {
    if Shares(w, t, p) {
      var next := AcquireAt(w, t, p, deadline, false, false).0;
      assert next.live.Keys == w.live.Keys;
    }
  }

  /** A request that a child process makes, or a cancelled one. */
  predicate Refused(s: Step) {
    s.Acquire? && (s.child || s.cancelled)
  }

  /** A request for a mutation lease fails at once exactly when a child process makes it or it is cancelled,
      whatever the thread has; it then changes nothing. */
  lemma RefusedExactly(w: World, s: Step)
    requires Enabled(w, s) && (s.Acquire? || s.AcquireWorkload?)
    ensures Stepped(w, s).1 == Failed <==> s.Acquire? && (s.child || s.cancelled)
    ensures Stepped(w, s).1 == Failed ==> Stepped(w, s).0 == w
  {
  }

  function WithoutRefused(steps: seq<Step>): seq<Step> {
    if steps == [] then []
    else (if Refused(steps[0]) then [] else [steps[0]]) + WithoutRefused(steps[1..])
  }

  /** A run without its refused requests is a run too, and ends in the same state. */
  lemma {:induction false} RefusalsLeaveNoTrace(w: World, steps: seq<Step>)
    requires Runs(w, steps)
    ensures Runs(w, WithoutRefused(steps)) && After(w, WithoutRefused(steps)) == After(w, steps)
    decreases |steps|
  {
    if steps != [] {
      var next := Stepped(w, steps[0]).0;
      RefusalsLeaveNoTrace(next, steps[1..]);
      if Refused(steps[0]) {
        RefusedExactly(w, steps[0]);
        assert WithoutRefused(steps) == WithoutRefused(steps[1..]);
      } else {
        assert WithoutRefused(steps)[1..] == WithoutRefused(steps[1..]);
      }
    }
  }

  /** What a thread asks for is a mutation lease on this path, never another path or a workload. */
  predicate Uses(s: Step, t: Thread, p: Path) {
    && (s.Acquire? && s.thread == t ==> s.path == p)
    && (s.AcquireWorkload? ==> s.thread != t)
  }

  /** The thread's only live lease is the one it took last, and is on this path. */
  ghost predicate OnePath(w: World, t: Thread, p: Path) {
    && (forall id :: id in w.live && w.live[id].thread == t ==> w.live[id].path == p && t in w.held && w.held[t] == id)
    && (t in w.waiting ==> w.waiting[t].path == p && !w.waiting[t].workload)
  }

  lemma StepKeepsOnePath(w: World, s: Step, t: Thread, p: Path)
    requires Inv(w) && OnePath(w, t, p) && Enabled(w, s) && Uses(s, t, p)
    ensures OnePath(Stepped(w, s).0, t, p)
  {
    assert forall id :: id in w.live ==> w.live[id].path in w.locks;
  }

  lemma {:induction false} RunKeepsOnePath(w: World, steps: seq<Step>, t: Thread, p: Path)
    requires Inv(w) && OnePath(w, t, p) && Runs(w, steps) && forall i :: 0 <= i < |steps| ==> Uses(steps[i], t, p)
    ensures OnePath(After(w, steps), t, p)
    decreases |steps|
  {
    if steps != [] {
      StepKeepsOnePath(w, steps[0], t, p);
      StepKeepsInv(w, steps[0]);
      RunKeepsOnePath(Stepped(w, steps[0]).0, steps[1..], t, p);
    }
  }

  /** While a thread asks for mutation leases on one path only, it shares at once exactly when it has a
      live lease, whatever other threads and processes ask for: taking the lease again never waits for
      oneself. */
  lemma OnePathIsReentrant(steps: seq<Step>, p: Path, t: Thread, deadline: nat)
    requires Runs(START, steps) && forall i :: 0 <= i < |steps| ==> Uses(steps[i], t, p)
    requires t !in After(START, steps).waiting
    ensures var w := After(START, steps);
            Stepped(w, Acquire(t, p, deadline, false, false)).1.Acquired? <==>
            exists id :: id in w.live && w.live[id].thread == t
  {
    RunKeepsInv(START, steps);
    RunKeepsOnePath(START, steps, t, p);
  }

  /** The thread waits for a lock that its own lease holds. */
  ghost predicate WaitsForItself(w: World, t: Thread, id: Id) {
    && t in w.waiting && id in w.live && w.live[id].thread == t
    && w.live[id].path == w.waiting[t].path
  }

  /** With several paths the request for a path other than the last one waits for itself although
      the thread has the lease. */
  lemma OtherPathWaitsForItself(w: World, t: Thread, id: Id, deadline: nat)
    requires Inv(w) && t !in w.waiting && id in w.live && w.live[id].thread == t
    ensures var p := w.live[id].path;
            var (next, outcome) := Stepped(w, Acquire(t, p, deadline, false, false));
            if w.held[t] == id then outcome == Acquired(id) else WaitsForItself(next, t, id)
  {
    if Shares(w, t, w.live[id].path) {
      assert w.locks[w.live[id].path] == Ours(id) && w.locks[w.live[id].path] == Ours(w.held[t]);
    }
  }

  /** With a workload's lease even one path is too many: asking again always waits for the thread itself. */
  lemma WorkloadWaitsForItself(w: World, t: Thread, id: Id, deadline: nat)
    requires Inv(w) && t !in w.waiting && id in w.live && w.live[id].thread == t
    ensures var (next, outcome) := Stepped(w, AcquireWorkload(t, w.live[id].path, deadline));
            outcome == Waiting && WaitsForItself(next, t, id)
  {
  }

  /** A thread that takes a mutation lease and then a workload's lease has both, and has lost sight of
      the first: asking for the mutation lease again waits for itself. */
  lemma WorkloadHidesMutationLease() returns (steps: seq<Step>)
    ensures Runs(START, steps)
    ensures var w := After(START, steps);
            && 0 in w.live && w.live[0] == Inner(0, "mutation", 1) && 0 !in w.waiting
            && 0 in w.held && w.held[0] != 0
            && WaitsForItself(Stepped(w, Acquire(0, "mutation", 60, false, false)).0, 0, 0)
  {
    steps := [Acquire(0, "mutation", 60, false, false), Poll(0, false), AcquireWorkload(0, "workload", 1800),
              Poll(0, false)];
    var a := Stepped(START, steps[0]).0;
    var b := Stepped(a, steps[1]).0;
    var c := Stepped(b, steps[2]).0;
    var d := Stepped(c, steps[3]).0;
    assert "mutation" != "workload";
    assert steps[1..][0] == steps[1] && steps[1..][1..] == steps[2..];
    assert steps[2..][0] == steps[2] && steps[2..][1..] == steps[3..];
    assert steps[3..][0] == steps[3] && steps[3..][1..] == [];
    assert Runs(d, []) && After(d, []) == d;
    assert Runs(c, steps[3..]) && After(c, steps[3..]) == d;
    assert Runs(b, steps[2..]) && After(b, steps[2..]) == d;
    assert Runs(a, steps[1..]) && After(a, steps[1..]) == d;
  }

  /** Such a wait can only fail. */
  lemma WaitingForItselfFails(w: World, t: Thread, id: Id, s: Step)
    requires Inv(w) && WaitsForItself(w, t, id) && Enabled(w, s)
    ensures var (next, outcome) := Stepped(w, s);
            WaitsForItself(next, t, id) || (s.Poll? && s.thread == t && outcome == Failed)
  {
    assert w.waiting[t].path in w.locks;
  }

  // ---------- waiting ----------

  /** A poll takes the lock exactly when it is free at that moment, even past the deadline, unless it is
      for a workload that was cancelled; it gives up exactly when the lock is busy and the wait was
      cancelled or is over, or when that workload was cancelled. */
  lemma PollExactly(w: World, t: Thread, cancelled: bool)
    requires Inv(w) && t in w.waiting
    ensures var (next, outcome) := Stepped(w, Poll(t, cancelled));
            var busy, dropped := w.waiting[t].path in w.locks, w.waiting[t].workload && cancelled;
            && (outcome.Acquired? <==> !busy && !dropped)
            && (outcome == Failed <==> if busy then cancelled || w.now >= w.waiting[t].deadline else dropped)
            && (outcome.Acquired? ==>
                outcome.id !in w.live && next.live == w.live[outcome.id := Inner(t, w.waiting[t].path, 1)])
            && (outcome == Failed ==> next.live == w.live && next.locks == w.locks)
            && (t in next.waiting <==> outcome == Waiting)
  {
  }

  /** A request that is not shared: the thread's next poll gets the lock when it is free, unless the poll is
      cancelled and the request was a workload's.  Nothing else changes at the request. */
  lemma RequestThenPoll(w: World, t: Thread, p: Path, deadline: nat, cancelled: bool)
    requires t !in w.waiting && p !in w.locks && !Shares(w, t, p)
    ensures var mutation := Stepped(w, Acquire(t, p, deadline, false, false));
            && mutation == (w.(waiting := w.waiting[t := Waiter(p, deadline, false)]), Waiting)
            && Stepped(mutation.0, Poll(t, cancelled)).1.Acquired?
    ensures var workload := Stepped(w, AcquireWorkload(t, p, deadline));
            && workload == (w.(waiting := w.waiting[t := Waiter(p, deadline, true)]), Waiting)
            && (Stepped(workload.0, Poll(t, cancelled)).1.Acquired? <==> !cancelled)
            && (cancelled ==> Stepped(workload.0, Poll(t, cancelled)).1 == Failed)
  {
  }

  predicate PollOf(s: Step, t: Thread) {
    s.Poll? && s.thread == t
  }

  /** A poll at which a busy lock ends the wait. */
  predicate GivesUp(w: World, s: Step, t: Thread, deadline: nat) {
    PollOf(s, t) && (s.cancelled || w.now >= deadline)
  }

  /** How the thread's wait ends within a run: after how many steps and with which outcome; it is still
      waiting when no poll of the run ends it. */
  function WaitEnd(w: World, steps: seq<Step>, t: Thread): (nat, Outcome)
    requires Runs(w, steps)
    decreases |steps|
  {
    if steps == [] then (0, Waiting)
    else
      var (next, outcome) := Stepped(w, steps[0]);
      if PollOf(steps[0], t) && outcome != Waiting then (0, outcome)
      else var (i, end) := WaitEnd(next, steps[1..], t); (i + 1, end)
  }

  /** The first poll after the deadline, or the first cancelled one; the length of the run without one. */
  function FirstLatePoll(w: World, steps: seq<Step>, t: Thread, deadline: nat): nat
    requires Runs(w, steps)
    decreases |steps|
  {
    if steps == [] || GivesUp(w, steps[0], t, deadline) then 0
    else 1 + FirstLatePoll(Stepped(w, steps[0]).0, steps[1..], t, deadline)
  }

  /** The first poll that finds the lock free; the length of the run without one. */
  function FirstFreePoll(w: World, steps: seq<Step>, t: Thread, p: Path): nat
    requires Runs(w, steps)
    decreases |steps|
  {
    if steps == [] || (PollOf(steps[0], t) && p !in w.locks) then 0
    else 1 + FirstFreePoll(Stepped(w, steps[0]).0, steps[1..], t, p)
  }

  /** How a wait must end: at the first poll that finds the lock free, or at the first late one if that
      comes before. */
  function DueEnd(w: World, steps: seq<Step>, t: Thread, waiter: Waiter): (nat, bool)
    requires Runs(w, steps)
  {
    var free, late := FirstFreePoll(w, steps, t, waiter.path), FirstLatePoll(w, steps, t, waiter.deadline);
    if free <= late then (free, free < |steps| && !(waiter.workload && steps[free].Poll? && steps[free].cancelled))
    else (late, false)
  }

  lemma StillWaiting(w: World, s: Step, t: Thread)
    requires Enabled(w, s) && t in w.waiting
    requires PollOf(s, t) ==> w.waiting[t].path in w.locks && !GivesUp(w, s, t, w.waiting[t].deadline)
    ensures var (next, outcome) := Stepped(w, s);
            t in next.waiting && next.waiting[t] == w.waiting[t] && (PollOf(s, t) ==> outcome == Waiting)
  {
  }

  /** The first late poll and the first free one lie inside the run or at its end. */
  lemma {:induction false} PollsInside(w: World, steps: seq<Step>, t: Thread, waiter: Waiter)
    requires Runs(w, steps)
    ensures FirstFreePoll(w, steps, t, waiter.path) <= |steps| && FirstLatePoll(w, steps, t, waiter.deadline) <= |steps|
    decreases |steps|
  {
    if steps != [] {
      PollsInside(Stepped(w, steps[0]).0, steps[1..], t, waiter);
    }
  }

  /** How a wait ends, in every run: with the lock at the first poll that finds it free, however late
      that is, unless an earlier poll was late or cancelled, at which it fails; a workload cancelled at
      its free poll fails too.  Without such a poll the thread still waits. */
  lemma {:induction false} WaitEndsExactly(w: World, steps: seq<Step>, t: Thread)
    requires Runs(w, steps) && t in w.waiting
    ensures var (i, gets) := DueEnd(w, steps, t, w.waiting[t]);
            var (end, outcome) := WaitEnd(w, steps, t);
            && end == i <= |steps|
            && (if i == |steps| then outcome == Waiting else if gets then outcome.Acquired? else outcome == Failed)
    decreases |steps|
  {
    PollsInside(w, steps, t, w.waiting[t]);
    if steps != [] && !GivesUp(w, steps[0], t, w.waiting[t].deadline) &&
       !(PollOf(steps[0], t) && w.waiting[t].path !in w.locks) {
      StillWaiting(w, steps[0], t);
      WaitEndsExactly(Stepped(w, steps[0]).0, steps[1..], t);
    }
  }

  /** Where the first late poll comes before any poll that finds the lock free, the wait fails there. */
  lemma BusyWaiterFailsAtFirstLatePoll(w: World, steps: seq<Step>, t: Thread)
    requires Runs(w, steps) && t in w.waiting
    requires FirstLatePoll(w, steps, t, w.waiting[t].deadline) < FirstFreePoll(w, steps, t, w.waiting[t].path)
    ensures WaitEnd(w, steps, t) == (FirstLatePoll(w, steps, t, w.waiting[t].deadline), Failed)
  {
    PollsInside(w, steps, t, w.waiting[t]);
    WaitEndsExactly(w, steps, t);
  }

  /** A waiter whose deadline has passed may still get the lock. */
  lemma LateWaiterMayStillAcquire() returns (steps: seq<Step>)
    ensures Runs(START, steps) && var w := After(START, steps);
            0 in w.waiting && w.now > w.waiting[0].deadline && Stepped(w, Poll(0, false)).1.Acquired?
  {
    steps := [OtherLocks("lock"), Acquire(0, "lock", 0, false, false), Tick, OtherUnlocks("lock")];
    var a := Stepped(START, steps[0]).0;
    var b := Stepped(a, steps[1]).0;
    var c := Stepped(b, steps[2]).0;
    var d := Stepped(c, steps[3]).0;
    assert steps[1..][0] == steps[1] && steps[1..][1..] == steps[2..];
    assert steps[2..][0] == steps[2] && steps[2..][1..] == steps[3..];
    assert steps[3..][0] == steps[3] && steps[3..][1..] == [];
    assert Runs(d, []) && After(d, []) == d;
    assert Runs(c, steps[3..]) && After(c, steps[3..]) == d;
    assert Runs(b, steps[2..]) && After(b, steps[2..]) == d;
    assert Runs(a, steps[1..]) && After(a, steps[1..]) == d;
  }
}
