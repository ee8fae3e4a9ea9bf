/**
 The deletion queue: a buffered channel drained by a fixed pool of workers, with QueueDeletion and Shutdown
 called from any number of goroutines. Each goroutine is a program counter; each step is one operation on
 the mutex, the closed flag, the channel or the wait group.
 */
module DeletionQueue {
  import opened Common

  const CAPACITY: nat := 1000

  datatype Worker = Receiving | Deleting(id: Id) | Exited

  /** The shared fields, with the history of accepted, received and attempted deletions. */
  datatype Queue = Queue(
    tasks: seq<Id>, chanClosed: bool, closed: bool, workers: seq<Worker>,
    accepted: seq<Id>, received: seq<Id>, attempted: seq<Id>)

  datatype QueueResult = Accepted | ShuttingDown | Full

  /** Where a goroutine is inside QueueDeletion or Shutdown. */
  datatype Pc =
    | QLock(id: Id) | QCheck(id: Id) | QSelect(id: Id)
    | QUnlock(id: Id, res: QueueResult) | QReturned(id: Id, res: QueueResult)
    | SLock | SCheck | SSetClosed | SClose | SUnlock | SWait | SReturned(drained: bool)

  type Tid = nat

  /** `closes` counts executed close operations; a send or close on a closed channel panics. */
  datatype System = System(q: Queue, lock: Option<Tid>, threads: map<Tid, Pc>, closes: nat, panicked: bool)

  datatype Action =
    | Call(tid: Tid, id: Id)
    | CallShutdown(tid: Tid)
    | Advance(tid: Tid)
    | Timeout(tid: Tid)
    | Receive(w: nat)
    | Finish(w: nat)
    | Exit(w: nat)

  function Start(workers: int): System {
    var n := if workers <= 0 then 10 else workers;
    System(Queue([], false, false, seq(n, _ => Receiving), [], [], []), None, map[], 0, false)
  }

  // ------------------------------------------------------------------ operations

  function Send(q: Queue, id: Id): (Queue, QueueResult) {
    if |q.tasks| < CAPACITY then (q.(tasks := q.tasks + [id], accepted := q.accepted + [id]), Accepted) else (q, Full)
  }

  predicate AllExited(q: Queue) {
    forall w :: 0 <= w < |q.workers| ==> q.workers[w].Exited?
  }

  function Goto(s: System, tid: Tid, pc: Pc): System {
    s.(threads := s.threads[tid := pc])
  }

  function AdvanceStep(s: System, tid: Tid): System
    requires tid in s.threads
  {
    match s.threads[tid]
    case QLock(id) => if s.lock.None? then Goto(s, tid, QCheck(id)).(lock := Some(tid)) else s
    case QCheck(id) => Goto(s, tid, if s.q.closed then QUnlock(id, ShuttingDown) else QSelect(id))
    case QSelect(id) =>
      if s.q.chanClosed then s.(panicked := true)
      else Goto(s, tid, QUnlock(id, Send(s.q, id).1)).(q := Send(s.q, id).0)
    case QUnlock(id, res) => Goto(s, tid, QReturned(id, res)).(lock := None)
    case QReturned(_, _) => s
    case SLock => if s.lock.None? then Goto(s, tid, SCheck).(lock := Some(tid)) else s
    case SCheck => Goto(s, tid, if s.q.closed then SUnlock else SSetClosed)
    case SSetClosed => Goto(s, tid, SClose).(q := s.q.(closed := true))
    case SClose =>
      if s.q.chanClosed then s.(panicked := true)
      else Goto(s, tid, SUnlock).(q := s.q.(chanClosed := true), closes := s.closes + 1)
    case SUnlock => Goto(s, tid, SWait).(lock := None)
    case SWait => if AllExited(s.q) then Goto(s, tid, SReturned(true)) else s
    case SReturned(_) => s
  }

  predicate CanReceive(q: Queue, w: nat) { w < |q.workers| && q.workers[w].Receiving? && q.tasks != [] }
  predicate CanFinish(q: Queue, w: nat) { w < |q.workers| && q.workers[w].Deleting? }
  predicate CanExit(q: Queue, w: nat) { w < |q.workers| && q.workers[w].Receiving? && q.tasks == [] && q.chanClosed }

  function ReceiveStep(q: Queue, w: nat): Queue
    requires CanReceive(q, w)
  {
    q.(tasks := q.tasks[1..], received := q.received + [q.tasks[0]], workers := q.workers[w := Deleting(q.tasks[0])])
  }

  function FinishStep(q: Queue, w: nat): Queue
    requires CanFinish(q, w)
  {
    q.(attempted := q.attempted + [q.workers[w].id], workers := q.workers[w := Receiving])
  }

  function ExitStep(q: Queue, w: nat): Queue
    requires CanExit(q, w)
  {
    q.(workers := q.workers[w := Exited])
  }

  predicate WorkerEnabled(q: Queue, a: Action) {
    match a
    case Receive(w) => CanReceive(q, w)
    case Finish(w) => CanFinish(q, w)
    case Exit(w) => CanExit(q, w)
    case _ => false
  }

  function WorkerStep(q: Queue, a: Action): Queue
    requires WorkerEnabled(q, a)
  {
    match a
    case Receive(w) => ReceiveStep(q, w)
    case Finish(w) => FinishStep(q, w)
    case Exit(w) => ExitStep(q, w)
  }

  /** An action that is not enabled leaves the system as it is. */
  function Step(s: System, a: Action): System {
    match a
    case Call(tid, id) => if tid in s.threads then s else Goto(s, tid, QLock(id))
    case CallShutdown(tid) => if tid in s.threads then s else Goto(s, tid, SLock)
    case Advance(tid) => if tid in s.threads then AdvanceStep(s, tid) else s
    case Timeout(tid) => if tid in s.threads && s.threads[tid].SWait? then Goto(s, tid, SReturned(false)) else s
    case _ => if WorkerEnabled(s.q, a) then s.(q := WorkerStep(s.q, a)) else s
  }

  function Run(s: System, actions: seq<Action>): System
    decreases |actions|
  {
    if actions == [] then s else Run(Step(s, actions[0]), actions[1..])
  }

  // ------------------------------------------------------------------ the queue invariant

  function One(w: Worker): multiset<Id> {
    if w.Deleting? then multiset{w.id} else multiset{}
  }

  function InFlight(ws: seq<Worker>): multiset<Id> {
    if ws == [] then multiset{} else One(ws[0]) + InFlight(ws[1..])
  }

  lemma AddBoth(o: multiset<Id>, a: multiset<Id>, x: multiset<Id>, b: multiset<Id>, y: multiset<Id>)
    requires a + x == b + y
    ensures (o + a) + x == (o + b) + y
  {
    assert (o + a) + x == o + (a + x);
    assert (o + b) + y == o + (b + y);
  }

  lemma Move(a: multiset<Id>, rest: multiset<Id>, x: multiset<Id>)
    ensures a + (rest + x) == (a + x) + rest
  {
  }

  lemma {:induction false} InFlightUpdate(ws: seq<Worker>, w: nat, x: Worker)
    requires w < |ws|
    ensures InFlight(ws[w := x]) + One(ws[w]) == InFlight(ws) + One(x)
  {
    if w == 0 {
      assert ws[0 := x][1..] == ws[1..];
    } else {
      InFlightUpdate(ws[1..], w - 1, x);
      assert ws[w := x][1..] == ws[1..][w - 1 := x];
      AddBoth(One(ws[0]), InFlight(ws[1..][w - 1 := x]), One(ws[w]), InFlight(ws[1..]), One(x));
    }
  }

  lemma {:induction false} NothingInFlight(ws: seq<Worker>)
    requires forall w :: 0 <= w < |ws| ==> !ws[w].Deleting?
    ensures InFlight(ws) == multiset{}
  {
    if ws != [] { NothingInFlight(ws[1..]); }
  }

  ghost predicate Conserved(q: Queue) {
    multiset(q.received) == multiset(q.attempted) + InFlight(q.workers)
  }

  /** Conservation, in acceptance order and never above capacity; workers only leave a closed and empty channel. */
  ghost predicate QueueOk(q: Queue) {
    && q.accepted == q.received + q.tasks
    && Conserved(q)
    && |q.tasks| <= CAPACITY
    && |q.workers| > 0
    && (q.chanClosed ==> q.closed)
    && (forall w :: 0 <= w < |q.workers| && q.workers[w].Exited? ==> q.chanClosed && q.tasks == [])
  }

  lemma ReceiveConserves(received: seq<Id>, attempted: multiset<Id>, id: Id, before: multiset<Id>, after: multiset<Id>)
    requires multiset(received) == attempted + before && after + multiset{} == before + multiset{id}
    ensures multiset(received + [id]) == attempted + after
  {
    assert multiset(received + [id]) == multiset(received) + multiset{id};
    assert (attempted + before) + multiset{id} == attempted + (before + multiset{id});
    assert after + multiset{} == after;
  }

  lemma ReceiveKeepsConserved(q: Queue, w: nat)
    requires Conserved(q) && CanReceive(q, w)
    ensures Conserved(ReceiveStep(q, w))
  {
    var id := q.tasks[0];
    InFlightUpdate(q.workers, w, Deleting(id));
    var after := InFlight(q.workers[w := Deleting(id)]);
    ReceiveConserves(q.received, multiset(q.attempted), id, InFlight(q.workers), after);
  }

  lemma ReceiveKeepsQueue(q: Queue, w: nat)
    requires QueueOk(q) && CanReceive(q, w)
    ensures QueueOk(ReceiveStep(q, w))
  {
    ReceiveKeepsConserved(q, w);
    assert q.tasks == [q.tasks[0]] + q.tasks[1..];
    assert q.received + q.tasks == (q.received + [q.tasks[0]]) + q.tasks[1..];
  }

  lemma FinishKeepsQueue(q: Queue, w: nat)
    requires QueueOk(q) && CanFinish(q, w)
    ensures QueueOk(FinishStep(q, w))
  {
    InFlightUpdate(q.workers, w, Receiving);
    Move(multiset(q.attempted), InFlight(q.workers[w := Receiving]), One(q.workers[w]));
    assert multiset(q.attempted + [q.workers[w].id]) == multiset(q.attempted) + One(q.workers[w]);
  }

  lemma ExitKeepsQueue(q: Queue, w: nat)
    requires QueueOk(q) && CanExit(q, w)
    ensures QueueOk(ExitStep(q, w))
  {
    InFlightUpdate(q.workers, w, Exited);
    var before, after := InFlight(q.workers), InFlight(q.workers[w := Exited]);
    assert before + multiset{} == before && after + multiset{} == after;
  }

  lemma WorkerStepKeepsQueue(q: Queue, a: Action)
    requires QueueOk(q) && WorkerEnabled(q, a)
    ensures QueueOk(WorkerStep(q, a))
  {
    match a
    case Receive(w) => ReceiveKeepsQueue(q, w);
    case Finish(w) => FinishKeepsQueue(q, w);
    case Exit(w) => ExitKeepsQueue(q, w);
  }

  predicate InCritical(pc: Pc) {
    pc.QCheck? || pc.QSelect? || pc.QUnlock? || pc.SCheck? || pc.SSetClosed? || pc.SClose? || pc.SUnlock?
  }

  /** What each program counter knows of the shared state. */
  ghost predicate ThreadOk(s: System, tid: Tid)
    requires tid in s.threads
  {
    var pc := s.threads[tid];
    && (InCritical(pc) <==> s.lock == Some(tid))
    && (pc.QSelect? || pc.SSetClosed? ==> !s.q.closed)
    && (pc.SClose? ==> s.q.closed && !s.q.chanClosed)
    && (pc.SUnlock? || pc.SWait? || pc.SReturned? ==> s.q.chanClosed)
    && (pc == SReturned(true) ==> AllExited(s.q))
  }

  /** The flag and the channel disagree only inside the critical section that is closing the channel. */
  ghost predicate Closing(s: System) {
    s.lock.Some? && s.lock.value in s.threads && s.threads[s.lock.value].SClose?
  }

  ghost predicate LockOk(s: System) {
    && (s.lock.Some? ==> s.lock.value in s.threads)
    && (s.q.closed && !s.q.chanClosed ==> Closing(s))
    && s.closes == (if s.q.chanClosed then 1 else 0)
    && !s.panicked
  }

  ghost predicate Inv(s: System) {
    && QueueOk(s.q)
    && (forall tid :: tid in s.threads ==> ThreadOk(s, tid))
    && LockOk(s)
  }

  lemma StartIsOk(workers: int)
    ensures Inv(Start(workers))
  {
    NothingInFlight(Start(workers).q.workers);
  }

  lemma StepKeepsQueue(s: System, a: Action)
    requires Inv(s)
    ensures QueueOk(Step(s, a).q)
  {
    if WorkerEnabled(s.q, a) {
      WorkerStepKeepsQueue(s.q, a);
    } else if a.Advance? && a.tid in s.threads {
      assert ThreadOk(s, a.tid);
      if s.threads[a.tid].QSelect? {
        assert s.q.accepted + [s.threads[a.tid].id] == s.q.received + (s.q.tasks + [s.threads[a.tid].id]);
      }
    }
  }

  lemma AdvanceKeepsOwn(s: System, tid: Tid)
    requires Inv(s) && tid in s.threads
    ensures ThreadOk(AdvanceStep(s, tid), tid)
  {
    assert ThreadOk(s, tid);
  }

  lemma AdvanceKeepsOther(s: System, mover: Tid, tid: Tid)
    requires Inv(s) && mover in s.threads && tid in s.threads && mover != tid
    ensures ThreadOk(AdvanceStep(s, mover), tid)
  {
    assert ThreadOk(s, tid) && ThreadOk(s, mover);
  }

  lemma StepKeepsThread(s: System, a: Action, tid: Tid)
    requires Inv(s) && tid in Step(s, a).threads
    ensures ThreadOk(Step(s, a), tid)
  {
    if a.Advance? && a.tid in s.threads {
      if a.tid == tid { AdvanceKeepsOwn(s, tid); } else { AdvanceKeepsOther(s, a.tid, tid); }
    } else if tid in s.threads {
      assert ThreadOk(s, tid);
    }
  }

  lemma StepKeepsLock(s: System, a: Action)
    requires Inv(s)
    ensures LockOk(Step(s, a))
  {
    if s.lock.Some? { assert ThreadOk(s, s.lock.value); }
    if a.Advance? && a.tid in s.threads { assert ThreadOk(s, a.tid); }
  }

  lemma StepKeepsInv(s: System, a: Action)
    requires Inv(s)
    ensures Inv(Step(s, a))
  {
    StepKeepsQueue(s, a);
    StepKeepsLock(s, a);
    forall tid | tid in Step(s, a).threads ensures ThreadOk(Step(s, a), tid) {
      StepKeepsThread(s, a, tid);
    }
  }

  lemma {:induction false} RunKeepsInv(s: System, actions: seq<Action>)
    requires Inv(s)
    ensures Inv(Run(s, actions))
    decreases |actions|
  {
    if actions != [] {
      StepKeepsInv(s, actions[0]);
      RunKeepsInv(Step(s, actions[0]), actions[1..]);
    }
  }

  // ------------------------------------------------------------------ what every run keeps

  /** Accepted ids are queued, in flight or attempted, leave in acceptance order, and nothing ever panics. */
  lemma Conservation(workers: int, actions: seq<Action>)
    ensures var s := Run(Start(workers), actions);
            && multiset(s.q.accepted) == multiset(s.q.tasks) + InFlight(s.q.workers) + multiset(s.q.attempted)
            && s.q.received <= s.q.accepted
            && |s.q.tasks| <= CAPACITY
            && s.closes <= 1
            && !s.panicked
  {
    StartIsOk(workers);
    RunKeepsInv(Start(workers), actions);
  }

  predicate ShutdownReturnedNil(s: System) {
    exists tid :: tid in s.threads && s.threads[tid] == SReturned(true)
  }

  lemma ClosedStepAcceptsNothing(s: System, a: Action)
    requires Inv(s) && s.q.chanClosed
    ensures Step(s, a).q.chanClosed && Step(s, a).q.accepted == s.q.accepted
  {
    if a.Advance? && a.tid in s.threads { assert ThreadOk(s, a.tid); }
  }

  /** A channel once closed stays closed, and no id is accepted any more. */
  lemma {:induction false} ClosedAcceptsNothing(s: System, actions: seq<Action>)
    requires Inv(s) && s.q.chanClosed
    ensures Run(s, actions).q.chanClosed && Run(s, actions).q.accepted == s.q.accepted
    decreases |actions|
  {
    if actions != [] {
      StepKeepsInv(s, actions[0]);
      ClosedStepAcceptsNothing(s, actions[0]);
      ClosedAcceptsNothing(Step(s, actions[0]), actions[1..]);
    }
  }

  /**
   Once any Shutdown call has returned nil, the attempted deletions are exactly the accepted ones,
   each as often as it was accepted, and that remains so whatever is called afterwards.
   */
  lemma NilShutdownMeansAllAttempted(workers: int, before: seq<Action>, after: seq<Action>)
    requires ShutdownReturnedNil(Run(Start(workers), before))
    ensures var s := Run(Start(workers), before); var s' := Run(s, after);
            && multiset(s.q.attempted) == multiset(s.q.accepted)
            && s'.q.accepted == s.q.accepted && multiset(s'.q.attempted) == multiset(s'.q.accepted)
  {
    var s := Run(Start(workers), before);
    StartIsOk(workers);
    RunKeepsInv(Start(workers), before);
    RunKeepsInv(s, after);
    var tid :| tid in s.threads && s.threads[tid] == SReturned(true);
    assert ThreadOk(s, tid);
    DrainedMeansAttempted(s.q);
    ClosedAcceptsNothing(s, after);
    ExitedStaysExited(s, after);
    DrainedMeansAttempted(Run(s, after).q);
  }

  lemma DrainedMeansAttempted(q: Queue)
    requires QueueOk(q) && AllExited(q)
    ensures q.tasks == [] && multiset(q.attempted) == multiset(q.accepted)
  {
    NothingInFlight(q.workers);
    assert q.workers[0].Exited?;
    assert q.accepted == q.received;
  }

  lemma {:induction false} ExitedStaysExited(s: System, actions: seq<Action>)
    requires AllExited(s.q)
    ensures AllExited(Run(s, actions).q)
    decreases |actions|
  {
    if actions != [] {
      ExitedStaysExited(Step(s, actions[0]), actions[1..]);
    }
  }

  // ------------------------------------------------------------------ draining

  function Weight(w: Worker): nat {
    match w case Exited => 0 case Receiving => 1 case Deleting(_) => 2
  }

  function Weights(ws: seq<Worker>): nat {
    if ws == [] then 0 else Weight(ws[0]) + Weights(ws[1..])
  }

  lemma {:induction false} WeightsUpdate(ws: seq<Worker>, w: nat, x: Worker)
    requires w < |ws|
    ensures Weights(ws[w := x]) + Weight(ws[w]) == Weights(ws) + Weight(x)
  {
    if w == 0 {
      assert ws[0 := x][1..] == ws[1..];
    } else {
      WeightsUpdate(ws[1..], w - 1, x);
      assert ws[w := x][1..] == ws[1..][w - 1 := x];
    }
  }

  lemma {:induction false} NoWeightMeansExited(ws: seq<Worker>)
    ensures Weights(ws) == 0 <==> forall w :: 0 <= w < |ws| ==> ws[w].Exited?
  {
    if ws != [] {
      NoWeightMeansExited(ws[1..]);
      if ws[0].Exited? && forall w :: 0 <= w < |ws[1..]| ==> ws[1..][w].Exited? {
        forall w | 0 <= w < |ws| ensures ws[w].Exited? { if w > 0 { assert ws[1..][w - 1].Exited?; } }
      } else {
        assert forall w :: 0 <= w < |ws[1..]| ==> ws[1..][w] == ws[w + 1];
      }
    }
  }

  /** Work left before every worker is gone. */
  function Measure(q: Queue): nat {
    2 * |q.tasks| + Weights(q.workers)
  }

  /** Once the channel is closed each enabled worker step lowers the measure by one and nothing else changes it. */
  lemma StepDrains(s: System, a: Action)
    requires Inv(s) && s.q.chanClosed
    ensures Measure(Step(s, a).q) == Measure(s.q) - (if WorkerEnabled(s.q, a) then 1 else 0)
  {
    match a
    case Receive(w) => if CanReceive(s.q, w) { WeightsUpdate(s.q.workers, w, Deleting(s.q.tasks[0])); }
    case Finish(w) => if CanFinish(s.q, w) { WeightsUpdate(s.q.workers, w, Receiving); }
    case Exit(w) => if CanExit(s.q, w) { WeightsUpdate(s.q.workers, w, Exited); }
    case Advance(tid) => if tid in s.threads { assert ThreadOk(s, tid); }
    case _ =>
  }

  /** The worker steps a run actually takes. */
  function WorkerSteps(s: System, actions: seq<Action>): nat
    decreases |actions|
  {
    if actions == [] then 0
    else (if WorkerEnabled(s.q, actions[0]) then 1 else 0) + WorkerSteps(Step(s, actions[0]), actions[1..])
  }

  lemma {:induction false} RunDrains(s: System, actions: seq<Action>)
    requires Inv(s) && s.q.chanClosed
    ensures WorkerSteps(s, actions) + Measure(Run(s, actions).q) == Measure(s.q)
    decreases |actions|
  {
    if actions != [] {
      StepDrains(s, actions[0]);
      StepKeepsInv(s, actions[0]);
      ClosedStepAcceptsNothing(s, actions[0]);
      RunDrains(Step(s, actions[0]), actions[1..]);
    }
  }

  /** A closed queue is never stuck: while a worker lives, some worker step is enabled. */
  lemma WorkerAlwaysEnabled(q: Queue) returns (a: Action)
    requires QueueOk(q) && q.chanClosed && !AllExited(q)
    ensures WorkerEnabled(q, a)
  {
    var w :| 0 <= w < |q.workers| && !q.workers[w].Exited?;
    a := if q.workers[w].Deleting? then Finish(w) else if q.tasks != [] then Receive(w) else Exit(w);
  }

  /**
   After closing, exactly Measure worker steps are left, however they interleave with other goroutines; a run has
   taken them all exactly when every worker is gone, and then every accepted id has been attempted.
   */
  lemma DrainsInMeasureSteps(s: System, actions: seq<Action>)
    requires Inv(s) && s.q.chanClosed
    ensures WorkerSteps(s, actions) <= Measure(s.q)
    ensures WorkerSteps(s, actions) == Measure(s.q) <==> AllExited(Run(s, actions).q)
    ensures AllExited(Run(s, actions).q) ==> multiset(Run(s, actions).q.attempted) == multiset(s.q.accepted)
  {
    RunDrains(s, actions);
    RunKeepsInv(s, actions);
    ClosedAcceptsNothing(s, actions);
    var q := Run(s, actions).q;
    NoWeightMeansExited(q.workers);
    if AllExited(q) { DrainedMeansAttempted(q); }
  }

  /** The mutex is never lost: its holder can always take a step. */
  lemma LockHolderAdvances(s: System)
    requires Inv(s) && s.lock.Some?
    ensures Step(s, Advance(s.lock.value)) != s
  {
    assert ThreadOk(s, s.lock.value);
  }

  // ------------------------------------------------------------------ every run as a run of atomic operations

  function Enqueue(q: Queue, id: Id): (Queue, QueueResult) {
    if q.closed then (q, ShuttingDown) else Send(q, id)
  }

  function CloseQueue(q: Queue): Queue {
    q.(closed := true, chanClosed := true)
  }

  /**
   Whatever other goroutines do while one is in its critical section, from the check to the send and to the unlocking:
   the flag, the channel's closing and the accepted ids stay as they are.
   */
  lemma SectionIsAtomic(s: System, tid: Tid, a: Action)
    requires Inv(s) && tid in s.threads && InCritical(s.threads[tid])
    requires a != Advance(tid)
    ensures var s' := Step(s, a);
            && tid in s'.threads && s'.threads[tid] == s.threads[tid] && s'.lock == s.lock
            && s'.q.closed == s.q.closed && s'.q.chanClosed == s.q.chanClosed && s'.q.accepted == s.q.accepted
  {
    assert ThreadOk(s, tid);
    if a.Advance? && a.tid in s.threads { assert ThreadOk(s, a.tid); }
  }

  /** A whole QueueDeletion call, the closing of the queue, or one step of a worker. */
  datatype Atomic = Enqueues(tid: Tid, id: Id) | Closes | Works(step: Action)

  /** The queue as its callers see it: the flag and the channel close together. */
  function Seen(q: Queue): Queue {
    q.(closed := q.chanClosed)
  }

  function AtomicStep(q: Queue, op: Atomic): Queue {
    match op
    case Enqueues(_, id) => Enqueue(q, id).0
    case Closes => CloseQueue(q)
    case Works(step) => if WorkerEnabled(q, step) then WorkerStep(q, step) else q
  }

  function AtomicRun(q: Queue, ops: seq<Atomic>): Queue {
    if ops == [] then q else AtomicStep(AtomicRun(q, ops[..|ops| - 1]), ops[|ops| - 1])
  }

  /** What an atomic operation returns to a goroutine. */
  function Given(q: Queue, op: Atomic, tid: Tid): seq<Pc> {
    if op.Enqueues? && op.tid == tid then [QReturned(op.id, Enqueue(q, op.id).1)] else []
  }

  /** What the atomic calls made by one goroutine returned. */
  function Answers(q: Queue, ops: seq<Atomic>, tid: Tid): seq<Pc> {
    if ops == [] then []
    else
      var before := ops[..|ops| - 1];
      Answers(q, before, tid) + Given(AtomicRun(q, before), ops[|ops| - 1], tid)
  }

  /** The atomic operation that takes place in a step, if any: a call takes place when it is decided. */
  function AdvanceEffect(s: System, tid: Tid): Option<Atomic>
    requires tid in s.threads
  {
    match s.threads[tid]
    case QCheck(id) => if s.q.closed then Some(Enqueues(tid, id)) else None
    case QSelect(id) => Some(Enqueues(tid, id))
    case SClose => Some(Closes)
    case _ => None
  }

  function Effect(s: System, a: Action): Option<Atomic> {
    if a.Advance? then if a.tid in s.threads then AdvanceEffect(s, a.tid) else None
    else if WorkerEnabled(s.q, a) then Some(Works(a))
    else None
  }

  /** The atomic operations of a run, in the order in which they took place. */
  function Linearized(s: System, actions: seq<Action>): seq<Atomic> {
    if actions == [] then []
    else
      var before := actions[..|actions| - 1];
      var effect := Effect(Run(s, before), actions[|actions| - 1]);
      if effect.None? then Linearized(s, before) else Linearized(s, before) + [effect.value]
  }

  /** What a goroutine has to show for itself: the answer of its call, once it is decided. */
  function Answered(pc: Pc): seq<Pc> {
    match pc
    case QUnlock(id, res) => [QReturned(id, res)]
    case QReturned(id, res) => [QReturned(id, res)]
    case _ => []
  }

  function AnsweredBy(s: System, tid: Tid): seq<Pc> {
    if tid in s.threads then Answered(s.threads[tid]) else []
  }

  lemma AtomicRunMore(q: Queue, ops: seq<Atomic>, op: Atomic)
    ensures AtomicRun(q, ops + [op]) == AtomicStep(AtomicRun(q, ops), op)
  {
    assert (ops + [op])[..|ops|] == ops;
  }

  lemma AnswersMore(q: Queue, ops: seq<Atomic>, op: Atomic, tid: Tid)
    ensures Answers(q, ops + [op], tid) == Answers(q, ops, tid) + Given(AtomicRun(q, ops), op, tid)
  {
    assert (ops + [op])[..|ops|] == ops;
  }

  /** While a goroutine is about to check the flag, flag and channel agree. */
  lemma CheckSees(s: System, tid: Tid)
    requires Inv(s) && tid in s.threads && s.threads[tid].QCheck?
    ensures s.q.closed == s.q.chanClosed
  {
    assert ThreadOk(s, tid);
  }

  /** Every step of every goroutine is one atomic operation of the queue as seen, or none. */
  lemma StepIsAtomic(s: System, a: Action)
    requires Inv(s)
    ensures var effect := Effect(s, a);
            Seen(Step(s, a).q) == if effect.None? then Seen(s.q) else AtomicStep(Seen(s.q), effect.value)
  {
    if a.Advance? && a.tid in s.threads {
      assert ThreadOk(s, a.tid);
      if s.threads[a.tid].QCheck? { CheckSees(s, a.tid); }
    }
  }

  /** Without an effect no answer appears or vanishes. */
  lemma SilentAdvance(s: System, tid: Tid)
    requires tid in s.threads && AdvanceEffect(s, tid).None?
    ensures tid in AdvanceStep(s, tid).threads
    ensures Answered(AdvanceStep(s, tid).threads[tid]) == Answered(s.threads[tid])
  {
  }

  /** Nor does it by what other goroutines do. */
  lemma OtherStep(s: System, a: Action, tid: Tid)
    requires a != Advance(tid)
    ensures AnsweredBy(Step(s, a), tid) == AnsweredBy(s, tid)
  {
  }

  /** A call is answered as the atomic call that takes place. */
  lemma DecidingStep(s: System, tid: Tid)
    requires Inv(s) && tid in s.threads && AdvanceEffect(s, tid).Some?
    ensures AnsweredBy(s, tid) == []
    ensures AnsweredBy(Step(s, Advance(tid)), tid) == Given(Seen(s.q), AdvanceEffect(s, tid).value, tid)
  {
    assert ThreadOk(s, tid);
    if s.threads[tid].QCheck? { CheckSees(s, tid); }
  }

  lemma StepAnswers(s: System, a: Action, tid: Tid)
    requires Inv(s)
    ensures var effect := Effect(s, a);
            var given := if effect.None? then [] else Given(Seen(s.q), effect.value, tid);
            AnsweredBy(Step(s, a), tid) == AnsweredBy(s, tid) + given
  {
    if a != Advance(tid) {
      OtherStep(s, a, tid);
    } else if Effect(s, a).Some? {
      DecidingStep(s, tid);
    } else if tid in s.threads {
      SilentAdvance(s, tid);
    }
  }

  lemma {:induction false} RunOneMore(s: System, actions: seq<Action>, a: Action)
    ensures Run(s, actions + [a]) == Step(Run(s, actions), a)
    decreases |actions|
  {
    if actions == [] {
      assert actions + [a] == [a] && [a][1..] == [];
    } else {
      assert (actions + [a])[1..] == actions[1..] + [a];
      RunOneMore(Step(s, actions[0]), actions[1..], a);
    }
  }

  lemma LinearizedMore(s: System, actions: seq<Action>, a: Action)
    ensures var effect := Effect(Run(s, actions), a);
            Linearized(s, actions + [a])
            == if effect.None? then Linearized(s, actions) else Linearized(s, actions) + [effect.value]
  {
    assert (actions + [a])[..|actions|] == actions;
  }

  /** One more step keeps the run of goroutines and the run of atomic operations together. */
  lemma AtomicSoFar(s0: System, actions: seq<Action>, a: Action, tid: Tid)
    requires var s, ops := Run(s0, actions), Linearized(s0, actions);
             Inv(s) && Seen(s.q) == AtomicRun(s0.q, ops) && AnsweredBy(s, tid) == Answers(s0.q, ops, tid)
    ensures var s, ops := Run(s0, actions + [a]), Linearized(s0, actions + [a]);
            Seen(s.q) == AtomicRun(s0.q, ops) && AnsweredBy(s, tid) == Answers(s0.q, ops, tid)
  {
    var s, ops := Run(s0, actions), Linearized(s0, actions);
    var effect := Effect(s, a);
    RunOneMore(s0, actions, a);
    LinearizedMore(s0, actions, a);
    StepIsAtomic(s, a);
    StepAnswers(s, a, tid);
    if effect.Some? {
      AtomicRunMore(s0.q, ops, effect.value);
      AnswersMore(s0.q, ops, effect.value, tid);
    }
  }

  /**
   Every run of goroutines, one operation on mutex, flag, channel or wait group at a time, is a run of whole
   QueueDeletion calls, closings and worker steps: the queue is the same, and each call that has been decided was
   answered exactly once, as the atomic call was.
   */
  lemma {:induction false} RunIsAtomic(workers: int, actions: seq<Action>, tid: Tid)
    ensures var s0, s := Start(workers), Run(Start(workers), actions);
            && Seen(s.q) == AtomicRun(s0.q, Linearized(s0, actions))
            && AnsweredBy(s, tid) == Answers(s0.q, Linearized(s0, actions), tid)
  {
    if actions != [] {
      var before, a := actions[..|actions| - 1], actions[|actions| - 1];
      assert actions == before + [a];
      RunIsAtomic(workers, before, tid);
      StartIsOk(workers);
      RunKeepsInv(Start(workers), before);
      AtomicSoFar(Start(workers), before, a, tid);
    }
  }

  /** What has taken place stays in place: calls that follow one another take place in that order. */
  lemma {:induction false} LinearizedGrows(s: System, actions: seq<Action>, more: seq<Action>)
    ensures Linearized(s, actions) <= Linearized(s, actions + more)
  {
    if more == [] {
      assert actions + more == actions;
    } else {
      var shorter, a := more[..|more| - 1], more[|more| - 1];
      LinearizedGrows(s, actions, shorter);
      LinearizedMore(s, actions + shorter, a);
      assert actions + more == actions + shorter + [a];
    }
  }

  // ------------------------------------------------------------------ what a call is answered

  /** A call finds the queue closed, full with its thousand tasks, or open with room: that is what it is told. */
  predicate AnswersFor(closed: bool, queued: int, res: QueueResult) {
    && (res == ShuttingDown <==> closed)
    && (res == Full <==> !closed && queued >= 1000)
    && (res == Accepted <==> !closed && queued < 1000)
  }

  lemma EnqueueIsExact(q: Queue, id: Id)
    ensures var (q', res) := Enqueue(q, id);
            && AnswersFor(q.closed, |q.tasks|, res)
            && q'.tasks == q.tasks + (if res == Accepted then [id] else [])
            && q'.accepted == q.accepted + (if res == Accepted then [id] else [])
            && q' == q.(tasks := q'.tasks, accepted := q'.accepted)
  {
  }

  /** In this step the call of goroutine `tid` is decided, on what it finds of the flag and the channel. */
  ghost predicate Decides(s: System, a: Action, tid: Tid, id: Id, res: QueueResult) {
    var q' := Step(s, a).q;
    && a == Advance(tid) && tid in s.threads && s.lock == Some(tid)
    && AnswersFor(s.q.closed, |s.q.tasks|, res) && (res == Full ==> |s.q.tasks| == 1000)
    && q'.tasks == s.q.tasks + (if res == Accepted then [id] else [])
    && q'.accepted == s.q.accepted + (if res == Accepted then [id] else [])
  }

  lemma StepDecides(s: System, a: Action, tid: Tid, id: Id, res: QueueResult)
    requires Inv(s) && AnsweredBy(s, tid) == [] && AnsweredBy(Step(s, a), tid) == [QReturned(id, res)]
    ensures Decides(s, a, tid, id, res)
  {
    if a != Advance(tid) {
      OtherStep(s, a, tid);
      assert false;
    }
    assert ThreadOk(s, tid);
  }

  lemma AnsweredOnce(s: System, tid: Tid)
    ensures AnsweredBy(s, tid) == [] || exists id, res :: AnsweredBy(s, tid) == [QReturned(id, res)]
  {
    if tid in s.threads && Answered(s.threads[tid]) != [] {
      var pc := s.threads[tid];
      assert Answered(pc) == [QReturned(pc.id, pc.res)];
    }
  }

  /**
   In every run: a goroutine whose call has an answer got it at one step of its own, which found the flag set, or
   exactly 1000 tasks in the open channel, or room.
   */
  lemma {:induction false} AnswersAreDecided(workers: int, actions: seq<Action>, tid: Tid, id: Id, res: QueueResult)
    requires AnsweredBy(Run(Start(workers), actions), tid) == [QReturned(id, res)]
    ensures exists k :: 0 <= k < |actions| && Decides(Run(Start(workers), actions[..k]), actions[k], tid, id, res)
  {
    if actions != [] {
      var before, a := actions[..|actions| - 1], actions[|actions| - 1];
      assert actions == before + [a];
      var s := Run(Start(workers), before);
      RunOneMore(Start(workers), before, a);
      StartIsOk(workers);
      RunKeepsInv(Start(workers), before);
      if AnsweredBy(s, tid) == [] {
        StepDecides(s, a, tid, id, res);
        assert actions[..|before|] == before;
      } else {
        AnsweredOnce(s, tid);
        StepAnswers(s, a, tid);
        AnswersAreDecided(workers, before, tid, id, res);
        var k :| 0 <= k < |before| && Decides(Run(Start(workers), before[..k]), before[k], tid, id, res);
        assert actions[..k] == before[..k] && actions[k] == before[k];
      }
    }
  }

  // ------------------------------------------------------------------ every call can come to its end

  function Advances(tid: Tid, n: nat): seq<Action> {
    seq(n, _ => Advance(tid))
  }

  function AfterAdvances(s: System, tid: Tid, n: nat): System
    decreases n
  {
    if n == 0 then s else AfterAdvances(Step(s, Advance(tid)), tid, n - 1)
  }

  lemma {:induction false} AdvancesRun(s: System, tid: Tid, n: nat)
    ensures Run(s, Advances(tid, n)) == AfterAdvances(s, tid, n)
    decreases n
  {
    if n > 0 {
      assert Advances(tid, n)[1..] == Advances(tid, n - 1);
      AdvancesRun(Step(s, Advance(tid)), tid, n - 1);
    }
  }

  lemma {:induction false} RunAppend(s: System, first: seq<Action>, second: seq<Action>)
    ensures Run(s, first + second) == Run(Run(s, first), second)
    decreases |first|
  {
    if first == [] {
      assert first + second == second;
    } else {
      assert (first + second)[1..] == first[1..] + second;
      RunAppend(Step(s, first[0]), first[1..], second);
    }
  }

  lemma {:induction false} AdvancesSplit(s: System, tid: Tid, n: nat, m: nat)
    ensures AfterAdvances(s, tid, n + m) == AfterAdvances(AfterAdvances(s, tid, n), tid, m)
    decreases n
  {
    if n > 0 { AdvancesSplit(Step(s, Advance(tid)), tid, n - 1, m); }
  }

  /** The steps left in a critical section. */
  function Left(pc: Pc): nat {
    match pc
    case SCheck => 4
    case QCheck(_) => 3
    case SSetClosed => 3
    case QSelect(_) => 2
    case SClose => 2
    case QUnlock(_, _) => 1
    case SUnlock => 1
    case _ => 0
  }

  lemma SectionShrinks(s: System, tid: Tid)
    requires Inv(s) && s.lock == Some(tid) && tid in s.threads
    ensures var s' := Step(s, Advance(tid));
            || s'.lock == None
            || (s'.lock == Some(tid) && tid in s'.threads && Left(s'.threads[tid]) < Left(s.threads[tid]))
  {
    assert ThreadOk(s, tid);
  }

  /** Whoever holds the mutex gives it back within four steps of its own. */
  lemma {:induction false} LockIsReleased(s: System, tid: Tid) returns (n: nat)
    requires Inv(s) && s.lock == Some(tid) && tid in s.threads
    ensures 0 < n <= Left(s.threads[tid]) <= 4 && Run(s, Advances(tid, n)).lock == None
    decreases Left(s.threads[tid])
  {
    var s' := Step(s, Advance(tid));
    assert ThreadOk(s, tid);
    SectionShrinks(s, tid);
    StepKeepsInv(s, Advance(tid));
    var m := 0;
    if s'.lock == Some(tid) { m := LockIsReleased(s', tid); }
    n := m + 1;
    AdvancesRun(s', tid, m);
    AdvancesRun(s, tid, n);
  }

  /** A call that finds the mutex free returns after four steps, with the answer and the effect of the whole call. */
  lemma CallReturns(s: System, tid: Tid, id: Id)
    requires Inv(s) && s.lock == None && tid !in s.threads
    ensures var t := Run(s, [Call(tid, id)] + Advances(tid, 4));
            && t.lock == None && t.q == Enqueue(s.q, id).0
            && tid in t.threads && t.threads[tid] == QReturned(id, Enqueue(s.q, id).1)
  {
    var s0 := Goto(s, tid, QLock(id));
    assert ([Call(tid, id)] + Advances(tid, 4))[1..] == Advances(tid, 4);
    AdvancesRun(s0, tid, 4);
    var s1 := Step(s0, Advance(tid));
    var s2 := Step(s1, Advance(tid));
    var s3 := Step(s2, Advance(tid));
    assert AfterAdvances(s0, tid, 4) == AfterAdvances(s1, tid, 3);
    assert AfterAdvances(s1, tid, 3) == AfterAdvances(s2, tid, 2);
    assert AfterAdvances(s2, tid, 2) == AfterAdvances(s3, tid, 1);
    assert AfterAdvances(s3, tid, 1) == AfterAdvances(Step(s3, Advance(tid)), tid, 0);
  }

  /** A closed queue can be drained from any state: its workers all come to their end, and no goroutine moves. */
  lemma {:induction false} CanDrain(s: System) returns (actions: seq<Action>)
    requires Inv(s) && s.q.chanClosed
    ensures AllExited(Run(s, actions).q) && Run(s, actions).threads == s.threads
    decreases Measure(s.q)
  {
    if AllExited(s.q) {
      actions := [];
    } else {
      var a := WorkerAlwaysEnabled(s.q);
      StepDrains(s, a);
      StepKeepsInv(s, a);
      var rest := CanDrain(Step(s, a));
      actions := [a] + rest;
      assert actions[1..] == rest;
    }
  }

  /** From the flag to the wait: the channel is closed and the mutex given back. */
  lemma ClosesAndWaits(s: System, tid: Tid)
    requires tid in s.threads && s.threads[tid] == SSetClosed && !s.q.chanClosed
    ensures var t := AfterAdvances(s, tid, 3); t.q == CloseQueue(s.q) && tid in t.threads && t.threads[tid] == SWait
  {
    var s1 := Step(s, Advance(tid));
    var s2 := Step(s1, Advance(tid));
    assert AfterAdvances(s, tid, 3) == AfterAdvances(s1, tid, 2);
    assert AfterAdvances(s1, tid, 2) == AfterAdvances(s2, tid, 1);
    assert AfterAdvances(s2, tid, 1) == AfterAdvances(Step(s2, Advance(tid)), tid, 0);
  }

  lemma EntersSection(s: System, tid: Tid)
    requires tid in s.threads && s.threads[tid] == SLock && s.lock == None && !s.q.closed
    ensures var t := AfterAdvances(s, tid, 2); t.q == s.q && tid in t.threads && t.threads[tid] == SSetClosed
  {
    var s1 := Step(s, Advance(tid));
    assert AfterAdvances(s, tid, 2) == AfterAdvances(s1, tid, 1);
    assert AfterAdvances(s1, tid, 1) == AfterAdvances(Step(s1, Advance(tid)), tid, 0);
  }

  /** Up to the wait, a Shutdown that finds the mutex free takes five steps and leaves the channel closed. */
  lemma ShutdownCloses(s: System, tid: Tid)
    requires Inv(s) && s.lock == None && tid !in s.threads && !s.q.closed
    ensures var t := Run(s, [CallShutdown(tid)] + Advances(tid, 5));
            t.q == CloseQueue(s.q) && tid in t.threads && t.threads[tid] == SWait
  {
    var s0 := Goto(s, tid, SLock);
    assert ([CallShutdown(tid)] + Advances(tid, 5))[1..] == Advances(tid, 5);
    AdvancesRun(s0, tid, 5);
    EntersSection(s0, tid);
    ClosesAndWaits(AfterAdvances(s0, tid, 2), tid);
    AdvancesSplit(s0, tid, 2, 3);
  }

  /** A later Shutdown finds the queue closed and waits like the first. */
  lemma LaterShutdownWaits(s: System, tid: Tid)
    requires Inv(s) && s.lock == None && tid !in s.threads && s.q.closed
    ensures var t := Run(s, [CallShutdown(tid)] + Advances(tid, 3));
            t.q == s.q && t.q.chanClosed && tid in t.threads && t.threads[tid] == SWait
  {
    var s0 := Goto(s, tid, SLock);
    assert ([CallShutdown(tid)] + Advances(tid, 3))[1..] == Advances(tid, 3);
    AdvancesRun(s0, tid, 3);
    var s1 := Step(s0, Advance(tid));
    var s2 := Step(s1, Advance(tid));
    assert AfterAdvances(s0, tid, 3) == AfterAdvances(s1, tid, 2);
    assert AfterAdvances(s1, tid, 2) == AfterAdvances(s2, tid, 1);
    assert AfterAdvances(s2, tid, 1) == AfterAdvances(Step(s2, Advance(tid)), tid, 0);
  }

  /** A waiting Shutdown returns nil as soon as every worker is gone, and may give up at any time. */
  lemma WaitingEnds(s: System, tid: Tid)
    requires tid in s.threads && s.threads[tid] == SWait
    ensures Step(s, Advance(tid)) == if AllExited(s.q) then Goto(s, tid, SReturned(true)) else s
    ensures Step(s, Timeout(tid)) == Goto(s, tid, SReturned(false))
  {
  }

  /** From every state of every run, a Shutdown called now can close, drain and return nil. */
  lemma ShutdownCanFinish(s: System, tid: Tid) returns (actions: seq<Action>)
    requires Inv(s) && tid !in s.threads
    ensures tid in Run(s, actions).threads && Run(s, actions).threads[tid] == SReturned(true)
  {
    var free := [];
    if s.lock.Some? {
      var n := LockIsReleased(s, s.lock.value);
      free := Advances(s.lock.value, n);
      OthersStayOut(s, free, tid);
    }
    var s1 := Run(s, free);
    RunKeepsInv(s, free);
    var close := [CallShutdown(tid)] + Advances(tid, if s1.q.closed then 3 else 5);
    if s1.q.closed { LaterShutdownWaits(s1, tid); } else { ShutdownCloses(s1, tid); }
    var s2 := Run(s1, close);
    RunKeepsInv(s1, close);
    var drain := CanDrain(s2);
    var s3 := Run(s2, drain);
    RunAppend(s, free, close);
    RunAppend(s, free + close, drain);
    RunOneMore(s, free + close + drain, Advance(tid));
    actions := free + close + drain + [Advance(tid)];
  }

  lemma {:induction false} OthersStayOut(s: System, actions: seq<Action>, tid: Tid)
    requires tid !in s.threads && forall a :: a in actions ==> a.Advance?
    ensures tid !in Run(s, actions).threads
    decreases |actions|
  {
    if actions != [] {
      assert actions[0] in actions;
      OthersStayOut(Step(s, actions[0]), actions[1..], tid);
    }
  }

  lemma StepKeepsPool(s: System, a: Action)
    ensures |Step(s, a).q.workers| == |s.q.workers|
  {
  }

  lemma {:induction false} RunKeepsPool(s: System, actions: seq<Action>)
    ensures |Run(s, actions).q.workers| == |s.q.workers|
    decreases |actions|
  {
    if actions != [] {
      StepKeepsPool(s, actions[0]);
      RunKeepsPool(Step(s, actions[0]), actions[1..]);
    }
  }

  /** The pool keeps its size: as many workers as configured, ten if none are, so many deletions at a time at most. */
  lemma PoolKeepsItsSize(workers: int, actions: seq<Action>)
    ensures |Run(Start(workers), actions).q.workers| == if workers <= 0 then 10 else workers
    ensures |InFlight(Run(Start(workers), actions).q.workers)| <= |Run(Start(workers), actions).q.workers|
  {
    RunKeepsPool(Start(workers), actions);
    FewInFlight(Run(Start(workers), actions).q.workers);
  }

  lemma {:induction false} FewInFlight(ws: seq<Worker>)
    ensures |InFlight(ws)| <= |ws|
  {
    if ws != [] { FewInFlight(ws[1..]); }
  }

  // ------------------------------------------------------------------ one worker among others

  /** The atomic operation is a step of worker w. */
  predicate WorkOf(op: Atomic, w: nat) {
    op.Works? && (op.step == Receive(w) || op.step == Finish(w) || op.step == Exit(w))
  }

  /** Calls, closings and steps of other workers lead from one queue to the other. */
  ghost predicate OthersRan(q: Queue, q': Queue, w: nat) {
    exists ops :: OthersOnly(ops, w) && AtomicRun(q, ops) == q'
  }

  predicate OthersOnly(ops: seq<Atomic>, w: nat) {
    forall op :: op in ops ==> !WorkOf(op, w)
  }

  /** What others may do to a closed queue: they take tasks away and attempt them, and accept none. */
  ghost predicate Drains(q: Queue, q': Queue, w: nat) {
    && q'.chanClosed && q'.closed && QueueOk(q') && q'.accepted == q.accepted
    && |q'.workers| == |q.workers| && (w < |q.workers| ==> q'.workers[w] == q.workers[w])
    && q.received <= q'.received && q.attempted <= q'.attempted && |q'.tasks| <= |q.tasks|
  }

  lemma AtomicStepDrains(q: Queue, op: Atomic, w: nat)
    requires QueueOk(q) && q.chanClosed && !WorkOf(op, w)
    ensures Drains(q, AtomicStep(q, op), w)
  {
    if op.Works? && WorkerEnabled(q, op.step) { WorkerStepKeepsQueue(q, op.step); }
  }

  lemma {:induction false} OthersDrain(q: Queue, ops: seq<Atomic>, w: nat)
    requires QueueOk(q) && q.chanClosed && OthersOnly(ops, w)
    ensures Drains(q, AtomicRun(q, ops), w)
  {
    if ops != [] {
      var before, op := ops[..|ops| - 1], ops[|ops| - 1];
      assert op in ops && forall o :: o in before ==> o in ops;
      OthersDrain(q, before, w);
      AtomicStepDrains(AtomicRun(q, before), op, w);
    }
  }

  /** a is b with some elements left out. */
  ghost predicate Within(a: seq<Id>, b: seq<Id>) {
    a != [] ==> b != [] && (Within(a, b[..|b| - 1])
                            || (a[|a| - 1] == b[|b| - 1] && Within(a[..|a| - 1], b[..|b| - 1])))
  }

  lemma {:induction false} WithinLonger(a: seq<Id>, b: seq<Id>, more: seq<Id>)
    requires Within(a, b)
    ensures Within(a, b + more)
    decreases |more|
  {
    if more == [] {
      assert b + more == b;
    } else {
      WithinLonger(a, b, more[..|more| - 1]);
      assert (b + more)[..|b + more| - 1] == b + more[..|more| - 1];
    }
  }

  lemma WithinBoth(a: seq<Id>, b: seq<Id>, x: Id)
    requires Within(a, b)
    ensures Within(a + [x], b + [x])
  {
    assert (a + [x])[..|a|] == a && (b + [x])[..|b|] == b;
  }

  /** What was added to a sequence that only grows. */
  function Since(start: seq<Id>, now: seq<Id>): seq<Id>
    requires start <= now
  {
    now[|start|..]
  }

  lemma WithinSince(mine: seq<Id>, start: seq<Id>, mid: seq<Id>, now: seq<Id>)
    requires start <= mid <= now && Within(mine, Since(start, mid))
    ensures Within(mine, Since(start, now))
  {
    assert Since(start, now) == Since(start, mid) + Since(mid, now);
    WithinLonger(mine, Since(start, mid), Since(mid, now));
  }

  lemma WithinNext(mine: seq<Id>, start: seq<Id>, mid: seq<Id>, x: Id)
    requires start <= mid && Within(mine, Since(start, mid))
    ensures Within(mine + [x], Since(start, mid + [x]))
  {
    assert Since(start, mid + [x]) == Since(start, mid) + [x];
    WithinBoth(mine, Since(start, mid), x);
  }

  // ------------------------------------------------------------------ the queue as an object

  class TaskQueue {
    var tasks: seq<Id>
    var closed: bool
    var chanClosed: bool
    var workers: seq<Worker>
    ghost var accepted: seq<Id>
    ghost var received: seq<Id>
    ghost var attempted: seq<Id>

    ghost function State(): Queue
      reads this
    {
      Queue(tasks, chanClosed, closed, workers, accepted, received, attempted)
    }

    ghost predicate Valid() reads this { QueueOk(State()) && chanClosed == closed }

    constructor (n: int)
      ensures Valid() && State() == Start(n).q
    {
      var count := if n <= 0 then 10 else n;
      tasks, closed, chanClosed := [], false, false;
      workers := seq(count, _ => Receiving);
      accepted, received, attempted := [], [], [];
      new;
      StartIsOk(n);
    }

    method QueueDeletion(id: Id) returns (res: QueueResult)
      requires Valid()
      modifies this
      ensures Valid()
      ensures (State(), res) == Enqueue(old(State()), id)
      ensures AnswersFor(old(closed), |old(tasks)|, res)
      ensures tasks == old(tasks) + (if res == Accepted then [id] else [])
    {
      if closed { return ShuttingDown; }
      if |tasks| < CAPACITY {
        assert accepted + [id] == received + (tasks + [id]);
        tasks := tasks + [id];
        accepted := accepted + [id];
        return Accepted;
      }
      res := Full;
    }

    /** Anything other goroutines do; here they do nothing, callers know only the contract. */
    method Interfere(w: nat)
      requires Valid()
      modifies this
      ensures Valid() && OthersRan(old(State()), State(), w)
    {
      assert AtomicRun(State(), []) == State();
    }

    /** Others run while the queue is closed. */
    method WaitClosed(w: nat)
      requires Valid() && chanClosed
      modifies this
      ensures Valid() && Drains(old(State()), State(), w)
    {
      Interfere(w);
      ghost var ops :| OthersOnly(ops, w) && AtomicRun(old(State()), ops) == State();
      OthersDrain(old(State()), ops, w);
    }

    method Receive(w: nat) returns (id: Id)
      requires Valid() && CanReceive(State(), w)
      modifies this`tasks, this`received, this`workers
      ensures Valid() && id == old(tasks[0])
      ensures State() == ReceiveStep(old(State()), w)
    {
      ReceiveKeepsQueue(State(), w);
      id := tasks[0];
      tasks, received, workers := tasks[1..], received + [id], workers[w := Deleting(id)];
    }

    /** DeletePaste has been called, with whatever result. */
    method Finish(w: nat)
      requires Valid() && CanFinish(State(), w)
      modifies this`attempted, this`workers
      ensures Valid()
      ensures State() == FinishStep(old(State()), w)
    {
      FinishKeepsQueue(State(), w);
      attempted, workers := attempted + [workers[w].id], workers[w := Receiving];
    }

    /** One turn of the worker loop: receive the oldest task, hand it to DeletePaste, and come back. */
    method ProcessNext(w: nat) returns (id: Id)
      requires Valid() && chanClosed && CanReceive(State(), w)
      modifies this
      ensures Valid() && chanClosed && w < |workers| && workers[w].Receiving?
      ensures accepted == old(accepted) && |tasks| < old(|tasks|)
      ensures id == old(tasks[0]) && old(received) + [id] <= received
      ensures exists mid :: old(attempted) <= mid && attempted == mid + [id]
    {
      id := Receive(w);
      WaitClosed(w);
      ghost var mid := attempted;
      Finish(w);
      assert old(attempted) <= mid && attempted == mid + [id];
    }

    /** The range over the closed and empty channel ends, and with it the worker. */
    method LeaveLoop(w: nat)
      requires Valid() && CanExit(State(), w)
      modifies this`workers
      ensures Valid()
      ensures State() == ExitStep(old(State()), w)
    {
      ExitKeepsQueue(State(), w);
      workers := workers[w := Exited];
    }

    /**
     The worker loop from the closing on, with any number of other workers and callers in between. It ends, and then
     the channel is empty. What this worker received, it received in acceptance order, and it attempted all of it in
     that order.
     */
    method RunWorker(w: nat) returns (mine: seq<Id>)
      requires Valid() && chanClosed && w < |workers| && workers[w].Receiving?
      modifies this
      ensures Valid() && chanClosed && tasks == [] && w < |workers| && workers[w].Exited?
      ensures accepted == old(accepted) == received
      ensures Within(mine, old(tasks))
      ensures old(attempted) <= attempted && Within(mine, Since(old(attempted), attempted))
    {
      mine := [];
      WaitClosed(w);
      while tasks != []
        invariant Valid() && chanClosed && w < |workers| && workers[w].Receiving?
        invariant accepted == old(accepted)
        invariant old(received) <= received && Within(mine, Since(old(received), received))
        invariant old(attempted) <= attempted && Within(mine, Since(old(attempted), attempted))
        decreases |tasks|
      {
        ghost var r, a := received, attempted;
        var id := ProcessNext(w);
        WithinNext(mine, old(received), r, id);
        WithinSince(mine + [id], old(received), r + [id], received);
        ghost var mid :| a <= mid && attempted == mid + [id];
        WithinSince(mine, old(attempted), a, mid);
        WithinNext(mine, old(attempted), mid, id);
        mine := mine + [id];
        r, a := received, attempted;
        WaitClosed(w);
        WithinSince(mine, old(received), r, received);
        WithinSince(mine, old(attempted), a, attempted);
      }
      LeaveLoop(w);
      assert received == received + tasks == old(received) + old(tasks);
      assert Since(old(received), received) == old(tasks);
    }

    /** Closing happens once however often Shutdown is called. */
    method Close()
      requires Valid()
      modifies this`closed, this`chanClosed
      ensures Valid()
      ensures State() == CloseQueue(old(State()))
    {
      if !closed {
        closed := true;
        chanClosed := true;
      }
    }
  }
}
