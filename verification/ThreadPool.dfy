/** The work-stealing thread pool (ThreadPool/src/thread_pool.hpp) as an interleaving of lock
    acquisitions and critical sections. Threads 0..n-1 are the workers, with one queue each; any
    other threads only submit.
 */
module ThreadPool {
  import opened Common

  /** Tasks are numbered as they are submitted. */
  type Task = nat

  /** What a thread does next. `Locking` phases wait for a mutex, `Held` phases have all theirs. A
      worker that submits has not finished `running` yet. */
  datatype Phase =
    | PopLocking
    | PopHeld
    | StealPicking
    | StealLockingFirst(first: nat, second: nat)
    | StealLockingSecond(first: nat, second: nat)
    | StealHeld(first: nat, second: nat)
    | Running(task: Task)
    | SubmitLocking(queue: nat, task: Task, running: Option<Task>)
    | SubmitHeld(queue: nat, task: Task, running: Option<Task>)
    | Failed
    | Outside
    | Exited

  datatype State = State(queues: seq<seq<Task>>, threads: seq<Phase>, finished: seq<Task>, next: Task)

  datatype Step =
    | Go
    | Pick(first: nat, second: nat)
    | Submit(queue: nat)
    | Finish
    | Exit

  function Waits(t: nat, phase: Phase): Option<nat> {
    match phase
    case PopLocking => Some(t)
    case StealLockingFirst(first, _) => Some(first)
    case StealLockingSecond(_, second) => Some(second)
    case SubmitLocking(queue, _, _) => Some(queue)
    case _ => None
  }

  predicate Holds(t: nat, phase: Phase, q: nat) {
    match phase
    case PopHeld => q == t
    case StealLockingSecond(first, _) => q == first
    case StealHeld(first, second) => q == first || q == second
    case SubmitHeld(queue, _, _) => q == queue
    case _ => false
  }

  /** Another thread has the mutex that t waits for. */
  ghost predicate Blocked(s: State, t: nat)
    requires t < |s.threads|
  {
    Waits(t, s.threads[t]).Some?
    && exists u :: 0 <= u < |s.threads| && u != t && Holds(u, s.threads[u], Waits(t, s.threads[t]).value)
  }

  function Move(s: State, t: nat, phase: Phase): State
    requires t < |s.threads|
  {
    s.(threads := s.threads[t := phase])
  }

  function Front(q: seq<Task>): seq<Task>
    requires q != []
  {
    q[..|q| - 1]
  }

  function Back(q: seq<Task>): Task
    requires q != []
  {
    q[|q| - 1]
  }

  /** The back of the longer queue goes to the thief if the shorter queue is its own, and to the
      front of the shorter queue otherwise. */
  function Steal(s: State, t: nat, first: nat, second: nat): State
    requires t < |s.threads| && first < |s.queues| && second < |s.queues|
  {
    var q1, q2 := s.queues[first], s.queues[second];
    if |q1| > |q2| then
      if t == second then Move(s, t, Running(Back(q1))).(queues := s.queues[first := Front(q1)])
      else Move(s, t, Failed).(queues := s.queues[first := Front(q1)][second := [Back(q1)] + q2])
    else if |q1| < |q2| then
      if t == first then Move(s, t, Running(Back(q2))).(queues := s.queues[second := Front(q2)])
      else Move(s, t, Failed).(queues := s.queues[second := Front(q2)][first := [Back(q2)] + q1])
    else Move(s, t, Failed)
  }

  /** A worker or submitter and its indices are in range; the two queues of a steal are in order. */
  predicate PhaseOk(s: State, t: nat, phase: Phase) {
    match phase
    case StealLockingFirst(first, second) => t < |s.queues| && first < second < |s.queues|
    case StealLockingSecond(first, second) => t < |s.queues| && first < second < |s.queues|
    case StealHeld(first, second) => t < |s.queues| && first < second < |s.queues|
    case SubmitLocking(queue, _, running) => queue < |s.queues| && (t < |s.queues| <==> running.Some?)
    case SubmitHeld(queue, _, running) => queue < |s.queues| && (t < |s.queues| <==> running.Some?)
    case Outside => t >= |s.queues|
    case _ => t < |s.queues|
  }

  ghost predicate Enabled(s: State, t: nat, step: Step) {
    && t < |s.threads| && PhaseOk(s, t, s.threads[t])
    && var phase := s.threads[t];
       match step
       case Go => !phase.Running? && !phase.Outside? && !phase.Exited? && !phase.StealPicking? && !Blocked(s, t)
       case Pick(first, second) => phase.StealPicking? && (|s.queues| >= 2 ==> first < second < |s.queues|)
       case Submit(queue) => queue < |s.queues| && (phase.Outside? || (phase.Running? && queue == t))
       case Finish => phase.Running?
       case Exit => phase.Failed?
  }

  function Do(s: State, t: nat, step: Step): State
    requires t < |s.threads| && PhaseOk(s, t, s.threads[t])
    requires step.Submit? ==> s.threads[t].Running? || s.threads[t].Outside?
    requires step.Finish? ==> s.threads[t].Running?
  {
    var phase := s.threads[t];
    match step
    case Go =>
      (match phase
       case PopLocking => Move(s, t, PopHeld)
       case PopHeld =>
         var q := s.queues[t];
         if q == [] then Move(s, t, StealPicking)
         else Move(s, t, Running(Back(q))).(queues := s.queues[t := Front(q)])
       case StealLockingFirst(first, second) => Move(s, t, StealLockingSecond(first, second))
       case StealLockingSecond(first, second) => Move(s, t, StealHeld(first, second))
       case StealHeld(first, second) => Steal(s, t, first, second)
       case SubmitLocking(queue, task, running) => Move(s, t, SubmitHeld(queue, task, running))
       case SubmitHeld(queue, task, running) =>
         Move(s, t, if running.Some? then Running(running.value) else Outside).(
           queues := s.queues[queue := [task] + s.queues[queue]])
       case Failed => Move(s, t, PopLocking)
       case _ => s)
    case Pick(first, second) =>
      Move(s, t, if |s.queues| < 2 then Failed else StealLockingFirst(first, second))
    case Submit(queue) =>
      Move(s, t, SubmitLocking(queue, s.next, if phase.Running? then Some(phase.task) else None)).(next := s.next + 1)
    case Finish => Move(s, t, PopLocking).(finished := s.finished + [phase.task])
    case Exit => Move(s, t, Exited)
  }

  ghost predicate Init(s: State) {
    && 1 <= |s.queues| <= |s.threads| && s.finished == [] && s.next == 0
    && (forall q :: 0 <= q < |s.queues| ==> s.queues[q] == [])
    && (forall t :: 0 <= t < |s.threads| ==> s.threads[t] == if t < |s.queues| then PopLocking else Outside)
  }

  // ----- where the tasks are

  function One(a: Task, task: Task): nat {
    if a == task then 1 else 0
  }

  ghost function InHand(phase: Phase, task: Task): nat {
    match phase
    case Running(a) => One(a, task)
    case SubmitLocking(_, a, running) => One(a, task) + (if running.Some? then One(running.value, task) else 0)
    case SubmitHeld(_, a, running) => One(a, task) + (if running.Some? then One(running.value, task) else 0)
    case _ => 0
  }

  ghost function InHands(threads: seq<Phase>, task: Task): nat {
    if threads == [] then 0 else InHands(threads[..|threads| - 1], task) + InHand(threads[|threads| - 1], task)
  }

  ghost function In(q: seq<Task>, task: Task): nat {
    multiset(q)[task]
  }

  ghost function InQueues(queues: seq<seq<Task>>, task: Task): nat {
    if queues == [] then 0 else InQueues(queues[..|queues| - 1], task) + In(queues[|queues| - 1], task)
  }

  /** The number of places where a task is: in the queues, in the threads' hands, or done. */
  ghost function Places(s: State, task: Task): nat {
    InQueues(s.queues, task) + InHands(s.threads, task) + In(s.finished, task)
  }

  lemma {:induction false} HandsChange(threads: seq<Phase>, t: nat, phase: Phase, task: Task)
    requires t < |threads|
    ensures InHands(threads[t := phase], task) + InHand(threads[t], task) == InHands(threads, task) + InHand(phase, task)
  {
    var last := |threads| - 1;
    if t < last {
      HandsChange(threads[..last], t, phase, task);
      assert threads[t := phase][..last] == threads[..last][t := phase];
    } else {
      assert threads[t := phase][..last] == threads[..last];
    }
  }

  lemma {:induction false} QueuesChange(queues: seq<seq<Task>>, i: nat, q: seq<Task>, task: Task)
    requires i < |queues|
    ensures InQueues(queues[i := q], task) + In(queues[i], task) == InQueues(queues, task) + In(q, task)
  {
    var last := |queues| - 1;
    if i < last {
      QueuesChange(queues[..last], i, q, task);
      assert queues[i := q][..last] == queues[..last][i := q];
    } else {
      assert queues[i := q][..last] == queues[..last];
    }
  }

  lemma BackFront(q: seq<Task>, task: Task)
    requires q != []
    ensures In(q, task) == In(Front(q), task) + One(Back(q), task)
  {
    assert q == Front(q) + [Back(q)];
  }

  lemma Consed(q: seq<Task>, a: Task, task: Task)
    ensures In([a] + q, task) == In(q, task) + One(a, task)
    ensures In(q + [a], task) == In(q, task) + One(a, task)
  {
  }

  // ----- no step loses or doubles a task

  /** The back of queue i goes into an empty hand. */
  lemma TakePlaces(s: State, t: nat, i: nat, task: Task)
    requires t < |s.threads| && InHand(s.threads[t], task) == 0 && i < |s.queues| && s.queues[i] != []
    ensures var s' := Move(s, t, Running(Back(s.queues[i]))).(queues := s.queues[i := Front(s.queues[i])]);
            Places(s', task) == Places(s, task)
  {
    hide In;
    HandsChange(s.threads, t, Running(Back(s.queues[i])), task);
    QueuesChange(s.queues, i, Front(s.queues[i]), task);
    BackFront(s.queues[i], task);
  }

  /** The back of queue i goes to the front of queue j. */
  lemma ShiftQueues(queues: seq<seq<Task>>, i: nat, j: nat, task: Task)
    requires i < |queues| && j < |queues| && i != j && queues[i] != []
    ensures InQueues(queues[i := Front(queues[i])][j := [Back(queues[i])] + queues[j]], task) == InQueues(queues, task)
  {
    hide In;
    var q, mid := queues[i], queues[i := Front(queues[i])];
    QueuesChange(queues, i, Front(q), task);
    QueuesChange(mid, j, [Back(q)] + queues[j], task);
    BackFront(q, task);
    Consed(queues[j], Back(q), task);
  }

  lemma StealPlaces(s: State, t: nat, first: nat, second: nat, task: Task)
    requires t < |s.threads| && InHand(s.threads[t], task) == 0 && first < second < |s.queues|
    ensures Places(Steal(s, t, first, second), task) == Places(s, task)
  {
    hide In;
    HandsChange(s.threads, t, Failed, task);
    var q1, q2 := s.queues[first], s.queues[second];
    if |q1| > |q2| {
      if t == second { TakePlaces(s, t, first, task); } else { ShiftQueues(s.queues, first, second, task); }
    } else if |q1| < |q2| {
      if t == first { TakePlaces(s, t, second, task); } else { ShiftQueues(s.queues, second, first, task); }
    }
  }

  lemma PushPlaces(s: State, t: nat, task: Task)
    requires t < |s.threads| && s.threads[t].SubmitHeld? && PhaseOk(s, t, s.threads[t])
    ensures Places(Do(s, t, Go), task) == Places(s, task)
  {
    hide In;
    var p := s.threads[t];
    var q := s.queues[p.queue];
    HandsChange(s.threads, t, Do(s, t, Go).threads[t], task);
    QueuesChange(s.queues, p.queue, [p.task] + q, task);
    Consed(q, p.task, task);
  }

  lemma StepPlaces(s: State, t: nat, step: Step, task: Task)
    requires Enabled(s, t, step)
    ensures Places(Do(s, t, step), task) == Places(s, task) + if step.Submit? then One(s.next, task) else 0
  {
    hide In, Steal;
    var phase := s.threads[t];
    if phase.StealHeld? && step.Go? {
      StealPlaces(s, t, phase.first, phase.second, task);
    } else if phase.SubmitHeld? && step.Go? {
      PushPlaces(s, t, task);
    } else if phase.PopHeld? && step.Go? && s.queues[t] != [] {
      TakePlaces(s, t, t, task);
    } else {
      HandsChange(s.threads, t, Do(s, t, step).threads[t], task);
      if step.Finish? { Consed(s.finished, phase.task, task); }
    }
  }

  // ----- the order in the queues

  /** A steal never makes the two queues less equal. The stealing thread gets a task exactly if its
      own queue is the shorter one; then the other one is still not shorter than its own. */
  lemma StealBalances(s: State, t: nat, first: nat, second: nat)
    requires t < |s.threads| && first < second < |s.queues|
    ensures var s' := Steal(s, t, first, second);
            var a, b, a', b' := |s.queues[first]|, |s.queues[second]|, |s'.queues[first]|, |s'.queues[second]|;
            && (a <= b ==> a <= a' && b' <= b && a' <= b' + 1)
            && (b <= a ==> b <= b' && a' <= a && b' <= a' + 1)
            && (s'.threads[t].Running? <==> (t == first && a < b) || (t == second && b < a))
            && a' + b' == a + b - (if s'.threads[t].Running? then 1 else 0)
  {
  }

  /** The queue as it was, or without its back, or with one more task in front. */
  ghost predicate QueueStep(q: seq<Task>, q': seq<Task>) {
    || q' == q
    || (q != [] && q' == Front(q))
    || (q' != [] && q'[1..] == q)
  }

  /** Whatever the step, each queue is used from its two ends only: tasks leave it in the order
      in which they came. */
  lemma QueuesInOrder(s: State, t: nat, step: Step, q: nat)
    requires Enabled(s, t, step) && q < |s.queues|
    ensures q < |Do(s, t, step).queues| && QueueStep(s.queues[q], Do(s, t, step).queues[q])
  {
    if step.Go? && s.threads[t].StealHeld? {
      var i, j := s.threads[t].first, s.threads[t].second;
      if s.queues[i] != [] { assert ([Back(s.queues[i])] + s.queues[j])[1..] == s.queues[j]; }
      if s.queues[j] != [] { assert ([Back(s.queues[j])] + s.queues[i])[1..] == s.queues[i]; }
    }
  }

  // ----- what a worker does

  /** A worker that looks into its own queue runs the task that has been there longest, and goes stealing only
      if there is none. A worker that has found nothing looks again, unless it exits; nothing else ends
      a worker, and a task that it has submits to its own queue. */
  lemma WorkerLooks(s: State, t: nat, step: Step)
    requires Enabled(s, t, step) && t < |s.queues|
    ensures var p, p', q := s.threads[t], Do(s, t, step).threads[t], s.queues[t];
            && (p.PopHeld? ==> if q == [] then p' == StealPicking && Do(s, t, step).queues == s.queues
                               else p' == Running(q[|q| - 1]) && Do(s, t, step).queues == s.queues[t := q[..|q| - 1]])
            && (p.Failed? && step.Go? ==> p' == PopLocking)
            && (p'.Exited? ==> p.Failed? && step.Exit?)
            && (step.Submit? ==> p' == SubmitLocking(t, s.next, Some(p.task)))
            && (p.SubmitHeld? && step.Go? ==>
                  p' == Running(p.running.value) && Do(s, t, step).queues == s.queues[p.queue := [p.task] + s.queues[p.queue]])
            && (step.Finish? ==> p' == PopLocking && Do(s, t, step).finished == s.finished + [p.task])
  {
  }

  /** A thief with two different queues to choose from locks both, the lower one first, and only then takes what
      the steal gives; with a single queue there is nothing to steal. */
  lemma StealsInOrder(s: State, t: nat, step: Step)
    requires Enabled(s, t, step)
    ensures var p, s' := s.threads[t], Do(s, t, step);
            && (step.Pick? ==> s' == Move(s, t, if |s.queues| < 2 then Failed else StealLockingFirst(step.first, step.second)))
            && (p.StealLockingFirst? ==> s' == Move(s, t, StealLockingSecond(p.first, p.second)) && p.first < p.second)
            && (p.StealLockingSecond? ==> s' == Move(s, t, StealHeld(p.first, p.second)))
            && (p.StealHeld? ==> s' == Steal(s, t, p.first, p.second))
            && (p.PopLocking? ==> s' == Move(s, t, PopHeld))
            && (p.SubmitLocking? ==> s' == Move(s, t, SubmitHeld(p.queue, p.task, p.running)))
  {
  }

  /** A submitted task goes to the queue that was chosen, in front of the others. */
  lemma SubmitsThere(s: State, t: nat, step: Step)
    requires Enabled(s, t, step) && t >= |s.queues|
    ensures var p, s' := s.threads[t], Do(s, t, step);
            && (step.Submit? ==> s'.threads[t] == SubmitLocking(step.queue, s.next, None) && s'.next == s.next + 1)
            && (p.SubmitLocking? ==> s'.threads[t] == SubmitHeld(p.queue, p.task, None) && s'.queues == s.queues)
            && (p.SubmitHeld? ==>
                  s'.threads[t] == Outside && s'.queues == s.queues[p.queue := [p.task] + s.queues[p.queue]])
  {
  }

  // ----- the invariant

  /** No two threads hold one mutex. */
  ghost predicate Exclusive(s: State) {
    forall t, u, q: nat ::
      0 <= t < |s.threads| && 0 <= u < |s.threads| && Holds(t, s.threads[t], q) && Holds(u, s.threads[u], q) ==> t == u
  }

  ghost predicate PhasesOk(s: State) {
    forall t :: 0 <= t < |s.threads| ==> PhaseOk(s, t, s.threads[t])
  }

  /** Each submitted task is in exactly one place, and nothing else is anywhere. */
  ghost predicate Conserved(s: State) {
    forall task: Task :: Places(s, task) == if task < s.next then 1 else 0
  }

  ghost predicate Inv(s: State) {
    PhasesOk(s) && Exclusive(s) && Conserved(s)
  }

  lemma {:induction false} EmptyPlaces(queues: seq<seq<Task>>, threads: seq<Phase>, task: Task)
    requires forall q :: 0 <= q < |queues| ==> queues[q] == []
    requires forall t :: 0 <= t < |threads| ==> InHand(threads[t], task) == 0
    ensures InQueues(queues, task) == InHands(threads, task) == 0
    decreases |queues| + |threads|
  {
    if queues != [] {
      EmptyPlaces(queues[..|queues| - 1], threads, task);
    } else if threads != [] {
      EmptyPlaces(queues, threads[..|threads| - 1], task);
    }
  }

  lemma InitOk(s: State)
    requires Init(s)
    ensures Inv(s)
  {
    forall task: Task ensures Places(s, task) == 0 {
      EmptyPlaces(s.queues, s.threads, task);
    }
  }

  lemma HoldsAfter(s: State, t: nat, step: Step, q: nat)
    requires Inv(s) && Enabled(s, t, step) && Holds(t, Do(s, t, step).threads[t], q)
    ensures forall u :: 0 <= u < |s.threads| && u != t ==> !Holds(u, s.threads[u], q)
  {
    hide Places;
    var phase := s.threads[t];
    if !Holds(t, phase, q) {
      assert Waits(t, phase) == Some(q);
    }
  }

  lemma ExclusiveStays(s: State, t: nat, step: Step)
    requires Inv(s) && Enabled(s, t, step)
    ensures Exclusive(Do(s, t, step))
  {
    hide Places;
    var s' := Do(s, t, step);
    OthersStay(s, t, step);
    hide Do, Enabled;
    forall a, b, q: nat | 0 <= a < |s'.threads| && 0 <= b < |s'.threads| && Holds(a, s'.threads[a], q) && Holds(b, s'.threads[b], q)
      ensures a == b
    {
      if a == t || b == t { HoldsAfter(s, t, step, q); }
    }
  }

  lemma OthersStay(s: State, t: nat, step: Step)
    requires Enabled(s, t, step)
    ensures var s' := Do(s, t, step);
            |s'.threads| == |s.threads| && |s'.queues| == |s.queues|
            && forall u :: 0 <= u < |s.threads| && u != t ==> s'.threads[u] == s.threads[u]
    ensures PhaseOk(Do(s, t, step), t, Do(s, t, step).threads[t])
  {
  }

  lemma StepConserves(s: State, t: nat, step: Step)
    requires Conserved(s) && Enabled(s, t, step)
    ensures Conserved(Do(s, t, step))
  {
    var s' := Do(s, t, step);
    assert s'.next == if step.Submit? then s.next + 1 else s.next;
    hide Places, Do, Enabled;
    forall task: Task ensures Places(s', task) == if task < s'.next then 1 else 0 {
      StepPlaces(s, t, step, task);
    }
  }

  lemma StepKeeps(s: State, t: nat, step: Step)
    requires Inv(s) && Enabled(s, t, step)
    ensures Inv(Do(s, t, step))
  {
    StepConserves(s, t, step);
    ExclusiveStays(s, t, step);
    OthersStay(s, t, step);
    hide Conserved, Exclusive, Enabled, Do;
    var s' := Do(s, t, step);
    forall u | 0 <= u < |s'.threads| ensures PhaseOk(s', u, s'.threads[u]) {
      if u != t { assert PhaseOk(s, u, s.threads[u]); }
    }
  }

  // ----- runs

  datatype Event = Event(thread: nat, step: Step)

  ghost predicate Run(run: seq<State>, events: seq<Event>) {
    && |run| == |events| + 1 && Init(run[0])
    && forall i {:trigger events[i]} :: 0 <= i < |events| ==>
         Enabled(run[i], events[i].thread, events[i].step) && run[i + 1] == Do(run[i], events[i].thread, events[i].step)
  }

  lemma {:induction false} RunOk(run: seq<State>, events: seq<Event>, i: nat)
    requires Run(run, events) && i < |run|
    ensures Inv(run[i])
  {
    hide Inv, Init, Enabled, Do;
    if i == 0 {
      InitOk(run[0]);
    } else {
      RunOk(run, events, i - 1);
      assert Enabled(run[i - 1], events[i - 1].thread, events[i - 1].step);
      StepKeeps(run[i - 1], events[i - 1].thread, events[i - 1].step);
    }
  }

  /** However the threads interleave, no task is lost and none is run twice. */
  lemma NoTaskTwice(run: seq<State>, events: seq<Event>, i: nat, task: Task)
    requires Run(run, events) && i < |run|
    ensures Places(run[i], task) == if task < run[i].next then 1 else 0
    ensures forall j, k :: 0 <= j < k < |run[i].finished| ==> run[i].finished[j] != run[i].finished[k]
  {
    RunOk(run, events, i);
    hide InQueues, InHands, PhasesOk, Exclusive;
    var f := run[i].finished;
    forall j, k | 0 <= j < k < |f| ensures f[j] != f[k] {
      var places := Places(run[i], f[j]);
      if f[j] == f[k] { TwiceIn(f, j, k); }
    }
  }

  lemma TwiceIn(f: seq<Task>, j: nat, k: nat)
    requires j < k < |f| && f[j] == f[k]
    ensures In(f, f[j]) >= 2
  {
    assert f == f[..k] + [f[k]] + f[k + 1..];
    assert f[..k][j] == f[j];
    assert f[j] in multiset(f[..k]);
  }

  // ----- no deadlock

  /** The mutex that a thread waits for lies after those that it holds. */
  lemma WaitsUpwards(s: State, t: nat, q: nat)
    requires PhasesOk(s) && t < |s.threads| && Holds(t, s.threads[t], q) && Waits(t, s.threads[t]).Some?
    ensures q < Waits(t, s.threads[t]).value < |s.queues|
  {
    assert PhaseOk(s, t, s.threads[t]);
  }

  lemma WaitsInRange(s: State, t: nat)
    requires PhasesOk(s) && t < |s.threads| && Waits(t, s.threads[t]).Some?
    ensures Waits(t, s.threads[t]).value < |s.queues|
  {
    assert PhaseOk(s, t, s.threads[t]);
  }

  ghost predicate WaitsFor(s: State, t: nat, u: nat) {
    && t < |s.threads| && u < |s.threads|
    && var q := Waits(t, s.threads[t]);
       q.Some? && Holds(u, s.threads[u], q.value)
  }

  /** From a thread that waits, the chain of holders goes up through the queues and ends at a
      thread that can take its next step: nobody waits in a circle. */
  lemma {:induction false} NoDeadlock(s: State, t: nat) returns (chain: seq<nat>)
    requires PhasesOk(s) && t < |s.threads| && Waits(t, s.threads[t]).Some?
    ensures chain != [] && chain[0] == t
    ensures forall i :: 0 <= i < |chain| - 1 ==> WaitsFor(s, chain[i], chain[i + 1])
    ensures Enabled(s, chain[|chain| - 1], Go)
    decreases |s.queues| - Waits(t, s.threads[t]).value
  {
    WaitsInRange(s, t);
    var q := Waits(t, s.threads[t]).value;
    if Blocked(s, t) {
      var u :| 0 <= u < |s.threads| && u != t && Holds(u, s.threads[u], q);
      if Waits(u, s.threads[u]).Some? {
        WaitsUpwards(s, u, q);
        var rest := NoDeadlock(s, u);
        chain := [t] + rest;
      } else {
        chain := [t, u];
        assert PhaseOk(s, u, s.threads[u]);
      }
    } else {
      chain := [t];
    }
  }
}
