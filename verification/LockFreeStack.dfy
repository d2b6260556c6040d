/** The lock-free stack with a tagged head (LockFreeStack/src/lock_free_stack.hpp) as an
    interleaving of the single memory accesses of any number of threads. An address is
    free for reuse as soon as its node is deleted, and the next pointer of a deleted node reads
    as anything.
 */
module LockFreeStack {
  import opened Common

  type Value(==, 0)

  const NULL: nat := 0

  datatype Node = Node(data: Value, next: nat)

  datatype TaggedPointer = TaggedPointer(ptr: nat, tag: nat)

  /** What a thread does next. `seen` is the number of changes of the head when `loaded` was
      read; `value` is the argument of the thread's push, or what its pop has removed. Both
      are only there for the proof. */
  datatype Phase =
    | Idle
    | PushLoad(node: nat, value: Value)
    | PushLink(node: nat, loaded: TaggedPointer, seen: nat, value: Value)
    | PushCas(node: nat, loaded: TaggedPointer, seen: nat, value: Value)
    | PopRead(loaded: TaggedPointer, seen: nat)
    | PopCas(loaded: TaggedPointer, seen: nat, next: nat)
    | PopTake(ptr: nat, value: Value)
    | PopFree(ptr: nat, result: Value, value: Value)

  /** An operation of the atomic stack; a pop gives nothing exactly if the stack is empty. */
  datatype Op = Push(v: Value) | Pop(r: Option<Value>)

  /** The head, the allocated nodes and the threads. For the proof only: the addresses on the
      stack from the top, the number of changes of the head, and the operations so far, each
      added when it takes effect. */
  datatype State = State(
    head: TaggedPointer, nodes: map<nat, Node>, threads: seq<Phase>,
    chain: seq<nat>, version: nat, history: seq<Op>)

  datatype Step =
    | StartPush(v: Value, node: nat)
    | LoadForPush
    | Link
    | StartPop
    | ReadNext(junk: nat)
    | Cas(spurious: bool, garbage: Value)
    | Take(garbage: Value)
    | Delete

  function Next(s: State, t: nat, phase: Phase): State
    requires t < |s.threads|
  {
    s.(threads := s.threads[t := phase])
  }

  /** The head as loaded by a pop: an empty stack ends it. */
  function LoadForPop(s: State, t: nat): State
    requires t < |s.threads|
  {
    if s.head.ptr == NULL then Next(s, t, Idle).(history := s.history + [Pop(None)])
    else Next(s, t, PopRead(s.head, s.version))
  }

  /** compare_exchange_weak succeeds. */
  predicate Succeeds(s: State, loaded: TaggedPointer, spurious: bool) {
    s.head == loaded && !spurious
  }

  function Swap(s: State, loaded: TaggedPointer, ptr: nat): State {
    s.(head := TaggedPointer(ptr, (loaded.tag + 1) % WORDS), version := s.version + 1)
  }

  function DataAt(s: State, ptr: nat, garbage: Value): Value {
    if ptr in s.nodes then s.nodes[ptr].data else garbage
  }

  function DoCas(s: State, t: nat, spurious: bool, garbage: Value): State
    requires t < |s.threads|
  {
    match s.threads[t]
    case PushCas(node, loaded, _, value) =>
      if Succeeds(s, loaded, spurious) then
        Swap(Next(s, t, Idle), loaded, node).(
          chain := [node] + s.chain,
          history := s.history + [Push(DataAt(s, node, garbage))])
      else Next(s, t, PushLink(node, s.head, s.version, value))
    case PopCas(loaded, _, next) =>
      if Succeeds(s, loaded, spurious) then
        var v := DataAt(s, loaded.ptr, garbage);
        Swap(Next(s, t, PopTake(loaded.ptr, v)), loaded, next).(
          chain := if s.chain == [] then [] else s.chain[1..],
          history := s.history + [Pop(Some(v))])
      else LoadForPop(s, t)
    case _ => s
  }

  /** Thread t takes a step. Fewer than 2^64 changes of the head happen between a load of it and the
      compare-and-swap on what was loaded. */
  predicate Enabled(s: State, t: nat, step: Step) {
    && t < |s.threads|
    && var phase := s.threads[t];
       match step
       case StartPush(_, node) => phase.Idle? && node != NULL && node !in s.nodes
       case LoadForPush => phase.PushLoad?
       case Link => phase.PushLink? && phase.node in s.nodes
       case StartPop => phase.Idle?
       case ReadNext(_) => phase.PopRead?
       case Cas(_, _) => (phase.PushCas? || phase.PopCas?) && s.version - phase.seen < WORDS
       case Take(_) => phase.PopTake?
       case Delete => phase.PopFree?
  }

  function Do(s: State, t: nat, step: Step): State
    requires Enabled(s, t, step)
  {
    var phase := s.threads[t];
    match step
    case StartPush(v, node) => Next(s, t, PushLoad(node, v)).(nodes := s.nodes[node := Node(v, NULL)])
    case LoadForPush => Next(s, t, PushLink(phase.node, s.head, s.version, phase.value))
    case Link =>
      Next(s, t, PushCas(phase.node, phase.loaded, phase.seen, phase.value)).(
        nodes := s.nodes[phase.node := s.nodes[phase.node].(next := phase.loaded.ptr)])
    case StartPop => LoadForPop(s, t)
    case ReadNext(junk) =>
      var next := if phase.loaded.ptr in s.nodes then s.nodes[phase.loaded.ptr].next else junk;
      Next(s, t, PopCas(phase.loaded, phase.seen, next))
    case Cas(spurious, garbage) => DoCas(s, t, spurious, garbage)
    case Take(garbage) => Next(s, t, PopFree(phase.ptr, DataAt(s, phase.ptr, garbage), phase.value))
    case Delete => Next(s, t, Idle).(nodes := s.nodes - {phase.ptr})
  }

  ghost predicate Init(s: State) {
    && s.head == TaggedPointer(NULL, 0) && s.nodes == map[] && s.chain == [] && s.version == 0 && s.history == []
    && forall t :: 0 <= t < |s.threads| ==> s.threads[t].Idle?
  }

  // ----- the invariant

  /** The node belongs to one thread: not on the stack, or not any more. */
  ghost predicate Private(s: State, node: nat) {
    node != NULL && node in s.nodes && node !in s.chain
  }

  /** What a thread has loaded is still the head if the head has not changed. */
  ghost predicate Fresh(s: State, loaded: TaggedPointer, seen: nat) {
    && seen <= s.version && loaded.tag == seen % WORDS
    && (seen == s.version ==> loaded == s.head)
  }

  ghost predicate PhaseOk(s: State, phase: Phase) {
    match phase
    case Idle => true
    case PushLoad(node, value) => Private(s, node) && s.nodes[node].data == value
    case PushLink(node, loaded, seen, value) =>
      Private(s, node) && Fresh(s, loaded, seen) && s.nodes[node].data == value
    case PushCas(node, loaded, seen, value) =>
      Private(s, node) && Fresh(s, loaded, seen) && s.nodes[node] == Node(value, loaded.ptr)
    case PopRead(loaded, seen) => Fresh(s, loaded, seen) && loaded.ptr != NULL
    case PopCas(loaded, seen, next) =>
      && Fresh(s, loaded, seen) && loaded.ptr != NULL
      && (seen == s.version ==> loaded.ptr in s.nodes && next == s.nodes[loaded.ptr].next)
    case PopTake(ptr, value) => Private(s, ptr) && s.nodes[ptr].data == value
    case PopFree(ptr, result, value) => Private(s, ptr) && result == value
  }

  /** The node that a thread owns. */
  ghost function Owned(phase: Phase): nat {
    match phase
    case PushLoad(node, _) => node
    case PushLink(node, _, _, _) => node
    case PushCas(node, _, _, _) => node
    case PopTake(ptr, _) => ptr
    case PopFree(ptr, _, _) => ptr
    case _ => NULL
  }

  /** Following the next pointers from `ptr` gives `chain` and ends at NULL. */
  ghost predicate Linked(nodes: map<nat, Node>, ptr: nat, chain: seq<nat>)
    decreases |chain|
  {
    if chain == [] then ptr == NULL
    else ptr != NULL && chain[0] == ptr && ptr in nodes && Linked(nodes, nodes[ptr].next, chain[1..])
  }

  ghost predicate Distinct(chain: seq<nat>) {
    forall i, j :: 0 <= i < j < |chain| ==> chain[i] != chain[j]
  }

  ghost predicate ChainOk(s: State) {
    Linked(s.nodes, s.head.ptr, s.chain) && Distinct(s.chain) && s.head.tag == s.version % WORDS && NULL !in s.nodes
  }

  ghost predicate ThreadsOk(s: State) {
    && (forall t :: 0 <= t < |s.threads| ==> PhaseOk(s, s.threads[t]))
    && (forall t, u :: 0 <= t < u < |s.threads| && Owned(s.threads[t]) != NULL ==> Owned(s.threads[t]) != Owned(s.threads[u]))
  }

  /** No node is lost: it is on the stack or some thread's. */
  ghost predicate Covered(s: State) {
    forall node :: node in s.nodes ==>
      node in s.chain || exists t :: 0 <= t < |s.threads| && Owned(s.threads[t]) == node
  }

  function Contents(nodes: map<nat, Node>, chain: seq<nat>): seq<Value>
    requires forall a :: a in chain ==> a in nodes
  {
    if chain == [] then [] else [nodes[chain[0]].data] + Contents(nodes, chain[1..])
  }

  /** The atomic stack: what the operations leave on it, if each of them is right. */
  function Replay(history: seq<Op>): Option<seq<Value>> {
    if history == [] then Some([])
    else
      var before := Replay(history[..|history| - 1]);
      if before.None? then None
      else
        match history[|history| - 1]
        case Push(v) => Some([v] + before.value)
        case Pop(None) => if before.value == [] then before else None
        case Pop(Some(v)) => if before.value != [] && before.value[0] == v then Some(before.value[1..]) else None
  }

  lemma {:induction false} LinkedIn(nodes: map<nat, Node>, ptr: nat, chain: seq<nat>)
    requires Linked(nodes, ptr, chain)
    ensures forall a :: a in chain ==> a in nodes && a != NULL
    decreases |chain|
  {
    if chain != [] { LinkedIn(nodes, nodes[ptr].next, chain[1..]); }
  }

  ghost predicate Inv(s: State) {
    ChainOk(s) && ThreadsOk(s) && Covered(s)
  }

  ghost predicate Refines(s: State)
    requires ChainOk(s)
  {
    LinkedIn(s.nodes, s.head.ptr, s.chain);
    Replay(s.history) == Some(Contents(s.nodes, s.chain))
  }

  /** The chain is the only one, and without cycles. */
  lemma {:induction false} ChainUnique(nodes: map<nat, Node>, ptr: nat, chain: seq<nat>, chain': seq<nat>)
    requires Linked(nodes, ptr, chain) && Linked(nodes, ptr, chain')
    ensures chain == chain'
    decreases |chain|
  {
    if chain != [] && chain' != [] {
      ChainUnique(nodes, nodes[ptr].next, chain[1..], chain'[1..]);
    }
  }

  /** Only nodes off the chain differ. */
  lemma {:induction false} Unaffected(nodes: map<nat, Node>, nodes': map<nat, Node>, ptr: nat, chain: seq<nat>)
    requires Linked(nodes, ptr, chain)
    requires forall a :: a in chain && a in nodes ==> a in nodes' && nodes'[a] == nodes[a]
    ensures Linked(nodes', ptr, chain)
    ensures (forall a :: a in chain ==> a in nodes && a in nodes') && Contents(nodes', chain) == Contents(nodes, chain)
    decreases |chain|
  {
    LinkedIn(nodes, ptr, chain);
    if chain != [] {
      Unaffected(nodes, nodes', nodes[ptr].next, chain[1..]);
    }
  }

  // ----- a compare-and-swap that succeeds

  /** It means that the head was not changed at all since it was loaded, whatever the address
      was reused for in between. */
  lemma SuccessMeansUntouched(s: State, t: nat, spurious: bool, garbage: Value)
    requires Inv(s) && Enabled(s, t, Cas(spurious, garbage)) && Succeeds(s, s.threads[t].loaded, spurious)
    ensures s.threads[t].seen == s.version
  {
    assert PhaseOk(s, s.threads[t]);
    SameWord(s.threads[t].seen, s.version);
  }

  // ----- every step keeps the invariant

  /** Thread t goes on to another phase and owns what it owned, or something that nobody has. */
  lemma ThreadMoves(s: State, s': State, t: nat, phase: Phase)
    requires t < |s.threads| && ThreadsOk(s) && s'.threads == s.threads[t := phase]
    requires PhaseOk(s', phase)
    requires forall u :: 0 <= u < |s.threads| && u != t ==> PhaseOk(s', s.threads[u])
    requires forall u :: 0 <= u < |s.threads| && u != t && Owned(phase) != NULL ==> Owned(s.threads[u]) != Owned(phase)
    ensures ThreadsOk(s')
  {
    hide PhaseOk, Owned;
  }

  /** Only one private node changes. */
  lemma PhaseStays(s: State, s': State, node: nat, phase: Phase)
    requires ChainOk(s) && PhaseOk(s, phase) && Owned(phase) != node && node !in s.chain
    requires s'.head == s.head && s'.chain == s.chain && s'.version == s.version
    requires forall a :: a != node ==> (a in s.nodes <==> a in s'.nodes) && (a in s.nodes ==> s'.nodes[a] == s.nodes[a])
    ensures PhaseOk(s', phase)
  {
    LinkedIn(s.nodes, s.head.ptr, s.chain);
    if phase.PopCas? && phase.seen == s.version {
      assert s.chain[0] == phase.loaded.ptr;
    }
  }

  lemma SameForPhase(s: State, s': State, phase: Phase)
    requires PhaseOk(s, phase) && s'.head == s.head && s'.chain == s.chain && s'.version == s.version
    requires NULL !in s.nodes && NULL !in s'.nodes
    requires forall a :: a != NULL ==> (a in s.nodes <==> a in s'.nodes) && (a in s.nodes ==> s'.nodes[a] == s.nodes[a])
    ensures PhaseOk(s', phase)
  {
  }

  /** The head changes; `node` goes onto the stack or off it. */
  lemma PhaseStaysAfterSwap(s: State, s': State, phase: Phase)
    requires PhaseOk(s, phase) && s'.nodes == s.nodes && s'.version == s.version + 1
    requires forall a :: a in s'.chain ==> a in s.chain || a != Owned(phase)
    ensures PhaseOk(s', phase)
  {
  }

  /** Every node but possibly one keeps its owner; that one belongs to t. */
  lemma OwnersStay(s: State, s': State, t: nat, node: nat)
    requires t < |s.threads| && |s'.threads| == |s.threads| && Covered(s)
    requires forall u :: 0 <= u < |s.threads| && u != t ==> s'.threads[u] == s.threads[u]
    requires forall a :: a in s.chain && a in s'.nodes ==> a in s'.chain || a == node
    requires forall a :: a in s'.nodes && a != node ==> a in s.nodes
    requires Owned(s.threads[t]) in {NULL, node} && NULL !in s'.nodes
    requires node in s'.nodes ==> node in s'.chain || Owned(s'.threads[t]) == node
    ensures Covered(s')
  {
    forall a | a in s'.nodes
      ensures a in s'.chain || exists u :: 0 <= u < |s'.threads| && Owned(s'.threads[u]) == a
    {
      if a == node {
        if a !in s'.chain { assert Owned(s'.threads[t]) == a; }
      } else if a !in s.chain {
        var u :| 0 <= u < |s.threads| && Owned(s.threads[u]) == a;
        assert u != t;
        assert Owned(s'.threads[u]) == a;
      }
    }
  }
  /** Thread t takes a step that leaves the head alone and changes at most a node of its own. */
  lemma NodeStep(s: State, s': State, t: nat, node: nat, phase: Phase)
    requires Inv(s) && t < |s.threads| && s'.threads == s.threads[t := phase]
    requires s'.head == s.head && s'.chain == s.chain && s'.version == s.version
    requires forall a :: a != node ==> (a in s.nodes <==> a in s'.nodes) && (a in s.nodes ==> s'.nodes[a] == s.nodes[a])
    requires node !in s.chain && NULL !in s'.nodes && Owned(s.threads[t]) in {NULL, node}
    requires PhaseOk(s', phase) && Owned(phase) in {NULL, node} && (node in s'.nodes ==> Owned(phase) == node)
    requires forall u :: 0 <= u < |s.threads| && u != t ==> Owned(s.threads[u]) != node || node == NULL
    ensures Inv(s') && (Refines(s) && s'.history == s.history ==> Refines(s'))
  {
    Unaffected(s.nodes, s'.nodes, s.head.ptr, s.chain);
    OwnersStay(s, s', t, node);
    forall u | 0 <= u < |s.threads| && u != t ensures PhaseOk(s', s.threads[u]) {
      assert PhaseOk(s, s.threads[u]);
      if node == NULL { SameForPhase(s, s', s.threads[u]); } else { PhaseStays(s, s', node, s.threads[u]); }
    }
    ThreadMoves(s, s', t, phase);
  }

  lemma OnlyOwner(s: State, t: nat, u: nat)
    requires ThreadsOk(s) && t < |s.threads| && u < |s.threads| && t != u && Owned(s.threads[t]) != NULL
    ensures Owned(s.threads[u]) != Owned(s.threads[t])
  {
    hide PhaseOk, Owned;
  }

  lemma OwnedIsPrivate(s: State, t: nat)
    requires ThreadsOk(s) && t < |s.threads| && Owned(s.threads[t]) != NULL
    ensures Private(s, Owned(s.threads[t]))
  {
    assert PhaseOk(s, s.threads[t]);
  }

  lemma StartPushKeeps(s: State, t: nat, v: Value, node: nat)
    requires Inv(s) && Enabled(s, t, StartPush(v, node))
    ensures var s' := Do(s, t, StartPush(v, node)); Inv(s') && (Refines(s) ==> Refines(s'))
  {
    LinkedIn(s.nodes, s.head.ptr, s.chain);
    forall u | 0 <= u < |s.threads| && u != t ensures Owned(s.threads[u]) != node {
      if Owned(s.threads[u]) == node { OwnedIsPrivate(s, u); }
    }
    NodeStep(s, Do(s, t, StartPush(v, node)), t, node, PushLoad(node, v));
  }

  /** The steps with the thread's own node. */
  lemma OwnNodeKeeps(s: State, t: nat, step: Step)
    requires Inv(s) && Enabled(s, t, step)
    requires step in {LoadForPush, Link, Delete} || step.Take?
             || (step.Cas? && s.threads[t].PushCas? && !Succeeds(s, s.threads[t].loaded, step.spurious))
    ensures var s' := Do(s, t, step); Inv(s') && (Refines(s) ==> Refines(s'))
  {
    var s' := Do(s, t, step);
    var node := Owned(s.threads[t]);
    assert PhaseOk(s, s.threads[t]);
    forall u | 0 <= u < |s.threads| && u != t ensures Owned(s.threads[u]) != node {
      OnlyOwner(s, t, u);
    }
    assert PhaseOk(s', s'.threads[t]) by { OwnPhaseOk(s, t, step); }
    NodeStep(s, s', t, node, s'.threads[t]);
  }

  lemma OwnPhaseOk(s: State, t: nat, step: Step)
    requires Inv(s) && Enabled(s, t, step)
    requires step in {LoadForPush, Link, Delete} || step.Take?
             || (step.Cas? && s.threads[t].PushCas? && !Succeeds(s, s.threads[t].loaded, step.spurious))
    ensures var s' := Do(s, t, step); PhaseOk(s', s'.threads[t])
  {
    assert PhaseOk(s, s.threads[t]);
  }

  /** A pop that loads the head: if the head is NULL the stack is empty right then. */
  lemma LoadForPopKeeps(s: State, t: nat)
    requires Inv(s) && t < |s.threads| && Owned(s.threads[t]) == NULL
    ensures var s' := LoadForPop(s, t); Inv(s') && (Refines(s) ==> Refines(s'))
  {
    var s' := LoadForPop(s, t);
    LinkedIn(s.nodes, s.head.ptr, s.chain);
    NodeStep(s, s'.(history := s.history), t, NULL, s'.threads[t]);
    if s.head.ptr == NULL {
      assert s.chain == [] && s'.history[..|s'.history| - 1] == s.history;
      assert Inv(s') by { OnlyHistory(s'.(history := s.history), s'.history); }
      ReplayMore(s.history, Pop(None));
    } else {
      assert s'.(history := s.history) == s';
    }
  }

  lemma OnlyHistory(s: State, history: seq<Op>)
    requires Inv(s)
    ensures Inv(s.(history := history))
  {
    var s' := s.(history := history);
    forall t | 0 <= t < |s.threads| ensures PhaseOk(s', s.threads[t]) {
      assert PhaseOk(s, s.threads[t]);
    }
  }

  lemma ReplayMore(history: seq<Op>, op: Op)
    ensures Replay(history + [op]) ==
            if Replay(history).None? then None
            else if op.Push? then Some([op.v] + Replay(history).value)
            else if op.r.None? then if Replay(history).value == [] then Replay(history) else None
            else if Replay(history).value != [] && Replay(history).value[0] == op.r.value then Some(Replay(history).value[1..])
            else None
  {
    assert (history + [op])[..|history|] == history;
  }

  lemma ReadNextKeeps(s: State, t: nat, junk: nat)
    requires Inv(s) && Enabled(s, t, ReadNext(junk))
    ensures var s' := Do(s, t, ReadNext(junk)); Inv(s') && (Refines(s) ==> Refines(s'))
  {
    var s' := Do(s, t, ReadNext(junk));
    LinkedIn(s.nodes, s.head.ptr, s.chain);
    assert PhaseOk(s, s.threads[t]);
    NodeStep(s, s', t, NULL, s'.threads[t]);
  }

  lemma PushThreads(s: State, t: nat, garbage: Value)
    requires Inv(s) && Enabled(s, t, Cas(false, garbage)) && s.threads[t].PushCas?
    requires Succeeds(s, s.threads[t].loaded, false)
    ensures var s' := Do(s, t, Cas(false, garbage)); ThreadsOk(s') && Covered(s')
  {
    hide Linked;
    var s' := Do(s, t, Cas(false, garbage));
    var node := s.threads[t].node;
    forall u | 0 <= u < |s.threads| && u != t ensures PhaseOk(s', s.threads[u]) {
      OnlyOwner(s, t, u);
      assert PhaseOk(s, s.threads[u]);
      PhaseStaysAfterSwap(s, s', s.threads[u]);
    }
    ThreadMoves(s, s', t, Idle);
    OwnersStay(s, s', t, node);
  }

  /** A successful compare-and-swap of a push: the atomic stack gets the argument of the push on top. */
  lemma PushTakesEffect(s: State, t: nat, garbage: Value)
    requires Inv(s) && Enabled(s, t, Cas(false, garbage)) && s.threads[t].PushCas?
    requires Succeeds(s, s.threads[t].loaded, false)
    ensures var s' := Do(s, t, Cas(false, garbage)); Inv(s') && (Refines(s) ==> Refines(s'))
    ensures Do(s, t, Cas(false, garbage)).history == s.history + [Push(s.threads[t].value)]
  {
    PushThreads(s, t, garbage);
    hide ThreadsOk, Covered;
    var s' := Do(s, t, Cas(false, garbage));
    OwnedIsPrivate(s, t);
    var node := s.threads[t].node;
    assert PhaseOk(s, s.threads[t]) by { PhaseOfThread(s, t); }
    assert s'.chain[1..] == s.chain;
    NextWord(s.version);
    ReplayMore(s.history, Push(s.nodes[node].data));
  }

  lemma PhaseOfThread(s: State, t: nat)
    requires ThreadsOk(s) && t < |s.threads|
    ensures PhaseOk(s, s.threads[t])
  {
  }

  lemma PopThreads(s: State, t: nat, garbage: Value)
    requires Inv(s) && Enabled(s, t, Cas(false, garbage)) && s.threads[t].PopCas?
    requires Succeeds(s, s.threads[t].loaded, false)
    ensures var s' := Do(s, t, Cas(false, garbage)); ThreadsOk(s') && Covered(s')
  {
    var s' := Do(s, t, Cas(false, garbage));
    SuccessMeansUntouched(s, t, false, garbage);
    PhaseOfThread(s, t);
    LinkedIn(s.nodes, s.head.ptr, s.chain);
    var ptr := s.head.ptr;
    assert s.chain[0] == ptr && s.chain == [ptr] + s'.chain;
    hide Linked;
    forall u | 0 <= u < |s.threads| && u != t ensures PhaseOk(s', s.threads[u]) && Owned(s.threads[u]) != ptr {
      PhaseOfThread(s, u);
      PhaseStaysAfterSwap(s, s', s.threads[u]);
      if Owned(s.threads[u]) == ptr { OwnedIsPrivate(s, u); }
    }
    ThreadMoves(s, s', t, s'.threads[t]);
    OwnersStay(s, s', t, ptr);
  }

  /** A successful compare-and-swap of a pop: the atomic stack loses its top, which is the value
      that the pop will return. */
  lemma PopTakesEffect(s: State, t: nat, garbage: Value)
    requires Inv(s) && Enabled(s, t, Cas(false, garbage)) && s.threads[t].PopCas?
    requires Succeeds(s, s.threads[t].loaded, false)
    ensures var s' := Do(s, t, Cas(false, garbage)); Inv(s') && (Refines(s) ==> Refines(s'))
    ensures Do(s, t, Cas(false, garbage)).history == s.history + [Pop(Some(Do(s, t, Cas(false, garbage)).threads[t].value))]
  {
    PopThreads(s, t, garbage);
    SuccessMeansUntouched(s, t, false, garbage);
    PhaseOfThread(s, t);
    hide ThreadsOk, Covered;
    var s' := Do(s, t, Cas(false, garbage));
    LinkedIn(s.nodes, s.head.ptr, s.chain);
    NextWord(s.version);
    var ptr := s.head.ptr;
    assert s.chain[0] == ptr && s.chain == [ptr] + s'.chain;
    ReplayMore(s.history, Pop(Some(s.nodes[ptr].data)));
  }

  lemma DoKeeps(s: State, t: nat, step: Step)
    requires Inv(s) && Refines(s) && Enabled(s, t, step)
    ensures Inv(Do(s, t, step)) && Refines(Do(s, t, step))
  {
    hide Inv, Refines, PhaseOk;
    match step
    case StartPush(v, node) => StartPushKeeps(s, t, v, node);
    case StartPop => LoadForPopKeeps(s, t);
    case ReadNext(junk) => ReadNextKeeps(s, t, junk);
    case Cas(spurious, garbage) =>
      if !Succeeds(s, s.threads[t].loaded, spurious) {
        if s.threads[t].PushCas? { OwnNodeKeeps(s, t, step); } else { LoadForPopKeeps(s, t); }
      } else if s.threads[t].PushCas? {
        PushTakesEffect(s, t, garbage);
      } else {
        PopTakesEffect(s, t, garbage);
      }
    case _ => OwnNodeKeeps(s, t, step);
  }

  // ----- runs

  datatype Move = Move(thread: nat, step: Step)

  ghost predicate Run(run: seq<State>, moves: seq<Move>) {
    && |run| == |moves| + 1 && Init(run[0])
    && forall i {:trigger moves[i]} :: 0 <= i < |moves| ==>
         Enabled(run[i], moves[i].thread, moves[i].step) && run[i + 1] == Do(run[i], moves[i].thread, moves[i].step)
  }

  lemma InitOk(s: State)
    requires Init(s)
    ensures Inv(s) && Refines(s)
  {
  }

  /** In every state of every run, walking the next pointers from the head gives exactly what the
      atomic stack holds after the pushes and pops that have taken effect, each of them legal: a
      pop gets the top, or nothing from an empty stack. */
  lemma {:induction false} Linearizable(run: seq<State>, moves: seq<Move>, i: nat)
    requires Run(run, moves) && i < |run|
    ensures Inv(run[i]) && Refines(run[i])
    ensures var s := run[i];
            && Linked(s.nodes, s.head.ptr, s.chain) && (forall a :: a in s.chain ==> a in s.nodes)
            && Replay(s.history) == Some(Contents(s.nodes, s.chain))
  {
    hide Init, Enabled, Do, PhaseOk;
    if i == 0 {
      InitOk(run[0]);
    } else {
      Linearizable(run, moves, i - 1);
      assert Enabled(run[i - 1], moves[i - 1].thread, moves[i - 1].step);
      assert Refines(run[i - 1]);
      DoKeeps(run[i - 1], moves[i - 1].thread, moves[i - 1].step);
    }
    LinkedIn(run[i].nodes, run[i].head.ptr, run[i].chain);
  }

  /** How often the value was pushed and popped. */
  ghost function Pushed(history: seq<Op>, v: Value): nat {
    if history == [] then 0
    else Pushed(history[..|history| - 1], v) + (if history[|history| - 1] == Push(v) then 1 else 0)
  }

  ghost function Popped(history: seq<Op>, v: Value): nat {
    if history == [] then 0
    else Popped(history[..|history| - 1], v) + (if history[|history| - 1] == Pop(Some(v)) then 1 else 0)
  }

  ghost function Holds(stack: seq<Value>, v: Value): nat {
    multiset(stack)[v]
  }

  lemma OneLess(stack: seq<Value>, v: Value)
    requires stack != []
    ensures Holds(stack, v) == Holds(stack[1..], v) + (if stack[0] == v then 1 else 0)
  {
    assert stack == [stack[0]] + stack[1..];
  }

  /** No value is lost and none comes twice. */
  lemma {:induction false} Conserved(history: seq<Op>, v: Value)
    requires Replay(history).Some?
    ensures Pushed(history, v) == Popped(history, v) + Holds(Replay(history).value, v)
  {
    hide Holds;
    if history == [] {
      EmptyHolds(v);
    } else {
      var front, op := history[..|history| - 1], history[|history| - 1];
      Conserved(front, v);
      var before, after := Replay(front).value, Replay(history).value;
      if op.Push? {
        assert after[1..] == before;
        OneLess(after, v);
      } else if op.r.Some? {
        OneLess(before, v);
      }
    }
  }

  lemma EmptyHolds(v: Value)
    ensures Holds([], v) == 0
  {
  }

  /** A pop returns the value that its compare-and-swap took off the stack; the node that it reads
      and deletes is allocated, off the stack and nobody else's. */
  lemma PopReturnsItsValue(s: State, t: nat)
    requires Inv(s) && t < |s.threads| && (s.threads[t].PopTake? || s.threads[t].PopFree?)
    ensures var ptr := s.threads[t].ptr;
            && ptr in s.nodes && ptr !in s.chain
            && forall u :: 0 <= u < |s.threads| && u != t ==> Owned(s.threads[u]) != ptr
    ensures s.threads[t].PopFree? ==> s.threads[t].result == s.threads[t].value
    ensures s.threads[t].PopTake? ==> s.nodes[s.threads[t].ptr].data == s.threads[t].value
  {
    assert PhaseOk(s, s.threads[t]);
    forall u | 0 <= u < |s.threads| && u != t ensures Owned(s.threads[u]) != s.threads[t].ptr {
      OnlyOwner(s, t, u);
    }
  }

  /** When no operation is under way, the allocated nodes are exactly those on the stack. */
  lemma NothingLeaks(s: State)
    requires Inv(s) && forall t :: 0 <= t < |s.threads| ==> s.threads[t].Idle?
    ensures forall a :: a in s.nodes <==> a in s.chain
  {
    LinkedIn(s.nodes, s.head.ptr, s.chain);
  }

  /** Without a bound on the window: the comparison succeeds exactly if the same address is the
      head again and the head has changed a multiple of 2^64 times. */
  lemma ComparesEqualExactlyWhen(s: State, loaded: TaggedPointer, seen: nat)
    requires Inv(s) && Fresh(s, loaded, seen)
    ensures s.head == loaded <==> s.head.ptr == loaded.ptr && (s.version - seen) % WORDS == 0
  {
    var d := s.version - seen;
    assert s.version % WORDS == (seen % WORDS + d % WORDS) % WORDS;
  }

  // ----- one operation of one thread

  /** In the middle of push(v). */
  predicate Pushing(phase: Phase, v: Value) {
    (phase.PushLoad? || phase.PushLink? || phase.PushCas?) && phase.value == v
  }

  /** A step of a thread that pushes: the push goes on and nothing has happened, or it ends and v has
      been pushed. */
  lemma PushGoesOn(s: State, t: nat, step: Step, v: Value)
    requires Inv(s) && Enabled(s, t, step) && Pushing(s.threads[t], v)
    ensures var s' := Do(s, t, step);
            || (Pushing(s'.threads[t], v) && s'.history == s.history)
            || (s'.threads[t].Idle? && s'.history == s.history + [Push(v)])
  {
    assert PhaseOk(s, s.threads[t]);
  }

  /** In the middle of a pop that has taken nothing yet, and of one that has taken r. */
  predicate Popping(phase: Phase) {
    phase.PopRead? || phase.PopCas?
  }

  predicate Took(phase: Phase, r: Value) {
    (phase.PopTake? || phase.PopFree?) && phase.value == r
  }

  /** A step of a thread that pops: the pop goes on and nothing has happened, or it ends because the
      stack is empty, or it takes the top. */
  lemma PopGoesOn(s: State, t: nat, step: Step)
    requires Inv(s) && Enabled(s, t, step) && (Popping(s.threads[t]) || step.StartPop?)
    ensures t < |Do(s, t, step).threads|
    ensures var s' := Do(s, t, step);
            || (Popping(s'.threads[t]) && s'.history == s.history)
            || (s'.threads[t].Idle? && s'.history == s.history + [Pop(None)] && s.chain == [])
            || (s'.threads[t].PopTake? && s'.history == s.history + [Pop(Some(s'.threads[t].value))])
  {
    assert PhaseOk(s, s.threads[t]);
  }

  /** After that it returns what it took, and nothing else happens. */
  lemma PopEnds(s: State, t: nat, step: Step, r: Value)
    requires Inv(s) && Enabled(s, t, step) && Took(s.threads[t], r)
    ensures var s' := Do(s, t, step);
            && s'.history == s.history
            && (Took(s'.threads[t], r) || (s'.threads[t].Idle? && step == Delete && s.threads[t].PopFree? && s.threads[t].result == r))
  {
    assert PhaseOk(s, s.threads[t]);
  }

  lemma OthersWait(s: State, u: nat, step: Step, t: nat)
    requires Enabled(s, u, step) && t < |s.threads| && t != u
    ensures t < |Do(s, u, step).threads| && Do(s, u, step).threads[t] == s.threads[t]
  {
  }

  /** From lo to hi thread t is in one operation. */
  ghost predicate Operation(run: seq<State>, moves: seq<Move>, t: nat, lo: nat, hi: nat) {
    && Run(run, moves) && lo < hi < |run| && moves[lo].thread == t
    && (forall k {:trigger run[k]} :: lo <= k <= hi ==> t < |run[k].threads|)
    && (forall k {:trigger run[k]} :: lo < k < hi ==> !run[k].threads[t].Idle?)
    && run[lo].threads[t].Idle? && run[hi].threads[t].Idle?
  }

  /** From n on, thread t has no effect until hi. */
  ghost predicate Quiet(run: seq<State>, moves: seq<Move>, t: nat, n: nat, hi: nat)
    requires hi < |run| && |run| == |moves| + 1
  {
    forall k {:trigger moves[k]} :: n <= k < hi && moves[k].thread == t ==> run[k + 1].history == run[k].history
  }

  lemma StepOf(run: seq<State>, moves: seq<Move>, k: nat)
    requires Run(run, moves) && k < |moves|
    ensures Inv(run[k]) && Enabled(run[k], moves[k].thread, moves[k].step)
    ensures run[k + 1] == Do(run[k], moves[k].thread, moves[k].step)
  {
    hide Inv, Refines, Enabled, Do;
    Linearizable(run, moves, k);
    assert Enabled(run[k], moves[k].thread, moves[k].step);
  }

  lemma StartsPushing(s: State, t: nat, step: Step)
    requires Enabled(s, t, step) && step.StartPush?
    ensures Pushing(Do(s, t, step).threads[t], step.v) && Do(s, t, step).history == s.history
  {
  }

  lemma {:induction false} StillPushing(run: seq<State>, moves: seq<Move>, t: nat, lo: nat, hi: nat, k: nat, v: Value)
    requires Operation(run, moves, t, lo, hi) && moves[lo].step.StartPush? && moves[lo].step.v == v && lo < k < hi
    ensures Pushing(run[k].threads[t], v)
    ensures moves[k - 1].thread == t ==> run[k].history == run[k - 1].history
    decreases k
  {
    hide Inv, Init, Do, Enabled;
    StepOf(run, moves, k - 1);
    assert !run[k].threads[t].Idle?;
    if k == lo + 1 {
      StartsPushing(run[lo], t, moves[lo].step);
    } else {
      StillPushing(run, moves, t, lo, hi, k - 1, v);
      if moves[k - 1].thread == t {
        PushGoesOn(run[k - 1], t, moves[k - 1].step, v);
      } else {
        OthersWait(run[k - 1], moves[k - 1].thread, moves[k - 1].step, t);
      }
    }
  }

  /** A push that has been started with v and ends has pushed v, at exactly one of its own steps: the
      last one. */
  lemma PushesOnce(run: seq<State>, moves: seq<Move>, t: nat, lo: nat, hi: nat)
    requires Operation(run, moves, t, lo, hi) && moves[lo].step.StartPush?
    ensures moves[hi - 1].thread == t && run[hi].history == run[hi - 1].history + [Push(moves[lo].step.v)]
    ensures Quiet(run, moves, t, lo, hi - 1)
  {
    hide Inv, Init, Do, Enabled;
    var v := moves[lo].step.v;
    StepOf(run, moves, lo);
    StartsPushing(run[lo], t, moves[lo].step);
    StillPushing(run, moves, t, lo, hi, hi - 1, v);
    StepOf(run, moves, hi - 1);
    if moves[hi - 1].thread == t {
      PushGoesOn(run[hi - 1], t, moves[hi - 1].step, v);
    } else {
      OthersWait(run[hi - 1], moves[hi - 1].thread, moves[hi - 1].step, t);
    }
    forall k | lo <= k < hi - 1 && moves[k].thread == t ensures run[k + 1].history == run[k].history {
      StillPushing(run, moves, t, lo, hi, k + 1, v);
    }
  }

  /** One step of the run while the pop of thread t has taken r. */
  lemma TookStep(run: seq<State>, moves: seq<Move>, t: nat, lo: nat, hi: nat, n: nat, r: Value)
    requires Operation(run, moves, t, lo, hi) && lo < n < hi && Took(run[n].threads[t], r)
    ensures moves[n].thread == t ==> run[n + 1].history == run[n].history
    ensures n < hi - 1 ==> Took(run[n + 1].threads[t], r)
    ensures n == hi - 1 ==>
              moves[n] == Move(t, Delete) && run[n].threads[t].PopFree? && run[n].threads[t].result == r
  {
    hide Inv, Init, Do, Enabled;
    StepOf(run, moves, n);
    if moves[n].thread == t {
      PopEnds(run[n], t, moves[n].step, r);
    } else {
      OthersWait(run[n], moves[n].thread, moves[n].step, t);
    }
    assert n < hi - 1 ==> !run[n + 1].threads[t].Idle?;
  }

  lemma {:induction false} PopReturns(run: seq<State>, moves: seq<Move>, t: nat, lo: nat, hi: nat, n: nat, r: Value)
    requires Operation(run, moves, t, lo, hi) && lo < n < hi && Took(run[n].threads[t], r)
    ensures Quiet(run, moves, t, n, hi)
    ensures moves[hi - 1] == Move(t, Delete) && run[hi - 1].threads[t].PopFree? && run[hi - 1].threads[t].result == r
    decreases hi - n
  {
    hide Init, Do, Enabled, Took;
    TookStep(run, moves, t, lo, hi, n, r);
    if n < hi - 1 { PopReturns(run, moves, t, lo, hi, n + 1, r); }
  }

  /** The pop of thread t that ends at hi takes effect at m: it gets nothing, from a stack that is empty
      right then, or the value that it returns. */
  ghost predicate PopsAt(run: seq<State>, moves: seq<Move>, t: nat, m: nat, hi: nat)
    requires m < hi < |run| && |run| == |moves| + 1 && t < |run[hi - 1].threads|
  {
    && moves[m].thread == t
    && ((m == hi - 1 && run[m].chain == [] && run[m + 1].history == run[m].history + [Pop(None)])
       || (m < hi - 1 && moves[hi - 1] == Move(t, Delete) && run[hi - 1].threads[t].PopFree?
           && run[m + 1].history == run[m].history + [Pop(Some(run[hi - 1].threads[t].result))]))
  }

  lemma PopStep(run: seq<State>, moves: seq<Move>, t: nat, lo: nat, hi: nat, n: nat)
    requires Operation(run, moves, t, lo, hi) && moves[lo].step.StartPop? && lo <= n < hi
    requires n == lo || Popping(run[n].threads[t])
    ensures || (n < hi - 1 && Popping(run[n + 1].threads[t]) && (moves[n].thread == t ==> run[n + 1].history == run[n].history))
            || (PopsAt(run, moves, t, n, hi) && Quiet(run, moves, t, n + 1, hi))
  {
    hide Inv, Init, Do, Enabled;
    StepOf(run, moves, n);
    if moves[n].thread == t {
      PopGoesOn(run[n], t, moves[n].step);
      assert n < hi - 1 ==> !run[n + 1].threads[t].Idle?;
      if run[n + 1].threads[t].PopTake? { PopReturns(run, moves, t, lo, hi, n + 1, run[n + 1].threads[t].value); }
    } else {
      OthersWait(run[n], moves[n].thread, moves[n].step, t);
    }
  }

  lemma {:induction false} PopsFrom(run: seq<State>, moves: seq<Move>, t: nat, lo: nat, hi: nat, n: nat) returns (m: nat)
    requires Operation(run, moves, t, lo, hi) && moves[lo].step.StartPop? && lo <= n < hi
    requires n == lo || Popping(run[n].threads[t])
    ensures n <= m < hi && PopsAt(run, moves, t, m, hi) && Quiet(run, moves, t, n, m) && Quiet(run, moves, t, m + 1, hi)
    decreases hi - n
  {
    hide Init, Do, Enabled, Popping, PopsAt;
    PopStep(run, moves, t, lo, hi, n);
    m := n;
    if !(PopsAt(run, moves, t, n, hi) && Quiet(run, moves, t, n + 1, hi)) {
      m := PopsFrom(run, moves, t, lo, hi, n + 1);
    }
  }

  /** A pop that ends has popped at exactly one of its own steps. */
  lemma PopsOnce(run: seq<State>, moves: seq<Move>, t: nat, lo: nat, hi: nat) returns (m: nat)
    requires Operation(run, moves, t, lo, hi) && moves[lo].step.StartPop?
    ensures lo <= m < hi && PopsAt(run, moves, t, m, hi) && Quiet(run, moves, t, lo, m) && Quiet(run, moves, t, m + 1, hi)
  {
    hide Init, Do, Enabled, PopsAt, Quiet;
    m := PopsFrom(run, moves, t, lo, hi, lo);
  }

  // ----- nobody is held up by a thread that does not move

  /** A compare-and-swap fails only spuriously, or because another operation has taken effect
      since the head was loaded. After it the thread has the present head. */
  lemma FailsOnlyIfOvertaken(s: State, t: nat, spurious: bool, garbage: Value)
    requires Inv(s) && Enabled(s, t, Cas(spurious, garbage)) && !Succeeds(s, s.threads[t].loaded, spurious)
    ensures spurious || s.threads[t].seen < s.version
    ensures var s' := Do(s, t, Cas(spurious, garbage));
            s'.threads[t].Idle? || (s'.threads[t].loaded == s'.head && s'.threads[t].seen == s'.version == s.version)
  {
    assert PhaseOk(s, s.threads[t]);
  }

  /** A thread in the middle of an operation always has a next step. */
  lemma AlwaysGoesOn(s: State, t: nat, garbage: Value) returns (step: Step)
    requires Inv(s) && t < |s.threads| && !s.threads[t].Idle?
    requires s.threads[t].PushCas? || s.threads[t].PopCas? ==> s.version - s.threads[t].seen < WORDS
    ensures Enabled(s, t, step)
  {
    assert PhaseOk(s, s.threads[t]);
    match s.threads[t]
    case PushLoad(_, _) => step := LoadForPush;
    case PushLink(_, _, _, _) => step := Link;
    case PopRead(_, _) => step := ReadNext(NULL);
    case PopTake(_, _) => step := Take(garbage);
    case PopFree(_, _, _) => step := Delete;
    case _ => step := Cas(false, garbage);
  }

  /** With the present head loaded, a push that nobody overtakes is done after two more steps, and so is
      the swap of a pop. */
  lemma AloneSucceeds(s: State, t: nat, garbage: Value)
    requires Inv(s) && t < |s.threads| && (s.threads[t].PushLink? || s.threads[t].PopRead?) && s.threads[t].seen == s.version
    ensures var step := if s.threads[t].PushLink? then Link else ReadNext(0);
            && Enabled(s, t, step) && Enabled(Do(s, t, step), t, Cas(false, garbage))
            && Succeeds(Do(s, t, step), Do(s, t, step).threads[t].loaded, false)
  {
    assert PhaseOk(s, s.threads[t]);
  }
}
