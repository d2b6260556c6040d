/** Any number of threads that read and write one B-link tree (BLinkTree/src/tree.cpp:59-308), as a
    state machine.  A step takes one lock, or is what a thread does between two lock
    operations; the locks that a thread holds follow from where it stands.  A step that
    works under a write lock is atomic: no other thread can see the node meanwhile.
    A read moves right like a write, on high <= key, as high_key is meant; BLinkReads has the read as
    it is written.
 */
module BLinkThreads {
  import opened BLinkNode
  import opened BLinkFile
  import opened BLinkSteps
  import opened BLinkParents

  /** A call of `write`.  `top` is for the proof: the level of the root it started from. */
  datatype Job = Job(key: Key, val: Value, top: nat)

  /** Where a thread stands.  A "Locking" thread waits for a lock; `cur` is the node that a
      writer has to split or to complete with the separator `sep` of `child`, and `stk`
      holds the nodes through which it came down, the lowest last. */
  datatype Thread =
    | Idle
    | ReadLocking(rkey: Key, at: Offset)
    | Reading(rkey: Key, at: Offset)
    | ReadDone(rkey: Key, result: Value)
    | DescendLocking(job: Job, at: Offset, stk: seq<Offset>)
    | Descending(job: Job, at: Offset, stk: seq<Offset>)
    | LeafLocking(job: Job, at: Offset, stk: seq<Offset>)
    | AtLeaf(job: Job, at: Offset, stk: seq<Offset>)
    | Holding(job: Job, cur: Offset, sep: Key, child: Offset, stk: seq<Offset>)
    | ParentLocking(job: Job, cur: Offset, sep: Key, child: Offset, stk: seq<Offset>, parent: Offset)
    | AtParent(job: Job, cur: Offset, sep: Key, child: Offset, stk: seq<Offset>, parent: Offset)
    | WriteDone(job: Job)
    | Crashed(job: Job, cur: Offset, sep: Key, child: Offset)

  datatype State = State(t: Tree, threads: map<nat, Thread>)

  function WriteHeld(th: Thread): set<Offset> {
    match th
    case AtLeaf(_, at, _) => {at}
    case Holding(_, cur, _, _, _) => {cur}
    case ParentLocking(_, cur, _, _, _, _) => {cur}
    case AtParent(_, cur, _, _, _, parent) => {cur, parent}
    case Crashed(_, cur, _, _) => {cur}
    case _ => {}
  }

  function ReadHeld(th: Thread): set<Offset> {
    match th
    case Reading(_, at) => {at}
    case Descending(_, at, _) => {at}
    case _ => {}
  }

  /** The write lock, or else the read lock, that a thread waits for. */
  function WantsWrite(th: Thread): set<Offset> {
    match th
    case LeafLocking(_, at, _) => {at}
    case ParentLocking(_, _, _, _, _, parent) => {parent}
    case _ => {}
  }

  function WantsRead(th: Thread): set<Offset> {
    match th
    case ReadLocking(_, at) => {at}
    case DescendLocking(_, at, _) => {at}
    case _ => {}
  }

  predicate Waits(th: Thread) {
    th.ReadLocking? || th.DescendLocking? || th.LeafLocking? || th.ParentLocking?
  }

  /** The waiting thread, once it has its lock. */
  function Locked(th: Thread): Thread {
    match th
    case ReadLocking(key, at) => Reading(key, at)
    case DescendLocking(job, at, stk) => Descending(job, at, stk)
    case LeafLocking(job, at, stk) => AtLeaf(job, at, stk)
    case ParentLocking(job, cur, sep, child, stk, parent) => AtParent(job, cur, sep, child, stk, parent)
    case _ => th
  }

  /** j keeps i from getting the lock that i waits for. */
  predicate Blocks(s: State, j: nat, i: nat)
    requires i in s.threads && j in s.threads
  {
    && j != i
    && !((WantsWrite(s.threads[i]) + WantsRead(s.threads[i])) !! WriteHeld(s.threads[j])
         && WantsWrite(s.threads[i]) !! ReadHeld(s.threads[j]))
  }

  /** The slots of a node are filled as its sizes say, so that it can be worked on. */
  predicate Usable(n: Node) {
    && (n.Leaf? ==> |n.vals| == |n.keys|)
    && (n.Internal? ==> |n.children| == |n.keys| + 1 && |n.keys| > 0)
  }

  /** A full node at cur, halved with what the write adds to it. */
  function Halve(t: Tree, job: Job, cur: Offset, sep: Key, child: Offset): Tree
    requires cur in t.nodes && cur in t.level && Usable(t.nodes[cur]) && |t.nodes[cur].keys| == 2 * L
  {
    if t.nodes[cur].Leaf? then HalveLeaf(t, cur, job.key, job.val)
    else HalveInternal(t, cur, job.key, sep, child)
  }

  /** What a thread that waits for nothing does next. */
  predicate Acts(t: Tree, th: Thread, t': Tree, th': Thread) {
    match th
    case Reading(key, at) =>
      && at in t.nodes && Usable(t.nodes[at]) && t' == t
      && var n := t.nodes[at];
         if n.Internal? then th' == ReadLocking(key, n.children[ChildSlot(n.keys, key)])
         else if n.right != INVALID_OFFSET && n.high <= key then th' == ReadLocking(key, n.right)
         else th' == ReadDone(key, ValueByKey(n, key))
    case Descending(job, at, stk) =>
      && at in t.nodes && Usable(t.nodes[at]) && t' == t
      && var n := t.nodes[at];
         if n.Internal? then th' == DescendLocking(job, n.children[ChildSlot(n.keys, job.key)], stk + [at])
         else th' == LeafLocking(job, at, stk)
    case AtLeaf(job, at, stk) =>
      && at in t.nodes && Usable(t.nodes[at]) && t.nodes[at].Leaf?
      && var n := t.nodes[at];
         if n.right != INVALID_OFFSET && n.high <= job.key then t' == t && th' == LeafLocking(job, n.right, stk)
         else if |n.keys| < 2 * L || HasKey(n, job.key) then
           t' == InsertInLeaf(t, at, job.key, job.val) && th' == WriteDone(job)
         else t' == t && th' == Holding(job, at, job.key, INVALID_OFFSET, stk)
    case Holding(job, cur, sep, child, stk) =>
      && cur in t.nodes && cur in t.level && Usable(t.nodes[cur])
      && var n := t.nodes[cur];
         if |n.keys| == 2 * L && !n.root then
           && t' == t
           && if stk == [] then th' == Crashed(job, cur, sep, child)
              else th' == ParentLocking(job, cur, sep, child, stk[..|stk| - 1], stk[|stk| - 1])
         else if |n.keys| == 2 * L then
           var h := Halve(t, job, cur, sep, child);
           cur in h.nodes && cur in h.level && t' == GrowRoot(h, cur, t.free) && th' == WriteDone(job)
         else n.Internal? && t' == PostChild(t, cur, sep, child) && th' == WriteDone(job)
    case AtParent(job, cur, sep, child, stk, parent) =>
      && cur in t.nodes && cur in t.level && Usable(t.nodes[cur]) && |t.nodes[cur].keys| == 2 * L && parent in t.nodes
      && var p := t.nodes[parent];
         if p.right != INVALID_OFFSET && p.high <= sep then
           t' == t && th' == ParentLocking(job, cur, sep, child, stk, p.right)
         else
           && t' == Halve(t, job, cur, sep, child) && cur in t'.nodes
           && th' == Holding(job, parent, t'.nodes[cur].high, t.free, stk)
    case _ => false
  }

  /** An idle or finished thread reads the root offset and starts a call. */
  predicate Starts(t: Tree, th: Thread, th': Thread) {
    && (th.Idle? || th.ReadDone? || th.WriteDone?)
    && t.root in t.level
    && ((th'.ReadLocking? && th'.at == t.root)
        || (th'.DescendLocking? && th'.at == t.root && th'.stk == [] && th'.job.top == t.level[t.root]))
  }

  ghost predicate Next(s: State, i: nat, s': State) {
    && i in s.threads && s'.threads.Keys == s.threads.Keys
    && s'.threads == s.threads[i := s'.threads[i]]
    && var th, th' := s.threads[i], s'.threads[i];
       || (s'.t == s.t && Starts(s.t, th, th'))
       || (s'.t == s.t && Waits(th) && th' == Locked(th) && forall j :: j in s.threads ==> !Blocks(s, j, i))
       || Acts(s.t, th, s'.t, th')
  }

  ghost predicate Init(s: State) {
    s.t == Empty() && forall i :: i in s.threads ==> s.threads[i] == Idle
  }

  // ----- the invariant

  /** The nodes of the stack lead up from level `lev`, and none starts beyond the key. */
  ghost predicate StackOk(t: Tree, stk: seq<Offset>, lev: nat, key: Key)
    requires t.low.Keys == t.level.Keys == t.nodes.Keys
  {
    forall j {:trigger stk[j]} :: 0 <= j < |stk| ==>
      stk[j] in t.nodes && t.level[stk[j]] == lev + (|stk| - j) && t.low[stk[j]] <= key
  }

  ghost predicate At(t: Tree, o: Offset, key: Key)
    requires t.low.Keys == t.level.Keys == t.nodes.Keys
  {
    o in t.nodes && t.low[o] <= key
  }

  /** The writer holds the node that covers its key, and knows what to add to it. */
  ghost predicate CurOk(t: Tree, job: Job, cur: Offset, sep: Key, child: Offset)
    requires t.low.Keys == t.level.Keys == t.nodes.Keys && t.root in t.nodes
  {
    && Covers(t, cur, job.key) && job.top <= t.level[t.root]
    && if t.level[cur] == 0 then
         sep == job.key && child == INVALID_OFFSET && |t.nodes[cur].keys| == 2 * L && !HasKey(t.nodes[cur], job.key)
       else Pending(t, cur, job.key, sep, child)
  }

  ghost predicate ThreadOk(t: Tree, th: Thread)
    requires t.low.Keys == t.level.Keys == t.nodes.Keys && t.root in t.nodes
  {
    match th
    case Idle => true
    case ReadLocking(key, at) => At(t, at, key)
    case Reading(key, at) => At(t, at, key)
    case ReadDone(_, _) => true
    case DescendLocking(job, at, stk) => WayDown(t, job, at, stk)
    case Descending(job, at, stk) => WayDown(t, job, at, stk)
    case LeafLocking(job, at, stk) => WayDown(t, job, at, stk) && t.level[at] == 0
    case AtLeaf(job, at, stk) => WayDown(t, job, at, stk) && t.level[at] == 0
    case Holding(job, cur, sep, child, stk) =>
      CurOk(t, job, cur, sep, child) && StackOk(t, stk, t.level[cur], job.key) && |stk| + t.level[cur] == job.top
    case ParentLocking(job, cur, sep, child, stk, parent) => WayUp(t, job, cur, sep, child, stk, parent)
    case AtParent(job, cur, sep, child, stk, parent) => WayUp(t, job, cur, sep, child, stk, parent)
    case WriteDone(_) => true
    case Crashed(job, cur, sep, child) => CurOk(t, job, cur, sep, child) && t.level[cur] == job.top < t.level[t.root]
  }

  ghost predicate WayDown(t: Tree, job: Job, at: Offset, stk: seq<Offset>)
    requires t.low.Keys == t.level.Keys == t.nodes.Keys && t.root in t.nodes
  {
    At(t, at, job.key) && StackOk(t, stk, t.level[at], job.key) && |stk| + t.level[at] == job.top <= t.level[t.root]
  }

  ghost predicate WayUp(t: Tree, job: Job, cur: Offset, sep: Key, child: Offset, stk: seq<Offset>, parent: Offset)
    requires t.low.Keys == t.level.Keys == t.nodes.Keys && t.root in t.nodes
  {
    && CurOk(t, job, cur, sep, child) && |t.nodes[cur].keys| == 2 * L && !t.nodes[cur].root
    && parent in t.nodes && t.level[parent] == t.level[cur] + 1 && t.low[parent] <= t.low[cur]
    && StackOk(t, stk, t.level[parent], job.key) && |stk| + t.level[parent] == job.top
  }

  /** The node that a thread has split off and still has to post. */
  function OpenOf(th: Thread): set<Offset> {
    match th
    case Holding(_, _, _, child, _) => {child}
    case ParentLocking(_, _, _, child, _, _) => {child}
    case AtParent(_, _, _, child, _, _) => {child}
    case Crashed(_, _, _, child) => {child}
    case _ => {}
  }

  ghost function Open(threads: map<nat, Thread>): set<Offset> {
    set i, c | i in threads && c in OpenOf(threads[i]) :: c
  }

  ghost predicate Exclusive(threads: map<nat, Thread>) {
    forall i, j :: i in threads && j in threads && i != j ==>
      WriteHeld(threads[i]) !! WriteHeld(threads[j]) && WriteHeld(threads[i]) !! ReadHeld(threads[j])
  }

  ghost predicate Safe(s: State) {
    && Inv(s.t)
    && (forall i :: i in s.threads ==> ThreadOk(s.t, s.threads[i]))
    && Exclusive(s.threads)
    && PostedBut(s.t, Open(s.threads))
  }
}
