/** Locks and stacks of the B-link tree's threads: no deadlock, when a writer runs out of
    stack, and which parent a separator goes to (BLinkTree/src/tree.cpp:86-110, 141-172, 201-250).
 */
module BLinkProgress {
  import opened BLinkNode
  import opened BLinkFile
  import opened BLinkSteps
  import opened BLinkParents
  import opened BLinkThreads
  import opened BLinkSafety
  import opened BLinkRuns

  // ----- deadlock

  /** The node whose lock a waiting thread waits for. */
  function Wanted(th: Thread): Offset
    requires Waits(th)
  {
    match th
    case ReadLocking(_, at) => at
    case DescendLocking(_, at, _) => at
    case LeafLocking(_, at, _) => at
    case ParentLocking(_, _, _, _, _, parent) => parent
  }

  /** A waiting thread holds at most one lock, on a node exactly one level below the one it waits for. */
  lemma WaitsUpwards(s: State, j: nat)
    requires Safe(s) && j in s.threads && Waits(s.threads[j])
    ensures Wanted(s.threads[j]) in s.t.nodes && Wanted(s.threads[j]) in s.t.level
    ensures ReadHeld(s.threads[j]) == {} && |WriteHeld(s.threads[j])| <= 1
    ensures forall o :: o in WriteHeld(s.threads[j]) ==>
              o in s.t.level && s.t.level[o] + 1 == s.t.level[Wanted(s.threads[j])]
  {
    hide Exclusive, PostedBut, NodeOk, Tiled, Placed;
    assert ThreadOk(s.t, s.threads[j]);
  }

  /** So a thread that is blocked by a waiting thread waits for a lower node than that one. */
  lemma BlockedBelow(s: State, j: nat, i: nat)
    requires Safe(s) && i in s.threads && j in s.threads && Blocks(s, j, i) && Waits(s.threads[i]) && Waits(s.threads[j])
    ensures Wanted(s.threads[i]) in s.t.level && Wanted(s.threads[j]) in s.t.level && Wanted(s.threads[j]) in s.t.nodes
    ensures s.t.level[Wanted(s.threads[i])] < s.t.level[Wanted(s.threads[j])]
  {
    hide Inv, ThreadOk, PostedBut, Exclusive;
    WaitsUpwards(s, j);
    assert WantsWrite(s.threads[i]) + WantsRead(s.threads[i]) == {Wanted(s.threads[i])};
  }

  /** A thread that waits for nothing and has something to do can do it. */
  lemma ActiveCanAct(t: Tree, th: Thread) returns (t': Tree, th': Thread)
    requires Inv(t) && ThreadOk(t, th) && (th.Reading? || th.Descending? || th.AtLeaf? || th.Holding? || th.AtParent?)
    ensures Acts(t, th, t', th')
  {
    hide Core, Rooted, Contents, Sorted, StackOk, Halve;
    if th.Holding? || th.AtParent? {
      t', th' := SplitterCanAct(t, th);
    } else {
      NodeFacts(t, th.at);
      var n, at := t.nodes[th.at], th.at;
      t' := t;
      match th
      case Reading(key, _) =>
        th' := if n.Internal? then ReadLocking(key, n.children[ChildSlot(n.keys, key)])
               else if n.right != INVALID_OFFSET && n.high <= key then ReadLocking(key, n.right)
               else ReadDone(key, ValueByKey(n, key));
      case Descending(job, _, stk) =>
        th' := if n.Internal? then DescendLocking(job, n.children[ChildSlot(n.keys, job.key)], stk + [at])
               else LeafLocking(job, at, stk);
      case AtLeaf(job, _, stk) =>
        if n.right != INVALID_OFFSET && n.high <= job.key {
          th' := LeafLocking(job, n.right, stk);
        } else if |n.keys| < 2 * L || HasKey(n, job.key) {
          t', th' := InsertInLeaf(t, at, job.key, job.val), WriteDone(job);
        } else {
          th' := Holding(job, at, job.key, INVALID_OFFSET, stk);
        }
    }
  }

  lemma SplitterCanAct(t: Tree, th: Thread) returns (t': Tree, th': Thread)
    requires Inv(t) && ThreadOk(t, th) && (th.Holding? || th.AtParent?)
    ensures Acts(t, th, t', th')
  {
    hide Inv, Halve, PutRoot, Contents, PostChild;
    var n, job, cur, sep, child, stk := t.nodes[th.cur], th.job, th.cur, th.sep, th.child, th.stk;
    NodeFacts(t, cur);
    t' := t;
    if |n.keys| == 2 * L { HalveLocates(t, job, cur, sep, child); }
    if th.AtParent? {
      var p := t.nodes[th.parent];
      if p.right != INVALID_OFFSET && p.high <= sep {
        th' := ParentLocking(job, cur, sep, child, stk, p.right);
      } else {
        t' := Halve(t, job, cur, sep, child);
        th' := Holding(job, th.parent, t'.nodes[cur].high, t.free, stk);
      }
    } else if |n.keys| == 2 * L && !n.root {
      th' := if stk == [] then Crashed(job, cur, sep, child)
             else ParentLocking(job, cur, sep, child, stk[..|stk| - 1], stk[|stk| - 1]);
    } else if |n.keys| == 2 * L {
      t', th' := GrowRoot(Halve(t, job, cur, sep, child), cur, t.free), WriteDone(job);
    } else {
      t', th' := PostChild(t, cur, sep, child), WriteDone(job);
    }
  }

  lemma HalveLocates(t: Tree, job: Job, cur: Offset, sep: Key, child: Offset)
    requires Inv(t) && CurOk(t, job, cur, sep, child) && |t.nodes[cur].keys| == 2 * L && Usable(t.nodes[cur])
    ensures var h := Halve(t, job, cur, sep, child); cur in h.nodes && cur in h.level
  {
    HalveHalves(t, job, cur, sep, child);
  }

  ghost predicate CanStep(s: State, j: nat) {
    exists s' :: Next(s, j, s')
  }

  /** Each thread of the chain waits, and is blocked by the next one. */
  ghost predicate BlockingChain(s: State, chain: seq<nat>) {
    && |chain| > 0 && (forall k :: 0 <= k < |chain| ==> chain[k] in s.threads)
    && forall k :: 0 <= k < |chain| - 1 ==> Waits(s.threads[chain[k]]) && Blocks(s, chain[k + 1], chain[k])
  }

  /** No deadlock: following who blocks whom from a thread that waits ends, at a thread
      that can take a step or at one that has crashed with its locks held. */
  lemma {:induction false} NoDeadlock(s: State, i: nat) returns (chain: seq<nat>)
    requires Safe(s) && i in s.threads && Waits(s.threads[i])
    ensures BlockingChain(s, chain) && chain[0] == i
    ensures var j := chain[|chain| - 1]; CanStep(s, j) || s.threads[j].Crashed?
    decreases s.t.level[s.t.root] - if Wanted(s.threads[i]) in s.t.level then s.t.level[Wanted(s.threads[i])] else 0
  {
    hide Inv, ThreadOk, PostedBut, Exclusive, Next;
    WaitsUpwards(s, i);
    TopLevel(s.t, Wanted(s.threads[i]));
    if k :| k in s.threads && Blocks(s, k, i) {
      if Waits(s.threads[k]) {
        BlockedBelow(s, k, i);
        TopLevel(s.t, Wanted(s.threads[k]));
        var rest := NoDeadlock(s, k);
        chain := [i] + rest;
      } else {
        chain := [i, k];
        if !s.threads[k].Crashed? {
          ActiveSteps(s, k);
        }
      }
    } else {
      chain := [i];
      LockSteps(s, i);
    }
  }

  lemma TopLevel(t: Tree, o: Offset)
    requires Inv(t) && o in t.nodes
    ensures o in t.level && t.root in t.level && t.level[o] <= t.level[t.root]
  {
  }

  lemma LockSteps(s: State, i: nat)
    requires i in s.threads && Waits(s.threads[i]) && forall k :: k in s.threads ==> !Blocks(s, k, i)
    ensures CanStep(s, i)
  {
    assert Next(s, i, State(s.t, s.threads[i := Locked(s.threads[i])]));
  }

  lemma ActiveSteps(s: State, k: nat)
    requires Safe(s) && k in s.threads && WriteHeld(s.threads[k]) + ReadHeld(s.threads[k]) != {}
    requires !Waits(s.threads[k]) && !s.threads[k].Crashed?
    ensures CanStep(s, k)
  {
    hide Inv, PostedBut, Exclusive;
    var t', th' := ActiveCanAct(s.t, s.threads[k]);
    assert Next(s, k, State(t', s.threads[k := th']));
  }

  // ----- no walk goes in a circle

  /** The node o comes after `from` on a walk for a key: one level down, or further right on the level. */
  ghost predicate Further(t: Tree, from: Offset, o: Offset)
    requires t.low.Keys == t.level.Keys == t.nodes.Keys && from in t.nodes && o in t.nodes
  {
    t.level[o] + 1 == t.level[from] || (t.level[o] == t.level[from] && t.low[from] < t.low[o])
  }

  /** From the node it holds, a thread that goes on to the lock of another node goes down one level, or to
      the right; a writer that has found its leaf asks for the write lock of the same leaf once. */
  lemma WalksGoOn(t: Tree, th: Thread, t': Tree, th': Thread)
    requires Inv(t) && ThreadOk(t, th) && Acts(t, th, t', th')
    ensures t.low.Keys == t.level.Keys == t.nodes.Keys
    ensures th.Reading? && th'.ReadLocking? ==> th.at in t.nodes && th'.at in t.nodes && Further(t, th.at, th'.at)
    ensures th.Descending? && th'.DescendLocking? ==>
              th.at in t.nodes && th'.at in t.nodes && t.level[th'.at] + 1 == t.level[th.at] && th'.stk == th.stk + [th.at]
    ensures th.Descending? && th'.LeafLocking? ==> th'.at == th.at && th'.stk == th.stk
    ensures th.AtLeaf? && th'.LeafLocking? ==>
              th.at in t.nodes && th'.at in t.nodes && Further(t, th.at, th'.at) && t.level[th'.at] == 0
    ensures th.AtParent? && th'.ParentLocking? ==>
              && th.parent in t.nodes && th'.parent in t.nodes && Further(t, th.parent, th'.parent)
              && t.level[th'.parent] == t.level[th.parent]
  {
    hide Tiled, Placed, Rooted, Halve, GrowRoot, PostChild, InsertInLeaf, StackOk;
    match th
    case Reading(key, at) => StepFurther(t, at, key);
    case Descending(job, at, _) => StepFurther(t, at, job.key);
    case AtLeaf(job, at, _) => StepFurther(t, at, job.key);
    case AtParent(_, _, _, _, _, parent) => RightFurther(t, parent);
    case Holding(_, _, _, _, _) =>
  }

  lemma RightFurther(t: Tree, o: Offset)
    requires Inv(t) && o in t.nodes
    ensures t.nodes[o].right != INVALID_OFFSET ==> t.nodes[o].right in t.nodes && Further(t, o, t.nodes[o].right)
    ensures t.nodes[o].right != INVALID_OFFSET ==> t.level[t.nodes[o].right] == t.level[o]
  {
    assert NodeOk(t, o);
  }

  lemma StepFurther(t: Tree, o: Offset, key: Key)
    requires Inv(t) && At(t, o, key)
    ensures t.nodes[o].right != INVALID_OFFSET ==> t.nodes[o].right in t.nodes && Further(t, o, t.nodes[o].right)
    ensures t.nodes[o].right != INVALID_OFFSET ==> t.level[t.nodes[o].right] == t.level[o]
    ensures t.nodes[o].Internal? ==> Usable(t.nodes[o])
    ensures t.nodes[o].Internal? ==>
              var c := t.nodes[o].children[ChildSlot(t.nodes[o].keys, key)];
              c in t.nodes && t.level[c] + 1 == t.level[o]
    ensures t.nodes[o].Leaf? ==> t.level[o] == 0
  {
    RightFurther(t, o);
    assert NodeOk(t, o);
    if t.nodes[o].Internal? { ChildIsNotBeyond(t, o, key); }
  }

  // ----- the empty stack

  /** A writer pops its empty stack exactly when it has to split the node that was the root
      when it started, and that node is not the root any more. */
  lemma CrashesExactlyWhen(s: State, i: nat, s': State)
    requires Safe(s) && Next(s, i, s') && s.threads[i].Holding?
    ensures s.threads[i].cur in s.t.nodes && s.threads[i].cur in s.t.level
    ensures s'.threads[i].Crashed? <==>
              && |s.t.nodes[s.threads[i].cur].keys| == 2 * L
              && s.t.level[s.threads[i].cur] == s.threads[i].job.top < s.t.level[s.t.root]
  {
    hide Tiled, Placed, PostedBut, Exclusive, NodeOk;
    assert ThreadOk(s.t, s.threads[i]);
    NodeFacts(s.t, s.threads[i].cur);
  }

  // ----- the parent

  /** Where a child with range start `at` of the internal node n stands, and that m belongs
      strictly inside its slot. */
  ghost predicate InSlotOf(n: Node, c: Offset, m: Key)
    requires n.Internal? && |n.children| == |n.keys| + 1
  {
    exists i :: 0 <= i < |n.children| && n.children[i] == c
      && (i > 0 ==> n.keys[i - 1] < m) && (i < |n.keys| ==> m < n.keys[i])
  }

  /** When a writer is about to split, the node being split has been posted: whoever split
      it off has posted it before giving up the parent's lock. */
  lemma SplitNodeIsPosted(s: State, i: nat)
    requires Safe(s) && i in s.threads && s.threads[i].AtParent? && Below(s.t.nodes[s.threads[i].parent], s.threads[i].sep)
    ensures Posted(s.t, s.threads[i].cur)
  {
    var t, th := s.t, s.threads[i];
    assert ThreadOk(t, th);
    ParentFound(t, th);
    forall c | c in Open(s.threads) ensures c != th.cur {
      var j :| j in s.threads && c in OpenOf(s.threads[j]);
      NotOpenElsewhere(t, th, s.threads[j], i == j);
    }
  }

  lemma NotOpenElsewhere(t: Tree, th: Thread, u: Thread, same: bool)
    requires Inv(t) && ThreadOk(t, th) && th.AtParent? && Covers(t, th.parent, th.job.key)
    requires ThreadOk(t, u) && if same then u == th else WriteHeld(th) !! WriteHeld(u)
    ensures th.cur !in OpenOf(u)
  {
    if th.cur in OpenOf(u) { OpenerHoldsParent(t, th, u); }
  }

  /** A thread that still has to post the node at th.cur holds the parent that th holds. */
  lemma OpenerHoldsParent(t: Tree, th: Thread, u: Thread)
    requires Inv(t) && ThreadOk(t, th) && th.AtParent? && Covers(t, th.parent, th.job.key)
    requires ThreadOk(t, u) && th.cur in OpenOf(u)
    ensures u.cur == th.parent && th != u && th.parent in WriteHeld(u)
  {
    hide NodeOk, Tiled, Placed, Rooted, StackOk;
    LowIsCovered(t, th.cur);
    ParentCovers(t, th.parent, th.cur, th.job.key, t.low[th.cur]);
    InvalidIsNoNode(t);
    assert t.level[u.cur] == t.level[th.cur] + 1 && Covers(t, u.cur, t.low[th.cur]);
    CoverUnique(t, u.cur, th.parent, t.low[th.cur]);
  }

  lemma LowIsCovered(t: Tree, o: Offset)
    requires Linked(t) && o in t.nodes
    ensures Covers(t, o, t.low[o])
  {
    assert NodeOk(t, o);
  }

  /** The parent that the writer reaches by its stack and the right walk is the node that
      holds the split child, and the separator lies strictly inside that child's slot. */
  lemma ParentHoldsChild(s: State, i: nat, s': State)
    requires Safe(s) && Next(s, i, s') && s.threads[i].AtParent? && s'.threads[i].Holding?
    ensures var th := s.threads[i];
      && th.parent in s.t.nodes && s'.t.nodes[th.parent] == s.t.nodes[th.parent] && Usable(s.t.nodes[th.parent])
      && s.t.nodes[th.parent].Internal? && th.cur in s'.t.nodes
      && s'.threads[i].sep == s'.t.nodes[th.cur].high && s'.threads[i].sep !in s.t.nodes[th.parent].keys
      && InSlotOf(s.t.nodes[th.parent], th.cur, s'.threads[i].sep)
  {
    hide Core, Rooted, PostedBut, Exclusive, Halve, InSlotOf;
    Keyed(s.t);
    var t, th, m := s.t, s.threads[i], s'.threads[i].sep;
    assert ThreadOk(t, th);
    SplitNodeIsPosted(s, i);
    ParentFound(t, th);
    PostedInParent(t, th.parent, th.cur, th.job.key);
    HalveHalves(t, th.job, th.cur, th.sep, th.child);
    NodeFacts(t, th.parent);
    SlotHoldsSeparator(t, th.parent, th.cur, th.job.key, m);
  }

  lemma SlotHoldsSeparator(t: Tree, p: Offset, cur: Offset, key: Key, m: Key)
    requires Inv(t) && Covers(t, p, key) && Covers(t, cur, key) && t.level[p] == t.level[cur] + 1
    requires ChildOf(t, p, cur) && Covers(t, cur, m) && t.low[cur] < m
    ensures NodeOk(t, p) && InSlotOf(t.nodes[p], cur, m) && m !in t.nodes[p].keys
  {
    SeparatorFits(t, p, cur, key, m);
    ParentCovers(t, p, cur, key, t.low[cur]);
    SeparatorFits(t, p, cur, t.low[cur], m);
    assert NodeOk(t, p);
    SlotAround(t.nodes[p], cur, t.low[p], t.low, m);
  }

  lemma SlotAround(n: Node, c: Offset, lo: Key, low: map<Offset, Key>, m: Key)
    requires Shaped(n) && Fenced(n, lo, low) && c in n.children && low[c] < m
    requires forall k :: k in n.keys ==> lo < k && (k <= low[c] || m < k)
    ensures InSlotOf(n, c, m)
  {
    var i :| 0 <= i < |n.children| && n.children[i] == c;
    if i < |n.keys| {
      assert n.keys[i] in n.keys;
      if i > 0 { assert n.keys[i - 1] < n.keys[i]; }
    }
  }
}
