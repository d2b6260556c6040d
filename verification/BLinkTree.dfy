/** The B-link tree as the objects of the source: NodeIO (BLinkTree/src/nodeIO.cpp), which holds
    the service file, and BLinkTree (BLinkTree/src/tree.cpp), used by one caller at a time.
    `Write` walks through the same steps as a thread of BLinkThreads; its loops end,
    its stack never runs out, and it leaves a tree with every separator posted.
 */
module BLinkTreeClass {
  import opened BLinkNode
  import opened BLinkFile
  import opened BLinkSteps
  import opened BLinkParents
  import opened BLinkThreads
  import opened BLinkSafety

  /** A single writer stands where th says, and nothing but its own child is unposted. */
  ghost predicate Here(t: Tree, th: Thread) {
    Inv(t) && ThreadOk(t, th) && PostedBut(t, OpenOf(th))
  }

  lemma Move(t: Tree, th: Thread, t': Tree, th': Thread)
    requires Here(t, th) && Acts(t, th, t', th')
    ensures Here(t', th') && Stored(t, th, t', th')
    ensures Grows(t, t', WriteHeld(th))
  {
    hide Inv, ThreadOk, Acts, Contents;
    ActsAreGood(t, th, t', th');
    ActsStore(t, th, t', th');
    assert OpenOf(th) - OpenOf(th) + OpenOf(th') == OpenOf(th');
  }

  lemma StartHere(t: Tree, job: Job)
    requires Inv(t) && PostedBut(t, {}) && t.root in t.level && job.top == t.level[t.root]
    ensures Here(t, Descending(job, t.root, [])) && FromRoot(t, job)
  {
    hide NodeOk, Tiled, Placed, PostedBut;
  }

  /** The single writer started from the root that is still there. */
  ghost predicate FromRoot(t: Tree, job: Job) {
    t.root in t.level && job.top == t.level[t.root]
  }

  lemma Down(t: Tree, job: Job, at: Offset, stk: seq<Offset>)
    requires at in t.nodes && t.nodes[at].Internal? && Here(t, Descending(job, at, stk))
    ensures Usable(t.nodes[at]) && var c := t.nodes[at].children[ChildSlot(t.nodes[at].keys, job.key)];
      && Here(t, Descending(job, c, stk + [at]))
      && c in t.nodes && c in t.level && at in t.level && t.level[c] < t.level[at]
  {
    hide NodeOk, Tiled, Placed, Rooted, Contents, KeepsPosted, PostedBut, Sorted;
    ChildIsNotBeyond(t, at, job.key);
    var c := t.nodes[at].children[ChildSlot(t.nodes[at].keys, job.key)];
    Move(t, Descending(job, at, stk), t, DescendLocking(job, c, stk + [at]));
  }

  lemma Bottom(t: Tree, job: Job, at: Offset, stk: seq<Offset>)
    requires Here(t, Descending(job, at, stk)) && t.nodes[at].Leaf?
    ensures Usable(t.nodes[at]) && Here(t, AtLeaf(job, at, stk))
  {
    hide Core, Rooted, Contents, KeepsPosted, Sorted, InsertInLeaf, PostedBut, StackOk;
    NodeFacts(t, at);
    Move(t, Descending(job, at, stk), t, LeafLocking(job, at, stk));
  }

  lemma RightOf(t: Tree, o: Offset)
    requires Inv(t) && o in t.nodes && t.nodes[o].right != INVALID_OFFSET
    ensures t.low.Keys == t.level.Keys == t.nodes.Keys
    ensures t.nodes[o].right in t.nodes && Beyond(t, t.nodes[o].right) < Beyond(t, o)
    ensures Shaped(t.nodes[t.nodes[o].right]) && (t.nodes[t.nodes[o].right].Leaf? <==> t.nodes[o].Leaf?)
  {
    RightShrinksBeyond(t, o);
    assert NodeOk(t, o) && NodeOk(t, t.nodes[o].right);
  }

  lemma LeafRight(t: Tree, job: Job, at: Offset, stk: seq<Offset>)
    requires Here(t, AtLeaf(job, at, stk)) && !Below(t.nodes[at], job.key)
    ensures var r := t.nodes[at].right;
      && r in t.nodes && Here(t, AtLeaf(job, r, stk)) && Beyond(t, r) < Beyond(t, at)
      && t.nodes[r].Leaf? && Usable(t.nodes[r])
  {
    hide Core, Rooted, Contents, KeepsPosted, Beyond, Sorted, InsertInLeaf, StackOk, PostedBut;
    NodeFacts(t, at);
    RightOf(t, at);
    Move(t, AtLeaf(job, at, stk), t, LeafLocking(job, t.nodes[at].right, stk));
  }

  /** A write that finds the key in a full leaf is lost. */
  ghost predicate Swallows(t: Tree, key: Key) {
    exists o :: o in t.nodes && o in t.level && t.level[o] == 0 && Covers(t, o, key)
      && |t.nodes[o].keys| == 2 * L && HasKey(t.nodes[o], key)
  }

  lemma LeafDecidesSwallow(t: Tree, o: Offset, key: Key)
    requires Inv(t) && Covers(t, o, key) && t.level[o] == 0
    ensures Swallows(t, key) <==> |t.nodes[o].keys| == 2 * L && HasKey(t.nodes[o], key)
  {
    forall x | x in t.nodes && x in t.level && t.level[x] == 0 && Covers(t, x, key) ensures x == o {
      CoverUnique(t, x, o, key);
    }
  }

  lemma Finish(t: Tree, job: Job, at: Offset, stk: seq<Offset>)
    requires Here(t, AtLeaf(job, at, stk)) && Below(t.nodes[at], job.key) && Usable(t.nodes[at]) && t.nodes[at].Leaf?
    requires |t.nodes[at].keys| < 2 * L || HasKey(t.nodes[at], job.key)
    ensures var t' := InsertInLeaf(t, at, job.key, job.val);
      && Here(t', WriteDone(job))
      && Contents(t') == if Swallows(t, job.key) then Contents(t) else Contents(t)[job.key := job.val]
  {
    hide Core, Rooted, Contents, KeepsPosted, PostedBut, Sorted, StackOk, InsertInLeaf;
    NodeFacts(t, at);
    LeafDecidesSwallow(t, at, job.key);
    Move(t, AtLeaf(job, at, stk), InsertInLeaf(t, at, job.key, job.val), WriteDone(job));
  }

  lemma MustSplit(t: Tree, job: Job, at: Offset, stk: seq<Offset>)
    requires Here(t, AtLeaf(job, at, stk)) && Below(t.nodes[at], job.key) && Usable(t.nodes[at]) && t.nodes[at].Leaf?
    requires |t.nodes[at].keys| >= 2 * L && !HasKey(t.nodes[at], job.key)
    ensures Here(t, Holding(job, at, job.key, INVALID_OFFSET, stk)) && !Swallows(t, job.key)
    ensures at in t.level && t.level[at] == 0
  {
    hide Core, Rooted, Contents, KeepsPosted, Sorted, InsertInLeaf, PostedBut, StackOk;
    NodeFacts(t, at);
    LeafDecidesSwallow(t, at, job.key);
    Move(t, AtLeaf(job, at, stk), t, Holding(job, at, job.key, INVALID_OFFSET, stk));
  }

  /** As long as the root is the one the writer started from, its stack holds a parent for
      every node that is not the root. */
  lemma Pop(t: Tree, job: Job, cur: Offset, sep: Key, child: Offset, stk: seq<Offset>)
    requires Here(t, Holding(job, cur, sep, child, stk)) && FromRoot(t, job)
    requires |t.nodes[cur].keys| == 2 * L && !t.nodes[cur].root
    ensures stk != [] && stk[|stk| - 1] in t.nodes && t.low.Keys == t.level.Keys == t.nodes.Keys
    ensures Here(t, AtParent(job, cur, sep, child, stk[..|stk| - 1], stk[|stk| - 1]))
  {
    hide NodeOk, Tiled, Placed, PostedBut, Contents, KeepsPosted;
    NodeFacts(t, cur);
    assert t.level[cur] < t.level[t.root];
    Move(t, Holding(job, cur, sep, child, stk), t, ParentLocking(job, cur, sep, child, stk[..|stk| - 1], stk[|stk| - 1]));
  }

  lemma ParentRight(t: Tree, job: Job, cur: Offset, sep: Key, child: Offset, stk: seq<Offset>, p: Offset)
    requires Here(t, AtParent(job, cur, sep, child, stk, p)) && !Below(t.nodes[p], sep)
    ensures var r := t.nodes[p].right;
      r in t.nodes && Here(t, AtParent(job, cur, sep, child, stk, r)) && Beyond(t, r) < Beyond(t, p)
  {
    hide Core, Rooted, Contents, KeepsPosted, PostedBut, Halve, Sorted, StackOk, Beyond, HasKey;
    NodeFacts(t, cur);
    NodeFacts(t, p);
    RightOf(t, p);
    Move(t, AtParent(job, cur, sep, child, stk, p), t, ParentLocking(job, cur, sep, child, stk, t.nodes[p].right));
  }

  lemma SplitUp(t: Tree, job: Job, cur: Offset, sep: Key, child: Offset, stk: seq<Offset>, p: Offset)
    requires Here(t, AtParent(job, cur, sep, child, stk, p)) && Below(t.nodes[p], sep) && FromRoot(t, job)
    ensures cur in t.level && Usable(t.nodes[cur]) && |t.nodes[cur].keys| == 2 * L && cur != t.free
    ensures var t' := Halve(t, job, cur, sep, child);
      && cur in t'.nodes && Here(t', Holding(job, p, t'.nodes[cur].high, t.free, stk)) && FromRoot(t', job)
      && p in t'.nodes && t'.nodes[p] == t.nodes[p] && p in t'.level && t'.level[p] > 0
      && Contents(t') == if t.level[cur] == 0 then Contents(t)[job.key := job.val] else Contents(t)
  {
    hide Core, Rooted, Contents, KeepsPosted, HalveLeaf, HalveInternal;
    NodeFacts(t, cur);
    NodeFacts(t, p);
    FreeIsFresh(t);
    HalveHalves(t, job, cur, sep, child);
    HalveStores(t, job, cur, sep, child);
    var t' := Halve(t, job, cur, sep, child);
    assert p != cur && t'.nodes[p] == t.nodes[p];
    Move(t, AtParent(job, cur, sep, child, stk, p), t', Holding(job, p, t'.nodes[cur].high, t.free, stk));
  }

  lemma PostUp(t: Tree, job: Job, cur: Offset, sep: Key, child: Offset, stk: seq<Offset>)
    requires Here(t, Holding(job, cur, sep, child, stk)) && |t.nodes[cur].keys| != 2 * L
    ensures cur in t.level && t.level[cur] > 0 && Usable(t.nodes[cur]) && t.nodes[cur].Internal?
    ensures var t' := PostChild(t, cur, sep, child); Here(t', WriteDone(job)) && Contents(t') == Contents(t)
  {
    NodeFacts(t, cur);
    Move(t, Holding(job, cur, sep, child, stk), PostChild(t, cur, sep, child), WriteDone(job));
  }

  lemma GrowUp(t: Tree, job: Job, cur: Offset, sep: Key, child: Offset, stk: seq<Offset>)
    requires Here(t, Holding(job, cur, sep, child, stk)) && |t.nodes[cur].keys| == 2 * L && t.nodes[cur].root
    ensures cur in t.level && Usable(t.nodes[cur]) && cur != t.free
    ensures var h := Halve(t, job, cur, sep, child);
      && cur in h.nodes && cur in h.level && Here(GrowRoot(h, cur, t.free), WriteDone(job))
      && Contents(GrowRoot(h, cur, t.free)) == if t.level[cur] == 0 then Contents(t)[job.key := job.val] else Contents(t)
  {
    hide Core, Rooted, Contents, KeepsPosted, Halve, PutRoot;
    NodeFacts(t, cur);
    FreeIsFresh(t);
    HalveStores(t, job, cur, sep, child);
    GrowthStores(t, Holding(job, cur, sep, child, stk));
    Move(t, Holding(job, cur, sep, child, stk), GrowRoot(Halve(t, job, cur, sep, child), cur, t.free), WriteDone(job));
  }

  class NodeIO {
    var nodes: map<Offset, Node>
    var free: Offset
    var root: Offset
    ghost var low: map<Offset, Key>
    ghost var level: map<Offset, nat>

    ghost function T(): Tree
      reads this
    {
      Tree(nodes, free, root, low, level)
    }

    constructor CreateEmptyServiceFile()
      ensures T() == Empty()
    {
      nodes := map[ROOT_OFFSET := Leaf(INVALID_OFFSET, 0, true, [], [])];
      root, free := ROOT_OFFSET, ROOT_OFFSET + NODE_SIZE;
      low, level := map[ROOT_OFFSET := 0], map[ROOT_OFFSET := 0];
    }

    /** The source ends the process when there is no node at the offset. */
    method ReadNode(offset: Offset) returns (node: Node)
      requires offset in nodes
      ensures node == nodes[offset]
    {
      node := nodes[offset];
    }

    method WriteNode(offset: Offset, node: Node)
      modifies `nodes
      ensures nodes == old(nodes)[offset := node]
    {
      nodes := nodes[offset := node];
    }

    method AddNode() returns (offset: Offset)
      modifies `free
      ensures offset == old(free) && free == old(free) + NODE_SIZE
    {
      var newNodeOffset := free;
      newNodeOffset := newNodeOffset + NODE_SIZE;
      free := newNodeOffset;
      offset := newNodeOffset - NODE_SIZE;
    }

    method GetRootOffset() returns (offset: Offset)
      ensures offset == root
    {
      offset := root;
    }

    method SetRootOffset(newRoot: Offset)
      modifies `root
      ensures root == newRoot
    {
      root := newRoot;
    }

    ghost method Place(offset: Offset, lo: Key, lev: nat)
      modifies `low, `level
      ensures low == old(low)[offset := lo] && level == old(level)[offset := lev]
    {
      low := low[offset := lo];
      level := level[offset := lev];
    }
  }

  /** The leaf that child pointers lead to. */
  ghost function Descent(t: Tree, o: Offset, key: Key): Offset
    requires Linked(t) && At(t, o, key)
    decreases t.level[o]
  {
    assert NodeOk(t, o);
    if t.nodes[o].Leaf? then o
    else
      ChildIsNotBeyond(t, o, key);
      Descent(t, t.nodes[o].children[ChildSlot(t.nodes[o].keys, key)], key)
  }

  /** With every node posted, child pointers alone lead to the leaf that covers the key. */
  lemma {:induction false} DescentCovers(t: Tree, o: Offset, key: Key)
    requires Inv(t) && PostedBut(t, {}) && Covers(t, o, key)
    ensures Covers(t, Descent(t, o, key), key) && t.level[Descent(t, o, key)] == 0
    decreases t.level[o]
  {
    hide Tiled, Placed, Rooted;
    assert NodeOk(t, o);
    if t.nodes[o].Internal? {
      ChildCovers(t, o, key);
      ChildIsNotBeyond(t, o, key);
      DescentCovers(t, t.nodes[o].children[ChildSlot(t.nodes[o].keys, key)], key);
    }
  }

  class BLinkTree {
    const nodeIo: NodeIO

    ghost predicate Valid()
      reads nodeIo
    {
      Inv(nodeIo.T()) && PostedBut(nodeIo.T(), {})
    }

    constructor (nodeIo: NodeIO)
      requires Inv(nodeIo.T()) && PostedBut(nodeIo.T(), {})
      ensures this.nodeIo == nodeIo && Valid()
    {
      this.nodeIo := nodeIo;
    }

    method Read(key: Key) returns (v: Value)
      requires Valid()
      ensures v == Get(Contents(nodeIo.T()), key)
    {
      ghost var t := nodeIo.T();
      var current := nodeIo.GetRootOffset();
      RootCovers(t, key);
      var node := nodeIo.ReadNode(current);
      while !node.Leaf?
        invariant Linked(t) && nodeIo.T() == t && At(t, current, key) && node == t.nodes[current]
        invariant Descent(t, current, key) == Descent(t, t.root, key)
        decreases t.level[current]
      {
        ChildIsNotBeyond(t, current, key);
        current := node.children[ChildSlot(node.keys, key)];
        node := nodeIo.ReadNode(current);
      }
      ghost var leaf := current;
      while node.right != INVALID_OFFSET && node.high < key
        invariant nodeIo.T() == t && At(t, current, key) && node == t.nodes[current]
        invariant t.level[current] == t.level[leaf] && (Below(t.nodes[leaf], key) ==> current == leaf)
        decreases Beyond(t, current)
      {
        RightIsNotBeyond(t, current, key);
        RightShrinksBeyond(t, current);
        current := node.right;
        node := nodeIo.ReadNode(current);
      }
      DescentCovers(t, t.root, key);
      LeafDecides(t, leaf, key);
      v := ValueByKey(node, key);
    }

    /** Stores the binding, whatever has to be split for it; only an overwrite of a key in
        a full leaf is lost. */
    method Write(key: Key, val: Value)
      requires Valid()
      modifies nodeIo
      ensures Valid()
      ensures Contents(nodeIo.T()) ==
              if old(Swallows(nodeIo.T(), key)) then old(Contents(nodeIo.T()))
              else old(Contents(nodeIo.T()))[key := val]
    {
      hide Inv, ThreadOk, Contents, Swallows, PostedBut, Beyond, FromRoot, Usable;
      ghost var t := nodeIo.T();
      var current := nodeIo.GetRootOffset();
      RootCovers(t, key);
      ghost var job := Job(key, val, t.level[t.root]);
      StartHere(t, job);
      var stk: seq<Offset> := [];
      var node := nodeIo.ReadNode(current);
      while !node.Leaf?
        invariant nodeIo.T() == t && current in t.nodes && current in t.level && node == t.nodes[current]
        invariant Here(t, Descending(job, current, stk))
        decreases t.level[current]
      {
        Down(t, job, current, stk);
        stk := stk + [current];
        current := node.children[ChildSlot(node.keys, key)];
        node := nodeIo.ReadNode(current);
      }
      Bottom(t, job, current, stk);
      while node.right != INVALID_OFFSET && key >= node.high
        invariant nodeIo.T() == t && current in t.nodes && node == t.nodes[current] && node.Leaf? && Usable(node)
        invariant Here(t, AtLeaf(job, current, stk)) && t.low.Keys == t.level.Keys == t.nodes.Keys
        decreases Beyond(t, current)
      {
        LeafRight(t, job, current, stk);
        current := node.right;
        node := nodeIo.ReadNode(current);
      }
      if |node.keys| < 2 * L || HasKey(node, key) {
        Finish(t, job, current, stk);
        nodeIo.WriteNode(current, AddKeyValue(node, key, val));
        return;
      }
      MustSplit(t, job, current, stk);
      SplitUpwards(key, val, current, node, stk, job);
    }

    /** The second half of `write`: from a full leaf upwards. */
    method SplitUpwards(key: Key, val: Value, leaf: Offset, leafNode: Node, path: seq<Offset>, ghost job: Job)
      requires leaf in nodeIo.nodes && leafNode == nodeIo.nodes[leaf] && job.key == key && job.val == val
      requires Here(nodeIo.T(), Holding(job, leaf, key, INVALID_OFFSET, path)) && FromRoot(nodeIo.T(), job)
      requires leaf in nodeIo.level && nodeIo.level[leaf] == 0 && |leafNode.keys| == 2 * L
      modifies nodeIo
      ensures Valid()
      ensures Contents(nodeIo.T()) == old(Contents(nodeIo.T()))[key := val]
    {
      hide Inv, ThreadOk, Contents, PostedBut, Beyond, FromRoot, Usable;
      var current, node, stk, sep, child := leaf, leafNode, path, key, INVALID_OFFSET;
      ghost var stored := old(Contents(nodeIo.T()));
      while |node.keys| == 2 * L && !node.root
        invariant current in nodeIo.nodes && current in nodeIo.level && node == nodeIo.nodes[current]
        invariant Here(nodeIo.T(), Holding(job, current, sep, child, stk)) && FromRoot(nodeIo.T(), job)
        invariant Contents(nodeIo.T()) == if nodeIo.level[current] == 0 then stored else stored[key := val]
        invariant nodeIo.level[current] == 0 ==> |node.keys| == 2 * L
        decreases |stk|
      {
        ghost var t := nodeIo.T();
        Pop(t, job, current, sep, child, stk);
        var parentOffset := stk[|stk| - 1];
        stk := stk[..|stk| - 1];
        var parent := nodeIo.ReadNode(parentOffset);
        while parent.right != INVALID_OFFSET && parent.high <= sep
          invariant nodeIo.T() == t && parentOffset in t.nodes && parent == t.nodes[parentOffset]
          invariant Here(t, AtParent(job, current, sep, child, stk, parentOffset)) && t.low.Keys == t.level.Keys == t.nodes.Keys
          decreases Beyond(t, parentOffset)
        {
          ParentRight(t, job, current, sep, child, stk, parentOffset);
          parentOffset := parent.right;
          parent := nodeIo.ReadNode(parentOffset);
        }
        SplitUp(t, job, current, sep, child, stk, parentOffset);
        var l, rightOffset := SplitAndAdd(current, node, key, val, sep, child, job);
        sep, child := l.high, rightOffset;
        current, node := parentOffset, parent;
      }
      GrowOrPost(key, val, current, node, sep, child, stk, job);
    }

    /** The end of `write`: at the root, or at a node with room for the separator. */
    method GrowOrPost(key: Key, val: Value, current: Offset, node: Node, sep: Key, child: Offset,
        ghost stk: seq<Offset>, ghost job: Job)
      requires current in nodeIo.nodes && current in nodeIo.level && node == nodeIo.nodes[current]
      requires job.key == key && job.val == val
      requires Here(nodeIo.T(), Holding(job, current, sep, child, stk)) && (|node.keys| == 2 * L ==> node.root)
      modifies nodeIo
      ensures Valid()
      ensures Contents(nodeIo.T()) ==
              if old(nodeIo.level[current]) == 0 then old(Contents(nodeIo.T()))[key := val] else old(Contents(nodeIo.T()))
    {
      hide Inv, ThreadOk, Contents, PostedBut, FromRoot, Usable, Halve;
      ghost var t := nodeIo.T();
      if |node.keys| == 2 * L {
        GrowUp(t, job, current, sep, child, stk);
        var l, rightOffset := SplitAndAdd(current, node, key, val, sep, child, job);
        var rootOffset := nodeIo.AddNode();
        nodeIo.SetRootOffset(rootOffset);
        nodeIo.WriteNode(rootOffset, Internal(INVALID_OFFSET, 0, true, [l.high], [current, rightOffset]));
        nodeIo.Place(rootOffset, 0, nodeIo.level[current] + 1);
        assert nodeIo.T() == GrowRoot(Halve(t, job, current, sep, child), current, t.free);
      } else {
        PostUp(t, job, current, sep, child, stk);
        nodeIo.WriteNode(current, AddKeyChild(node, sep, child));
        assert nodeIo.T() == PostChild(t, current, sep, child);
      }
    }

    /** addNode, btnodeSplit, the insertion into one half and both writes. */
    method SplitAndAdd(current: Offset, node: Node, key: Key, val: Value, sep: Key, child: Offset, ghost job: Job)
      returns (l: Node, rightOffset: Offset)
      requires current in nodeIo.nodes && current in nodeIo.level && node == nodeIo.nodes[current]
      requires Usable(node) && |node.keys| == 2 * L && job.key == key && job.val == val
      modifies nodeIo
      ensures nodeIo.T() == Halve(old(nodeIo.T()), job, current, sep, child)
      ensures rightOffset == old(nodeIo.free) && (current != rightOffset ==> current in nodeIo.nodes && l == nodeIo.nodes[current])
    {
      rightOffset := nodeIo.AddNode();
      var r: Node;
      l, r := Split(node, rightOffset).0, Split(node, rightOffset).1;
      if node.Leaf? {
        if l.high > key { l := AddKeyValue(l, key, val); } else { r := AddKeyValue(r, key, val); }
      } else {
        if l.high > key { l := AddKeyChild(l, sep, child); } else { r := AddKeyChild(r, sep, child); }
      }
      nodeIo.WriteNode(current, l);
      nodeIo.WriteNode(rightOffset, r);
      nodeIo.Place(rightOffset, l.high, nodeIo.level[current]);
    }
  }

  lemma RootCovers(t: Tree, key: Key)
    requires Inv(t)
    ensures Linked(t) && At(t, t.root, key) && Covers(t, t.root, key)
  {
  }
}
