/** Every step of every thread keeps the B-link tree and what each thread knows about it. */
module BLinkSafety {
  import opened BLinkNode
  import opened BLinkFile
  import opened BLinkSteps
  import opened BLinkParents
  import opened BLinkThreads

  /** Nodes never move, and only those in `changed` have a new image. */
  ghost predicate Grows(t: Tree, t': Tree, changed: set<Offset>) {
    && t.low.Keys == t.level.Keys == t.nodes.Keys && t'.low.Keys == t'.level.Keys == t'.nodes.Keys
    && t.root in t.nodes && t'.root in t'.nodes && t.level[t.root] <= t'.level[t'.root]
    && (forall o :: o in t.nodes ==> o in t'.nodes && t'.low[o] == t.low[o] && t'.level[o] == t.level[o])
    && (forall o :: o in t.nodes && o !in changed ==> t'.nodes[o] == t.nodes[o])
  }

  lemma StackOkStays(t: Tree, t': Tree, changed: set<Offset>, stk: seq<Offset>, lev: nat, key: Key)
    requires Grows(t, t', changed) && StackOk(t, stk, lev, key)
    ensures StackOk(t', stk, lev, key)
  {
  }

  lemma CurOkStays(t: Tree, t': Tree, changed: set<Offset>, job: Job, cur: Offset, sep: Key, child: Offset)
    requires Grows(t, t', changed) && CurOk(t, job, cur, sep, child) && cur !in changed
    ensures CurOk(t', job, cur, sep, child)
  {
  }

  /** What a thread knows survives every change outside the nodes it has locked for writing. */
  lemma ThreadOkStays(t: Tree, t': Tree, changed: set<Offset>, th: Thread)
    requires Grows(t, t', changed) && ThreadOk(t, th) && WriteHeld(th) !! changed
    ensures ThreadOk(t', th)
  {
    match th
    case Holding(job, cur, sep, child, stk) =>
      assert cur in WriteHeld(th);
      CurOkStays(t, t', changed, job, cur, sep, child);
      StackOkStays(t, t', changed, stk, t.level[cur], job.key);
    case ParentLocking(job, cur, sep, child, stk, parent) =>
      assert cur in WriteHeld(th);
      CurOkStays(t, t', changed, job, cur, sep, child);
      StackOkStays(t, t', changed, stk, t.level[parent], job.key);
    case AtParent(job, cur, sep, child, stk, parent) =>
      assert cur in WriteHeld(th);
      CurOkStays(t, t', changed, job, cur, sep, child);
      StackOkStays(t, t', changed, stk, t.level[parent], job.key);
    case Crashed(job, cur, sep, child) =>
      assert cur in WriteHeld(th);
      CurOkStays(t, t', changed, job, cur, sep, child);
    case DescendLocking(job, at, stk) => StackOkStays(t, t', changed, stk, t.level[at], job.key);
    case Descending(job, at, stk) => StackOkStays(t, t', changed, stk, t.level[at], job.key);
    case LeafLocking(job, at, stk) => StackOkStays(t, t', changed, stk, t.level[at], job.key);
    case AtLeaf(job, at, stk) => StackOkStays(t, t', changed, stk, t.level[at], job.key);
    case _ =>
  }

  /** Following a child pointer never passes the key. */
  lemma ChildIsNotBeyond(t: Tree, at: Offset, key: Key)
    requires Linked(t) && At(t, at, key) && t.nodes[at].Internal?
    ensures Usable(t.nodes[at]) && var c := t.nodes[at].children[ChildSlot(t.nodes[at].keys, key)];
      At(t, c, key) && t.level[c] + 1 == t.level[at]
  {
    assert NodeOk(t, at);
    var n := t.nodes[at];
    var c := n.children[ChildSlot(n.keys, key)];
    assert c in n.children;
  }

  /** Nor does following a right pointer at a high key that is not beyond it. */
  lemma RightIsNotBeyond(t: Tree, at: Offset, key: Key)
    requires Core(t) && At(t, at, key) && !Below(t.nodes[at], key)
    ensures At(t, t.nodes[at].right, key) && t.level[t.nodes[at].right] == t.level[at]
    ensures t.low[t.nodes[at].right] == t.nodes[at].high
  {
    assert NodeOk(t, at);
  }

  /** What one action of a thread guarantees to itself and to the others. */
  ghost predicate Good(t: Tree, th: Thread, t': Tree, th': Thread) {
    && Grows(t, t', WriteHeld(th)) && ThreadOk(t', th')
    && WriteHeld(th') <= WriteHeld(th) && ReadHeld(th') == {}
    && KeepsPosted(t, t', OpenOf(th), OpenOf(th'))
  }

  /** Whatever was posted is, and so is `gone`; `added` is not yet. */
  ghost predicate KeepsPosted(t: Tree, t': Tree, gone: set<Offset>, added: set<Offset>) {
    forall open :: PostedBut(t, open) ==> PostedBut(t', open - gone + added)
  }

  lemma NodeFacts(t: Tree, o: Offset)
    requires Inv(t) && o in t.nodes
    ensures o in t.level && o in t.low && Shaped(t.nodes[o])
    ensures (t.nodes[o].root <==> o == t.root) && (t.nodes[o].Leaf? <==> t.level[o] == 0)
  {
    assert NodeOk(t, o);
  }

  lemma Keyed(t: Tree)
    requires Inv(t)
    ensures t.low.Keys == t.level.Keys == t.nodes.Keys && t.root in t.nodes
  {
  }

  lemma GrowsSame(t: Tree)
    requires Inv(t)
    ensures Grows(t, t, {})
  {
  }

  lemma ReadingActs(t: Tree, th: Thread, t': Tree, th': Thread)
    requires Inv(t) && ThreadOk(t, th) && th.Reading? && Acts(t, th, t', th')
    ensures Good(t, th, t', th')
  {
    var n := t.nodes[th.at];
    if n.Internal? {
      ChildIsNotBeyond(t, th.at, th.rkey);
    } else if !Below(n, th.rkey) {
      RightIsNotBeyond(t, th.at, th.rkey);
    }
  }

  lemma DescendingActs(t: Tree, th: Thread, t': Tree, th': Thread)
    requires Inv(t) && ThreadOk(t, th) && th.Descending? && Acts(t, th, t', th')
    ensures Good(t, th, t', th')
  {
    hide Tiled, Placed, Rooted, PostedBut;
    GrowsSame(t);
    SameKeepsPosted(t, {});
    assert NodeOk(t, th.at);
    if t.nodes[th.at].Internal? {
      ChildIsNotBeyond(t, th.at, th.job.key);
    }
  }

  lemma PutGrows(t: Tree, o: Offset, n: Node)
    requires t.low.Keys == t.level.Keys == t.nodes.Keys && o in t.nodes && t.root in t.nodes
    ensures Grows(t, Put(t, o, n), {o})
  {
  }

  lemma PutKeepsPosted(t: Tree, o: Offset, n': Node)
    requires o in t.nodes && t.nodes[o].Leaf?
    ensures KeepsPosted(t, Put(t, o, n'), {}, {})
  {
    forall open | PostedBut(t, open) ensures PostedBut(Put(t, o, n'), open - {} + {}) {
      PostedAfterPut(t, o, n', open);
      assert open - {} + {} == open;
    }
  }

  lemma SameKeepsPosted(t: Tree, added: set<Offset>)
    ensures KeepsPosted(t, t, added, added)
  {
  }

  lemma AtLeafInserts(t: Tree, th: Thread)
    requires Inv(t) && ThreadOk(t, th) && th.AtLeaf? && Usable(t.nodes[th.at]) && t.nodes[th.at].Leaf?
    requires Below(t.nodes[th.at], th.job.key) && |t.nodes[th.at].keys| < 2 * L
    ensures Good(t, th, InsertInLeaf(t, th.at, th.job.key, th.job.val), WriteDone(th.job))
  {
    PutIsGood(t, th, AddKeyValue(t.nodes[th.at], th.job.key, th.job.val));
  }

  lemma PutIsGood(t: Tree, th: Thread, n': Node)
    requires t.low.Keys == t.level.Keys == t.nodes.Keys && t.root in t.nodes
    requires th.AtLeaf? && th.at in t.nodes && t.nodes[th.at].Leaf?
    ensures Good(t, th, Put(t, th.at, n'), WriteDone(th.job))
  {
    PutGrows(t, th.at, n');
    PutKeepsPosted(t, th.at, n');
  }

  lemma AtLeafMoves(t: Tree, th: Thread)
    requires Inv(t) && ThreadOk(t, th) && th.AtLeaf? && !Below(t.nodes[th.at], th.job.key)
    ensures Good(t, th, t, LeafLocking(th.job, t.nodes[th.at].right, th.stk))
  {
    GrowsSame(t);
    SameKeepsPosted(t, {});
    RightIsNotBeyond(t, th.at, th.job.key);
  }

  lemma InvalidIsNoNode(t: Tree)
    requires Inv(t)
    ensures INVALID_OFFSET !in t.nodes
  {
  }

  lemma AtLeafMustSplit(t: Tree, th: Thread)
    requires Inv(t) && ThreadOk(t, th) && th.AtLeaf? && Below(t.nodes[th.at], th.job.key)
    requires |t.nodes[th.at].keys| == 2 * L && !HasKey(t.nodes[th.at], th.job.key)
    ensures Good(t, th, t, Holding(th.job, th.at, th.job.key, INVALID_OFFSET, th.stk))
  {
    hide Core, Rooted, Contents;
    GrowsSame(t);
    InvalidIsNoNode(t);
    assert KeepsPosted(t, t, {}, {INVALID_OFFSET});
  }

  lemma AtLeafSwallows(t: Tree, th: Thread)
    requires Inv(t) && th.AtLeaf?
    ensures Good(t, th, t, WriteDone(th.job))
  {
    hide Inv, PostedBut;
    GrowsSame(t);
    SameKeepsPosted(t, {});
  }

  lemma AtLeafActs(t: Tree, th: Thread, t': Tree, th': Thread)
    requires Inv(t) && ThreadOk(t, th) && th.AtLeaf? && Acts(t, th, t', th')
    ensures Good(t, th, t', th')
  {
    hide Core, Rooted, Good, Contents;
    var n, key := t.nodes[th.at], th.job.key;
    NodeFacts(t, th.at);
    if !Below(n, key) {
      AtLeafMoves(t, th);
    } else if |n.keys| < 2 * L {
      AtLeafInserts(t, th);
    } else if HasKey(n, key) {
      assert t' == Put(t, th.at, n) && Put(t, th.at, n) == t;
      AtLeafSwallows(t, th);
    } else {
      AtLeafMustSplit(t, th);
    }
  }

  // ----- splits

  /** The halved file: what is known of it whether or not the node at cur was the root. */
  ghost predicate Halved(t: Tree, cur: Offset, h: Tree) {
    && t.low.Keys == t.nodes.Keys == t.level.Keys && h.low.Keys == h.nodes.Keys == h.level.Keys
    && cur in t.nodes && t.free !in t.nodes && cur != t.free && t.free != INVALID_OFFSET
    && h.nodes.Keys == t.nodes.Keys + {t.free} && h.root == t.root
    && (forall o :: o in t.nodes ==> h.low[o] == t.low[o] && h.level[o] == t.level[o])
    && (forall o :: o in t.nodes && o != cur ==> h.nodes[o] == t.nodes[o])
    && h.level[t.free] == t.level[cur] && h.low[t.free] == h.nodes[cur].high
    && !h.nodes[cur].root && !h.nodes[t.free].root && h.nodes[cur].right == t.free
    && h.nodes[t.free].right == t.nodes[cur].right
    && t.low[cur] < h.nodes[cur].high && Below(t.nodes[cur], h.nodes[cur].high)
  }

  lemma HalvesAreHalved(t: Tree, cur: Offset, l: Node, r: Node)
    requires t.low.Keys == t.level.Keys == t.nodes.Keys && Placed(t) && cur in t.nodes && HalvesFit(t, cur, l, r)
    ensures Halved(t, cur, PutHalves(t, cur, l, r))
  {
    hide Placed, Shaped, Fenced;
    PutHalvesPlaced(t, cur, l, r);
  }

  lemma HalveLeafHalves(t: Tree, job: Job, cur: Offset, sep: Key, child: Offset)
    requires Inv(t) && CurOk(t, job, cur, sep, child) && |t.nodes[cur].keys| == 2 * L && Usable(t.nodes[cur])
    requires t.level[cur] == 0
    ensures var h := Halve(t, job, cur, sep, child);
      Core(h) && Halved(t, cur, h) && KeepsPosted(t, h, {child}, {t.free}) && Contents(h) == Contents(t)[job.key := job.val]
  {
    HalveLeafWrites(t, cur, job.key, job.val);
    HalveLeafFits(t, cur, job.key, job.val);
    var (l, r) := SplitLeaf(t.nodes[cur], t.free, job.key, job.val);
    HalvesAreHalved(t, cur, l, r);
    LeafHalvesKeepPosted(t, cur, l, r);
  }

  lemma LeafHalvesKeepPosted(t: Tree, cur: Offset, l: Node, r: Node)
    requires cur in t.nodes && cur in t.level && t.nodes[cur].Leaf? && Placed(t)
    ensures KeepsPosted(t, PutHalves(t, cur, l, r), {INVALID_OFFSET}, {t.free})
  {
    forall open | PostedBut(t, open) ensures PostedBut(PutHalves(t, cur, l, r), open - {INVALID_OFFSET} + {t.free}) {
      PostedAfterHalves(t, cur, l, r, open);
    }
  }

  lemma HalveInternalHalves(t: Tree, job: Job, cur: Offset, sep: Key, child: Offset)
    requires Inv(t) && CurOk(t, job, cur, sep, child) && |t.nodes[cur].keys| == 2 * L && Usable(t.nodes[cur])
    requires t.level[cur] > 0
    ensures var h := Halve(t, job, cur, sep, child);
      Core(h) && Halved(t, cur, h) && KeepsPosted(t, h, {child}, {t.free}) && Contents(h) == Contents(t)
  {
    HalveInternalKeeps(t, cur, job.key, sep, child);
    HalveInternalFits(t, cur, job.key, sep, child);
    var (l, r) := SplitInternal(t.nodes[cur], t.free, job.key, sep, child);
    HalvesAreHalved(t, cur, l, r);
    InternalHalvesKeepPosted(t, job, cur, sep, child);
  }

  lemma InternalHalvesKeepPosted(t: Tree, job: Job, cur: Offset, sep: Key, child: Offset)
    requires Linked(t) && cur in t.nodes && t.level[cur] > 0 && |t.nodes[cur].keys| == 2 * L && Pending(t, cur, job.key, sep, child)
    requires t.free !in t.nodes
    ensures NodeOk(t, cur) && KeepsPosted(t, HalveInternal(t, cur, job.key, sep, child), {child}, {t.free})
  {
    forall open | PostedBut(t, open)
      ensures NodeOk(t, cur) && PostedBut(HalveInternal(t, cur, job.key, sep, child), open - {child} + {t.free})
    {
      PostedAfterHalveInternal(t, cur, job.key, sep, child, open);
    }
    assert NodeOk(t, cur);
  }

  lemma HalvedGrows(t: Tree, cur: Offset, h: Tree)
    requires Halved(t, cur, h) && t.root in t.nodes
    ensures Grows(t, h, {cur})
  {
  }

  lemma HalvedRooted(t: Tree, cur: Offset, h: Tree)
    requires Halved(t, cur, h) && Rooted(t) && cur != t.root
    ensures Rooted(h)
  {
  }

  lemma HalveHalves(t: Tree, job: Job, cur: Offset, sep: Key, child: Offset)
    requires Inv(t) && CurOk(t, job, cur, sep, child) && |t.nodes[cur].keys| == 2 * L && Usable(t.nodes[cur])
    ensures var h := Halve(t, job, cur, sep, child);
      Core(h) && Halved(t, cur, h) && KeepsPosted(t, h, {child}, {t.free})
  {
    if t.level[cur] == 0 {
      HalveLeafHalves(t, job, cur, sep, child);
    } else {
      HalveInternalHalves(t, job, cur, sep, child);
    }
  }

  lemma HoldingWaits(t: Tree, th: Thread)
    requires Inv(t) && ThreadOk(t, th) && th.Holding? && th.stk != []
    requires |t.nodes[th.cur].keys| == 2 * L && !t.nodes[th.cur].root
    ensures Good(t, th, t, ParentLocking(th.job, th.cur, th.sep, th.child, th.stk[..|th.stk| - 1], th.stk[|th.stk| - 1]))
  {
    hide Core, Rooted, Contents;
    GrowsSame(t);
    SameKeepsPosted(t, {th.child});
    var cur, stk := th.cur, th.stk;
    NodeFacts(t, cur);
    var parent := stk[|stk| - 1];
    assert StackOk(t, stk[..|stk| - 1], t.level[parent], th.job.key);
    StackParentIsBeside(t, parent, cur, th.job.key, th.job.key);
  }

  lemma HoldingCrashes(t: Tree, th: Thread)
    requires Inv(t) && ThreadOk(t, th) && th.Holding? && th.stk == [] && !t.nodes[th.cur].root
    ensures Good(t, th, t, Crashed(th.job, th.cur, th.sep, th.child))
  {
    hide Core, Contents, PostedBut;
    GrowsSame(t);
    SameKeepsPosted(t, {th.child});
    NodeFacts(t, th.cur);
    assert t.level[th.cur] < t.level[t.root];
  }

  /** A node one level up that does not start beyond the key does not start beyond the
      node that covers it. */
  lemma StackParentIsBeside(t: Tree, p: Offset, cur: Offset, key: Key, m: Key)
    requires Core(t) && p in t.nodes && t.low[p] <= m && Covers(t, cur, key) && Covers(t, cur, m)
    requires t.level[p] == t.level[cur] + 1
    ensures t.low[p] <= t.low[cur]
  {
    var first := FirstChild(t, p);
    if first != cur { NextIsBeyond(t, cur, first, key, m); }
  }

  lemma HoldingPosts(t: Tree, th: Thread)
    requires Inv(t) && ThreadOk(t, th) && th.Holding? && |t.nodes[th.cur].keys| < 2 * L
    ensures NodeOk(t, th.cur) && t.nodes[th.cur].Internal?
    ensures Good(t, th, PostChild(t, th.cur, th.sep, th.child), WriteDone(th.job))
  {
    assert NodeOk(t, th.cur);
    PostIsGood(t, th);
  }

  lemma PostIsGood(t: Tree, th: Thread)
    requires t.low.Keys == t.level.Keys == t.nodes.Keys && t.root in t.nodes && th.Holding? && th.cur in t.nodes
    requires t.nodes[th.cur].Internal? && Shaped(t.nodes[th.cur]) && |t.nodes[th.cur].keys| < 2 * L && th.sep !in t.nodes[th.cur].keys
    ensures Good(t, th, PostChild(t, th.cur, th.sep, th.child), WriteDone(th.job))
  {
    PutGrows(t, th.cur, AddKeyChild(t.nodes[th.cur], th.sep, th.child));
    PostKeepsPosted(t, th.cur, th.sep, th.child);
  }

  lemma PostKeepsPosted(t: Tree, p: Offset, sep: Key, child: Offset)
    requires p in t.nodes && t.nodes[p].Internal? && Shaped(t.nodes[p]) && |t.nodes[p].keys| < 2 * L && sep !in t.nodes[p].keys
    ensures KeepsPosted(t, PostChild(t, p, sep, child), {child}, {})
  {
    forall open | PostedBut(t, open) ensures PostedBut(PostChild(t, p, sep, child), open - {child} + {}) {
      PostedAfterPost(t, p, sep, child, open);
      assert open - {child} + {} == open - {child};
    }
  }

  lemma HoldingGrows(t: Tree, th: Thread)
    requires Inv(t) && ThreadOk(t, th) && th.Holding? && th.cur == t.root && Usable(t.nodes[th.cur]) && |t.nodes[th.cur].keys| == 2 * L
    ensures var h := Halve(t, th.job, th.cur, th.sep, th.child);
      th.cur in h.nodes && th.cur in h.level && Good(t, th, GrowRoot(h, th.cur, t.free), WriteDone(th.job))
  {
    var h := Halve(t, th.job, th.cur, th.sep, th.child);
    HalveHalves(t, th.job, th.cur, th.sep, th.child);
    GrownIsGood(t, th, h);
  }

  lemma GrownIsGood(t: Tree, th: Thread, h: Tree)
    requires th.Holding? && th.cur == t.root && h.free !in h.nodes
    requires Halved(t, th.cur, h) && KeepsPosted(t, h, {th.child}, {t.free})
    ensures Good(t, th, GrowRoot(h, th.cur, t.free), WriteDone(th.job))
  {
    hide GrowRoot, PostedBut;
    GrowKeepsPosted(t, h, th.cur, th.child);
    GrownGrows(t, th.cur, h);
  }

  lemma GrownGrows(t: Tree, cur: Offset, h: Tree)
    requires Halved(t, cur, h) && h.free !in h.nodes && cur == t.root
    ensures Grows(t, GrowRoot(h, cur, t.free), {cur})
  {
  }

  lemma GrowKeepsPosted(t: Tree, h: Tree, cur: Offset, child: Offset)
    requires KeepsPosted(t, h, {child}, {t.free}) && cur in h.nodes && cur in h.level && cur == h.root && h.free !in h.nodes
    ensures KeepsPosted(t, GrowRoot(h, cur, t.free), {child}, {})
  {
    forall open | PostedBut(t, open) ensures PostedBut(GrowRoot(h, cur, t.free), open - {child} + {}) {
      PostedAfterRoot(h, cur, t.free, open - {child} + {t.free});
    }
  }

  lemma AtParentMoves(t: Tree, th: Thread)
    requires Inv(t) && ThreadOk(t, th) && th.AtParent? && t.nodes[th.parent].right != INVALID_OFFSET && t.nodes[th.parent].high <= th.sep
    ensures Good(t, th, t, ParentLocking(th.job, th.cur, th.sep, th.child, th.stk, t.nodes[th.parent].right))
  {
    hide Core, Rooted, Contents;
    GrowsSame(t);
    SameKeepsPosted(t, {th.child});
    SepCovered(t, th.job, th.cur, th.sep, th.child);
    RightIsNotBeyond(t, th.parent, th.sep);
    StackParentIsBeside(t, t.nodes[th.parent].right, th.cur, th.job.key, th.sep);
  }

  lemma SepCovered(t: Tree, job: Job, cur: Offset, sep: Key, child: Offset)
    requires t.low.Keys == t.level.Keys == t.nodes.Keys && t.root in t.nodes && CurOk(t, job, cur, sep, child)
    ensures Covers(t, cur, sep)
  {
  }

  /** The parent that the right walk ends at covers the key. */
  lemma ParentFound(t: Tree, th: Thread)
    requires Inv(t) && ThreadOk(t, th) && th.AtParent? && Below(t.nodes[th.parent], th.sep)
    ensures Covers(t, th.parent, th.job.key)
  {
    SepCovered(t, th.job, th.cur, th.sep, th.child);
    ParentCovers(t, th.parent, th.cur, th.sep, th.job.key);
  }

  lemma AtParentSplits(t: Tree, th: Thread)
    requires Inv(t) && ThreadOk(t, th) && th.AtParent? && Below(t.nodes[th.parent], th.sep) && Usable(t.nodes[th.cur])
    ensures var h := Halve(t, th.job, th.cur, th.sep, th.child);
      th.cur in h.nodes && Good(t, th, h, Holding(th.job, th.parent, h.nodes[th.cur].high, t.free, th.stk))
  {
    var h := Halve(t, th.job, th.cur, th.sep, th.child);
    HalveHalves(t, th.job, th.cur, th.sep, th.child);
    ParentFound(t, th);
    SeparatorFits(t, th.parent, th.cur, th.job.key, h.nodes[th.cur].high);
    SplitIsGood(t, th, h);
  }

  lemma SplitIsGood(t: Tree, th: Thread, h: Tree)
    requires t.low.Keys == t.level.Keys == t.nodes.Keys && Rooted(t) && ThreadOk(t, th) && th.AtParent? && th.cur != t.root
    requires Halved(t, th.cur, h) && KeepsPosted(t, h, {th.child}, {t.free})
    requires Covers(t, th.parent, th.job.key)
    requires var m := h.nodes[th.cur].high;
      && t.low[th.parent] < m && Below(t.nodes[th.parent], m) && m !in t.nodes[th.parent].keys
      && forall k :: k in t.nodes[th.parent].keys ==> (k <= th.job.key <==> k <= m)
    ensures Good(t, th, h, Holding(th.job, th.parent, h.nodes[th.cur].high, t.free, th.stk))
  {
    HalvedGrows(t, th.cur, h);
    SplitOff(t, th, h);
  }

  lemma SplitOff(t: Tree, th: Thread, h: Tree)
    requires t.low.Keys == t.level.Keys == t.nodes.Keys && Rooted(t) && ThreadOk(t, th) && th.AtParent?
    requires Halved(t, th.cur, h) && Grows(t, h, {th.cur}) && Covers(t, th.parent, th.job.key)
    requires var m := h.nodes[th.cur].high;
      && t.low[th.parent] < m && Below(t.nodes[th.parent], m) && m !in t.nodes[th.parent].keys
      && forall k :: k in t.nodes[th.parent].keys ==> (k <= th.job.key <==> k <= m)
    ensures ThreadOk(h, Holding(th.job, th.parent, h.nodes[th.cur].high, t.free, th.stk))
  {
    StackOkStays(t, h, {th.cur}, th.stk, t.level[th.parent], th.job.key);
  }

  // ----- all actions

  /** Every action of a thread keeps what the thread knows, and touches only nodes that it
      has locked for writing. */
  lemma ActsAreGood(t: Tree, th: Thread, t': Tree, th': Thread)
    requires Inv(t) && ThreadOk(t, th) && Acts(t, th, t', th')
    ensures Good(t, th, t', th')
  {
    hide Core, Rooted, Good, Contents, Halve, StackOk, HasKey;
    match th
    case Reading(_, _) => ReadingActs(t, th, t', th');
    case Descending(_, _, _) => DescendingActs(t, th, t', th');
    case AtLeaf(_, _, _) => AtLeafActs(t, th, t', th');
    case Holding(_, cur, _, _, stk) =>
      NodeFacts(t, cur);
      if |t.nodes[cur].keys| < 2 * L {
        HoldingPosts(t, th);
      } else if cur == t.root {
        HoldingGrows(t, th);
      } else if stk == [] {
        HoldingCrashes(t, th);
      } else {
        HoldingWaits(t, th);
      }
    case AtParent(_, _, sep, _, _, parent) =>
      if Below(t.nodes[parent], sep) {
        AtParentSplits(t, th);
      } else {
        AtParentMoves(t, th);
      }
  }

  /** The binding is not in any leaf yet. */
  predicate Unwritten(t: Tree, th: Thread) {
    match th
    case DescendLocking(_, _, _) => true
    case Descending(_, _, _) => true
    case LeafLocking(_, _, _) => true
    case AtLeaf(_, _, _) => true
    case Holding(_, cur, _, _, _) => cur in t.level && t.level[cur] == 0
    case ParentLocking(_, cur, _, _, _, _) => cur in t.level && t.level[cur] == 0
    case AtParent(_, cur, _, _, _, _) => cur in t.level && t.level[cur] == 0
    case Crashed(_, cur, _, _) => cur in t.level && t.level[cur] == 0
    case _ => false
  }

  /** The overwrite that is lost: the key is already there, in a full leaf. */
  predicate Swallowed(t: Tree, th: Thread) {
    th.AtLeaf? && th.at in t.nodes && |t.nodes[th.at].keys| == 2 * L && HasKey(t.nodes[th.at], th.job.key)
  }

  /** What a step does to the stored map. */
  ghost predicate Stored(t: Tree, th: Thread, t': Tree, th': Thread) {
    if Unwritten(t, th) && !Unwritten(t', th') && !Swallowed(t, th)
    then Contents(t') == Contents(t)[th.job.key := th.job.val]
    else Contents(t') == Contents(t)
  }

  lemma AtLeafStores(t: Tree, th: Thread, t': Tree, th': Thread)
    requires Inv(t) && ThreadOk(t, th) && th.AtLeaf? && Acts(t, th, t', th')
    ensures Inv(t') && Stored(t, th, t', th')
  {
    hide Core, Rooted, Contents;
    var n, key := t.nodes[th.at], th.job.key;
    NodeFacts(t, th.at);
    if Below(n, key) && |n.keys| < 2 * L {
      InsertInLeafWrites(t, th.at, key, th.job.val);
    } else if Below(n, key) && HasKey(n, key) {
      assert t' == Put(t, th.at, n) && Put(t, th.at, n) == t;
    }
  }

  lemma HalveStores(t: Tree, job: Job, cur: Offset, sep: Key, child: Offset)
    requires Inv(t) && CurOk(t, job, cur, sep, child) && |t.nodes[cur].keys| == 2 * L && Usable(t.nodes[cur])
    ensures Contents(Halve(t, job, cur, sep, child)) == if t.level[cur] == 0 then Contents(t)[job.key := job.val] else Contents(t)
  {
    if t.level[cur] == 0 {
      HalveLeafHalves(t, job, cur, sep, child);
    } else {
      HalveInternalHalves(t, job, cur, sep, child);
    }
  }

  lemma GrowthStores(t: Tree, th: Thread)
    requires Inv(t) && ThreadOk(t, th) && th.Holding? && th.cur == t.root && Usable(t.nodes[th.cur]) && |t.nodes[th.cur].keys| == 2 * L
    ensures var h := Halve(t, th.job, th.cur, th.sep, th.child);
      && th.cur in h.nodes && th.cur in h.level
      && Inv(GrowRoot(h, th.cur, t.free)) && Contents(GrowRoot(h, th.cur, t.free)) == Contents(h)
  {
    var h := Halve(t, th.job, th.cur, th.sep, th.child);
    HalveHalves(t, th.job, th.cur, th.sep, th.child);
    HalvedGrown(t, th.cur, h);
  }

  lemma HalvedGrown(t: Tree, cur: Offset, h: Tree)
    requires Inv(t) && cur == t.root && Core(h) && Halved(t, cur, h)
    ensures Inv(GrowRoot(h, cur, t.free)) && Contents(GrowRoot(h, cur, t.free)) == Contents(h)
  {
    HalvedTop(t, cur, h);
    GrowRootKeeps(h, cur, t.free);
  }

  lemma HalvedTop(t: Tree, cur: Offset, h: Tree)
    requires t.low.Keys == t.level.Keys == t.nodes.Keys && Rooted(t) && cur == t.root && Halved(t, cur, h)
    ensures h.low[cur] == 0 && forall x :: x in h.nodes ==> h.level[x] <= h.level[cur] && !h.nodes[x].root
  {
  }

  lemma HoldingStores(t: Tree, th: Thread, t': Tree, th': Thread)
    requires Inv(t) && ThreadOk(t, th) && th.Holding? && Acts(t, th, t', th')
    ensures Inv(t') && Stored(t, th, t', th')
  {
    hide Core, Rooted, Contents;
    NodeFacts(t, th.cur);
    if |t.nodes[th.cur].keys| < 2 * L {
      PostChildKeeps(t, th.cur, th.job.key, th.sep, th.child);
    } else if th.cur == t.root {
      GrowthStores(t, th);
      HalveStores(t, th.job, th.cur, th.sep, th.child);
    }
  }

  lemma AtParentStores(t: Tree, th: Thread, t': Tree, th': Thread)
    requires Inv(t) && ThreadOk(t, th) && th.AtParent? && Acts(t, th, t', th')
    ensures Inv(t') && Stored(t, th, t', th')
  {
    hide Core, Rooted, Contents, Halve, Halved, StackOk, KeepsPosted;
    NodeFacts(t, th.cur);
    if Below(t.nodes[th.parent], th.sep) {
      HalveStores(t, th.job, th.cur, th.sep, th.child);
      HalveHalves(t, th.job, th.cur, th.sep, th.child);
      HalvedRooted(t, th.cur, t');
    }
  }

  /** Every action keeps the B-link invariant.  The stored map changes at exactly one
      action of each write, and then to map[key := val]. */
  lemma ActsStore(t: Tree, th: Thread, t': Tree, th': Thread)
    requires Inv(t) && ThreadOk(t, th) && Acts(t, th, t', th')
    ensures Inv(t') && Stored(t, th, t', th')
  {
    hide Core, Rooted, Good, Contents;
    match th
    case Reading(_, _) =>
    case Descending(_, _, _) =>
    case AtLeaf(_, _, _) => AtLeafStores(t, th, t', th');
    case Holding(_, _, _, _, _) => HoldingStores(t, th, t', th');
    case AtParent(_, _, _, _, _, _) => AtParentStores(t, th, t', th');
  }
}
