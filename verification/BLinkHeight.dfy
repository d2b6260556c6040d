/** How much a B-link tree of a given height stores: splits leave nodes at least half full
    (BLinkTree/src/node.c:90-118), so the number of keys grows exponentially with the height.
 */
module BLinkHeight {
  import Common
  import opened BLinkNode
  import opened BLinkFile
  import opened BLinkSteps
  import opened BLinkParents
  import opened BLinkThreads
  import opened BLinkSafety
  import opened BLinkRuns

  /** Apart from the root, leaves hold at least L keys and internal nodes at least L children. */
  ghost predicate Filled(t: Tree) {
    forall o :: o in t.nodes && o != t.root ==> FilledNode(t.nodes[o])
  }

  ghost predicate FilledNode(n: Node) {
    if n.Leaf? then |n.keys| >= L else |n.children| >= L
  }

  lemma HalvesFilled(t: Tree, job: Job, cur: Offset, sep: Key, child: Offset)
    requires Inv(t) && CurOk(t, job, cur, sep, child) && |t.nodes[cur].keys| == 2 * L && Usable(t.nodes[cur])
    ensures var h := Halve(t, job, cur, sep, child);
      cur in h.nodes && t.free in h.nodes && FilledNode(h.nodes[cur]) && FilledNode(h.nodes[t.free])
  {
    hide Tiled, Placed, Contents;
    var n := t.nodes[cur];
    assert NodeOk(t, cur);
    FreeIsFresh(t);
    if n.Leaf? {
      SplitLeafShape(n, t.free, job.key, job.val);
    } else {
      assert n.keys[L] in n.keys;
      SplitInternalShape(n, t.free, job.key, sep, child);
    }
  }

  /** Every action of every thread keeps the nodes filled. */
  lemma ActsKeepFilled(t: Tree, th: Thread, t': Tree, th': Thread)
    requires Inv(t) && ThreadOk(t, th) && Acts(t, th, t', th') && Filled(t)
    ensures Filled(t')
  {
    hide Core, Rooted, Contents;
    match th
    case Reading(_, _) =>
    case Descending(_, _, _) =>
    case AtLeaf(job, at, _) =>
      NodeFacts(t, at);
      AddKeyValueShape(t.nodes[at], job.key, job.val);
    case Holding(job, cur, sep, child, _) =>
      NodeFacts(t, cur);
      if |t.nodes[cur].keys| == 2 * L && cur == t.root {
        RootHalvesFilled(t, th);
      }
    case AtParent(job, cur, sep, child, _, parent) =>
      if Below(t.nodes[parent], sep) {
        HalvesFilled(t, job, cur, sep, child);
        HalveHalves(t, job, cur, sep, child);
      }
  }

  lemma RootHalvesFilled(t: Tree, th: Thread)
    requires Inv(t) && ThreadOk(t, th) && th.Holding? && th.cur == t.root && |t.nodes[th.cur].keys| == 2 * L && Filled(t)
    requires Usable(t.nodes[th.cur])
    ensures var h := Halve(t, th.job, th.cur, th.sep, th.child);
      th.cur in h.nodes && th.cur in h.level && Filled(GrowRoot(h, th.cur, t.free))
  {
    hide Core, Rooted, Contents, Halve, KeepsPosted, FilledNode;
    HalvesFilled(t, th.job, th.cur, th.sep, th.child);
    HalveHalves(t, th.job, th.cur, th.sep, th.child);
    var h := Halve(t, th.job, th.cur, th.sep, th.child);
    forall x | x in h.nodes ensures FilledNode(h.nodes[x]) {
      if x != th.cur && x != t.free { assert x in t.nodes && h.nodes[x] == t.nodes[x]; }
    }
  }

  lemma {:induction false} RunFilled(b: seq<State>, who: seq<nat>, k: nat)
    requires Run(b, who) && k <= |who|
    ensures Filled(b[k].t)
  {
    hide Safe, Contents, Acts, Filled;
    if k == 0 {
      EmptyFilled();
    } else {
      RunFilled(b, who, k - 1);
      RunStores(b, who, k - 1);
      assert Next(b[k - 1], who[k - 1], b[k - 1 + 1]);
      NextKeepsFilled(b[k - 1], who[k - 1], b[k]);
    }
  }

  lemma EmptyFilled()
    ensures Filled(Empty())
  {
  }

  lemma NextKeepsFilled(s: State, i: nat, s': State)
    requires Safe(s) && Next(s, i, s') && Filled(s.t)
    ensures Filled(s'.t)
  {
    hide Inv, ThreadOk, PostedBut, Exclusive, Acts, Filled;
    if Acts(s.t, s.threads[i], s'.t, s'.threads[i]) {
      ActsKeepFilled(s.t, s.threads[i], s'.t, s'.threads[i]);
    }
  }

  // ----- counting keys

  function Power(b: nat, e: nat): nat {
    if e == 0 then 1 else b * Power(b, e - 1)
  }

  ghost function KeySet(keys: seq<Key>): set<Key> {
    set k | k in keys
  }

  /** The keys in the leaves below o. */
  ghost function Under(t: Tree, o: Offset): set<Key>
    requires Inv(t) && o in t.nodes
    decreases t.level[o], 1
  {
    assert NodeOk(t, o);
    if t.nodes[o].Leaf? then KeySet(t.nodes[o].keys) else UnderFirst(t, o, |t.nodes[o].children|)
  }

  ghost function UnderFirst(t: Tree, o: Offset, n: nat): set<Key>
    requires Inv(t) && o in t.nodes && t.nodes[o].Internal? && n <= |t.nodes[o].children|
    decreases t.level[o], 0, n
  {
    assert NodeOk(t, o);
    if n == 0 then {}
    else
      assert t.nodes[o].children[n - 1] in t.nodes[o].children;
      UnderFirst(t, o, n - 1) + Under(t, t.nodes[o].children[n - 1])
  }

  lemma LastIsGreatest(keys: seq<Key>)
    requires Sorted(keys) && keys != []
    ensures Sorted(keys[..|keys| - 1]) && keys[|keys| - 1] !in keys[..|keys| - 1]
  {
  }

  lemma {:induction false} SortedKeysCount(keys: seq<Key>)
    requires Sorted(keys)
    ensures |KeySet(keys)| == |keys|
  {
    hide Sorted;
    if keys == [] {
      assert KeySet(keys) == {};
    } else {
      LastIsGreatest(keys);
      var init, last := keys[..|keys| - 1], keys[|keys| - 1];
      SortedKeysCount(init);
      assert keys == init + [last];
      assert last !in KeySet(init) && KeySet(keys) == KeySet(init) + {last};
    }
  }

  lemma {:induction false} UnderFirstMember(t: Tree, o: Offset, n: nat, k: Key) returns (i: nat)
    requires Inv(t) && o in t.nodes && t.nodes[o].Internal? && n <= |t.nodes[o].children| && k in UnderFirst(t, o, n)
    ensures i < n && t.nodes[o].children[i] in t.nodes && k in Under(t, t.nodes[o].children[i])
    decreases n
  {
    hide Core, Rooted, Under;
    ChildFacts(t, o, n - 1);
    if k in UnderFirst(t, o, n - 1) {
      i := UnderFirstMember(t, o, n - 1, k);
    } else {
      i := n - 1;
    }
  }

  /** The keys below a node are in its range, and are stored. */
  lemma {:induction false} UnderIsStored(t: Tree, o: Offset, k: Key)
    requires Inv(t) && o in t.nodes && k in Under(t, o)
    ensures Covers(t, o, k) && k in Contents(t)
    decreases t.level[o]
  {
    hide Tiled, Placed, Rooted, Contents;
    assert NodeOk(t, o);
    if t.nodes[o].Leaf? {
      LeafKeyStored(t, o, k);
    } else {
      var i := UnderFirstMember(t, o, |t.nodes[o].children|, k);
      var c := t.nodes[o].children[i];
      assert c in t.nodes[o].children;
      UnderIsStored(t, c, k);
      ChildCovered(t, o, c);
      ParentCovers(t, o, c, t.low[c], k);
    }
  }

  lemma LeafKeyStored(t: Tree, o: Offset, k: Key)
    requires Inv(t) && o in t.nodes && t.nodes[o].Leaf? && k in t.nodes[o].keys
    ensures k in Contents(t) && Covers(t, o, k)
  {
    assert NodeOk(t, o);
    HasKeyIsMembership(t.nodes[o], k);
    LeafDecides(t, o, k);
  }

  lemma ChildrenApart(t: Tree, o: Offset, i: nat, j: nat, k: Key)
    requires Inv(t) && o in t.nodes && t.nodes[o].Internal? && i < j < |t.nodes[o].children|
    requires Covers(t, t.nodes[o].children[i], k)
    ensures !Covers(t, t.nodes[o].children[j], k)
  {
    assert NodeOk(t, o);
    var n := t.nodes[o];
    assert n.children[i] in n.children && n.children[j] in n.children;
    assert n.keys[j - 1] in n.keys && (i > 0 ==> n.keys[i - 1] < n.keys[j - 1]);
    assert t.low[n.children[i]] < t.low[n.children[j]];
    if Covers(t, n.children[j], k) { CoverUnique(t, n.children[i], n.children[j], k); }
  }

  lemma UnderApart(t: Tree, o: Offset, n: nat)
    requires Inv(t) && o in t.nodes && t.nodes[o].Internal? && n < |t.nodes[o].children|
    ensures t.nodes[o].children[n] in t.nodes && UnderFirst(t, o, n) !! Under(t, t.nodes[o].children[n])
  {
    hide Tiled, Placed, Rooted, Contents;
    assert NodeOk(t, o) && t.nodes[o].children[n] in t.nodes[o].children;
    forall k | k in UnderFirst(t, o, n) ensures k !in Under(t, t.nodes[o].children[n]) {
      var i := UnderFirstMember(t, o, n, k);
      UnderIsStored(t, t.nodes[o].children[i], k);
      if k in Under(t, t.nodes[o].children[n]) {
        UnderIsStored(t, t.nodes[o].children[n], k);
        ChildrenApart(t, o, i, n, k);
      }
    }
  }

  lemma ChildFacts(t: Tree, o: Offset, i: nat)
    requires Inv(t) && o in t.nodes && t.nodes[o].Internal? && i < |t.nodes[o].children|
    ensures var c := t.nodes[o].children[i];
      c in t.nodes && c in t.level && o in t.level && t.level[c] + 1 == t.level[o] && c != t.root
  {
    assert NodeOk(t, o) && t.nodes[o].children[i] in t.nodes[o].children;
  }

  lemma Times(n: nat, m: nat, p: nat)
    ensures n >= m ==> n * p >= m * p
    ensures (n + 1) * p == n * p + p
  {
  }

  lemma {:induction false} UnderFirstSize(t: Tree, o: Offset, n: nat)
    requires Inv(t) && Filled(t) && o in t.nodes && t.nodes[o].Internal? && n <= |t.nodes[o].children|
    ensures |UnderFirst(t, o, n)| >= n * Power(L, t.level[o])
    decreases t.level[o], 0, n
  {
    hide Inv, Contents, Filled, Under;
    NodeFacts(t, o);
    if n > 0 {
      var c := t.nodes[o].children[n - 1];
      ChildFacts(t, o, n - 1);
      UnderFirstSize(t, o, n - 1);
      UnderSize(t, c);
      UnderApart(t, o, n - 1);
      Times(n - 1, 0, Power(L, t.level[o]));
    }
  }

  /** A node below the root has at least L to the power of its level plus one keys below it. */
  lemma {:induction false} UnderSize(t: Tree, o: Offset)
    requires Inv(t) && Filled(t) && o in t.nodes && o != t.root
    ensures |Under(t, o)| >= Power(L, t.level[o] + 1)
    decreases t.level[o], 1
  {
    hide Core, Rooted, Contents, UnderFirst;
    var n := t.nodes[o];
    NodeFacts(t, o);
    assert FilledNode(n);
    if n.Leaf? {
      SortedKeysCount(n.keys);
      assert Under(t, o) == KeySet(n.keys);
      assert Power(L, 1) == L * Power(L, 0) == L;
    } else {
      UnderFirstSize(t, o, |n.children|);
      assert Under(t, o) == UnderFirst(t, o, |n.children|);
      Times(|n.children|, L, Power(L, t.level[o]));
      assert Power(L, t.level[o] + 1) == L * Power(L, t.level[o]);
    }
  }

  /** A tree with h levels above the leaves stores at least 2 * L^h keys, in every state
      of every run: whether or not all separators are posted. */
  lemma HeightBound(t: Tree)
    requires Inv(t) && Filled(t) && t.level[t.root] >= 1
    ensures |Contents(t)| >= 2 * Power(L, t.level[t.root])
  {
    hide Tiled, Placed, Contents, Filled;
    var o := t.root;
    assert NodeOk(t, o);
    UnderFirstSize(t, o, |t.nodes[o].children|);
    Times(|t.nodes[o].children|, 2, Power(L, t.level[o]));
    forall k | k in Under(t, o) ensures k in Contents(t).Keys {
      UnderIsStored(t, o, k);
    }
    Common.SubsetSize(Under(t, o), Contents(t).Keys);
  }
}
