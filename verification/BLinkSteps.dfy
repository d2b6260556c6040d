/** The changes that a write makes to the file, one critical section at a time
    (BLinkTree/src/tree.cpp:175-307): each keeps the B-link invariant, and only the one
    that puts the binding into a leaf changes what the file stores.
 */
module BLinkSteps {
  import opened BLinkNode
  import opened BLinkFile

  // ----- the leaf level

  function InsertInLeaf(t: Tree, o: Offset, key: Key, val: Value): Tree
    requires o in t.nodes && t.nodes[o].Leaf? && |t.nodes[o].vals| == |t.nodes[o].keys|
  {
    Put(t, o, AddKeyValue(t.nodes[o], key, val))
  }

  lemma LeafMaps(t: Tree, t': Tree, o: Offset, key: Key, val: Value, k: Key, v: Value)
    requires Core(t) && Covers(t, o, key) && o in t'.nodes
    requires t'.nodes.Keys - {t.free} == t.nodes.Keys && t.free !in t.nodes
    requires forall x :: x in t.nodes && x != o ==> t'.nodes[x] == t.nodes[x]
    requires t.level[o] == 0
    requires (Stores(t'.nodes[o], k, v) || (t.free in t'.nodes && Stores(t'.nodes[t.free], k, v)))
             <==> if k == key then v == val else Stores(t.nodes[o], k, v)
    ensures Maps(t', k, v) <==> if k == key then v == val else Maps(t, k, v)
  {
    hide NodeOk, Tiled, Placed;
    if Maps(t', k, v) {
      var x :| x in t'.nodes && Stores(t'.nodes[x], k, v);
      if k == key && x != o && x != t.free {
        StoredIsCovered(t, x, k, v);
        CoverUnique(t, x, o, key);
      }
    }
    if k != key && Maps(t, k, v) {
      var x :| x in t.nodes && Stores(t.nodes[x], k, v);
      assert x != o ==> Stores(t'.nodes[x], k, v);
    }
  }

  lemma InsertInLeafKeeps(t: Tree, o: Offset, key: Key, val: Value)
    requires Inv(t) && Covers(t, o, key) && t.level[o] == 0
    requires t.nodes[o].Leaf? && |t.nodes[o].vals| == |t.nodes[o].keys| < 2 * L
    ensures Shaped(t.nodes[o]) && Inv(InsertInLeaf(t, o, key, val)) && t.free !in t.nodes
  {
    hide Tiled, Placed, Rooted, AddKeyValue;
    assert NodeOk(t, o);
    FreeIsFresh(t);
    var n' := AddKeyValue(t.nodes[o], key, val);
    AddKeyValueShape(t.nodes[o], key, val);
    PutCore(t, o, n');
    PutRooted(t, o, n');
  }

  /** Adding a binding to the leaf that covers its key: exactly that binding is new. */
  lemma InsertInLeafWrites(t: Tree, o: Offset, key: Key, val: Value)
    requires Inv(t) && Covers(t, o, key) && t.level[o] == 0
    requires t.nodes[o].Leaf? && |t.nodes[o].vals| == |t.nodes[o].keys| < 2 * L
    ensures Inv(InsertInLeaf(t, o, key, val))
    ensures Contents(InsertInLeaf(t, o, key, val)) == Contents(t)[key := val]
  {
    hide Core, Rooted, Contents, Shaped, AddKeyValue, Stores;
    var t' := InsertInLeaf(t, o, key, val);
    InsertInLeafKeeps(t, o, key, val);
    forall k, v ensures Maps(t', k, v) <==> if k == key then v == val else Maps(t, k, v) {
      AddKeyValueBinds(t.nodes[o], key, val, k, v);
      LeafMaps(t, t', o, key, val, k, v);
    }
    ContentsUpdated(t, t', key, val);
  }

  function HalveLeaf(t: Tree, o: Offset, key: Key, val: Value): Tree
    requires o in t.nodes && o in t.level && t.nodes[o].Leaf? && |t.nodes[o].vals| == |t.nodes[o].keys| > 0
  {
    var (l, r) := SplitLeaf(t.nodes[o], t.free, key, val);
    PutHalves(t, o, l, r)
  }

  lemma HalveLeafFits(t: Tree, o: Offset, key: Key, val: Value)
    requires Core(t) && Covers(t, o, key) && t.level[o] == 0 && |t.nodes[o].keys| == 2 * L && !HasKey(t.nodes[o], key)
    ensures NodeOk(t, o) && var (l, r) := SplitLeaf(t.nodes[o], t.free, key, val); HalvesFit(t, o, l, r)
  {
    assert NodeOk(t, o);
    SplitLeafShape(t.nodes[o], t.free, key, val);
    var n := t.nodes[o];
    assert n.keys[0] in n.keys && n.keys[L] in n.keys;
  }

  lemma LeafHalvesWrite(t: Tree, o: Offset, l: Node, r: Node, key: Key, val: Value)
    requires Core(t) && Covers(t, o, key) && t.level[o] == 0 && HalvesFit(t, o, l, r)
    requires forall k, v :: (Stores(l, k, v) || Stores(r, k, v)) <==> if k == key then v == val else Stores(t.nodes[o], k, v)
    ensures Core(PutHalves(t, o, l, r)) && t.free !in t.nodes
    ensures Contents(PutHalves(t, o, l, r)) == Contents(t)[key := val]
  {
    hide NodeOk, Tiled, Placed, Contents, Shaped, Stores, HalvesFit;
    PutHalvesCore(t, o, l, r);
    var t' := PutHalves(t, o, l, r);
    forall k, v ensures Maps(t', k, v) <==> if k == key then v == val else Maps(t, k, v) {
      LeafMaps(t, t', o, key, val, k, v);
    }
    ContentsUpdated(t, t', key, val);
  }

  /** Splitting a full leaf: the new binding is the only change of what the file stores. */
  lemma HalveLeafWrites(t: Tree, o: Offset, key: Key, val: Value)
    requires Core(t) && Covers(t, o, key) && t.level[o] == 0 && |t.nodes[o].keys| == 2 * L && !HasKey(t.nodes[o], key)
    ensures NodeOk(t, o) && Core(HalveLeaf(t, o, key, val)) && t.free !in t.nodes
    ensures Contents(HalveLeaf(t, o, key, val)) == Contents(t)[key := val]
  {
    HalveLeafFits(t, o, key, val);
    var (l, r) := SplitLeaf(t.nodes[o], t.free, key, val);
    forall k, v
      ensures (Stores(l, k, v) || Stores(r, k, v)) <==> if k == key then v == val else Stores(t.nodes[o], k, v)
    {
      SplitLeafBinds(t.nodes[o], t.free, key, val, k, v);
    }
    LeafHalvesWrite(t, o, l, r, key, val);
  }

  // ----- the levels above

  ghost predicate SameLeaves(t: Tree, t': Tree) {
    && (forall x :: x in t.nodes && t.nodes[x].Leaf? ==> x in t'.nodes && t'.nodes[x] == t.nodes[x])
    && (forall x :: x in t'.nodes && t'.nodes[x].Leaf? ==> x in t.nodes && t'.nodes[x] == t.nodes[x])
  }

  lemma IndexChangeKeepsContents(t: Tree, t': Tree)
    requires Core(t) && Core(t') && SameLeaves(t, t')
    ensures Contents(t') == Contents(t)
  {
    forall k, v ensures Maps(t', k, v) <==> Maps(t, k, v) {
      if Maps(t, k, v) {
        var x :| x in t.nodes && Stores(t.nodes[x], k, v);
        assert Stores(t'.nodes[x], k, v);
      }
      if Maps(t', k, v) {
        var x :| x in t'.nodes && Stores(t'.nodes[x], k, v);
        assert Stores(t.nodes[x], k, v);
      }
    }
    ContentsSame(t, t');
  }

  /** The separator `sep` of the node at `child` is ready to be posted in the node at p,
      for the write of `key`. */
  ghost predicate Pending(t: Tree, p: Offset, key: Key, sep: Key, child: Offset)
    requires t.low.Keys == t.level.Keys == t.nodes.Keys && p in t.nodes
  {
    var n := t.nodes[p];
    && child in t.nodes && t.level[child] + 1 == t.level[p] && t.low[child] == sep
    && t.low[p] < sep && Below(n, sep) && sep !in n.keys
    && forall k :: k in n.keys ==> (k <= key <==> k <= sep)
  }

  function PostChild(t: Tree, p: Offset, sep: Key, child: Offset): Tree
    requires p in t.nodes && t.nodes[p].Internal? && |t.nodes[p].children| == |t.nodes[p].keys| + 1
  {
    Put(t, p, AddKeyChild(t.nodes[p], sep, child))
  }

  lemma PostChildFits(t: Tree, p: Offset, key: Key, sep: Key, child: Offset)
    requires Linked(t) && p in t.nodes && t.level[p] > 0 && |t.nodes[p].keys| < 2 * L && Pending(t, p, key, sep, child)
    ensures NodeOk(t, p) && Fits(t, p, AddKeyChild(t.nodes[p], sep, child))
  {
    assert NodeOk(t, p);
    AddKeyChildShape(t.nodes[p], sep, child);
    AddKeyChildFences(t.nodes[p], sep, child, t.low[p], t.low);
  }

  lemma PostChildSame(t: Tree, p: Offset, sep: Key, child: Offset)
    requires p in t.nodes && t.nodes[p].Internal? && |t.nodes[p].children| == |t.nodes[p].keys| + 1
    ensures SameLeaves(t, PostChild(t, p, sep, child))
  {
  }

  /** Posting a separator keeps the invariant and everything the file stores. */
  lemma PostChildKeeps(t: Tree, p: Offset, key: Key, sep: Key, child: Offset)
    requires Inv(t) && p in t.nodes && t.level[p] > 0 && |t.nodes[p].keys| < 2 * L && Pending(t, p, key, sep, child)
    ensures NodeOk(t, p) && Inv(PostChild(t, p, sep, child))
    ensures Contents(PostChild(t, p, sep, child)) == Contents(t)
  {
    PostChildFits(t, p, key, sep, child);
    assert t.nodes[p].Internal? && |t.nodes[p].children| == |t.nodes[p].keys| + 1;
    hide NodeOk, Tiled, Placed, Rooted, Fits, Shaped, Contents, Pending;
    var n' := AddKeyChild(t.nodes[p], sep, child);
    PutCore(t, p, n');
    PutRooted(t, p, n');
    PostChildSame(t, p, sep, child);
    IndexChangeKeepsContents(t, PostChild(t, p, sep, child));
  }

  function HalveInternal(t: Tree, o: Offset, key: Key, sep: Key, child: Offset): Tree
    requires o in t.nodes && o in t.level && t.nodes[o].Internal?
    requires |t.nodes[o].children| == |t.nodes[o].keys| + 1 && |t.nodes[o].keys| > 0
  {
    var (l, r) := SplitInternal(t.nodes[o], t.free, key, sep, child);
    PutHalves(t, o, l, r)
  }

  lemma HalveInternalFits(t: Tree, o: Offset, key: Key, sep: Key, child: Offset)
    requires Linked(t) && o in t.nodes && t.level[o] > 0 && |t.nodes[o].keys| == 2 * L && Pending(t, o, key, sep, child)
    ensures NodeOk(t, o) && var (l, r) := SplitInternal(t.nodes[o], t.free, key, sep, child); HalvesFit(t, o, l, r)
  {
    assert NodeOk(t, o);
    var n := t.nodes[o];
    assert n.keys[0] in n.keys && n.keys[L] in n.keys;
    SplitInternalShape(n, t.free, key, sep, child);
    SplitInternalFenced(n, t.free, key, sep, child, t.low[o], t.low);
  }

  lemma HalvesSameLeaves(t: Tree, o: Offset, l: Node, r: Node)
    requires Linked(t) && o in t.nodes && t.level[o] > 0 && l.Internal? && r.Internal? && t.free !in t.nodes
    ensures SameLeaves(t, PutHalves(t, o, l, r))
  {
    assert NodeOk(t, o);
  }

  lemma InternalHalvesKeep(t: Tree, o: Offset, l: Node, r: Node)
    requires Core(t) && o in t.nodes && t.level[o] > 0 && HalvesFit(t, o, l, r)
    ensures Core(PutHalves(t, o, l, r)) && t.free !in t.nodes
    ensures Contents(PutHalves(t, o, l, r)) == Contents(t)
  {
    PutHalvesCore(t, o, l, r);
    assert SameLeaves(t, PutHalves(t, o, l, r)) by { HalvesSameLeaves(t, o, l, r); }
    IndexChangeKeepsContents(t, PutHalves(t, o, l, r));
  }

  /** Splitting a full internal node changes nothing that the file stores. */
  lemma HalveInternalKeeps(t: Tree, o: Offset, key: Key, sep: Key, child: Offset)
    requires Core(t) && o in t.nodes && t.level[o] > 0 && |t.nodes[o].keys| == 2 * L && Pending(t, o, key, sep, child)
    ensures NodeOk(t, o) && Core(HalveInternal(t, o, key, sep, child)) && t.free !in t.nodes
    ensures Contents(HalveInternal(t, o, key, sep, child)) == Contents(t)
  {
    HalveInternalFits(t, o, key, sep, child);
    var (l, r) := SplitInternal(t.nodes[o], t.free, key, sep, child);
    InternalHalvesKeep(t, o, l, r);
  }

  // ----- the root

  /** The file after the old root at o has been halved into t': a new root above both halves. */
  function GrowRoot(t': Tree, o: Offset, r: Offset): Tree
    requires o in t'.nodes && o in t'.level
  {
    PutRoot(t', t'.nodes[o].high, o, r)
  }

  /** A root that split gets a new root above it; the file stores the same. */
  lemma GrowRootKeeps(t': Tree, o: Offset, r: Offset)
    requires Core(t') && o in t'.nodes && r in t'.nodes && t'.nodes[o].right == r && r != o && r != INVALID_OFFSET
    requires t'.low[o] == 0
    requires forall x :: x in t'.nodes ==> t'.level[x] <= t'.level[o] && !t'.nodes[x].root
    ensures Inv(GrowRoot(t', o, r)) && t'.free !in t'.nodes
    ensures Contents(GrowRoot(t', o, r)) == Contents(t')
  {
    hide NodeOk, Tiled, Placed, Rooted, Contents;
    RightFacts(t', o);
    PutRootCore(t', t'.nodes[o].high, o, r);
    GrownRooted(t', o, r);
    assert SameLeaves(t', GrowRoot(t', o, r));
    IndexChangeKeepsContents(t', GrowRoot(t', o, r));
  }

  lemma RightFacts(t: Tree, o: Offset)
    requires Linked(t) && o in t.nodes && t.nodes[o].right != INVALID_OFFSET
    ensures var r := t.nodes[o].right;
      r in t.nodes && t.level[r] == t.level[o] && t.low[r] == t.nodes[o].high && t.low[o] < t.nodes[o].high
  {
    assert NodeOk(t, o);
  }

  lemma GrownRooted(t': Tree, o: Offset, r: Offset)
    requires t'.low.Keys == t'.level.Keys == t'.nodes.Keys && o in t'.nodes && t'.free !in t'.nodes
    requires forall x :: x in t'.nodes ==> t'.level[x] <= t'.level[o] && !t'.nodes[x].root
    ensures Rooted(GrowRoot(t', o, r))
  {
  }
}
