/** The service file as a store of nodes (BLinkTree/src/nodeIO.cpp) and the B-link tree that
    the nodes make up: what is always true of it, also while another thread has split
    a node and not yet posted the separator, and what each change of the file keeps.
 */
module BLinkFile {
  import opened BLinkNode

  /** sizeof(BTNode), packed: five words, an int, 2 * L keys and 2 * L values. */
  const NODE_SIZE: nat := 44 + 48 * L
  const ROOT_OFFSET: Offset := 100

  /** The file maps offsets to node images and stores the free-space pointer and the
      offset of the root.  `low` and `level` belong to the proof: no operation
      reads them.  They record, for each node, where its key range starts and how far it
      is above the leaves; both are fixed when the node is allocated. */
  datatype Tree = Tree(
    nodes: map<Offset, Node>, free: Offset, root: Offset,
    low: map<Offset, Key>, level: map<Offset, nat>)

  /** createEmptyServiceFile */
  function Empty(): Tree {
    Tree(map[ROOT_OFFSET := Leaf(INVALID_OFFSET, 0, true, [], [])], ROOT_OFFSET + NODE_SIZE, ROOT_OFFSET,
         map[ROOT_OFFSET := 0], map[ROOT_OFFSET := 0])
  }

  // ----- the invariant

  ghost predicate NodeOk(t: Tree, o: Offset)
    requires t.low.Keys == t.level.Keys == t.nodes.Keys && o in t.nodes
  {
    var n := t.nodes[o];
    && Shaped(n)
    && (n.Leaf? <==> t.level[o] == 0)
    && (n.right != INVALID_OFFSET ==>
          n.right in t.nodes && t.level[n.right] == t.level[o] && t.low[n.right] == n.high && t.low[o] < n.high)
    && (forall k :: k in n.keys ==> t.low[o] <= k && Below(n, k))
    && (n.Internal? ==>
          && Fenced(n, t.low[o], t.low)
          && (forall k :: k in n.keys ==> t.low[o] < k)
          && forall c :: c in n.children ==> c in t.nodes && t.level[c] + 1 == t.level[o])
  }

  /** The nodes of one level have disjoint key ranges, in the order of their low keys. */
  ghost predicate Tiled(t: Tree)
    requires t.low.Keys == t.level.Keys == t.nodes.Keys
  {
    forall a, b :: a in t.nodes && b in t.nodes && a != b && t.level[a] == t.level[b] && t.low[a] <= t.low[b] ==>
      t.low[a] < t.low[b] && !Below(t.nodes[a], t.low[b])
  }

  /** Node images do not overlap, and the free space is behind all of them. */
  ghost predicate Placed(t: Tree) {
    && (forall o :: o in t.nodes ==> ROOT_OFFSET <= o && o + NODE_SIZE <= t.free)
    && (forall a, b :: a in t.nodes && b in t.nodes && a < b ==> a + NODE_SIZE <= b)
  }

  ghost predicate Linked(t: Tree) {
    && t.low.Keys == t.level.Keys == t.nodes.Keys
    && forall o :: o in t.nodes ==> NodeOk(t, o)
  }

  ghost predicate Core(t: Tree) {
    Linked(t) && Tiled(t) && Placed(t)
  }

  /** The root is alone on the top level, covers every key, and only it has the root flag. */
  ghost predicate Rooted(t: Tree)
    requires t.low.Keys == t.level.Keys == t.nodes.Keys
  {
    && t.root in t.nodes && t.low[t.root] == 0 && t.nodes[t.root].right == INVALID_OFFSET
    && (forall o :: o in t.nodes ==> t.level[o] <= t.level[t.root])
    && (forall o :: o in t.nodes && o != t.root ==> t.level[o] < t.level[t.root])
    && (forall o :: o in t.nodes ==> (t.nodes[o].root <==> o == t.root))
  }

  ghost predicate Inv(t: Tree) {
    Core(t) && Rooted(t)
  }

  /** key belongs to the range of the node at o. */
  ghost predicate Covers(t: Tree, o: Offset, key: Key) {
    o in t.nodes && o in t.low && t.low[o] <= key && Below(t.nodes[o], key)
  }

  lemma EmptyInv()
    ensures Inv(Empty()) && Contents(Empty()) == map[]
  {
    EmptyLinked();
    EmptyStores();
    hide NodeOk, Contents;
  }

  lemma EmptyLinked()
    ensures Linked(Empty())
  {
  }

  lemma EmptyStores()
    ensures Contents(Empty()) == map[]
  {
    assert StoredKeys(Empty()) == {};
  }

  /** Two nodes of one level that cover the same key are the same node. */
  lemma CoverUnique(t: Tree, a: Offset, b: Offset, key: Key)
    requires Core(t) && Covers(t, a, key) && Covers(t, b, key) && t.level[a] == t.level[b]
    ensures a == b
  {
  }

  // ----- the abstract map

  /** The leaf level binds k to v. */
  ghost predicate Maps(t: Tree, k: Key, v: Value) {
    exists o :: o in t.nodes && Stores(t.nodes[o], k, v)
  }

  ghost function StoredKeys(t: Tree): set<Key> {
    set o, i | o in t.nodes && t.nodes[o].Leaf? && 0 <= i < |t.nodes[o].keys| :: t.nodes[o].keys[i]
  }

  ghost function ValueOf(t: Tree, k: Key): Value {
    if exists v: Value :: Maps(t, k, v) then var v: Value :| Maps(t, k, v); v else NO_VALUE
  }

  /** What the file stores: the union of the leaves. */
  ghost function Contents(t: Tree): map<Key, Value> {
    map k | k in StoredKeys(t) :: ValueOf(t, k)
  }

  /** What a lookup in the stored map answers. */
  function Get(m: map<Key, Value>, key: Key): Value {
    if key in m then m[key] else NO_VALUE
  }

  /** A leaf that stores a key covers it. */
  lemma StoredIsCovered(t: Tree, o: Offset, k: Key, v: Value)
    requires Core(t) && o in t.nodes && Stores(t.nodes[o], k, v)
    ensures Covers(t, o, k) && t.level[o] == 0 && k in t.nodes[o].keys
  {
    var n := t.nodes[o];
    var i :| 0 <= i < |n.keys| && i < |n.vals| && n.keys[i] == k && n.vals[i] == v;
    assert NodeOk(t, o) && n.keys[i] in n.keys;
  }

  lemma MapsIsFunctional(t: Tree, k: Key, v: Value, w: Value)
    requires Core(t) && Maps(t, k, v) && Maps(t, k, w)
    ensures v == w
  {
    var a :| a in t.nodes && Stores(t.nodes[a], k, v);
    var b :| b in t.nodes && Stores(t.nodes[b], k, w);
    StoredIsCovered(t, a, k, v);
    StoredIsCovered(t, b, k, w);
    CoverUnique(t, a, b, k);
  }

  lemma ContentsIsMaps(t: Tree, k: Key, v: Value)
    requires Core(t)
    ensures (k in Contents(t) && Contents(t)[k] == v) <==> Maps(t, k, v)
  {
    if k in Contents(t) {
      var o, i :| o in t.nodes && t.nodes[o].Leaf? && 0 <= i < |t.nodes[o].keys| && t.nodes[o].keys[i] == k;
      assert NodeOk(t, o);
      assert Stores(t.nodes[o], k, t.nodes[o].vals[i]);
      assert Maps(t, k, t.nodes[o].vals[i]);
      MapsIsFunctional(t, k, ValueOf(t, k), t.nodes[o].vals[i]);
    }
    if Maps(t, k, v) {
      MapsIsFunctional(t, k, ValueOf(t, k), v);
    }
  }

  /** The leaf that covers a key decides what the file stores for it. */
  lemma LeafDecides(t: Tree, o: Offset, key: Key)
    requires Core(t) && Covers(t, o, key) && t.level[o] == 0
    ensures t.nodes[o].Leaf? && |t.nodes[o].vals| == |t.nodes[o].keys|
    ensures HasKey(t.nodes[o], key) <==> key in Contents(t)
    ensures ValueByKey(t.nodes[o], key) == Get(Contents(t), key)
  {
    var n := t.nodes[o];
    assert NodeOk(t, o);
    ValueByKeyFinds(n, key);
    if HasKey(n, key) {
      assert Maps(t, key, ValueByKey(n, key));
      ContentsIsMaps(t, key, ValueByKey(n, key));
    }
    if key in Contents(t) {
      ContentsIsMaps(t, key, Contents(t)[key]);
      var a :| a in t.nodes && Stores(t.nodes[a], key, Contents(t)[key]);
      StoredIsCovered(t, a, key, Contents(t)[key]);
      CoverUnique(t, a, o, key);
    }
  }

  /** Two files with related bindings store related maps. */
  lemma ContentsUpdated(t: Tree, t': Tree, key: Key, val: Value)
    requires Core(t) && Core(t')
    requires forall k, v :: Maps(t', k, v) <==> if k == key then v == val else Maps(t, k, v)
    ensures Contents(t') == Contents(t)[key := val]
  {
    hide Core, Maps, Contents;
    var m, m' := Contents(t), Contents(t');
    forall k ensures k in m' <==> k in m[key := val] {
      if k in m' { ContentsIsMaps(t', k, m'[k]); ContentsIsMaps(t, k, m'[k]); }
      if k in m { ContentsIsMaps(t, k, m[k]); ContentsIsMaps(t', k, m[k]); }
      ContentsIsMaps(t', key, val);
    }
    forall k | k in m' ensures m'[k] == m[key := val][k] {
      ContentsIsMaps(t', k, m'[k]);
      ContentsIsMaps(t, k, m'[k]);
    }
  }

  lemma ContentsSame(t: Tree, t': Tree)
    requires Core(t) && Core(t')
    requires forall k, v :: Maps(t', k, v) <==> Maps(t, k, v)
    ensures Contents(t') == Contents(t)
  {
    hide Core, Maps, Contents;
    var m, m' := Contents(t), Contents(t');
    forall k ensures k in m' <==> k in m {
      if k in m' { ContentsIsMaps(t', k, m'[k]); ContentsIsMaps(t, k, m'[k]); }
      if k in m { ContentsIsMaps(t, k, m[k]); ContentsIsMaps(t', k, m[k]); }
    }
    forall k | k in m' ensures m'[k] == m[k] {
      ContentsIsMaps(t', k, m'[k]);
      ContentsIsMaps(t, k, m'[k]);
    }
  }

  // ----- changes of the file

  /** writeNode */
  function Put(t: Tree, o: Offset, n: Node): Tree {
    t.(nodes := t.nodes[o := n])
  }

  /** addNode, then writeNode of both halves of the node at o. */
  function PutHalves(t: Tree, o: Offset, l: Node, r: Node): Tree
    requires o in t.level
  {
    Tree(t.nodes[o := l][t.free := r], t.free + NODE_SIZE, t.root,
         t.low[t.free := l.high], t.level[t.free := t.level[o]])
  }

  /** addNode, setRootOffset and writeNode of a new root above two nodes of the old top level. */
  function PutRoot(t: Tree, sep: Key, left: Offset, right: Offset): Tree
    requires left in t.level
  {
    Tree(t.nodes[t.free := Internal(INVALID_OFFSET, 0, true, [sep], [left, right])], t.free + NODE_SIZE, t.free,
         t.low[t.free := 0], t.level[t.free := t.level[left] + 1])
  }

  /** n' may stand in for the node at o: same kind and range, contents in order. */
  ghost predicate Fits(t: Tree, o: Offset, n': Node)
    requires t.low.Keys == t.level.Keys == t.nodes.Keys && o in t.nodes
  {
    var n := t.nodes[o];
    && Shaped(n') && (n'.Leaf? <==> n.Leaf?)
    && (forall k :: k in n'.keys ==> t.low[o] <= k && Below(n, k))
    && (n.Internal? ==>
          && Fenced(n', t.low[o], t.low)
          && (forall k :: k in n'.keys ==> t.low[o] < k)
          && forall c :: c in n'.children ==> c in t.nodes && t.level[c] + 1 == t.level[o])
  }

  lemma PutLinked(t: Tree, o: Offset, n': Node)
    requires Linked(t) && o in t.nodes && Fits(t, o, n')
    requires n'.right == t.nodes[o].right && n'.high == t.nodes[o].high
    ensures Linked(Put(t, o, n'))
  {
    var t' := Put(t, o, n');
    assert NodeOk(t, o);
    assert NodeOk(t', o);
    forall x | x in t'.nodes && x != o ensures NodeOk(t', x) {
      assert NodeOk(t, x);
    }
  }

  lemma PutTiled(t: Tree, o: Offset, n': Node)
    requires t.low.Keys == t.level.Keys == t.nodes.Keys && Tiled(t) && o in t.nodes
    requires n'.right == t.nodes[o].right && n'.high == t.nodes[o].high
    ensures Tiled(Put(t, o, n'))
  {
  }

  lemma PutRooted(t: Tree, o: Offset, n': Node)
    requires t.low.Keys == t.level.Keys == t.nodes.Keys && Rooted(t) && o in t.nodes
    requires n'.right == t.nodes[o].right && n'.root == t.nodes[o].root
    ensures Rooted(Put(t, o, n'))
  {
  }

  lemma FreeIsFresh(t: Tree)
    requires Inv(t)
    ensures t.free !in t.nodes
  {
  }

  lemma PutCore(t: Tree, o: Offset, n': Node)
    requires Core(t) && o in t.nodes && Fits(t, o, n')
    requires n'.right == t.nodes[o].right && n'.high == t.nodes[o].high
    ensures Core(Put(t, o, n'))
  {
    hide NodeOk, Fits, Tiled;
    PutLinked(t, o, n');
    PutTiled(t, o, n');
  }

  /** The halves l and r may take the place of the node at o. */
  ghost predicate HalvesFit(t: Tree, o: Offset, l: Node, r: Node)
    requires t.low.Keys == t.level.Keys == t.nodes.Keys && o in t.nodes
  {
    var n := t.nodes[o];
    && Shaped(l) && Shaped(r) && (l.Leaf? <==> n.Leaf?) && (r.Leaf? <==> n.Leaf?) && !l.root && !r.root
    && l.right == t.free && r.right == n.right && r.high == n.high
    && t.low[o] < l.high && Below(n, l.high)
    && (forall k :: k in l.keys ==> t.low[o] <= k < l.high)
    && (forall k :: k in r.keys ==> l.high <= k && Below(n, k))
    && (n.Internal? ==>
          && Fenced(l, t.low[o], t.low) && Fenced(r, l.high, t.low)
          && (forall k :: k in l.keys ==> t.low[o] < k) && (forall k :: k in r.keys ==> l.high < k)
          && forall c :: c in l.children || c in r.children ==> c in t.nodes && t.level[c] + 1 == t.level[o])
  }

  lemma PutHalvesPlaced(t: Tree, o: Offset, l: Node, r: Node)
    requires Placed(t) && o in t.nodes && o in t.level
    ensures Placed(PutHalves(t, o, l, r)) && t.free !in t.nodes && t.free != INVALID_OFFSET
  {
  }

  lemma PutHalvesTiled(t: Tree, o: Offset, l: Node, r: Node)
    requires t.low.Keys == t.level.Keys == t.nodes.Keys && Tiled(t)
    requires o in t.nodes && HalvesFit(t, o, l, r) && t.free !in t.nodes && t.free != INVALID_OFFSET
    ensures Tiled(PutHalves(t, o, l, r))
  {
    var t' := PutHalves(t, o, l, r);
    forall a, b | a in t'.nodes && b in t'.nodes && a != b && t'.level[a] == t'.level[b] && t'.low[a] <= t'.low[b]
      ensures t'.low[a] < t'.low[b] && !Below(t'.nodes[a], t'.low[b])
    {
      var a0, b0 := if a == t.free then o else a, if b == t.free then o else b;
      if a0 != b0 && t.low[b0] < t.low[a0] { assert Below(t.nodes[b0], t.low[a0]); }
    }
  }

  /** A node that the change leaves alone stays linked. */
  lemma NodeOkStays(t: Tree, t': Tree, x: Offset)
    requires t.low.Keys == t.level.Keys == t.nodes.Keys && t'.low.Keys == t'.level.Keys == t'.nodes.Keys
    requires forall c :: c in t.nodes ==> c in t'.nodes && t'.low[c] == t.low[c] && t'.level[c] == t.level[c]
    requires x in t.nodes && t'.nodes[x] == t.nodes[x] && NodeOk(t, x)
    ensures NodeOk(t', x)
  {
  }

  lemma PutHalvesLinked(t: Tree, o: Offset, l: Node, r: Node)
    requires Linked(t) && o in t.nodes && HalvesFit(t, o, l, r) && t.free !in t.nodes && t.free != INVALID_OFFSET
    ensures Linked(PutHalves(t, o, l, r))
  {
    hide NodeOk, HalvesFit;
    var t' := PutHalves(t, o, l, r);
    HalvesOk(t, o, l, r);
    forall x | x in t.nodes && x != o ensures NodeOk(t', x) { NodeOkStays(t, t', x); }
  }

  lemma HalvesOk(t: Tree, o: Offset, l: Node, r: Node)
    requires t.low.Keys == t.level.Keys == t.nodes.Keys && o in t.nodes && NodeOk(t, o)
    requires HalvesFit(t, o, l, r) && t.free !in t.nodes && t.free != INVALID_OFFSET
    ensures NodeOk(PutHalves(t, o, l, r), o) && NodeOk(PutHalves(t, o, l, r), t.free)
  {
  }

  lemma PutHalvesCore(t: Tree, o: Offset, l: Node, r: Node)
    requires Core(t) && o in t.nodes && HalvesFit(t, o, l, r)
    ensures Core(PutHalves(t, o, l, r)) && t.free !in t.nodes
  {
    hide NodeOk, Tiled, Placed, HalvesFit;
    PutHalvesPlaced(t, o, l, r);
    PutHalvesTiled(t, o, l, r);
    PutHalvesLinked(t, o, l, r);
  }

  lemma PutRootLinked(t: Tree, sep: Key, left: Offset, right: Offset)
    requires Linked(t) && left in t.nodes && right in t.nodes && t.level[left] == t.level[right]
    requires t.low[left] == 0 && t.low[right] == sep && 0 < sep && t.free !in t.nodes
    ensures Linked(PutRoot(t, sep, left, right))
  {
    hide NodeOk;
    var t' := PutRoot(t, sep, left, right);
    forall x | x in t.nodes ensures NodeOk(t', x) { NodeOkStays(t, t', x); }
    NewRootOk(t, sep, left, right);
  }

  lemma NewRootOk(t: Tree, sep: Key, left: Offset, right: Offset)
    requires t.low.Keys == t.level.Keys == t.nodes.Keys
    requires left in t.nodes && right in t.nodes && t.level[left] == t.level[right]
    requires t.low[left] == 0 && t.low[right] == sep && 0 < sep && t.free !in t.nodes
    ensures NodeOk(PutRoot(t, sep, left, right), t.free)
  {
    assert PutRoot(t, sep, left, right).nodes[t.free].children == [left, right];
  }

  lemma PutRootPlaced(t: Tree, sep: Key, left: Offset, right: Offset)
    requires Placed(t) && left in t.level && left in t.nodes
    ensures Placed(PutRoot(t, sep, left, right)) && t.free !in t.nodes
  {
  }

  lemma PutRootTiled(t: Tree, sep: Key, left: Offset, right: Offset)
    requires t.low.Keys == t.level.Keys == t.nodes.Keys && Tiled(t) && left in t.nodes && t.free !in t.nodes
    requires forall o :: o in t.nodes ==> t.level[o] <= t.level[left]
    ensures Tiled(PutRoot(t, sep, left, right))
  {
  }

  lemma PutRootCore(t: Tree, sep: Key, left: Offset, right: Offset)
    requires Core(t) && left in t.nodes && right in t.nodes && t.level[left] == t.level[right]
    requires forall o :: o in t.nodes ==> t.level[o] <= t.level[left]
    requires t.low[left] == 0 && t.low[right] == sep && 0 < sep
    ensures Core(PutRoot(t, sep, left, right)) && t.free !in t.nodes
  {
    hide NodeOk, Tiled, Placed;
    PutRootPlaced(t, sep, left, right);
    PutRootTiled(t, sep, left, right);
    PutRootLinked(t, sep, left, right);
  }
}
