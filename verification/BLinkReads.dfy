/** The end of a read as it is written (BLinkTree/src/tree.cpp:98-115): it moves right on high < key
    only, and then compares the slot behind the last key as well (BLinkTree/src/node.c:49). The two
    deviations from what high_key and key_buff_size mean can make up for each other.
 */
module BLinkReads {
  import opened BLinkNode
  import opened BLinkFile
  import opened BLinkThreads
  import opened BLinkSafety
  import opened BLinkBuffer

  /** The loop of `read` ends at this leaf. */
  predicate StopsAsWritten(n: Node, key: Key) {
    n.right == INVALID_OFFSET || !(n.high < key)
  }

  /** The leaf that a reader holds in its buffer gives what the tree stores exactly if
      -- within the leaf's range -- no stale slot answers, or
      -- for the leaf's high key -- the stale slot answers what the next leaf would. */
  lemma ReadAsWritten(t: Tree, at: Offset, key: Key, buffer: BTNode)
    requires Inv(t) && at in t.nodes && at in t.low && t.low[at] <= key && t.nodes[at].Leaf?
    requires StopsAsWritten(t.nodes[at], key)
    requires buffer.Valid() && buffer.View() == t.nodes[at]
    ensures buffer.leafFlag
    ensures Below(t.nodes[at], key) ==>
              (buffer.Lookup(key) == Get(Contents(t), key) <==> !(buffer.StaleHit(key) && buffer.SlotBehind() != NO_VALUE))
    ensures !Below(t.nodes[at], key) ==>
              var next := t.nodes[at].right;
              && next in t.nodes && t.nodes[next].Leaf? && Usable(t.nodes[next])
              && (buffer.Lookup(key) == Get(Contents(t), key) <==>
                  (if buffer.StaleHit(key) then buffer.SlotBehind() else NO_VALUE) == ValueByKey(t.nodes[next], key))
  {
    hide Contents, Tiled, Placed, Rooted, BTNode.StaleHit, BTNode.SlotBehind;
    NodeFacts(t, at);
    assert NodeOk(t, at);
    if Below(t.nodes[at], key) {
      LeafDecides(t, at, key);
      OwnKeyIsFresh(buffer, key);
    } else {
      var next := t.nodes[at].right;
      assert NodeOk(t, next);
      LeafDecides(t, next, key);
      HasKeyIsMembership(t.nodes[at], key);
    }
  }

  /** A key that the node holds is found before any stale slot. */
  lemma OwnKeyIsFresh(buffer: BTNode, key: Key)
    requires buffer.Valid()
    ensures HasKey(buffer.View(), key) ==> !buffer.StaleHit(key)
  {
  }

  /** The slot behind the last key decides the lookup of a key above all others. */
  lemma LookupBehind(node: BTNode, key: Key)
    requires node.Valid() && node.leafFlag && node.keyBuffSize < 2 * L
    requires forall k :: k in node.View().keys ==> k < key
    ensures node.Lookup(key) == if node.keyBuff[node.keyBuffSize] == key then node.valueBuff[node.keyBuffSize] else NO_VALUE
  {
    var keys := node.View().keys;
    forall j | 0 <= j < |keys| ensures keys[j] < key { assert keys[j] in keys; }
  }

  /** Right after the split of a full leaf, its high key still stands behind its last key: the lookup
      in the left leaf gives what the right leaf stores. */
  method LookupAfterSplit(node: BTNode, other: Offset) returns (newRight: BTNode, v: Value)
    requires node.Valid() && Sorted(node.View().keys) && node.leafFlag && node.keyBuffSize == 2 * L
    modifies node
    ensures node.Valid() && node.leafFlag && newRight.Valid() && newRight.leafFlag
    ensures node.right == other && node.View() == Split(old(node.View()), other).0
    ensures node.highKey == node.keyBuff[L] && node.keyBuff[..] == old(node.keyBuff[..])
    ensures v == ValueByKey(newRight.View(), node.highKey) == node.valueBuff[L]
  {
    hide BTNode.StaleHit, BTNode.Lookup, RightHalf;
    ghost var n, junk := node.View(), [];
    HalfFacts(n, other);
    newRight, junk := node.Split(other);
    LeafHalf(n, junk);
    LookupBehind(node, node.highKey);
    v := node.ValueByKey(node.highKey);
  }

  /** One more insertion below the high key shifts the slot, and the lookup gives nothing. */
  method LookupAfterInsert(node: BTNode, key: Key, val: Value) returns (v: Value)
    requires node.Valid() && Sorted(node.View().keys) && node.leafFlag && node.keyBuffSize == L
    requires node.highKey == node.keyBuff[L] < node.keyBuff[L + 1] && key < node.highKey
    requires !HasKey(node.View(), key) && forall k :: k in node.View().keys ==> k < node.highKey
    modifies node, node.keyBuff, node.valueBuff
    ensures node.Valid() && node.highKey == old(node.highKey)
    ensures v == NO_VALUE
  {
    hide BTNode.StaleHit, BTNode.Lookup;
    ghost var n := node.View();
    AddKeyValueShape(n, key, val);
    node.AddKeyValue(key, val);
    LookupBehind(node, node.highKey);
    v := node.ValueByKey(node.highKey);
  }

  lemma LeafHalf(n: Node, junk: seq<Offset>)
    requires n.Leaf? && |n.keys| > 0 && |n.vals| == |n.keys|
    ensures RightHalf(n, junk).Leaf? && forall other :: RightHalf(n, junk) == Split(n, other).1
  {
  }

  lemma HalfFacts(n: Node, other: Offset)
    requires n.Leaf? && Shaped(n) && |n.keys| == 2 * L
    ensures var (l, r) := Split(n, other);
      && (forall k :: k in l.keys ==> k < n.keys[L])
      && HasKey(r, n.keys[L]) && ValueByKey(r, n.keys[L]) == n.vals[L]
  {
    SplitLeafHalves(n, other);
    assert Split(n, other).1.keys[0] == n.keys[L];
  }

  // ----- an internal node

  /** The slot behind the last key decides the child of a key above all others: the last one, or the
      word behind it. */
  lemma ChildBehind(node: BTNode, key: Key)
    requires node.Valid() && !node.leafFlag && node.keyBuffSize < 2 * L
    requires forall k :: k in node.View().keys ==> k < key
    ensures node.ChildLookup(key) ==
            node.nodeBuff[if node.keyBuff[node.keyBuffSize] == key then node.keyBuffSize + 1 else node.keyBuffSize]
  {
    var keys := node.View().keys;
    forall j | 0 <= j < |keys| ensures keys[j] < key { assert keys[j] in keys; }
    assert Fgoe(keys, key) == |keys|;
  }

  /** Right after the split of a full internal node, its high key still stands behind its last key, and
      the right half's first child behind its last child: the lookup of the high key in the left
      half leads to where it belongs. */
  method ChildAfterSplit(node: BTNode, other: Offset) returns (newRight: BTNode, child: Offset)
    requires node.Valid() && Sorted(node.View().keys) && !node.leafFlag && node.keyBuffSize == 2 * L
    modifies node
    ensures node.Valid() && !node.leafFlag && newRight.Valid() && !newRight.leafFlag
    ensures node.right == other && node.View() == Split(old(node.View()), other).0
    ensures node.highKey == node.keyBuff[L] && node.StaleHit(node.highKey)
    ensures child == Split(old(node.View()), other).1.children[0] == newRight.View().children[0]
  {
    hide BTNode.StaleHit, BTNode.ChildLookup, Copied;
    ghost var n, junk := node.View(), [];
    InternalHalfFacts(n, other);
    newRight, junk := node.Split(other);
    ChildBehind(node, node.highKey);
    StaleAtHigh(node);
    FirstChildCopied(n, other, junk);
    child := node.ChildByKey(node.highKey);
  }

  lemma StaleAtHigh(node: BTNode)
    requires node.Valid() && node.keyBuffSize < 2 * L && node.keyBuff[node.keyBuffSize] == node.highKey
    requires forall k :: k in node.View().keys ==> k < node.highKey
    ensures node.StaleHit(node.highKey)
  {
    var keys := node.View().keys;
    forall j | 0 <= j < |keys| ensures keys[j] < node.highKey { assert keys[j] in keys; }
    assert Fgoe(keys, node.highKey) == |keys|;
  }

  lemma InternalHalfFacts(n: Node, other: Offset)
    requires n.Internal? && Shaped(n) && |n.keys| == 2 * L
    ensures var (l, r) := Split(n, other);
      && (forall k :: k in l.keys ==> k < n.keys[L]) && |l.keys| == L && l.high == n.keys[L]
      && |r.children| == L && r.children[0] == n.children[L + 1]
  {
    SplitInternalHalves(n, other);
  }

  lemma FirstChildCopied(n: Node, other: Offset, junk: seq<Offset>)
    requires n.Internal? && Shaped(n) && |n.keys| == 2 * L && |junk| == 4 * L
    ensures RightHalf(n, junk).Internal? && |RightHalf(n, junk).children| == L
    ensures RightHalf(n, junk).children[0] == Split(n, other).1.children[0]
  {
  }
}
