/** How a split node and the level above it fit together: the node that the writer finds
    by its stack and right walk (BLinkTree/src/tree.cpp:201-219) is the parent of the split node,
    and the separator belongs strictly inside the slot of that child.
 */
module BLinkParents {
  import opened BLinkNode
  import opened BLinkFile
  import opened BLinkSteps

  /** Some internal node points down to c. */
  ghost predicate Posted(t: Tree, c: Offset) {
    exists p :: p in t.nodes && ChildOf(t, p, c)
  }

  ghost predicate ChildOf(t: Tree, p: Offset, c: Offset)
    requires p in t.nodes
  {
    t.nodes[p].Internal? && c in t.nodes[p].children
  }

  /** Apart from those in `open`, every node below the root has been posted. */
  ghost predicate PostedBut(t: Tree, open: set<Offset>) {
    forall c :: c in t.nodes && c != t.root && c !in open ==> Posted(t, c)
  }

  /** A separator is the low key of a child. */
  lemma SeparatorIsLow(t: Tree, p: Offset, k: Key) returns (c: Offset)
    requires Linked(t) && p in t.nodes && t.level[p] > 0 && k in t.nodes[p].keys
    ensures c in t.nodes && ChildOf(t, p, c) && t.level[c] + 1 == t.level[p] && t.low[c] == k
  {
    assert NodeOk(t, p);
    var n := t.nodes[p];
    var i :| 0 <= i < |n.keys| && n.keys[i] == k;
    c := n.children[i + 1];
    assert c in n.children;
  }

  lemma FirstChild(t: Tree, p: Offset) returns (c: Offset)
    requires Linked(t) && p in t.nodes && t.level[p] > 0
    ensures c in t.nodes && ChildOf(t, p, c) && t.level[c] + 1 == t.level[p] && t.low[c] == t.low[p]
  {
    assert NodeOk(t, p);
    c := t.nodes[p].children[0];
    assert c in t.nodes[p].children;
  }

  /** Nodes a and b of one level, b starting beyond a key that a covers. */
  lemma NextIsBeyond(t: Tree, a: Offset, b: Offset, key: Key, m: Key)
    requires t.low.Keys == t.level.Keys == t.nodes.Keys && Tiled(t)
    requires Covers(t, a, key) && Covers(t, a, m) && b in t.nodes && t.level[a] == t.level[b] && a != b
    ensures t.low[b] < t.low[a] || (m < t.low[b] && key < t.low[b])
  {
  }

  /** A node one level up that covers a key holds the whole range of the node below that covers it. */
  lemma ParentCovers(t: Tree, p: Offset, cur: Offset, key: Key, m: Key)
    requires Linked(t) && Tiled(t) && Covers(t, p, key) && Covers(t, cur, key) && t.level[p] == t.level[cur] + 1
    requires Covers(t, cur, m)
    ensures Covers(t, p, m)
  {
    assert NodeOk(t, p);
    var first := FirstChild(t, p);
    if first != cur { NextIsBeyond(t, cur, first, key, m); }
    if t.nodes[p].right != INVALID_OFFSET {
      assert NodeOk(t, t.nodes[p].right);
      var next := FirstChild(t, t.nodes[p].right);
      if next != cur { NextIsBeyond(t, cur, next, key, m); }
    }
  }

  /** The separator of a split lies strictly inside the slot of the split child, is not
      there yet, and stands on the same side of every other separator as the key. */
  lemma SeparatorFits(t: Tree, p: Offset, cur: Offset, key: Key, m: Key)
    requires Linked(t) && Tiled(t) && Covers(t, p, key) && Covers(t, cur, key) && t.level[p] == t.level[cur] + 1
    requires Covers(t, cur, m) && t.low[cur] < m
    ensures t.low[p] < m && Below(t.nodes[p], m) && m !in t.nodes[p].keys
    ensures forall k :: k in t.nodes[p].keys ==> (k <= key <==> k <= m)
  {
    ParentCovers(t, p, cur, key, m);
    ParentCovers(t, p, cur, key, t.low[cur]);
    forall k | k in t.nodes[p].keys ensures k != m && (k <= key <==> k <= m) {
      var c := SeparatorIsLow(t, p, k);
      if c != cur { NextIsBeyond(t, cur, c, key, m); }
    }
  }

  /** If the node below is posted at all, then in the parent that covers the key. */
  lemma PostedInParent(t: Tree, p: Offset, cur: Offset, key: Key)
    requires Core(t) && Covers(t, p, key) && Covers(t, cur, key) && t.level[p] == t.level[cur] + 1
    requires Posted(t, cur)
    ensures ChildOf(t, p, cur)
  {
    var q :| q in t.nodes && ChildOf(t, q, cur);
    ChildCovered(t, q, cur);
    ParentCovers(t, p, cur, key, t.low[cur]);
    CoverUnique(t, p, q, t.low[cur]);
  }

  lemma ChildCovered(t: Tree, p: Offset, c: Offset)
    requires Linked(t) && p in t.nodes && ChildOf(t, p, c)
    ensures c in t.nodes && t.level[p] == t.level[c] + 1 && Covers(t, p, t.low[c])
  {
    assert NodeOk(t, p);
    var n := t.nodes[p];
    var i :| 0 <= i < |n.children| && n.children[i] == c;
    assert t.low[c] == if i == 0 then t.low[p] else n.keys[i - 1];
    assert i > 0 ==> n.keys[i - 1] in n.keys;
  }

  // ----- what the changes of the file do to the posted nodes

  lemma PostedAfterPut(t: Tree, o: Offset, n': Node, open: set<Offset>)
    requires o in t.nodes && PostedBut(t, open)
    requires t.nodes[o].Internal? ==> n'.Internal? && forall c :: c in t.nodes[o].children ==> c in n'.children
    ensures PostedBut(Put(t, o, n'), open)
  {
    var t' := Put(t, o, n');
    forall c | c in t'.nodes && c != t'.root && c !in open ensures Posted(t', c) {
      var p :| p in t.nodes && ChildOf(t, p, c);
      assert ChildOf(t', p, c);
    }
  }

  lemma PostedAfterPost(t: Tree, p: Offset, sep: Key, child: Offset, open: set<Offset>)
    requires p in t.nodes && t.nodes[p].Internal? && Shaped(t.nodes[p]) && |t.nodes[p].keys| < 2 * L && sep !in t.nodes[p].keys
    requires PostedBut(t, open)
    ensures PostedBut(PostChild(t, p, sep, child), open - {child})
  {
    AddKeyChildShape(t.nodes[p], sep, child);
    PostedAfterPut(t, p, AddKeyChild(t.nodes[p], sep, child), open);
    assert ChildOf(PostChild(t, p, sep, child), p, child);
  }

  lemma PostedAfterHalves(t: Tree, o: Offset, l: Node, r: Node, open: set<Offset>)
    requires o in t.nodes && o in t.level && t.free !in t.nodes && PostedBut(t, open)
    requires t.nodes[o].Internal? ==>
               l.Internal? && r.Internal? && forall c :: c in t.nodes[o].children ==> c in l.children || c in r.children
    ensures PostedBut(PutHalves(t, o, l, r), open + {t.free})
  {
    var t' := PutHalves(t, o, l, r);
    forall c | c in t'.nodes && c != t'.root && c !in open + {t.free} ensures Posted(t', c) {
      var p :| p in t.nodes && ChildOf(t, p, c);
      assert ChildOf(t', p, c) || ChildOf(t', t.free, c);
    }
  }

  /** In particular a split internal node hands the pending child of the level below over to a half. */
  lemma PostedAfterHalveInternal(t: Tree, o: Offset, key: Key, sep: Key, child: Offset, open: set<Offset>)
    requires Linked(t) && o in t.nodes && t.level[o] > 0 && |t.nodes[o].keys| == 2 * L && Pending(t, o, key, sep, child)
    requires t.free !in t.nodes && PostedBut(t, open)
    ensures NodeOk(t, o) && PostedBut(HalveInternal(t, o, key, sep, child), open - {child} + {t.free})
  {
    assert NodeOk(t, o) && t.nodes[o].keys[L] in t.nodes[o].keys;
    SplitInternalShape(t.nodes[o], t.free, key, sep, child);
    var (l, r) := SplitInternal(t.nodes[o], t.free, key, sep, child);
    PostedAfterHalves(t, o, l, r, open);
    var t' := PutHalves(t, o, l, r);
    assert ChildOf(t', o, child) || ChildOf(t', t.free, child);
  }

  lemma PostedAfterRoot(t: Tree, o: Offset, r: Offset, open: set<Offset>)
    requires o in t.nodes && o in t.level && o == t.root && t.free !in t.nodes && PostedBut(t, open)
    ensures PostedBut(GrowRoot(t, o, r), open - {r})
  {
    var t' := GrowRoot(t, o, r);
    assert ChildOf(t', t.free, o) && ChildOf(t', t.free, r);
    forall c | c in t.nodes && c != o && c !in open ensures Posted(t', c) {
      var p :| p in t.nodes && ChildOf(t, p, c);
      assert ChildOf(t', p, c);
    }
  }

  // ----- every level covers the key space

  /** The nodes of o's level that start beyond it. */
  ghost function Beyond(t: Tree, o: Offset): set<Offset>
    requires t.low.Keys == t.level.Keys == t.nodes.Keys && o in t.nodes
  {
    set x | x in t.nodes && t.level[x] == t.level[o] && t.low[o] < t.low[x]
  }

  lemma RightShrinksBeyond(t: Tree, o: Offset)
    requires Linked(t) && o in t.nodes && t.nodes[o].right != INVALID_OFFSET
    ensures t.nodes[o].right in t.nodes && Beyond(t, t.nodes[o].right) < Beyond(t, o)
  {
    assert NodeOk(t, o);
    assert t.nodes[o].right in Beyond(t, o);
  }

  lemma {:induction false} RightWalk(t: Tree, o: Offset, key: Key) returns (c: Offset)
    requires Linked(t) && o in t.nodes && t.low[o] <= key
    ensures Covers(t, c, key) && t.level[c] == t.level[o]
    decreases Beyond(t, o)
  {
    if Below(t.nodes[o], key) {
      c := o;
    } else {
      assert NodeOk(t, o);
      RightShrinksBeyond(t, o);
      c := RightWalk(t, t.nodes[o].right, key);
    }
  }

  lemma {:induction false} Leftmost(t: Tree, o: Offset, lev: nat) returns (c: Offset)
    requires Linked(t) && o in t.nodes && lev <= t.level[o]
    ensures c in t.nodes && t.level[c] == lev && t.low[c] == t.low[o]
    decreases t.level[o]
  {
    if lev == t.level[o] {
      c := o;
    } else {
      var d := FirstChild(t, o);
      c := Leftmost(t, d, lev);
    }
  }

  /** On every level, each key is covered by exactly one node. */
  lemma LevelCovers(t: Tree, lev: nat, key: Key) returns (c: Offset)
    requires Inv(t) && lev <= t.level[t.root]
    ensures Covers(t, c, key) && t.level[c] == lev
    ensures forall d :: Covers(t, d, key) && t.level[d] == lev ==> d == c
  {
    var first := Leftmost(t, t.root, lev);
    c := RightWalk(t, first, key);
    forall d | Covers(t, d, key) && d in t.level && t.level[d] == lev ensures d == c {
      CoverUnique(t, c, d, key);
    }
  }

  // ----- a tree with every node posted

  /** No child starts between the one that a search for the key follows and the key. */
  lemma NoChildBetween(n: Node, lo: Key, low: map<Offset, Key>, key: Key, r: Offset)
    requires Shaped(n) && Fenced(n, lo, low) && lo <= key && (forall k :: k in n.keys ==> lo < k) && r in n.children
    ensures var c := n.children[ChildSlot(n.keys, key)]; low[r] <= low[c] || key < low[r]
  {
    var slot := ChildSlot(n.keys, key);
    var i :| 0 <= i < |n.children| && n.children[i] == r;
    assert low[n.children[i]] == if i == 0 then lo else n.keys[i - 1];
    assert low[n.children[slot]] == if slot == 0 then lo else n.keys[slot - 1];
    if i < slot {
      assert n.keys[slot - 1] in n.keys && (i > 0 ==> n.keys[i - 1] < n.keys[slot - 1]);
    } else if slot < i {
      assert key < n.keys[slot] <= n.keys[i - 1];
    }
  }

  lemma RightSiblingOfChild(t: Tree, p: Offset, c: Offset, key: Key)
    requires Inv(t) && PostedBut(t, {}) && Covers(t, p, key) && t.level[p] > 0
    requires ChildOf(t, p, c) && c in t.nodes && t.level[c] + 1 == t.level[p] && !Below(t.nodes[c], key)
    ensures var r := t.nodes[c].right; r in t.nodes && ChildOf(t, p, r) && t.low[c] < t.low[r] <= key
  {
    assert NodeOk(t, c);
    var r := t.nodes[c].right;
    assert Posted(t, r);
    var q :| q in t.nodes && ChildOf(t, q, r);
    ChildCovered(t, q, r);
    ChildCovered(t, p, c);
    CoverUnique(t, p, q, t.low[r]);
  }

  /** Then the child that a search follows covers the key itself: no right walk is needed. */
  lemma ChildCovers(t: Tree, p: Offset, key: Key)
    requires Inv(t) && PostedBut(t, {}) && Covers(t, p, key) && t.level[p] > 0
    ensures NodeOk(t, p) && Covers(t, t.nodes[p].children[ChildSlot(t.nodes[p].keys, key)], key)
  {
    hide Tiled, Placed;
    assert NodeOk(t, p);
    var n := t.nodes[p];
    var c := n.children[ChildSlot(n.keys, key)];
    assert c in n.children;
    ChildCovered(t, p, c);
    NoChildBetween(n, t.low[p], t.low, key, c);
    if !Below(t.nodes[c], key) {
      RightSiblingOfChild(t, p, c, key);
      NoChildBetween(n, t.low[p], t.low, key, t.nodes[c].right);
    }
    assert t.low[c] == if ChildSlot(n.keys, key) == 0 then t.low[p] else n.keys[ChildSlot(n.keys, key) - 1];
  }
}
