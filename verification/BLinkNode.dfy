/** The nodes of the B-link tree (BLinkTree/src/node.h, BLinkTree/src/node.c) as values: what a
    node image means, and the operations that node.c performs on it.  BLinkBuffer.dfy
    proves the in-place versions over arrays against the functions of this module.
 */
module BLinkNode {

  type Key = nat
  type Offset = nat

  /** `char data[16]` of value.h. */
  type Value = v: seq<char> | |v| == 16 witness "\0\0\0\0\0\0\0\0\0\0\0\0\0\0\0\0"

  /** What a lookup answers for a key that is not there: sixteen zero bytes. */
  const NO_VALUE: Value := "\0\0\0\0\0\0\0\0\0\0\0\0\0\0\0\0"

  const INVALID_OFFSET: Offset := 1

  /** The compile-time constant L of node.h: a node has room for 2 * L keys.  Everything
      here is for any L of at least 2. */
  type Order = n: nat | 2 <= n witness 2
  const L: Order

  /** `high` bounds the keys of the node from above when `right` is a node; the
      rightmost node of a level has no bound (its high_key field holds 0). */
  datatype Node =
    | Leaf(right: Offset, high: Key, root: bool, keys: seq<Key>, vals: seq<Value>)
    | Internal(right: Offset, high: Key, root: bool, keys: seq<Key>, children: seq<Offset>)

  ghost predicate Sorted(s: seq<Key>) {
    forall i, j :: 0 <= i < j < |s| ==> s[i] < s[j]
  }

  /** The slots are filled as key_buff_size and buff_size say. */
  ghost predicate Shaped(n: Node) {
    && Sorted(n.keys)
    && |n.keys| <= 2 * L
    && (n.Leaf? ==> |n.vals| == |n.keys|)
    && (n.Internal? ==> |n.keys| > 0 && |n.children| == |n.keys| + 1)
  }

  /** k is not beyond the node's upper bound. */
  predicate Below(n: Node, k: Key) {
    n.right == INVALID_OFFSET || k < n.high
  }

  /** The leaf n binds k to v. */
  ghost predicate Stores(n: Node, k: Key, v: Value) {
    n.Leaf? && Paired(n.keys, n.vals, k, v)
  }

  ghost predicate Paired(keys: seq<Key>, vals: seq<Value>, k: Key, v: Value) {
    exists i :: 0 <= i < |keys| && i < |vals| && keys[i] == k && vals[i] == v
  }

  /** The children of n start where its fences say: the first at `lo`, where n itself
      starts, and child i + 1 at keys[i]. */
  ghost predicate Fenced(n: Node, lo: Key, low: map<Offset, Key>) {
    && n.Internal? && |n.children| == |n.keys| + 1
    && forall i {:trigger n.children[i]} :: 0 <= i < |n.children| ==>
         n.children[i] in low && low[n.children[i]] == if i == 0 then lo else n.keys[i - 1]
  }

  /** Index of the first key that is greater than or equal to `key`. */
  function Fgoe(keys: seq<Key>, key: Key): (r: nat)
    ensures r <= |keys|
    ensures r > 0 ==> keys[r - 1] < key
    ensures forall j :: r <= j < |keys| ==> key <= keys[j]
    ensures Sorted(keys) ==> forall j :: 0 <= j < r ==> keys[j] < key
  {
    if keys == [] then 0
    else if keys[|keys| - 1] < key then |keys|
    else Fgoe(keys[..|keys| - 1], key)
  }

  predicate HasKey(n: Node, key: Key) {
    var i := Fgoe(n.keys, key);
    i < |n.keys| && n.keys[i] == key
  }

  /** Slot of the child that a search for `key` follows: the number of keys not above it. */
  function ChildSlot(keys: seq<Key>, key: Key): (r: nat)
    ensures r <= |keys|
    ensures Sorted(keys) ==> forall j :: 0 <= j < r ==> keys[j] <= key
    ensures Sorted(keys) ==> forall j :: r <= j < |keys| ==> key < keys[j]
  {
    var i := Fgoe(keys, key);
    if i < |keys| && keys[i] == key then i + 1 else i
  }

  function ValueByKey(n: Node, key: Key): Value
    requires n.Leaf? && |n.vals| == |n.keys|
  {
    if HasKey(n, key) then n.vals[Fgoe(n.keys, key)] else NO_VALUE
  }

  function InsertAt<T>(s: seq<T>, i: nat, x: T): (r: seq<T>)
    requires i <= |s|
    ensures |r| == |s| + 1 && r[i] == x
    ensures forall j {:trigger r[j]} :: 0 <= j < |r| ==> r[j] == if j < i then s[j] else if j == i then x else s[j - 1]
  {
    s[..i] + [x] + s[i..]
  }

  /** btnodeAddKeyValue: does nothing on a full node, even when the key is already there. */
  function AddKeyValue(n: Node, key: Key, val: Value): Node
    requires n.Leaf? ==> |n.vals| == |n.keys|
  {
    if |n.keys| == 2 * L || !n.Leaf? then n
    else
      var i := Fgoe(n.keys, key);
      if i == |n.keys| || n.keys[i] != key then
        Leaf(n.right, n.high, n.root, InsertAt(n.keys, i, key), InsertAt(n.vals, i, val))
      else
        Leaf(n.right, n.high, n.root, n.keys, n.vals[i := val])
  }

  /** btnodeAddKeyChild: the new child goes to the right of its separator. */
  function AddKeyChild(n: Node, sep: Key, child: Offset): Node
    requires n.Internal? && |n.children| == |n.keys| + 1
  {
    var i := Fgoe(n.keys, sep);
    Internal(n.right, n.high, n.root, InsertAt(n.keys, i, sep), InsertAt(n.children, i + 1, child))
  }

  /** btnodeSplit: the left half stays in place, the right half goes to `other`; in an
      internal node the middle key moves up. */
  function Split(n: Node, other: Offset): (Node, Node)
    requires |n.keys| > 0
    requires n.Leaf? ==> |n.vals| == |n.keys|
    requires n.Internal? ==> |n.children| == |n.keys| + 1
  {
    var mid := |n.keys| / 2;
    if n.Leaf? then
      (Leaf(other, n.keys[mid], false, n.keys[..mid], n.vals[..mid]),
       Leaf(n.right, n.high, false, n.keys[mid..], n.vals[mid..]))
    else
      (Internal(other, n.keys[mid], false, n.keys[..mid], n.children[..mid + 1]),
       Internal(n.right, n.high, false, n.keys[mid + 1..], n.children[mid + 1..]))
  }

  /** Split of a full leaf, the new binding added to the half chosen in tree.cpp:226-231. */
  function SplitLeaf(n: Node, other: Offset, key: Key, val: Value): (Node, Node)
    requires n.Leaf? && |n.keys| > 0 && |n.vals| == |n.keys|
  {
    var (l, r) := Split(n, other);
    if key < l.high then (AddKeyValue(l, key, val), r) else (l, AddKeyValue(r, key, val))
  }

  /** Split of a full internal node, the new separator added to the half chosen in
      tree.cpp:232-237: the choice looks at the key being written, not at the separator. */
  function SplitInternal(n: Node, other: Offset, key: Key, sep: Key, child: Offset): (Node, Node)
    requires n.Internal? && |n.keys| > 0 && |n.children| == |n.keys| + 1
  {
    var (l, r) := Split(n, other);
    if key < l.high then (AddKeyChild(l, sep, child), r) else (l, AddKeyChild(r, sep, child))
  }

  lemma HasKeyIsMembership(n: Node, key: Key)
    requires Sorted(n.keys)
    ensures HasKey(n, key) <==> key in n.keys
  {
  }

  /** Looking a key up in a leaf finds exactly its binding. */
  lemma ValueByKeyFinds(n: Node, key: Key)
    requires n.Leaf? && Shaped(n)
    ensures HasKey(n, key) ==> Stores(n, key, ValueByKey(n, key))
    ensures forall v :: Stores(n, key, v) ==> HasKey(n, key) && v == ValueByKey(n, key)
    ensures !HasKey(n, key) ==> ValueByKey(n, key) == NO_VALUE
  {
    HasKeyIsMembership(n, key);
  }

  lemma PairedAfterInsert(keys: seq<Key>, vals: seq<Value>, i: nat, key: Key, val: Value, k: Key, v: Value)
    requires i <= |keys| == |vals|
    ensures Paired(InsertAt(keys, i, key), InsertAt(vals, i, val), k, v) <==> (k == key && v == val) || Paired(keys, vals, k, v)
  {
    var keys', vals' := InsertAt(keys, i, key), InsertAt(vals, i, val);
    if Paired(keys, vals, k, v) {
      var j :| 0 <= j < |keys| && keys[j] == k && vals[j] == v;
      var j' := if j < i then j else j + 1;
      assert keys'[j'] == k && vals'[j'] == v;
    }
    if k == key && v == val {
      assert keys'[i] == k && vals'[i] == v;
    }
  }

  lemma PairedAfterUpdate(keys: seq<Key>, vals: seq<Value>, i: nat, val: Value, k: Key, v: Value)
    requires i < |keys| == |vals| && Sorted(keys)
    ensures Paired(keys, vals[i := val], k, v) <==> if k == keys[i] then v == val else Paired(keys, vals, k, v)
  {
    if k == keys[i] {
      assert vals[i := val][i] == val;
    } else if Paired(keys, vals, k, v) {
      var j :| 0 <= j < |keys| && keys[j] == k && vals[j] == v;
      assert vals[i := val][j] == v;
    }
  }

  /** A leaf after an insertion: the new binding, and the old ones of the other keys. */
  lemma AddKeyValueBinds(n: Node, key: Key, val: Value, k: Key, v: Value)
    requires n.Leaf? && Shaped(n) && |n.keys| < 2 * L
    ensures Stores(AddKeyValue(n, key, val), k, v) <==> if k == key then v == val else Stores(n, k, v)
  {
    var i := Fgoe(n.keys, key);
    if HasKey(n, key) {
      PairedAfterUpdate(n.keys, n.vals, i, val, k, v);
    } else {
      PairedAfterInsert(n.keys, n.vals, i, key, val, k, v);
      HasKeyIsMembership(n, key);
    }
  }

  /** An insertion keeps a leaf in shape; it is lost exactly when the leaf is full. */
  lemma AddKeyValueShape(n: Node, key: Key, val: Value)
    requires n.Leaf? && Shaped(n)
    ensures var n' := AddKeyValue(n, key, val);
      && n'.Leaf? && Shaped(n') && n'.right == n.right && n'.high == n.high && n'.root == n.root
      && (|n.keys| == 2 * L ==> n' == n)
      && (|n.keys| < 2 * L ==> |n'.keys| == |n.keys| + (if HasKey(n, key) then 0 else 1))
      && forall k :: k in n'.keys ==> k == key || k in n.keys
  {
    if |n.keys| < 2 * L && !HasKey(n, key) {
      var i := Fgoe(n.keys, key);
      var keys := InsertAt(n.keys, i, key);
      forall k | k in keys ensures k == key || k in n.keys {
        var j :| 0 <= j < |keys| && keys[j] == k;
      }
    }
  }

  lemma PairedAcross(keys: seq<Key>, vals: seq<Value>, mid: nat, k: Key, v: Value)
    requires mid <= |keys| == |vals|
    ensures Paired(keys, vals, k, v) <==> Paired(keys[..mid], vals[..mid], k, v) || Paired(keys[mid..], vals[mid..], k, v)
  {
    if Paired(keys, vals, k, v) {
      var j :| 0 <= j < |keys| && keys[j] == k && vals[j] == v;
      if j < mid {
        assert keys[..mid][j] == k && vals[..mid][j] == v;
      } else {
        assert keys[mid..][j - mid] == k && vals[mid..][j - mid] == v;
      }
    }
  }

  /** A full leaf split around its middle key holds, together with its new right half,
      the old bindings and the new one. */
  lemma SplitLeafBinds(n: Node, other: Offset, key: Key, val: Value, k: Key, v: Value)
    requires n.Leaf? && Shaped(n) && |n.keys| == 2 * L && !HasKey(n, key)
    ensures var (l, r) := SplitLeaf(n, other, key, val);
      (Stores(l, k, v) || Stores(r, k, v)) <==> if k == key then v == val else Stores(n, k, v)
  {
    var (l0, r0) := Split(n, other);
    PairedAcross(n.keys, n.vals, L, k, v);
    HasKeyIsMembership(n, key);
    if key < l0.high {
      AddKeyValueBinds(l0, key, val, k, v);
    } else {
      AddKeyValueBinds(r0, key, val, k, v);
    }
  }

  lemma SplitLeafHalves(n: Node, other: Offset)
    requires n.Leaf? && Shaped(n) && |n.keys| == 2 * L
    ensures var (l, r) := Split(n, other);
      && l.Leaf? && r.Leaf? && Shaped(l) && Shaped(r) && |l.keys| == L && |r.keys| == L
      && l.high == n.keys[L] && n.keys[0] < l.high
      && (forall k :: k in l.keys ==> k < l.high && k in n.keys)
      && (forall k :: k in r.keys ==> l.high <= k && k in n.keys)
  {
    assert n.keys[..L] + n.keys[L..] == n.keys;
  }

  /** Both halves of a split leaf are in shape, at least half full, and divided at the
      high key of the left one. */
  lemma SplitLeafShape(n: Node, other: Offset, key: Key, val: Value)
    requires n.Leaf? && Shaped(n) && |n.keys| == 2 * L && !HasKey(n, key)
    ensures var (l, r) := SplitLeaf(n, other, key, val);
      && l.Leaf? && r.Leaf? && Shaped(l) && Shaped(r) && !l.root && !r.root
      && |l.keys| + |r.keys| == 2 * L + 1 && |l.keys| >= L && |r.keys| >= L
      && l.right == other && r.right == n.right && r.high == n.high
      && l.high == n.keys[L] && n.keys[0] < l.high
      && (forall k :: k in l.keys ==> k < l.high && (k == key || k in n.keys))
      && (forall k :: k in r.keys ==> l.high <= k && (k == key || k in n.keys))
  {
    var (l0, r0) := Split(n, other);
    SplitLeafHalves(n, other);
    assert key !in l0.keys && key !in r0.keys by { HasKeyIsMembership(n, key); }
    if key < l0.high {
      HasKeyIsMembership(l0, key);
      AddKeyValueShape(l0, key, val);
    } else {
      HasKeyIsMembership(r0, key);
      AddKeyValueShape(r0, key, val);
    }
  }

  lemma InsertAtMembers<T>(s: seq<T>, i: nat, x: T)
    requires i <= |s|
    ensures forall y :: y in InsertAt(s, i, x) <==> y == x || y in s
  {
    var r := InsertAt(s, i, x);
    assert r == s[..i] + [x] + s[i..] && s == s[..i] + s[i..];
  }

  /** Posting a separator keeps an internal node sorted and adds exactly one child. */
  lemma AddKeyChildShape(n: Node, sep: Key, child: Offset)
    requires n.Internal? && Shaped(n) && |n.keys| < 2 * L && sep !in n.keys
    ensures var n' := AddKeyChild(n, sep, child);
      && n'.Internal? && Shaped(n') && |n'.keys| == |n.keys| + 1
      && n'.right == n.right && n'.high == n.high && n'.root == n.root
      && (forall k :: k in n'.keys <==> k == sep || k in n.keys)
      && (forall c :: c in n'.children <==> c == child || c in n.children)
  {
    var i := Fgoe(n.keys, sep);
    InsertAtMembers(n.keys, i, sep);
    InsertAtMembers(n.children, i + 1, child);
  }

  /** The new child stands between the fences it belongs to, and no other child moves. */
  lemma AddKeyChildFences(n: Node, sep: Key, child: Offset, lo: Key, low: map<Offset, Key>)
    requires Fenced(n, lo, low) && child in low && low[child] == sep
    ensures Fenced(AddKeyChild(n, sep, child), lo, low)
  {
    var i := Fgoe(n.keys, sep);
    var n' := AddKeyChild(n, sep, child);
    forall j {:trigger n'.children[j]} | 0 <= j < |n'.children|
      ensures n'.children[j] in low && low[n'.children[j]] == if j == 0 then lo else n'.keys[j - 1]
    {
      if j <= i {
        assert n'.children[j] == n.children[j];
      } else if j > i + 1 {
        assert n'.children[j] == n.children[j - 1];
      }
    }
  }

  lemma SplitInternalHalves(n: Node, other: Offset)
    requires n.Internal? && Shaped(n) && |n.keys| == 2 * L
    ensures var (l, r) := Split(n, other);
      && l.Internal? && r.Internal? && Shaped(l) && Shaped(r) && |l.keys| == L && |r.keys| == L - 1
      && l.high == n.keys[L] && n.keys[0] < l.high
      && (forall k :: k in l.keys ==> k < l.high && k in n.keys)
      && (forall k :: k in r.keys ==> l.high < k && k in n.keys)
      && (forall c :: c in n.children <==> c in l.children || c in r.children)
  {
    assert n.keys[..L] + [n.keys[L]] + n.keys[L + 1..] == n.keys;
    assert n.children[..L + 1] + n.children[L + 1..] == n.children;
  }

  lemma SplitInternalFences(n: Node, other: Offset, lo: Key, low: map<Offset, Key>)
    requires Shaped(n) && |n.keys| == 2 * L && Fenced(n, lo, low)
    ensures var (l, r) := Split(n, other); Fenced(l, lo, low) && Fenced(r, l.high, low)
  {
    var (l, r) := Split(n, other);
    assert forall j :: 0 <= j < |l.children| ==> l.children[j] == n.children[j];
    assert forall j :: 0 <= j < |r.children| ==> r.children[j] == n.children[L + 1 + j];
  }

  /** A full internal node splits into two nodes in shape that hold its children and the
      new one, provided that choosing the half by the key being written agrees with
      choosing it by the separator. */
  lemma SplitInternalShape(n: Node, other: Offset, key: Key, sep: Key, child: Offset)
    requires n.Internal? && Shaped(n) && |n.keys| == 2 * L && sep !in n.keys
    requires key < n.keys[L] <==> sep < n.keys[L]
    ensures var (l, r) := SplitInternal(n, other, key, sep, child);
      && l.Internal? && r.Internal? && Shaped(l) && Shaped(r) && !l.root && !r.root
      && |l.children| + |r.children| == 2 * L + 2 && |l.children| >= L && |r.children| >= L
      && l.right == other && r.right == n.right && r.high == n.high
      && l.high == n.keys[L] && n.keys[0] < l.high
      && (forall k :: k in l.keys ==> k < l.high && (k == sep || k in n.keys))
      && (forall k :: k in r.keys ==> l.high < k && (k == sep || k in n.keys))
      && (forall c :: c in l.children || c in r.children <==> c == child || c in n.children)
  {
    var (l0, r0) := Split(n, other);
    SplitInternalHalves(n, other);
    assert l0.high in n.keys;
    if sep < l0.high {
      AddKeyChildShape(l0, sep, child);
    } else {
      AddKeyChildShape(r0, sep, child);
    }
  }

  lemma SplitInternalFenced(n: Node, other: Offset, key: Key, sep: Key, child: Offset, lo: Key, low: map<Offset, Key>)
    requires Shaped(n) && |n.keys| == 2 * L && Fenced(n, lo, low) && child in low && low[child] == sep
    ensures var (l, r) := SplitInternal(n, other, key, sep, child); Fenced(l, lo, low) && Fenced(r, l.high, low)
  {
    var (l0, r0) := Split(n, other);
    SplitInternalFences(n, other, lo, low);
    AddKeyChildFences(if key < l0.high then l0 else r0, sep, child, if key < l0.high then lo else l0.high, low);
  }
}
