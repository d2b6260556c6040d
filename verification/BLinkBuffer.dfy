/** The functions of BLinkTree/src/node.c as they run: on a BTNode in memory, whose buffers
    are changed in place.  Each is proved against the function of BLinkNode with its name.
 */
module BLinkBuffer {
  import opened BLinkNode

  /** sizeof(size_t): the number of children that the split of an internal node copies,
      where the number of children of the right half was meant. */
  const COPIED := 8

  /** The first word of a value, as a size_t. */
  function WordOf(v: Value): Key {
    v[0] as int + 0x100 * (v[1] as int + 0x100 * (v[2] as int + 0x100 * (v[3] as int
    + 0x100 * (v[4] as int + 0x100 * (v[5] as int + 0x100 * (v[6] as int + 0x100 * v[7] as int))))))
  }

  /** memmove of n elements by one place to the right. */
  method ShiftRight<T>(a: array<T>, start: nat, n: nat)
    requires start + n + 1 <= a.Length
    modifies a
    ensures forall j :: 0 <= j < a.Length ==> a[j] == old(a[if start < j <= start + n then j - 1 else j])
  {
    var i: nat := n;
    while i > 0
      invariant i <= n
      invariant forall j :: 0 <= j < a.Length ==> a[j] == old(a[if start + i < j <= start + n then j - 1 else j])
    {
      a[start + i] := a[start + i - 1];
      i := i - 1;
    }
  }

  /** memcpy of n elements. */
  method Copy<T>(src: array<T>, start: nat, n: nat, dst: array<T>)
    requires start + n <= src.Length && n <= dst.Length && src != dst
    modifies dst
    ensures forall j :: 0 <= j < dst.Length ==> dst[j] == if j < n then src[start + j] else old(dst[j])
  {
    var i := 0;
    while i < n
      invariant i <= n
      invariant forall j :: 0 <= j < dst.Length ==> dst[j] == if j < i then src[start + j] else old(dst[j])
    {
      dst[i] := src[start + i];
      i := i + 1;
    }
  }

  /** Room for x is made at place i of the first n elements, and x is put there. */
  method InsertInto<T>(a: array<T>, n: nat, i: nat, x: T)
    requires i <= n < a.Length
    modifies a
    ensures a[..n + 1] == InsertAt(old(a[..n]), i, x)
    ensures forall j :: n < j < a.Length ==> a[j] == old(a[j])
  {
    ShiftRight(a, i, n - i);
    a[i] := x;
    ghost var r := InsertAt(old(a[..n]), i, x);
    forall j | 0 <= j <= n ensures a[j] == r[j] {
    }
  }

  class BTNode {
    var self: Offset
    var right: Offset
    var highKey: Key
    var leafFlag: bool
    var rootFlag: bool
    var buffSize: nat
    var keyBuffSize: nat
    const keyBuff: array<Key>
    /** The union of the struct, once as 4 * L words and once as 2 * L values. */
    const nodeBuff: array<Offset>
    const valueBuff: array<Value>
    /** The sixteen bytes that follow the struct in memory. */
    const behind: Value

    /** malloc: no field and no slot is initialised. */
    constructor Malloc()
      ensures fresh(keyBuff) && fresh(nodeBuff) && fresh(valueBuff) && Allocated()
    {
      keyBuff := new Key[2 * L];
      nodeBuff := new Offset[4 * L];
      valueBuff := new Value[2 * L];
      behind := NO_VALUE;
    }

    ghost predicate Allocated() {
      keyBuff.Length == 2 * L && nodeBuff.Length == 4 * L && valueBuff.Length == 2 * L && keyBuff != nodeBuff
    }

    ghost predicate Valid()
      reads this
    {
      && Allocated() && keyBuffSize <= 2 * L
      && buffSize == if leafFlag then keyBuffSize else keyBuffSize + 1
    }

    /** The node that the buffers hold. */
    ghost function View(): Node
      requires Valid()
      reads this, keyBuff, nodeBuff, valueBuff
    {
      if leafFlag then Leaf(right, highKey, rootFlag, keyBuff[..keyBuffSize], valueBuff[..keyBuffSize])
      else Internal(right, highKey, rootFlag, keyBuff[..keyBuffSize], nodeBuff[..keyBuffSize + 1])
    }

    /** The word that key_buff[i] reads: beyond the 2 * L keys begins the union. */
    function KeyWord(i: nat): Key
      requires Valid() && i <= 2 * L
      reads this, keyBuff, nodeBuff, valueBuff
    {
      if i < 2 * L then keyBuff[i] else if leafFlag then WordOf(valueBuff[0]) else nodeBuff[0]
    }

    /** Index of the first key greater than or equal to `key`, by bisection.  On an empty
        node key_buff[-1] is the key_buff_size before it, and no other slot than 0 is read. */
    method Fgoe(key: Key) returns (index: nat)
      requires Valid() && Sorted(View().keys)
      ensures index == BLinkNode.Fgoe(View().keys, key)
    {
      ghost var keys := View().keys;
      var low, high := 0, keyBuffSize as int;
      var last := if high == 0 then keyBuffSize else keyBuff[high - 1];
      if key > last {
        FgoeIs(keys, key, high);
        return high;
      }
      while low <= high
        invariant 0 <= low <= keyBuffSize && -1 <= high <= keyBuffSize && low <= high + 1
        invariant keyBuffSize > 0 ==> key <= keys[keyBuffSize - 1]
        invariant keyBuffSize == 0 ==> key == 0 && low == 0
        invariant forall j :: 0 <= j < low ==> keys[j] < key
        invariant forall j :: high < j < keyBuffSize ==> key < keys[j]
      {
        var mid := (low + high) / 2;
        assert low < keyBuffSize || keyBuffSize == 0;
        assert mid < keyBuffSize || (keyBuffSize == 0 && mid == 0);
        if keyBuff[mid] == key {
          FgoeIs(keys, key, mid);
          return mid;
        }
        if key < keyBuff[mid] {
          high := mid - 1;
        } else {
          low := mid + 1;
        }
      }
      FgoeIs(keys, key, low);
      return low;
    }

    /** The lookup compares a slot behind the last key with `key`, and they are equal. */
    ghost predicate StaleHit(key: Key)
      requires Valid()
      reads this, keyBuff, nodeBuff, valueBuff
    {
      BLinkNode.Fgoe(View().keys, key) == keyBuffSize && KeyWord(keyBuffSize) == key
    }

    /** The child to follow for a key, or on a stale hit the word behind the last child. */
    ghost function ChildLookup(key: Key): Offset
      requires Valid() && !leafFlag
      reads this, keyBuff, nodeBuff, valueBuff
    {
      if StaleHit(key) then nodeBuff[keyBuffSize + 1] else View().children[ChildSlot(View().keys, key)]
    }

    /** The child to follow for `key`: the intended one if and only if no stale slot answers
        with another. */
    method ChildByKey(key: Key) returns (child: Offset)
      requires Valid() && Sorted(View().keys)
      ensures leafFlag ==> child == INVALID_OFFSET
      ensures !leafFlag ==> child == ChildLookup(key)
      ensures !leafFlag ==>
                (child == View().children[ChildSlot(View().keys, key)] <==>
                 !(StaleHit(key) && nodeBuff[keyBuffSize + 1] != nodeBuff[keyBuffSize]))
    {
      if leafFlag {
        return INVALID_OFFSET;
      }
      var i := Fgoe(key);
      hide Sorted, BLinkNode.Fgoe;
      ghost var n := View();
      assert i < keyBuffSize ==> KeyWord(i) == n.keys[i];
      assert n.children[ChildSlot(n.keys, key)] == nodeBuff[ChildSlot(n.keys, key)];
      if KeyWord(i) == key {
        return nodeBuff[i + 1];
      }
      return nodeBuff[i];
    }

    /** The value that goes with the slot behind the last key. */
    ghost function SlotBehind(): Value
      requires Valid()
      reads this, valueBuff
    {
      if keyBuffSize < 2 * L then valueBuff[keyBuffSize] else behind
    }

    /** The value of a key that the node holds, or else what a stale slot answers. */
    ghost function Lookup(key: Key): Value
      requires Valid() && leafFlag
      reads this, keyBuff, nodeBuff, valueBuff
    {
      if HasKey(View(), key) then BLinkNode.ValueByKey(View(), key)
      else if StaleHit(key) then SlotBehind() else NO_VALUE
    }

    /** The value of `key`: the intended answer if and only if no stale slot answers instead. */
    method ValueByKey(key: Key) returns (v: Value)
      requires Valid() && Sorted(View().keys)
      ensures !leafFlag ==> v == NO_VALUE
      ensures leafFlag ==>
                v == Lookup(key) && (v == BLinkNode.ValueByKey(View(), key) <==> !(StaleHit(key) && SlotBehind() != NO_VALUE))
    {
      var i := Fgoe(key);
      if KeyWord(i) != key || !leafFlag {
        return NO_VALUE;
      }
      return if i < 2 * L then valueBuff[i] else behind;
    }

    method AddKeyValue(key: Key, val: Value)
      requires Valid() && Sorted(View().keys)
      modifies this`keyBuffSize, this`buffSize, keyBuff, valueBuff
      ensures Valid() && View() == BLinkNode.AddKeyValue(old(View()), key, val)
      ensures forall j :: keyBuffSize <= j < 2 * L ==> keyBuff[j] == old(keyBuff[j]) && valueBuff[j] == old(valueBuff[j])
    {
      var sz := keyBuffSize;
      if sz == 2 * L || !leafFlag {
        return;
      }
      var res := Fgoe(key);
      if keyBuff[res] != key || res == sz {
        InsertBinding(res, key, val);
      } else {
        valueBuff[res] := val;
        assert valueBuff[..sz] == old(valueBuff[..sz])[res := val];
      }
    }

    method InsertBinding(res: nat, key: Key, val: Value)
      requires Valid() && leafFlag && res <= keyBuffSize < 2 * L
      modifies this`keyBuffSize, this`buffSize, keyBuff, valueBuff
      ensures Valid() && keyBuffSize == old(keyBuffSize) + 1
      ensures keyBuff[..keyBuffSize] == InsertAt(old(keyBuff[..keyBuffSize]), res, key)
      ensures valueBuff[..keyBuffSize] == InsertAt(old(valueBuff[..keyBuffSize]), res, val)
      ensures forall j :: keyBuffSize <= j < 2 * L ==> keyBuff[j] == old(keyBuff[j]) && valueBuff[j] == old(valueBuff[j])
    {
      InsertInto(keyBuff, keyBuffSize, res, key);
      InsertInto(valueBuff, keyBuffSize, res, val);
      keyBuffSize := keyBuffSize + 1;
      buffSize := buffSize + 1;
    }

    /** The callers post into a node with room. */
    method AddKeyChild(highKey: Key, newRighthand: Offset)
      requires Valid() && Sorted(View().keys) && !leafFlag && keyBuffSize < 2 * L
      modifies this`keyBuffSize, this`buffSize, keyBuff, nodeBuff
      ensures Valid() && View() == BLinkNode.AddKeyChild(old(View()), highKey, newRighthand)
    {
      var ind := Fgoe(highKey);
      var sz := keyBuffSize;
      InsertInto(keyBuff, sz, ind, highKey);
      keyBuffSize := keyBuffSize + 1;
      InsertInto(nodeBuff, sz + 1, ind + 1, newRighthand);
      buffSize := buffSize + 1;
    }

    method CopyBindings(to: BTNode, mid: nat, sz: nat)
      requires Allocated() && to.Allocated() && mid <= sz <= 2 * L && keyBuff != to.keyBuff && valueBuff != to.valueBuff
      modifies to.keyBuff, to.valueBuff
      ensures to.keyBuff[..sz - mid] == old(keyBuff[..sz])[mid..]
      ensures to.valueBuff[..sz - mid] == old(valueBuff[..sz])[mid..]
    {
      Copy(keyBuff, mid, sz - mid, to.keyBuff);
      Copy(valueBuff, mid, sz - mid, to.valueBuff);
    }

    /** With L == 2 the last words that the source reads here lie behind the struct. */
    method CopyChildren(to: BTNode, mid: nat, sz: nat, ghost junk: seq<Offset>)
      requires Allocated() && to.Allocated() && mid < sz <= 2 * L && junk == to.nodeBuff[..]
      requires keyBuff != to.keyBuff && nodeBuff != to.nodeBuff && keyBuff != to.nodeBuff && nodeBuff != to.keyBuff
      modifies to.keyBuff, to.nodeBuff
      ensures to.keyBuff[..sz - mid - 1] == old(keyBuff[..sz])[mid + 1..]
      ensures to.nodeBuff[..sz - mid] == Copied(old(nodeBuff[..sz + 1])[mid + 1..], junk)
    {
      Copy(keyBuff, mid + 1, sz - mid - 1, to.keyBuff);
      var words := if mid + 1 + COPIED <= 4 * L then COPIED else 4 * L - (mid + 1);
      Copy(nodeBuff, mid + 1, words, to.nodeBuff);
      ghost var meant := old(nodeBuff[..sz + 1])[mid + 1..];
      assert forall j :: 0 <= j < sz - mid ==> to.nodeBuff[j] == Copied(meant, junk)[j];
    }

    /** The left half stays in this node; `junk` is what the memory of the new node held. */
    method Split(other: Offset) returns (newRight: BTNode, ghost junk: seq<Offset>)
      requires Valid() && keyBuffSize > 0
      modifies this
      ensures Valid() && View() == BLinkNode.Split(old(View()), other).0 && self == old(self)
      ensures fresh(newRight) && newRight.Valid() && newRight.self == other
      ensures |junk| == 4 * L && newRight.View() == RightHalf(old(View()), junk)
    {
      hide Copied, Sorted, Shaped;
      newRight := new BTNode.Malloc();
      junk := newRight.nodeBuff[..];
      SplitHeader(newRight, other);
      if leafFlag {
        SplitBindings(newRight);
      } else {
        SplitChildren(newRight, junk);
      }
    }

    /** The flags, the right links and the high keys of both nodes. */
    method SplitHeader(newRight: BTNode, other: Offset)
      requires Valid() && keyBuffSize > 0 && newRight != this
      modifies `rootFlag, `right, `highKey
      modifies newRight`self, newRight`leafFlag, newRight`rootFlag, newRight`right, newRight`highKey
      ensures Valid() && newRight.self == other && newRight.leafFlag == leafFlag && !newRight.rootFlag
      ensures newRight.right == old(right) && newRight.highKey == old(highKey)
      ensures var n := old(View());
              View() == if n.Leaf? then Leaf(other, n.keys[|n.keys| / 2], false, n.keys, n.vals)
                        else Internal(other, n.keys[|n.keys| / 2], false, n.keys, n.children)
    {
      newRight.self := other;
      rootFlag := false;
      newRight.leafFlag, newRight.rootFlag := leafFlag, rootFlag;
      newRight.right, newRight.highKey := right, highKey;
      right := other;
      highKey := keyBuff[keyBuffSize / 2];
    }

    method SplitBindings(newRight: BTNode)
      requires Valid() && leafFlag && newRight.Allocated() && newRight.leafFlag && newRight != this
      requires keyBuff != newRight.keyBuff && valueBuff != newRight.valueBuff
      modifies `keyBuffSize, `buffSize, newRight`keyBuffSize, newRight`buffSize, newRight.keyBuff, newRight.valueBuff
      ensures Valid() && newRight.Valid()
      ensures var n, mid := old(View()), old(keyBuffSize) / 2;
        && View() == Leaf(n.right, n.high, n.root, n.keys[..mid], n.vals[..mid])
        && newRight.View() == Leaf(newRight.right, newRight.highKey, newRight.rootFlag, n.keys[mid..], n.vals[mid..])
    {
      var sz := keyBuffSize;
      var mid := sz / 2;
      newRight.keyBuffSize, newRight.buffSize := sz - mid, sz - mid;
      keyBuffSize, buffSize := mid, mid;
      CopyBindings(newRight, mid, sz);
      assert keyBuff[..mid] == old(keyBuff[..sz])[..mid] && valueBuff[..mid] == old(valueBuff[..sz])[..mid];
    }

    method SplitChildren(newRight: BTNode, ghost junk: seq<Offset>)
      requires Valid() && !leafFlag && keyBuffSize > 0
      requires newRight.Allocated() && !newRight.leafFlag && newRight != this && junk == newRight.nodeBuff[..]
      requires keyBuff != newRight.keyBuff && nodeBuff != newRight.nodeBuff
      requires keyBuff != newRight.nodeBuff && nodeBuff != newRight.keyBuff
      modifies `keyBuffSize, `buffSize, newRight`keyBuffSize, newRight`buffSize, newRight.keyBuff, newRight.nodeBuff
      ensures Valid() && newRight.Valid()
      ensures var n, mid := old(View()), old(keyBuffSize) / 2;
        && View() == Internal(n.right, n.high, n.root, n.keys[..mid], n.children[..mid + 1])
        && newRight.View() == Internal(newRight.right, newRight.highKey, newRight.rootFlag,
                                       n.keys[mid + 1..], Copied(n.children[mid + 1..], junk))
    {
      var sz := keyBuffSize;
      var mid := sz / 2;
      newRight.keyBuffSize, newRight.buffSize := sz - mid - 1, sz - mid;
      keyBuffSize, buffSize := mid, mid + 1;
      CopyChildren(newRight, mid, sz, junk);
      assert keyBuff[..mid] == old(keyBuff[..sz])[..mid];
      assert nodeBuff[..mid + 1] == old(nodeBuff[..sz + 1])[..mid + 1];
    }
  }

  /** The children of a right half: the first COPIED of those meant, then whatever the
      fresh memory held. */
  function Copied(meant: seq<Offset>, junk: seq<Offset>): (r: seq<Offset>)
    requires |meant| <= |junk|
    ensures |r| == |meant|
    ensures forall i :: 0 <= i < |r| ==> r[i] == if i < COPIED then meant[i] else junk[i]
  {
    seq(|meant|, i requires 0 <= i < |meant| => if i < COPIED then meant[i] else junk[i])
  }

  /** The right half that btnodeSplit returns. */
  function RightHalf(n: Node, junk: seq<Offset>): Node
    requires |n.keys| > 0 && (n.Leaf? ==> |n.vals| == |n.keys|)
    requires n.Internal? ==> |n.children| == |n.keys| + 1 <= |junk|
  {
    if n.Leaf? then Split(n, 0).1
    else
      var r := Split(n, 0).1;
      Internal(r.right, r.high, r.root, r.keys, Copied(r.children, junk))
  }

  /** For a full internal node, the split keeps all children, whatever malloc returned, if
      and only if L is at most 8; with the default of 64 it keeps 8 of them. */
  lemma SplitKeepsChildren(n: Node)
    requires n.Internal? && Shaped(n) && |n.keys| == 2 * L
    ensures (forall junk: seq<Offset> :: |junk| == 4 * L ==> RightHalf(n, junk) == Split(n, 0).1) <==> L <= COPIED
  {
    var r := Split(n, 0).1;
    if L <= COPIED {
      forall junk: seq<Offset> | |junk| == 4 * L ensures RightHalf(n, junk) == r {
        assert Copied(r.children, junk) == r.children;
      }
    } else {
      var junk := seq(4 * L, i => if i == COPIED then r.children[COPIED] + 1 else 0);
      assert Copied(r.children, junk)[COPIED] != r.children[COPIED];
      assert RightHalf(n, junk) != r;
    }
  }

  lemma FgoeIs(keys: seq<Key>, key: Key, r: nat)
    requires Sorted(keys) && r <= |keys|
    requires forall j :: 0 <= j < r ==> keys[j] < key
    requires forall j :: r <= j < |keys| ==> key <= keys[j]
    ensures Fgoe(keys, key) == r
  {
  }
}
