/** Where the tree of the source does not do what its callers expect: for each case a run from the
    empty file that leads there, for every order L. Thread 0 waits at the old root while thread 1
    writes.
 */
module BLinkExamples {
  import opened BLinkNode
  import opened BLinkFile
  import opened BLinkSteps
  import opened BLinkThreads
  import opened BLinkSafety
  import opened BLinkRuns
  import opened BLinkTreeClass

  // ----- the steps of one writer

  /** Thread 0 holds no lock, and thread 1 can start a write. */
  predicate Ready(s: State) {
    && s.threads.Keys == {0, 1}
    && (s.threads[0].Idle? || s.threads[0].ReadLocking? || s.threads[0].DescendLocking?)
    && (s.threads[1].Idle? || s.threads[1].WriteDone?)
  }

  function With(s: State, th: Thread): State {
    State(s.t, s.threads[1 := th])
  }

  /** The leaf at o is the root, or the child of the root that a search for the key follows. */
  predicate Path(t: Tree, o: Offset, key: Key) {
    && o in t.nodes && t.nodes[o].Leaf? && Usable(t.nodes[o]) && Below(t.nodes[o], key) && t.root in t.level
    && (t.root == o ||
        (t.root in t.nodes && t.nodes[t.root].Internal? && Usable(t.nodes[t.root])
         && t.nodes[t.root].children[ChildSlot(t.nodes[t.root].keys, key)] == o))
  }

  lemma Step(s: State, th: Thread, t': Tree, th': Thread)
    requires s.threads.Keys == {0, 1} && Reached(With(s, th)) && Acts(s.t, th, t', th')
    ensures Reached(State(t', s.threads[1 := th']))
  {
    hide Reached, Acts;
    var a, b := With(s, th), State(t', s.threads[1 := th']);
    assert b.threads == a.threads[1 := b.threads[1]];
    ReachedNext(a, 1, b);
  }

  lemma Lock(s: State, th: Thread)
    requires Ready(s) && Reached(With(s, th)) && Waits(th)
    ensures Reached(With(s, Locked(th)))
  {
    hide Reached;
    var a, b := With(s, th), With(s, Locked(th));
    assert b.threads == a.threads[1 := b.threads[1]];
    ReachedNext(a, 1, b);
  }

  /** Thread 1 starts a write and comes to the leaf with its lock. */
  lemma Arrive(s: State, o: Offset, key: Key, val: Value) returns (stk: seq<Offset>)
    requires Reached(s) && Ready(s) && Path(s.t, o, key)
    ensures s.t.root in s.t.level && Reached(With(s, AtLeaf(Job(key, val, s.t.level[s.t.root]), o, stk)))
    ensures s.t.root == o ==> stk == []
  {
    hide Reached;
    var job := Job(key, val, s.t.level[s.t.root]);
    var root := s.t.root;
    var first := DescendLocking(job, root, []);
    assert Starts(s.t, s.threads[1], first) && With(s, first).threads == s.threads[1 := first];
    ReachedNext(s, 1, With(s, first));
    Lock(s, first);
    stk := [];
    if root != o {
      Step(s, Descending(job, root, []), s.t, DescendLocking(job, o, [root]));
      Lock(s, DescendLocking(job, o, [root]));
      stk := [root];
      assert [] + [root] == [root];
    }
    Step(s, Descending(job, o, stk), s.t, LeafLocking(job, o, stk));
    Lock(s, LeafLocking(job, o, stk));
  }

  /** Thread 1 writes into a leaf with room. */
  lemma Insert(s: State, o: Offset, key: Key, val: Value)
    requires Reached(s) && Ready(s) && Path(s.t, o, key) && |s.t.nodes[o].keys| < 2 * L
    ensures s.t.root in s.t.level
    ensures Reached(State(InsertInLeaf(s.t, o, key, val), s.threads[1 := WriteDone(Job(key, val, s.t.level[s.t.root]))]))
  {
    hide Reached;
    var job := Job(key, val, s.t.level[s.t.root]);
    var stk := Arrive(s, o, key, val);
    Step(s, AtLeaf(job, o, stk), InsertInLeaf(s.t, o, key, val), WriteDone(job));
  }

  // ----- the keys

  /** Even numbers; with `far`, those from the L-th on are moved up by 4 * L. */
  function Rung(far: bool, i: nat): Key {
    if far && i >= L then 4 * L + 2 * i else 2 * i
  }

  function Ladder(right: Offset, high: Key, root: bool, far: bool, k: nat, v: Value): Node {
    Leaf(right, high, root, seq(k, i requires 0 <= i => Rung(far, i)), seq(k, i requires 0 <= i => v))
  }

  lemma LadderShape(right: Offset, high: Key, root: bool, far: bool, k: nat, v: Value)
    requires k <= 2 * L
    ensures var n := Ladder(right, high, root, far, k, v);
      && n.Leaf? && n.right == right && n.high == high && n.root == root
      && Shaped(n) && |n.keys| == k && |n.vals| == k
      && (forall x :: x in n.keys ==> x < Rung(far, k) && x % 2 == 0)
      && forall i :: 0 <= i < k ==> n.keys[i] == Rung(far, i) && Stores(n, Rung(far, i), v)
  {
    var n := Ladder(right, high, root, far, k, v);
    forall i | 0 <= i < k ensures n.keys[i] == Rung(far, i) && Stores(n, Rung(far, i), v) {
      assert n.keys[i] == Rung(far, i) && n.vals[i] == v;
    }
  }

  /** The next rung goes to the end. */
  lemma LadderGrows(right: Offset, high: Key, root: bool, far: bool, k: nat, v: Value)
    requires k < 2 * L
    ensures AddKeyValue(Ladder(right, high, root, far, k, v), Rung(far, k), v) == Ladder(right, high, root, far, k + 1, v)
  {
    var n, n' := Ladder(right, high, root, far, k, v), Ladder(right, high, root, far, k + 1, v);
    LadderShape(right, high, root, far, k, v);
    var i := Fgoe(n.keys, Rung(far, k));
    assert i == k;
    assert n'.keys == InsertAt(n.keys, k, Rung(far, k)) && n'.vals == InsertAt(n.vals, k, v);
  }

  // ----- the root fills up

  /** The empty file after k writes: the root is a leaf with k keys. */
  function Filling(k: nat, v: Value): Tree {
    Put(Empty(), ROOT_OFFSET, Ladder(INVALID_OFFSET, 0, true, true, k, v))
  }

  /** Thread 0 has read the root offset of the empty file, and waits for the root's lock. */
  predicate Parked(th: Thread) {
    (th.ReadLocking? && th.at == ROOT_OFFSET)
    || (th.DescendLocking? && th.at == ROOT_OFFSET && th.stk == [] && th.job.top == 0)
  }

  lemma FillingFacts(k: nat, v: Value)
    requires k <= 2 * L
    ensures var t := Filling(k, v);
      && ROOT_OFFSET in t.nodes && t.root == ROOT_OFFSET && t.root in t.level && t.level[t.root] == 0
      && (forall key :: Path(t, ROOT_OFFSET, key)) && |t.nodes[ROOT_OFFSET].keys| == k
      && (k < 2 * L ==> InsertInLeaf(t, ROOT_OFFSET, Rung(true, k), v) == Filling(k + 1, v))
  {
    LadderShape(INVALID_OFFSET, 0, true, true, k, v);
    if k < 2 * L { LadderGrows(INVALID_OFFSET, 0, true, true, k, v); }
  }

  lemma ParkedReached(p: Thread, v: Value)
    requires Parked(p)
    ensures Reached(State(Filling(0, v), map[0 := p, 1 := Idle]))
  {
    var a, b := State(Empty(), map[0 := Idle, 1 := Idle]), State(Empty(), map[0 := p, 1 := Idle]);
    StartReached(a);
    hide Reached;
    assert b.threads == a.threads[0 := b.threads[0]];
    ReachedNext(a, 0, b);
    var n := Ladder(INVALID_OFFSET, 0, true, true, 0, v);
    assert n.keys == [] && n.vals == [];
    assert Filling(0, v) == Empty();
  }

  lemma StartReached(s: State)
    requires Init(s)
    ensures Reached(s)
  {
    var b, who: seq<nat> := [s], [];
    assert Run(b, who) && b[|who|] == s;
  }

  lemma {:induction false} FillingReached(p: Thread, k: nat, v: Value) returns (done: Thread)
    requires Parked(p) && k <= 2 * L
    ensures Reached(State(Filling(k, v), map[0 := p, 1 := done])) && (done.Idle? || done.WriteDone?)
  {
    hide Reached, Filling, Path, Contents, InsertInLeaf, Usable;
    if k == 0 {
      ParkedReached(p, v);
      done := Idle;
    } else {
      var before := FillingReached(p, k - 1, v);
      var s := State(Filling(k - 1, v), map[0 := p, 1 := before]);
      FillingFacts(k - 1, v);
      Insert(s, ROOT_OFFSET, Rung(true, k - 1), v);
      done := WriteDone(Job(Rung(true, k - 1), v, 0));
      assert s.threads[1 := done] == map[0 := p, 1 := done];
    }
  }

  // ----- a lost overwrite

  lemma SwallowFacts(v: Value)
    ensures var t := Filling(2 * L, v);
      && ROOT_OFFSET in t.nodes && HasKey(t.nodes[ROOT_OFFSET], 0) && Swallows(t, 0) && Maps(t, 0, v)
      && forall w :: InsertInLeaf(t, ROOT_OFFSET, 0, w) == t
  {
    LadderShape(INVALID_OFFSET, 0, true, true, 2 * L, v);
    var t := Filling(2 * L, v);
    var n := t.nodes[ROOT_OFFSET];
    assert n.keys[0] == Rung(true, 0) == 0 && 0 in n.keys && Stores(n, Rung(true, 0), v);
    HasKeyIsMembership(n, 0);
    assert Covers(t, ROOT_OFFSET, 0);
    assert Put(t, ROOT_OFFSET, n) == t;
  }

  lemma SwallowStep(t: Tree, job: Job, stk: seq<Offset>)
    requires Path(t, ROOT_OFFSET, job.key) && HasKey(t.nodes[ROOT_OFFSET], job.key)
    requires InsertInLeaf(t, ROOT_OFFSET, job.key, job.val) == t
    ensures Acts(t, AtLeaf(job, ROOT_OFFSET, stk), t, WriteDone(job))
  {
  }

  /** After 2 * L writes the root is a full leaf. Then overwriting a key is lost: thread 1 writes w
      for the key 0, which stays bound to v. */
  lemma OverwriteIsLost(v: Value, w: Value) returns (s: State, s': State)
    requires v != w
    ensures Reached(s) && 1 in s.threads && 1 in s'.threads && Next(s, 1, s')
    ensures s.threads[1].AtLeaf? && s.threads[1].job.key == 0 && s.threads[1].job.val == w && s'.threads[1].WriteDone?
    ensures Swallows(s.t, 0) && s'.t == s.t && 0 in Contents(s'.t) && Contents(s'.t)[0] == v
  {
    hide Reached, Contents, Filling, Path, Swallows, HasKey, InsertInLeaf, Maps, Acts, Safe;
    var p := ReadLocking(0, ROOT_OFFSET);
    var done := FillingReached(p, 2 * L, v);
    var q := State(Filling(2 * L, v), map[0 := p, 1 := done]);
    FillingFacts(2 * L, v);
    var stk := Arrive(q, ROOT_OFFSET, 0, w);
    var job := Job(0, w, 0);
    s := With(q, AtLeaf(job, ROOT_OFFSET, stk));
    s' := With(q, WriteDone(job));
    SwallowFacts(v);
    SwallowStep(q.t, job, stk);
    assert s'.threads == s.threads[1 := s'.threads[1]];
    ReachedContents(s, 0, v);
  }

  lemma ReachedContents(s: State, k: Key, v: Value)
    requires Reached(s) && Maps(s.t, k, v)
    ensures k in Contents(s.t) && Contents(s.t)[k] == v
  {
    hide Reached, Contents, Tiled, Placed, Linked;
    ReachedIsSafe(s);
    ContentsIsMaps(s.t, k, v);
  }

  // ----- the root splits

  /** After one more write: two leaves under a new root. */
  function Grown(v: Value): Tree
  {
    var t := Filling(2 * L, v);
    var (l, r) := SplitLeaf(Ladder(INVALID_OFFSET, 0, true, true, 2 * L, v), t.free, 8 * L, v);
    PutRoot(PutHalves(t, ROOT_OFFSET, l, r), l.high, ROOT_OFFSET, t.free)
  }

  /** The left leaf holds the first L rungs, and ends where the L-th was. */
  lemma LeftLeaf(v: Value)
    ensures var n := Ladder(INVALID_OFFSET, 0, true, true, 2 * L, v);
      && |n.keys| == |n.vals| == 2 * L && !HasKey(n, 8 * L)
      && SplitLeaf(n, Filling(2 * L, v).free, 8 * L, v).0 == Ladder(Filling(2 * L, v).free, 6 * L, false, false, L, v)
      && SplitLeaf(n, Filling(2 * L, v).free, 8 * L, v).0.high == 6 * L
  {
    LadderShape(INVALID_OFFSET, 0, true, true, 2 * L, v);
    var n := Ladder(INVALID_OFFSET, 0, true, true, 2 * L, v);
    HasKeyIsMembership(n, 8 * L);
    assert n.keys[L] == Rung(true, L) == 6 * L;
    var m := Ladder(Filling(2 * L, v).free, 6 * L, false, false, L, v);
    assert n.keys[..L] == m.keys && n.vals[..L] == m.vals;
  }

  lemma FullFacts(v: Value)
    ensures var n := Ladder(INVALID_OFFSET, 0, true, true, 2 * L, v);
      && n.Leaf? && n.root && n.right == INVALID_OFFSET && Usable(n) && |n.keys| == 2 * L && !HasKey(n, 8 * L)
      && Filling(2 * L, v).nodes[ROOT_OFFSET] == n
  {
    LeftLeaf(v);
    LadderShape(INVALID_OFFSET, 0, true, true, 2 * L, v);
  }

  lemma MustSplitActs(v: Value)
    ensures Acts(Filling(2 * L, v), AtLeaf(Job(8 * L, v, 0), ROOT_OFFSET, []),
                 Filling(2 * L, v), Holding(Job(8 * L, v, 0), ROOT_OFFSET, 8 * L, INVALID_OFFSET, []))
  {
    FullFacts(v);
    hide Ladder;
  }

  lemma GrowActs(v: Value)
    ensures Acts(Filling(2 * L, v), Holding(Job(8 * L, v, 0), ROOT_OFFSET, 8 * L, INVALID_OFFSET, []),
                 Grown(v), WriteDone(Job(8 * L, v, 0)))
  {
    FullFacts(v);
    hide Ladder;
  }

  lemma GrowStep(s: State, v: Value)
    requires s.t == Filling(2 * L, v) && s.threads.Keys == {0, 1}
    requires Reached(With(s, AtLeaf(Job(8 * L, v, 0), ROOT_OFFSET, [])))
    ensures Reached(State(Grown(v), s.threads[1 := WriteDone(Job(8 * L, v, 0))]))
  {
    hide Reached, Acts, Grown, Filling;
    var job := Job(8 * L, v, 0);
    MustSplitActs(v);
    GrowActs(v);
    Step(s, AtLeaf(job, ROOT_OFFSET, []), s.t, Holding(job, ROOT_OFFSET, 8 * L, INVALID_OFFSET, []));
    Step(s, Holding(job, ROOT_OFFSET, 8 * L, INVALID_OFFSET, []), Grown(v), WriteDone(job));
  }

  lemma GrownReached(p: Thread, v: Value) returns (done: Thread)
    requires Parked(p)
    ensures Reached(State(Grown(v), map[0 := p, 1 := done])) && done.WriteDone?
  {
    hide Reached, Filling, Path, Grown;
    var before := FillingReached(p, 2 * L, v);
    var s := State(Filling(2 * L, v), map[0 := p, 1 := before]);
    FillingFacts(2 * L, v);
    var stk := Arrive(s, ROOT_OFFSET, 8 * L, v);
    GrowStep(s, v);
    done := WriteDone(Job(8 * L, v, 0));
    assert s.threads[1 := done] == map[0 := p, 1 := done];
  }

  /** Then the left leaf fills up again: it holds the first k even numbers. */
  function Refilling(k: nat, v: Value): Tree {
    Put(Grown(v), ROOT_OFFSET, Ladder(Filling(2 * L, v).free, 6 * L, false, false, k, v))
  }

  lemma GrownFacts(v: Value)
    ensures var t := Grown(v);
      && Refilling(L, v) == t && ROOT_OFFSET in t.nodes && t.root != ROOT_OFFSET
      && t.root in t.level && t.level[t.root] == 1 && t.root in t.nodes
      && t.nodes[t.root] == Internal(INVALID_OFFSET, 0, true, [6 * L], [ROOT_OFFSET, Filling(2 * L, v).free])
  {
    LeftLeaf(v);
    hide Ladder, SplitLeaf;
  }

  lemma RefillingFacts(k: nat, v: Value)
    requires L <= k <= 2 * L
    ensures Refilling(L, v) == Grown(v)
    ensures var t := Refilling(k, v);
      && ROOT_OFFSET in t.nodes && t.root in t.level && t.level[t.root] == 1
      && Path(t, ROOT_OFFSET, 2 * k) && Path(t, ROOT_OFFSET, 1) && |t.nodes[ROOT_OFFSET].keys| == k
      && (k < 2 * L ==> InsertInLeaf(t, ROOT_OFFSET, 2 * k, v) == Refilling(k + 1, v))
  {
    hide Grown, Filling;
    GrownFacts(v);
    LadderShape(Filling(2 * L, v).free, 6 * L, false, false, k, v);
    if k < 2 * L { RefillingGrows(k, v); }
    hide Ladder, Shaped;
    FirstSlot(6 * L, 2 * k);
    FirstSlot(6 * L, 1);
  }

  lemma RefillingGrows(k: nat, v: Value)
    requires k < 2 * L && |Ladder(Filling(2 * L, v).free, 6 * L, false, false, k, v).vals| == k
    ensures ROOT_OFFSET in Refilling(k, v).nodes
    ensures var n := Refilling(k, v).nodes[ROOT_OFFSET];
      && n.Leaf? && |n.vals| == |n.keys| && InsertInLeaf(Refilling(k, v), ROOT_OFFSET, 2 * k, v) == Refilling(k + 1, v)
  {
    hide Grown, Filling;
    LadderGrows(Filling(2 * L, v).free, 6 * L, false, false, k, v);
  }

  lemma FirstSlot(sep: Key, key: Key)
    requires key < sep
    ensures ChildSlot([sep], key) == 0
  {
  }

  lemma {:induction false} RefillingReached(p: Thread, k: nat, v: Value) returns (done: Thread)
    requires Parked(p) && L <= k <= 2 * L
    ensures Reached(State(Refilling(k, v), map[0 := p, 1 := done])) && done.WriteDone?
  {
    hide Reached, Refilling, Grown, Path, Contents;
    if k == L {
      RefillingFacts(L, v);
      done := GrownReached(p, v);
    } else {
      var before := RefillingReached(p, k - 1, v);
      var s := State(Refilling(k - 1, v), map[0 := p, 1 := before]);
      RefillingFacts(k - 1, v);
      Insert(s, ROOT_OFFSET, 2 * (k - 1), v);
      done := WriteDone(Job(2 * (k - 1), v, 1));
      assert s.threads[1 := done] == map[0 := p, 1 := done];
    }
  }

  // ----- a crash

  lemma CrashFacts(v: Value, job: Job)
    requires job.key == 1
    ensures var t := Refilling(2 * L, v);
      && Acts(t, Descending(job, ROOT_OFFSET, []), t, LeafLocking(job, ROOT_OFFSET, []))
      && Acts(t, AtLeaf(job, ROOT_OFFSET, []), t, Holding(job, ROOT_OFFSET, 1, INVALID_OFFSET, []))
      && Acts(t, Holding(job, ROOT_OFFSET, 1, INVALID_OFFSET, []), t, Crashed(job, ROOT_OFFSET, 1, INVALID_OFFSET))
  {
    RefillingFacts(2 * L, v);
    LadderShape(Filling(2 * L, v).free, 6 * L, false, false, 2 * L, v);
    HasKeyIsMembership(Refilling(2 * L, v).nodes[ROOT_OFFSET], 1);
  }

  /** A writer that started at the old root, before it was split, has to split that leaf and
      finds its stack empty. */
  lemma WriteCanCrash(v: Value, w: Value) returns (s: State)
    ensures Reached(s) && 0 in s.threads && s.threads[0] == Crashed(Job(1, w, 0), ROOT_OFFSET, 1, INVALID_OFFSET)
  {
    hide Reached, Refilling, Acts;
    var job := Job(1, w, 0);
    var p := DescendLocking(job, ROOT_OFFSET, []);
    var done := RefillingReached(p, 2 * L, v);
    var t := Refilling(2 * L, v);
    CrashFacts(v, job);
    First(t, p, Descending(job, ROOT_OFFSET, []), done);
    First(t, Descending(job, ROOT_OFFSET, []), LeafLocking(job, ROOT_OFFSET, []), done);
    First(t, LeafLocking(job, ROOT_OFFSET, []), AtLeaf(job, ROOT_OFFSET, []), done);
    First(t, AtLeaf(job, ROOT_OFFSET, []), Holding(job, ROOT_OFFSET, 1, INVALID_OFFSET, []), done);
    First(t, Holding(job, ROOT_OFFSET, 1, INVALID_OFFSET, []), Crashed(job, ROOT_OFFSET, 1, INVALID_OFFSET), done);
    s := State(t, map[0 := Crashed(job, ROOT_OFFSET, 1, INVALID_OFFSET), 1 := done]);
  }

  /** Thread 0 goes on while thread 1 has finished. */
  lemma First(t: Tree, th: Thread, th': Thread, done: Thread)
    requires Reached(State(t, map[0 := th, 1 := done])) && done.WriteDone?
    requires Acts(t, th, t, th') || (Waits(th) && th' == Locked(th))
    ensures Reached(State(t, map[0 := th', 1 := done]))
  {
    hide Reached, Acts;
    var a, b := State(t, map[0 := th, 1 := done]), State(t, map[0 := th', 1 := done]);
    assert b.threads == a.threads[0 := b.threads[0]];
    ReachedNext(a, 0, b);
  }

  // ----- a read that misses, as it is written

  /** The read as written does not move right on high == key. After the split and one more insertion, a
      reader of 6 * L that came to the left leaf ends there; the leaf does not hold the key, although
      the tree does. */
  lemma ReadAsWrittenCanMiss(v: Value) returns (s: State)
    requires v != NO_VALUE
    ensures Reached(s) && 0 in s.threads && s.threads[0] == Reading(6 * L, ROOT_OFFSET) && ROOT_OFFSET in s.t.nodes
    ensures var n := s.t.nodes[ROOT_OFFSET];
      && n.Leaf? && Usable(n) && n.right != INVALID_OFFSET && n.high == 6 * L && !(n.high < 6 * L)
      && !HasKey(n, 6 * L) && |n.keys| == L + 1
    ensures Get(Contents(s.t), 6 * L) == v
  {
    hide Reached, Refilling, Contents, Maps;
    var p := ReadLocking(6 * L, ROOT_OFFSET);
    var done := RefillingReached(p, L + 1, v);
    var t := Refilling(L + 1, v);
    First(t, p, Reading(6 * L, ROOT_OFFSET), done);
    s := State(t, map[0 := Reading(6 * L, ROOT_OFFSET), 1 := done]);
    MissFacts(v);
    RightLeafHolds(v);
    ReachedContents(s, 6 * L, v);
  }

  lemma MissFacts(v: Value)
    ensures ROOT_OFFSET in Refilling(L + 1, v).nodes
    ensures var n := Refilling(L + 1, v).nodes[ROOT_OFFSET];
      && n.Leaf? && Usable(n) && n.right != INVALID_OFFSET && n.high == 6 * L && !HasKey(n, 6 * L) && |n.keys| == L + 1
  {
    LadderShape(Filling(2 * L, v).free, 6 * L, false, false, L + 1, v);
    HasKeyIsMembership(Refilling(L + 1, v).nodes[ROOT_OFFSET], 6 * L);
  }

  lemma RightLeafHolds(v: Value)
    ensures Maps(Refilling(L + 1, v), 6 * L, v)
  {
    LadderShape(INVALID_OFFSET, 0, true, true, 2 * L, v);
    LeftLeaf(v);
    var t, n, free := Refilling(L + 1, v), Ladder(INVALID_OFFSET, 0, true, true, 2 * L, v), Filling(2 * L, v).free;
    assert Stores(n, Rung(true, L), v) && Rung(true, L) == 6 * L;
    SplitLeafBinds(n, free, 8 * L, v, 6 * L, v);
    var (l, r) := SplitLeaf(n, free, 8 * L, v);
    SplitLeafShape(n, free, 8 * L, v);
    assert Stores(r, 6 * L, v);
    assert t.nodes[free] == r;
  }
}
