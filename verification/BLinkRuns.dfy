/** The B-link tree under any interleaving of any number of readers and writers
    (BLinkTree/src/tree.cpp:59-308): what holds in every reachable state and over every run.
 */
module BLinkRuns {
  import opened BLinkNode
  import opened BLinkFile
  import opened BLinkSteps
  import opened BLinkParents
  import opened BLinkThreads
  import opened BLinkSafety

  lemma InitIsSafe(s: State)
    requires Init(s)
    ensures Safe(s) && Contents(s.t) == map[]
  {
    EmptyInv();
  }

  lemma StartsIsGood(t: Tree, th: Thread, th': Thread)
    requires Inv(t) && Starts(t, th, th')
    ensures Good(t, th, t, th')
  {
    GrowsSame(t);
  }

  lemma LockedIsGood(t: Tree, th: Thread)
    requires Inv(t) && ThreadOk(t, th) && Waits(th)
    ensures Grows(t, t, WriteHeld(th)) && ThreadOk(t, Locked(th)) && OpenOf(Locked(th)) == OpenOf(th)
    ensures WriteHeld(Locked(th)) == WriteHeld(th) + WantsWrite(th) && ReadHeld(Locked(th)) == WantsRead(th)
  {
    hide NodeOk, Tiled, Placed, Rooted, PostedBut;
    GrowsSame(t);
  }

  /** A step changes the file, and what its thread knows and holds, in the way of `Good`,
      except that it may take the lock that it waits for, if that is free. */
  ghost predicate StepOk(s: State, i: nat, s': State)
    requires i in s.threads && i in s'.threads && Located(s.t)
  {
    var th, th' := s.threads[i], s'.threads[i];
    && Inv(s'.t) && Grows(s.t, s'.t, WriteHeld(th)) && ThreadOk(s'.t, th')
    && HeldApart(s.threads, i, th')
    && KeepsPosted(s.t, s'.t, OpenOf(th), OpenOf(th'))
  }

  ghost predicate HeldApart(threads: map<nat, Thread>, i: nat, th': Thread)
    requires i in threads
  {
    forall j :: j in threads && j != i ==>
      && WriteHeld(th') * WriteHeld(threads[j]) <= WriteHeld(threads[i])
      && WriteHeld(th') * ReadHeld(threads[j]) <= WriteHeld(threads[i])
      && ReadHeld(th') !! WriteHeld(threads[j])
  }

  lemma ExclusiveAfter(threads: map<nat, Thread>, i: nat, th': Thread)
    requires Exclusive(threads) && i in threads && HeldApart(threads, i, th')
    ensures Exclusive(threads[i := th'])
  {
    forall j | j in threads && j != i
      ensures WriteHeld(th') !! WriteHeld(threads[j]) && WriteHeld(th') !! ReadHeld(threads[j])
    {
      assert WriteHeld(th') * WriteHeld(threads[j]) <= WriteHeld(threads[i]) * WriteHeld(threads[j]);
      assert WriteHeld(th') * ReadHeld(threads[j]) <= WriteHeld(threads[i]) * ReadHeld(threads[j]);
    }
  }

  ghost predicate Located(t: Tree) {
    t.low.Keys == t.level.Keys == t.nodes.Keys && t.root in t.nodes
  }

  lemma NextIsOk(s: State, i: nat, s': State)
    requires Safe(s) && Next(s, i, s')
    ensures Located(s.t) && StepOk(s, i, s')
  {
    hide Core, Rooted, Contents, KeepsPosted, PostedBut, Acts, Starts;
    Keyed(s.t);
    var th, th' := s.threads[i], s'.threads[i];
    if s'.t == s.t && Starts(s.t, th, th') {
      StartsIsGood(s.t, th, th');
    } else if s'.t == s.t && Waits(th) && th' == Locked(th) && forall j :: j in s.threads ==> !Blocks(s, j, i) {
      LockedIsGood(s.t, th);
      SameKeepsPosted(s.t, OpenOf(th));
    } else {
      ActsAreGood(s.t, th, s'.t, th');
      ActsStore(s.t, th, s'.t, th');
    }
  }

  lemma OpenAfter(s: State, i: nat, s': State)
    requires Next(s, i, s')
    ensures Open(s.threads) - OpenOf(s.threads[i]) + OpenOf(s'.threads[i]) <= Open(s'.threads)
  {
    forall c | c in Open(s.threads) - OpenOf(s.threads[i]) ensures c in Open(s'.threads) {
      var j :| j in s.threads && c in OpenOf(s.threads[j]);
      assert j != i && s'.threads[j] == s.threads[j];
    }
  }

  /** The whole invariant is inductive: no step of any thread breaks it. */
  lemma NextKeepsSafe(s: State, i: nat, s': State)
    requires Safe(s) && Next(s, i, s')
    ensures Safe(s')
  {
    hide Inv, ThreadOk, Acts, Starts, Exclusive, HeldApart, Grows, Open, KeepsPosted;
    NextIsOk(s, i, s');
    forall j | j in s'.threads ensures Located(s'.t) && ThreadOk(s'.t, s'.threads[j]) {
      OthersStay(s, i, s', j);
    }
    ExclusiveAfter(s.threads, i, s'.threads[i]);
    PostedAfter(s, i, s');
  }

  lemma OthersStay(s: State, i: nat, s': State, j: nat)
    requires Safe(s) && Next(s, i, s') && StepOk(s, i, s') && j in s.threads
    ensures Located(s'.t) && ThreadOk(s'.t, s'.threads[j])
  {
    hide Inv, ThreadOk, Acts, Starts;
    if j != i { ThreadOkStays(s.t, s'.t, WriteHeld(s.threads[i]), s.threads[j]); }
  }

  lemma PostedAfter(s: State, i: nat, s': State)
    requires Safe(s) && Next(s, i, s') && KeepsPosted(s.t, s'.t, OpenOf(s.threads[i]), OpenOf(s'.threads[i]))
    ensures PostedBut(s'.t, Open(s'.threads))
  {
    hide Inv, ThreadOk, Acts, Starts;
    OpenAfter(s, i, s');
    assert PostedBut(s'.t, Open(s.threads) - OpenOf(s.threads[i]) + OpenOf(s'.threads[i]));
  }

  // ----- reads

  /** A read answers what the tree stores at the moment it reads its last leaf, in every
      interleaving: also while splits have not been posted yet. */
  lemma ReadAnswers(s: State, i: nat, s': State)
    requires Safe(s) && Next(s, i, s') && s.threads[i].Reading? && s'.threads[i].ReadDone?
    ensures s'.threads[i].result == Get(Contents(s.t), s.threads[i].rkey)
  {
    hide Contents, Tiled, Placed, PostedBut, Exclusive, Rooted;
    var th := s.threads[i];
    Keyed(s.t);
    assert ThreadOk(s.t, th) && Acts(s.t, th, s'.t, s'.threads[i]);
    NodeFacts(s.t, th.at);
    LeafDecides(s.t, th.at, th.rkey);
  }

  // ----- writes

  /** What a step stores: at most one binding, that of the write that the thread is in. */
  function Effect(s: State, i: nat, s': State): seq<(Key, Value)>
    requires i in s.threads && i in s'.threads
  {
    var th := s.threads[i];
    if Unwritten(s.t, th) && !Unwritten(s'.t, s'.threads[i]) && !Swallowed(s.t, th) then [(th.job.key, th.job.val)] else []
  }

  function Apply(m: map<Key, Value>, e: seq<(Key, Value)>): map<Key, Value> {
    if e == [] then m else Apply(m, e[..|e| - 1])[e[|e| - 1].0 := e[|e| - 1].1]
  }

  /** A step changes the stored map by exactly its effect. */
  lemma NextStores(s: State, i: nat, s': State)
    requires Safe(s) && Next(s, i, s')
    ensures Contents(s'.t) == Apply(Contents(s.t), Effect(s, i, s'))
  {
    hide Inv, ThreadOk, PostedBut, Exclusive, Contents;
    var th, th' := s.threads[i], s'.threads[i];
    if Acts(s.t, th, s'.t, th') {
      ActsStore(s.t, th, s'.t, th');
    }
    assert Apply(Contents(s.t), []) == Contents(s.t);
    if Effect(s, i, s') != [] {
      assert Effect(s, i, s')[..0] == [];
    }
  }

  // ----- runs

  ghost predicate Run(b: seq<State>, who: seq<nat>) {
    && |b| == |who| + 1 && Init(b[0])
    && forall k :: 0 <= k < |who| ==> Next(b[k], who[k], b[k + 1])
  }

  /** Some run ends in this state. */
  ghost predicate Reached(s: State) {
    exists b, who :: Run(b, who) && b[|who|] == s
  }

  lemma ReachedNext(s: State, i: nat, s': State)
    requires Reached(s) && Next(s, i, s')
    ensures Reached(s')
  {
    hide Next, Init;
    var b, who :| Run(b, who) && b[|who|] == s;
    var b', who' := b + [s'], who + [i];
    forall k | 0 <= k < |who'| ensures Next(b'[k], who'[k], b'[k + 1]) {
      if k < |who| { assert Next(b[k], who[k], b[k + 1]); }
    }
    assert Run(b', who') && b'[|who'|] == s';
  }

  lemma ReachedIsSafe(s: State)
    requires Reached(s)
    ensures Safe(s)
  {
    hide Safe, Next, Init, Contents;
    var b, who :| Run(b, who) && b[|who|] == s;
    RunStores(b, who, |who|);
  }

  /** The bindings that the first k steps of a run store, in order. */
  ghost function History(b: seq<State>, who: seq<nat>, k: nat): seq<(Key, Value)>
    requires Run(b, who) && k <= |who|
  {
    if k == 0 then [] else History(b, who, k - 1) + Effect(b[k - 1], who[k - 1], b[k])
  }

  lemma {:induction false} ApplyConcat(m: map<Key, Value>, e: seq<(Key, Value)>, f: seq<(Key, Value)>)
    requires |f| <= 1
    ensures Apply(m, e + f) == Apply(Apply(m, e), f)
  {
    if f == [] {
      assert e + f == e;
    } else {
      assert (e + f)[..|e + f| - 1] == e && f[..0] == [];
    }
  }

  /** Over every run, the file stores what its writes stored so far, in the order in which
      they put their binding into a leaf; and the tree is a B-link tree throughout. */
  lemma {:induction false} RunStores(b: seq<State>, who: seq<nat>, k: nat)
    requires Run(b, who) && k <= |who|
    ensures Safe(b[k]) && Contents(b[k].t) == Apply(map[], History(b, who, k))
  {
    hide Safe, Contents;
    if k == 0 {
      InitIsSafe(b[0]);
    } else {
      RunStores(b, who, k - 1);
      assert Next(b[k - 1], who[k - 1], b[k - 1 + 1]);
      NextKeepsSafe(b[k - 1], who[k - 1], b[k]);
      NextStores(b[k - 1], who[k - 1], b[k]);
      ApplyConcat(map[], History(b, who, k - 1), Effect(b[k - 1], who[k - 1], b[k]));
    }
  }

  /** Over every run, a read answers with the last value stored for its key before the
      step in which it reads its last leaf. */
  lemma RunReads(b: seq<State>, who: seq<nat>, k: nat)
    requires Run(b, who) && k < |who|
    requires who[k] in b[k].threads && who[k] in b[k + 1].threads
    requires b[k].threads[who[k]].Reading? && b[k + 1].threads[who[k]].ReadDone?
    ensures b[k + 1].threads[who[k]].result == Get(Apply(map[], History(b, who, k)), b[k].threads[who[k]].rkey)
  {
    hide Safe, Contents, Init;
    RunStores(b, who, k);
    ReadAnswers(b[k], who[k], b[k + 1]);
  }

  // ----- a read answers once, within its call

  /** Thread i is in a read of this key, and has not answered yet. */
  predicate ToRead(s: State, i: nat, key: Key) {
    i in s.threads && (s.threads[i].ReadLocking? || s.threads[i].Reading?) && s.threads[i].rkey == key
  }

  lemma ReadGoesOn(s: State, k: nat, s': State, i: nat, key: Key)
    requires Next(s, k, s') && ToRead(s, i, key)
    ensures ToRead(s', i, key) || (k == i && i in s'.threads && s.threads[i].Reading? && s'.threads[i].ReadDone? && s'.threads[i].rkey == key)
  {
  }

  lemma DoneStays(s: State, k: nat, s': State, i: nat)
    requires Next(s, k, s') && i in s.threads && s.threads[i].ReadDone?
    requires k == i ==> i in s'.threads && !Starts(s.t, s.threads[i], s'.threads[i])
    ensures i in s'.threads && s'.threads[i] == s.threads[i]
  {
  }

  /** From lo to hi thread i does not start another call. */
  ghost predicate OneCall(b: seq<State>, who: seq<nat>, i: nat, lo: nat, hi: nat) {
    && lo <= hi <= |who| && |b| == |who| + 1
    && forall k :: lo <= k < hi && who[k] == i ==>
         i in b[k].threads && i in b[k + 1].threads && !Starts(b[k].t, b[k].threads[i], b[k + 1].threads[i])
  }

  lemma {:induction false} DoneUntil(b: seq<State>, who: seq<nat>, i: nat, lo: nat, hi: nat)
    requires Run(b, who) && OneCall(b, who, i, lo, hi) && i in b[lo].threads && b[lo].threads[i].ReadDone?
    ensures i in b[hi].threads && b[hi].threads[i] == b[lo].threads[i]
    decreases hi - lo
  {
    hide Init, Next, Starts;
    if lo < hi {
      assert Next(b[lo], who[lo], b[lo + 1]);
      DoneStays(b[lo], who[lo], b[lo + 1], i);
      DoneUntil(b, who, i, lo + 1, hi);
    }
  }

  /** Between its start and its end a read answers at one step: with the last value that was stored by then for
      the key of its call, wherever it was sent on the way. */
  lemma {:induction false} ReadsOnce(b: seq<State>, who: seq<nat>, i: nat, key: Key, lo: nat, hi: nat) returns (m: nat)
    requires Run(b, who) && OneCall(b, who, i, lo, hi) && ToRead(b[lo], i, key) && i in b[hi].threads && b[hi].threads[i].ReadDone?
    ensures lo <= m < hi && who[m] == i && ToRead(b[m], i, key)
    ensures b[hi].threads[i] == ReadDone(key, Get(Apply(map[], History(b, who, m)), key))
    decreases hi - lo
  {
    hide Init, Next, Starts, Contents;
    assert Next(b[lo], who[lo], b[lo + 1]);
    ReadGoesOn(b[lo], who[lo], b[lo + 1], i, key);
    if ToRead(b[lo + 1], i, key) {
      m := ReadsOnce(b, who, i, key, lo + 1, hi);
    } else {
      m := lo;
      RunReads(b, who, lo);
      DoneUntil(b, who, i, lo + 1, hi);
    }
  }

  // ----- a write stores its binding once

  predicate InWrite(th: Thread) {
    !th.Idle? && !th.ReadLocking? && !th.Reading? && !th.ReadDone?
  }

  /** Thread i is in this write, and the binding has been put into a leaf, or not yet. */
  ghost predicate Wrote(s: State, i: nat, job: Job) {
    i in s.threads && InWrite(s.threads[i]) && s.threads[i].job == job && !Unwritten(s.t, s.threads[i])
  }

  ghost predicate ToWrite(s: State, i: nat, job: Job) {
    i in s.threads && InWrite(s.threads[i]) && s.threads[i].job == job && Unwritten(s.t, s.threads[i])
  }

  /** Steps of other threads do not change how far a write has come. */
  lemma OthersKeepProgress(s: State, k: nat, s': State, i: nat, job: Job)
    requires Safe(s) && Next(s, k, s') && i in s.threads && i != k
    ensures s'.threads[i] == s.threads[i] && (ToWrite(s', i, job) <==> ToWrite(s, i, job))
  {
    hide Inv, Exclusive, PostedBut, Acts;
    NextIsOk(s, k, s');
    assert ThreadOk(s.t, s.threads[i]);
  }

  /** A binding once in a leaf is not put there again by the same write. */
  lemma WroteStays(s: State, i: nat, s': State, job: Job)
    requires Safe(s) && Next(s, i, s') && Wrote(s, i, job) && !Starts(s.t, s.threads[i], s'.threads[i])
    ensures Wrote(s', i, job)
  {
    hide Inv, Exclusive, PostedBut;
    NextIsOk(s, i, s');
    assert ThreadOk(s.t, s.threads[i]);
    if Acts(s.t, s.threads[i], s'.t, s'.threads[i]) {
      ActKeepsLevel(s.t, s.threads[i], s'.t, s'.threads[i]);
    }
  }

  lemma ActKeepsLevel(t: Tree, th: Thread, t': Tree, th': Thread)
    requires Located(t) && ThreadOk(t, th) && Acts(t, th, t', th') && InWrite(th) && !Unwritten(t, th)
    requires Grows(t, t', WriteHeld(th)) && ThreadOk(t', th')
    ensures InWrite(th') && th'.job == th.job && !Unwritten(t', th')
  {
    hide Halve, GrowRoot, PostChild;
  }

  /** Between its start and its end, a write puts its binding into a leaf at exactly one step: the
      binding of the call that was started, unless that step swallows it; none of the write's
      other steps stores anything. */
  lemma {:induction false} WritesOnce(b: seq<State>, who: seq<nat>, i: nat, lo: nat, hi: nat) returns (m: nat)
    requires Run(b, who) && lo <= hi <= |who| && i in b[lo].threads && i in b[hi].threads
    requires b[lo].threads[i].DescendLocking? && b[hi].threads[i].WriteDone?
    requires forall k :: lo <= k < hi && who[k] == i ==>
               i in b[k].threads && i in b[k + 1].threads && !Starts(b[k].t, b[k].threads[i], b[k + 1].threads[i])
    ensures var job := b[lo].threads[i].job;
      && lo <= m < hi && who[m] == i && ToWrite(b[m], i, job) && Wrote(b[m + 1], i, job)
      && (forall k :: lo <= k <= hi ==> (ToWrite(b[k], i, job) <==> k <= m) && (Wrote(b[k], i, job) <==> m < k))
      && Effect(b[m], i, b[m + 1]) == (if Swallowed(b[m].t, b[m].threads[i]) then [] else [(job.key, job.val)])
      && forall k :: lo <= k < hi && k != m && who[k] == i ==>
           i in b[k].threads && i in b[k + 1].threads && Effect(b[k], i, b[k + 1]) == []
    ensures b[hi].threads[i].job == b[lo].threads[i].job
  {
    hide Next, Init, Starts, Unwritten, Swallowed;
    var job := b[lo].threads[i].job;
    EndsOfWrite(b[lo], b[hi], i);
    m := lo;
    while !Wrote(b[m + 1], i, job)
      invariant lo <= m < hi
      invariant forall k :: lo <= k <= m ==> ToWrite(b[k], i, job) && !Wrote(b[k], i, job)
      decreases hi - m
    {
      NextProgress(b, who, i, m, job);
      assert m + 1 != hi;
      m := m + 1;
    }
    NextProgress(b, who, i, m, job);
    var n := m + 1;
    while n < hi
      invariant m + 1 <= n <= hi
      invariant forall k :: m < k <= n ==> Wrote(b[k], i, job)
    {
      NextProgress(b, who, i, n, job);
      n := n + 1;
    }
  }

  lemma EndsOfWrite(s: State, s': State, i: nat)
    requires i in s.threads && i in s'.threads && s.threads[i].DescendLocking? && s'.threads[i].WriteDone?
    ensures ToWrite(s, i, s.threads[i].job) && !Wrote(s, i, s.threads[i].job) && !ToWrite(s', i, s.threads[i].job)
  {
  }

  lemma NextProgress(b: seq<State>, who: seq<nat>, i: nat, k: nat, job: Job)
    requires Run(b, who) && k < |who| && i in b[k].threads && (ToWrite(b[k], i, job) || Wrote(b[k], i, job))
    requires who[k] == i ==> i in b[k + 1].threads && !Starts(b[k].t, b[k].threads[i], b[k + 1].threads[i])
    ensures i in b[k + 1].threads && (ToWrite(b[k + 1], i, job) || Wrote(b[k + 1], i, job))
    ensures Wrote(b[k], i, job) ==> Wrote(b[k + 1], i, job)
    ensures who[k] != i ==> (ToWrite(b[k + 1], i, job) <==> ToWrite(b[k], i, job))
  {
    hide Safe;
    RunStores(b, who, k);
    if who[k] != i {
      OthersKeepProgress(b[k], who[k], b[k + 1], i, job);
    } else if Wrote(b[k], i, job) {
      WroteStays(b[k], i, b[k + 1], job);
    } else {
      ToWriteGoesOn(b[k], i, b[k + 1], job);
    }
  }

  lemma ToWriteGoesOn(s: State, i: nat, s': State, job: Job)
    requires Next(s, i, s') && ToWrite(s, i, job) && !Starts(s.t, s.threads[i], s'.threads[i])
    ensures InWrite(s'.threads[i]) && s'.threads[i].job == job
  {
    hide Halve, GrowRoot, PostChild;
  }
}
