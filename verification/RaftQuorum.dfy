/** When the master commits a client's entry (DB/internal/rest/api.go:83-124, 359-364): as soon as
    the length that a quorum has acknowledged reaches the entry. A cluster has the master and
    2m peers.
 */
module RaftQuorum {
  import opened Common

  // ----- the order statistic

  function CountGe(s: seq<nat>, x: nat): nat {
    if s == [] then 0 else CountGe(s[..|s| - 1], x) + (if s[|s| - 1] >= x then 1 else 0)
  }

  ghost predicate Sorted(s: seq<nat>) {
    forall i, j :: 0 <= i <= j < |s| ==> s[i] <= s[j]
  }

  function Insert(s: seq<nat>, v: nat): (r: seq<nat>)
    ensures |r| == |s| + 1
  {
    if s == [] || s[|s| - 1] <= v then s + [v] else Insert(s[..|s| - 1], v) + [s[|s| - 1]]
  }

  /** slices.Sort. */
  function Sort(s: seq<nat>): (r: seq<nat>)
    ensures |r| == |s|
  {
    if s == [] then [] else Insert(Sort(s[..|s| - 1]), s[|s| - 1])
  }

  lemma {:induction false} InsertSorted(s: seq<nat>, v: nat)
    requires Sorted(s)
    ensures Sorted(Insert(s, v))
    ensures Insert(s, v)[|s|] == if s == [] || s[|s| - 1] <= v then v else s[|s| - 1]
  {
    if s != [] && s[|s| - 1] > v {
      InsertSorted(s[..|s| - 1], v);
      var front, last := Insert(s[..|s| - 1], v), s[|s| - 1];
      hide Insert;
      assert front[|front| - 1] <= last;
      assert Sorted(front + [last]);
    }
  }

  lemma {:induction false} InsertCount(s: seq<nat>, v: nat, x: nat)
    ensures CountGe(Insert(s, v), x) == CountGe(s, x) + (if v >= x then 1 else 0)
  {
    if s == [] || s[|s| - 1] <= v {
      assert (s + [v])[..|s|] == s;
    } else {
      var front, last := s[..|s| - 1], s[|s| - 1];
      InsertCount(front, v, x);
      var r := Insert(front, v) + [last];
      assert r[..|r| - 1] == Insert(front, v);
    }
  }

  lemma {:induction false} SortOk(s: seq<nat>, x: nat)
    ensures Sorted(Sort(s)) && CountGe(Sort(s), x) == CountGe(s, x)
  {
    if s != [] {
      SortOk(s[..|s| - 1], x);
      InsertSorted(Sort(s[..|s| - 1]), s[|s| - 1]);
      InsertCount(Sort(s[..|s| - 1]), s[|s| - 1], x);
    }
  }

  /** In a sorted sequence the elements from i on are those that reach the value at i. */
  lemma {:induction false} CountSorted(s: seq<nat>, x: nat, i: nat)
    requires Sorted(s) && i <= |s|
    ensures i < |s| && s[i] >= x ==> CountGe(s, x) >= |s| - i
    ensures i > 0 && s[i - 1] < x ==> CountGe(s, x) <= |s| - i
  {
    if i < |s| {
      CountSorted(s[..|s| - 1], x, i);
    } else if i > 0 && s[i - 1] < x {
      CountSorted(s[..|s| - 1], x, i - 1);
    }
  }

  /** The peers that have acknowledged at least `x`. */
  ghost function Reached(sent: map<nat, nat>, x: nat): set<nat> {
    set p | p in sent && sent[p] >= x
  }

  /** The value at the middle of the sorted lengths, by counting. */
  ghost predicate IsMiddle(sent: map<nat, nat>, v: nat) {
    |Reached(sent, v)| >= |sent| - |sent| / 2 > |Reached(sent, v + 1)|
  }

  lemma OneMore(sent: map<nat, nat>, done: set<nat>, p: nat, lens: seq<nat>, x: nat)
    requires p in sent && p !in done && CountGe(lens, x) == |Reached(sent, x) * done|
    ensures CountGe(lens + [sent[p]], x) == |Reached(sent, x) * (done + {p})|
  {
    assert (lens + [sent[p]])[..|lens|] == lens;
    if sent[p] >= x {
      assert Reached(sent, x) * (done + {p}) == Reached(sent, x) * done + {p};
    } else {
      assert Reached(sent, x) * (done + {p}) == Reached(sent, x) * done;
    }
  }

  /** slices.Collect(maps.Values(sentLen)), in any order. */
  method Values(sentLen: map<nat, nat>) returns (lens: seq<nat>)
    ensures |lens| == |sentLen|
    ensures forall x: nat :: CountGe(lens, x) == |Reached(sentLen, x)|
  {
    hide CountGe, Reached;
    lens := [];
    var left := sentLen.Keys;
    ghost var done: set<nat> := {};
    assert forall x: nat :: Reached(sentLen, x) * done == {};
    assert forall x: nat :: CountGe(lens, x) == 0 by { NothingCounted(); }
    while left != {}
      invariant left !! done && left + done == sentLen.Keys && |lens| == |done|
      invariant forall x: nat :: CountGe(lens, x) == |Reached(sentLen, x) * done|
      decreases |left|
    {
      var p :| p in left;
      forall x: nat ensures CountGe(lens + [sentLen[p]], x) == |Reached(sentLen, x) * (done + {p})| {
        OneMore(sentLen, done, p, lens, x);
      }
      lens := lens + [sentLen[p]];
      left := left - {p};
      done := done + {p};
    }
    assert done == sentLen.Keys && |done| == |sentLen|;
    assert forall x: nat :: Reached(sentLen, x) * done == Reached(sentLen, x) by { ReachedAmong(sentLen); }
  }

  lemma ReachedAmong(sent: map<nat, nat>)
    ensures forall x: nat :: Reached(sent, x) * sent.Keys == Reached(sent, x)
  {
  }

  lemma NothingCounted()
    ensures forall x: nat :: CountGe([], x) == 0
  {
  }

  /** minSentLenQuorum; without any length it panics. */
  method MinSentLenQuorum(sentLen: map<nat, nat>) returns (r: Option<nat>)
    ensures r.None? <==> |sentLen| == 0
    ensures r.Some? ==> IsMiddle(sentLen, r.value)
  {
    hide CountGe, Reached, Sort, Sorted;
    var lens := Values(sentLen);
    ghost var unsorted := lens;
    lens := Sort(lens);
    if |lens| == 0 { return None; }
    var v := lens[|lens| / 2];
    SortOk(unsorted, v);
    SortOk(unsorted, v + 1);
    CountSorted(lens, v, |lens| / 2);
    CountSorted(lens, v + 1, |lens| / 2 + 1);
    r := Some(v);
  }

  // ----- what the middle means

  ghost function Peers(m: nat): set<nat> {
    Range(2 * m)
  }

  /** m peers, who are a majority together with the master, have acknowledged length `x`. */
  ghost predicate IsQuorum(q: set<nat>, sent: map<nat, nat>, m: nat, x: nat) {
    q <= Peers(m) && |q| == m && forall p :: p in q ==> At(sent, p) >= x
  }

  ghost predicate HasQuorum(sent: map<nat, nat>, m: nat, x: nat) {
    exists q :: IsQuorum(q, sent, m, x)
  }

  lemma {:induction false} TakeFrom(s: set<nat>, m: nat) returns (q: set<nat>)
    requires m <= |s|
    ensures q <= s && |q| == m
    decreases |s|
  {
    q := s;
    if m < |s| {
      var p :| p in s;
      q := TakeFrom(s - {p}, m);
    }
  }

  /** With lengths of all peers but at most one, the middle is exactly the maximum over the
      majorities of the minimum that their members have acknowledged. */
  lemma MiddleIsQuorumLen(sent: map<nat, nat>, m: nat, v: nat, x: nat)
    requires 1 <= m && sent.Keys <= Peers(m) && |sent| >= 2 * m - 1 && IsMiddle(sent, v)
    ensures x <= v <==> HasQuorum(sent, m, x)
  {
    SubsetSize(sent.Keys, Peers(m));
    assert |sent| == |sent.Keys|;
    if x <= v {
      var q := TakeFrom(Reached(sent, v), m);
      assert IsQuorum(q, sent, m, x);
    } else if HasQuorum(sent, m, x) {
      var q :| IsQuorum(q, sent, m, x);
      assert q <= Reached(sent, v + 1);
      SubsetSize(q, Reached(sent, v + 1));
    }
  }

  /** The lengths p + 1 of the first k peers. */
  ghost function Staircase(k: nat): (sent: map<nat, nat>)
    ensures forall p: nat :: (p in sent <==> p < k) && (p in sent ==> sent[p] == p + 1)
    ensures |sent| == k
  {
    if k == 0 then map[] else Staircase(k - 1)[k - 1 := k]
  }

  lemma {:induction false} StaircaseCount(k: nat, x: nat)
    requires x <= k
    ensures |Reached(Staircase(k), x + 1)| == k - x
  {
    hide Staircase;
    if x < k {
      StaircaseCount(k - 1, x);
      assert Reached(Staircase(k), x + 1) == Reached(Staircase(k - 1), x + 1) + {k - 1};
    } else {
      assert Reached(Staircase(k), x + 1) == {};
    }
  }

  /** Exactly from 2m - 1 known lengths on is the result acknowledged by a majority, whatever
      the lengths are. With fewer, a minority can be enough for a commit. */
  lemma MajorityExactlyWhen(m: nat, k: nat)
    requires 1 <= k <= 2 * m
    ensures (forall sent: map<nat, nat>, v: nat ::
               sent.Keys <= Peers(m) && |sent| == k && IsMiddle(sent, v) ==> HasQuorum(sent, m, v))
            <==> k >= 2 * m - 1
  {
    if k >= 2 * m - 1 {
      forall sent: map<nat, nat>, v: nat | sent.Keys <= Peers(m) && |sent| == k && IsMiddle(sent, v)
        ensures HasQuorum(sent, m, v)
      {
        MiddleIsQuorumLen(sent, m, v, v);
      }
    } else {
      var sent, v := Staircase(k), k / 2 + 1;
      StaircaseCount(k, k / 2);
      StaircaseCount(k, k / 2 + 1);
      assert IsMiddle(sent, v);
      if HasQuorum(sent, m, v) {
        var q :| IsQuorum(q, sent, m, v);
        assert q <= Reached(sent, v);
        SubsetSize(q, Reached(sent, v));
      }
    }
  }

  // ----- the wait-then-commit rule, with any number of waiting handlers

  /** The length the log had when the master took over, the committed length, the length with
      the uncommitted entries, and the lengths that handlers wait for. */
  datatype Ledger = Ledger(sent: map<nat, nat>, base: nat, commited: nat, total: nat, waiting: set<nat>)

  datatype Step =
    | Request
    | Acknowledge(p: nat, len: nat)
    | Wake(required: nat, middle: nat)

  ghost predicate Next(m: nat, a: Ledger, s: Step, b: Ledger) {
    match s
    case Request => b == a.(total := a.total + 1, waiting := a.waiting + {a.total + 1})
    case Acknowledge(p, len) =>
      && p < 2 * m && len <= a.total
      && b == a.(sent := a.sent[p := if len < At(a.sent, p) then At(a.sent, p) else len])
    case Wake(required, middle) =>
      && required in a.waiting && IsMiddle(a.sent, middle) && required <= middle
      && b == a.(commited := a.commited + 1, waiting := a.waiting - {required})
  }

  /** The lengths after `base` up to `total`. */
  ghost function Lengths(base: nat, total: nat): (ls: set<nat>)
    requires base <= total
    ensures forall l: nat :: l in ls <==> base < l <= total
    ensures |ls| == total - base
    decreases total
  {
    if total == base then {} else Lengths(base, total - 1) + {total}
  }

  ghost predicate Inv(m: nat, a: Ledger) {
    && 1 <= m && a.sent.Keys <= Peers(m)
    && a.base <= a.commited <= a.total
    && a.waiting <= Lengths(a.base, a.total) && |a.waiting| == a.total - a.commited
    && forall l :: l in Lengths(a.base, a.total) - a.waiting ==> HasQuorum(a.sent, m, l)
  }

  lemma QuorumStays(sent: map<nat, nat>, m: nat, x: nat, sent': map<nat, nat>)
    requires HasQuorum(sent, m, x) && forall p :: At(sent, p) <= At(sent', p)
    ensures HasQuorum(sent', m, x)
  {
    var q :| IsQuorum(q, sent, m, x);
    assert IsQuorum(q, sent', m, x);
  }

  /** One more length, for which one more handler waits. */
  lemma OneLonger(base: nat, total: nat, waiting: set<nat>)
    requires base <= total && waiting <= Lengths(base, total)
    ensures waiting + {total + 1} <= Lengths(base, total + 1) && |waiting + {total + 1}| == |waiting| + 1
    ensures Lengths(base, total + 1) - (waiting + {total + 1}) == Lengths(base, total) - waiting
  {
    assert total + 1 !in waiting;
  }

  lemma RequestKeeps(m: nat, a: Ledger, b: Ledger)
    requires Inv(m, a) && Next(m, a, Request, b)
    ensures Inv(m, b)
  {
    hide IsMiddle, HasQuorum, Lengths, Peers;
    OneLonger(a.base, a.total, a.waiting);
  }

  /** An acknowledgement raises the peer's length to the one acknowledged, and lowers none. */
  lemma AcknowledgeRaises(m: nat, a: Ledger, p: nat, len: nat, b: Ledger, q: nat)
    requires Next(m, a, Acknowledge(p, len), b)
    ensures At(b.sent, q) >= At(a.sent, q) && (q == p ==> At(b.sent, q) >= len)
    ensures At(b.sent, q) == At(a.sent, q) || (q == p && At(b.sent, q) == len)
    ensures b == a.(sent := b.sent)
  {
  }

  lemma AcknowledgeKeeps(m: nat, a: Ledger, p: nat, len: nat, b: Ledger)
    requires Inv(m, a) && Next(m, a, Acknowledge(p, len), b)
    ensures Inv(m, b)
  {
    hide IsMiddle, HasQuorum, Lengths, Peers;
    PeerAdded(m, a.sent, p, b.sent[p]);
    forall l | l in Lengths(b.base, b.total) - b.waiting ensures HasQuorum(b.sent, m, l) {
      assert l in Lengths(a.base, a.total) - a.waiting;
      QuorumStays(a.sent, m, l, b.sent);
    }
  }

  lemma PeerAdded(m: nat, sent: map<nat, nat>, p: nat, len: nat)
    requires p < 2 * m && sent.Keys <= Peers(m) && len >= At(sent, p)
    ensures sent[p := len].Keys <= Peers(m) && |sent[p := len]| >= |sent|
    ensures forall q: nat :: At(sent, q) <= At(sent[p := len], q)
  {
    var sent' := sent[p := len];
    assert sent'.Keys == sent.Keys + {p} && |sent'| == |sent'.Keys| && |sent| == |sent.Keys|;
    SubsetSize(sent.Keys, sent'.Keys);
  }

  lemma WakeKeeps(m: nat, a: Ledger, required: nat, middle: nat, b: Ledger)
    requires Inv(m, a) && Next(m, a, Wake(required, middle), b) && |a.sent| >= 2 * m - 1
    ensures Inv(m, b)
  {
    MiddleIsQuorumLen(a.sent, m, middle, required);
    hide IsMiddle, HasQuorum;
    var lengths := Lengths(a.base, a.total);
    assert lengths - b.waiting == (lengths - a.waiting) + {required};
  }

  /** All peers but at most one have answered when a handler wakes. */
  predicate Informed(m: nat, a: Ledger, s: Step) {
    s.Wake? ==> |a.sent| >= 2 * m - 1
  }

  lemma NextKeeps(m: nat, a: Ledger, s: Step, b: Ledger)
    requires Inv(m, a) && Next(m, a, s, b) && Informed(m, a, s)
    ensures Inv(m, b)
  {
    hide Inv, Next;
    match s
    case Request => RequestKeeps(m, a, b);
    case Acknowledge(p, len) => AcknowledgeKeeps(m, a, p, len, b);
    case Wake(required, middle) => WakeKeeps(m, a, required, middle, b);
  }

  /** A handler that wakes commits the first uncommitted entry, which need not be its own. Still,
      whatever was committed since the master took over has been acknowledged by a majority. */
  lemma CommitedIsAcknowledged(m: nat, a: Ledger)
    requires Inv(m, a) && a.commited > a.base
    ensures HasQuorum(a.sent, m, a.commited)
  {
    hide HasQuorum;
    var done := Lengths(a.base, a.total) - a.waiting;
    assert |done| == a.commited - a.base;
    if forall l :: l in done ==> l < a.commited {
      assert done <= Lengths(a.base, a.commited - 1);
      SubsetSize(done, Lengths(a.base, a.commited - 1));
      assert false;
    }
    var l :| l in done && l >= a.commited;
    LessLength(a.sent, m, l, a.commited);
  }

  lemma LessLength(sent: map<nat, nat>, m: nat, l: nat, x: nat)
    requires HasQuorum(sent, m, l) && x <= l
    ensures HasQuorum(sent, m, x)
  {
    var q :| IsQuorum(q, sent, m, l);
    assert IsQuorum(q, sent, m, x);
  }

  /** The master takes over with the answers of no peers, or of some. */
  ghost predicate Run(m: nat, run: seq<Ledger>, steps: seq<Step>) {
    && |run| == |steps| + 1
    && 1 <= m && run[0].sent.Keys <= Peers(m)
    && run[0].waiting == {} && run[0].commited == run[0].total == run[0].base
    && forall i {:trigger steps[i]} :: 0 <= i < |steps| ==> Next(m, run[i], steps[i], run[i + 1])
  }

  lemma {:induction false} RunKeeps(m: nat, run: seq<Ledger>, steps: seq<Step>, i: nat)
    requires Run(m, run, steps) && i < |run| && forall j :: 0 <= j < i ==> Informed(m, run[j], steps[j])
    ensures Inv(m, run[i]) && run[i].base == run[0].base
  {
    if i > 0 {
      RunKeeps(m, run, steps, i - 1);
      assert Next(m, run[i - 1], steps[i - 1], run[i]);
      NextKeeps(m, run[i - 1], steps[i - 1], run[i]);
    }
  }

  /** As long as handlers wake with the answers of at least 2m - 1 peers known, a committed entry is one
      that the master and m peers hold the length of. */
  lemma CommitsByMajority(m: nat, run: seq<Ledger>, steps: seq<Step>, i: nat)
    requires Run(m, run, steps) && i < |run| && run[i].commited > run[0].base
    requires forall j :: 0 <= j < i ==> Informed(m, run[j], steps[j])
    ensures HasQuorum(run[i].sent, m, run[i].commited)
  {
    RunKeeps(m, run, steps, i);
    CommitedIsAcknowledged(m, run[i]);
  }

  /** In every state of the run. */
  ghost predicate ByMajority(m: nat, run: seq<Ledger>) {
    forall i :: 0 <= i < |run| && run[i].commited > run[0].base ==> HasQuorum(run[i].sent, m, run[i].commited)
  }

  /** The master takes over, one entry is logged, one peer answers, and the entry is committed. */
  function OnePeerRun(i: nat): Ledger {
    match i
    case 0 => Ledger(map[], 0, 0, 0, {})
    case 1 => Ledger(map[], 0, 0, 1, {1})
    case 2 => Ledger(map[0 := 1], 0, 0, 1, {1})
    case _ => Ledger(map[0 := 1], 0, 1, 1, {})
  }

  function OnePeerStep(i: nat): Step {
    match i
    case 0 => Request
    case 1 => Acknowledge(0, 1)
    case _ => Wake(1, 1)
  }

  lemma OnePeerIsMiddle()
    ensures IsMiddle(map[0 := 1], 1)
  {
    assert Reached(map[0 := 1], 1) == {0} && Reached(map[0 := 1], 2) == {};
  }

  lemma OnePeerSteps(m: nat, i: nat)
    requires m >= 1 && i < 3
    ensures Next(m, OnePeerRun(i), OnePeerStep(i), OnePeerRun(i + 1))
  {
    hide IsMiddle, Peers;
    OnePeerIsMiddle();
    assert map[][0 := 1] == map[0 := 1] && {} + {1} == {1} && {1} - {1} == {};
  }

  lemma OnePeerIsNoQuorum(m: nat)
    requires m >= 2
    ensures !HasQuorum(map[0 := 1], m, 1)
  {
    if HasQuorum(map[0 := 1], m, 1) {
      var q :| IsQuorum(q, map[0 := 1], m, 1);
      forall p | p in q ensures p == 0 { assert At(map[0 := 1], p) >= 1; }
      var one: set<nat> := {0};
      assert q <= one;
      SubsetSize(q, one);
    }
  }

  lemma OnePeerCommits(m: nat) returns (run: seq<Ledger>, steps: seq<Step>)
    requires m >= 2
    ensures Run(m, run, steps) && !ByMajority(m, run)
  {
    hide Next, HasQuorum;
    run, steps := [OnePeerRun(0), OnePeerRun(1), OnePeerRun(2), OnePeerRun(3)], [OnePeerStep(0), OnePeerStep(1), OnePeerStep(2)];
    OnePeerSteps(m, 0);
    OnePeerSteps(m, 1);
    OnePeerSteps(m, 2);
    OnePeerIsNoQuorum(m);
    assert run[3].commited > run[0].base;
  }

  /** Whichever peers answer, and when: every commit is by a majority exactly if there are two peers.
      In a larger cluster the answer of one peer can be enough. */
  lemma AlwaysByMajorityExactlyWhen(m: nat)
    requires 1 <= m
    ensures (forall run, steps :: Run(m, run, steps) ==> ByMajority(m, run)) <==> m == 1
  {
    hide Run;
    if m == 1 {
      forall run, steps | Run(m, run, steps) ensures ByMajority(m, run) {
        ThreeNodes(run, steps);
      }
    } else {
      var run, steps := OnePeerCommits(m);
    }
  }

  lemma ThreeNodes(run: seq<Ledger>, steps: seq<Step>)
    requires Run(1, run, steps)
    ensures ByMajority(1, run)
  {
    forall j | 0 <= j < |steps| ensures Informed(1, run[j], steps[j]) {
      assert Next(1, run[j], steps[j], run[j + 1]);
    }
    forall i | 0 <= i < |run| && run[i].commited > run[0].base ensures HasQuorum(run[i].sent, 1, run[i].commited) {
      CommitsByMajority(1, run, steps, i);
    }
  }
}
