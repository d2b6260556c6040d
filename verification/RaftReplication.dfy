/** One stable master replicating its log to followers that start empty
    (DB/internal/raft/middleware.go:92-226 against DB/internal/raft/raftapi.go:90-229).
    Messages and answers can be lost, delayed, repeated and reordered: the sets below only grow,
    and a message in them can be delivered any number of times, or never.
 */
module RaftReplication {
  import opened Common
  import opened RaftLog
  import opened RaftReplica

  /** A follower; after a Fatalf its process has stopped. */
  datatype Follower = Follower(replica: Replica, alive: bool)

  /** A message on its way to a follower, and an answer on its way back. */
  datatype Packet = Packet(peer: nat, msg: Message)
  datatype Ack = Ack(peer: nat, len: nat, ack: bool)

  /** The master's log and bookkeeping, the followers, and the network. */
  datatype Cluster = Cluster(
    term: nat, log: seq<Entry>, toCommit: seq<Entry>, sentLen: map<nat, nat>, commitLen: map<nat, nat>,
    followers: seq<Follower>, packets: set<Packet>, acks: set<Ack>)

  function Full(c: Cluster): seq<Entry> {
    c.log + c.toCommit
  }

  /** What a heartbeat session sends to a peer; the first session only sends heartbeats. */
  function Choose(c: Cluster, p: nat, first: bool): Message {
    if At(c.commitLen, p) < |c.log| && !first then Message(LogCommit, c.term, c.log[At(c.commitLen, p)])
    else if At(c.sentLen, p) < |c.log| && !first then Message(LogCommit, c.term, c.log[At(c.sentLen, p)])
    else if At(c.sentLen, p) < |Full(c)| && !first then
      Message(LogAppend, c.term, c.toCommit[At(c.sentLen, p) - |c.log|])
    else Message(Heartbeat, c.term, LastOf(c.log))
  }

  function Max(x: nat, y: nat): nat {
    if x < y then y else x
  }

  /** The master takes an answer; one that claims more than the master has is ignored. */
  function Collect(c: Cluster, a: Ack): Cluster {
    if !a.ack && a.len <= |Full(c)| then
      c.(sentLen := c.sentLen[a.peer := Max(a.len, At(c.sentLen, a.peer))])
    else if a.ack && a.len <= |c.log| then
      c.(commitLen := c.commitLen[a.peer := Max(a.len, At(c.commitLen, a.peer))],
         sentLen := c.sentLen[a.peer := Max(a.len, At(c.sentLen, a.peer))])
    else c
  }

  function Deliver(c: Cluster, k: Packet): (c': Cluster)
    requires k.peer < |c.followers|
    ensures |c'.followers| == |c.followers|
  {
    var (r, answer) := Handle(c.followers[k.peer].replica, k.msg.mean, k.msg.term, k.msg.entry);
    c.(followers := c.followers[k.peer := Follower(r, answer != Fatal)],
       acks := if answer.Reply? then c.acks + {Ack(k.peer, answer.len, answer.ack)} else c.acks)
  }

  /** What else happens at a follower: time-outs, its own elections and votes for others can
      raise its term, change its role and flush its uncommitted entries. */
  predicate Disturbed(r: Replica, r': Replica) {
    r'.term >= r.term && r'.role != Master && r'.log == r.log && r'.kvs == r.kvs && r'.toCommit in {r.toCommit, []}
  }

  datatype Step =
    | ClientOp(op: Entry)
    | CommitNext
    | Send(p: nat, first: bool)
    | Receive(k: Packet)
    | Answer(a: Ack)
    | Disturb(p: nat, r: Replica)

  predicate Enabled(c: Cluster, s: Step) {
    match s
    case ClientOp(op) => op.op != "" && |Full(c)| + 1 < WORDS
    case CommitNext => c.toCommit != []
    case Send(p, _) => p < |c.followers|
    case Receive(k) => k in c.packets && k.peer < |c.followers| && c.followers[k.peer].alive
    case Answer(a) => a in c.acks
    case Disturb(p, r) => p < |c.followers| && c.followers[p].alive && Disturbed(c.followers[p].replica, r)
  }

  function Do(c: Cluster, s: Step): Cluster
    requires Enabled(c, s)
  {
    match s
    case ClientOp(op) => c.(toCommit := c.toCommit + [Numbered(c.log, c.toCommit, op.(term := c.term))])
    case CommitNext => c.(log := c.log + [c.toCommit[0]], toCommit := c.toCommit[1..])
    case Send(p, first) => c.(packets := c.packets + {Packet(p, Choose(c, p, first))})
    case Receive(k) => Deliver(c, k)
    case Answer(a) => Collect(c, a)
    case Disturb(p, r) => c.(followers := c.followers[p := Follower(r, true)])
  }

  ghost predicate Init(c: Cluster) {
    && Chain(c.log) && |c.log| < WORDS && c.toCommit == []
    && c.sentLen == map[] && c.commitLen == map[] && c.packets == {} && c.acks == {}
    && forall f :: f in c.followers ==>
         f.alive && f.replica.log == [] && f.replica.toCommit == [] && f.replica.kvs == map[] && f.replica.role != Master
  }

  // ----- the invariant

  ghost predicate MasterOk(c: Cluster) {
    Chain(Full(c)) && |Full(c)| < WORDS
  }

  /** `full` is the master's log, of which the first `n` entries are committed. A follower holds
      at most one uncommitted entry, and as long as it has committed nothing that is entry 0. */
  ghost predicate FollowerOk(full: seq<Entry>, n: nat, r: Replica) {
    && n <= |full|
    && ReplicaOk(r) && r.log <= full[..n] && |r.toCommit| <= 1 && r.role != Master
    && (r.log == [] ==> r.toCommit <= full)
  }

  /** A commit never names an entry beyond the follower's committed log. */
  ghost predicate PacketOk(c: Cluster, k: Packet) {
    && k.msg.term == c.term
    && (k.msg.mean == LogAppend ==> k.msg.entry in Full(c))
    && (k.msg.mean == LogCommit ==>
          k.msg.entry in c.log && k.peer < |c.followers| && k.msg.entry.ind <= |c.followers[k.peer].replica.log|)
    && k.msg.mean != Unsupported
  }

  ghost predicate AckOk(c: Cluster, a: Ack) {
    a.peer < |c.followers| && (a.ack ==> a.len <= |c.followers[a.peer].replica.log|)
  }

  ghost predicate CountsOk(c: Cluster) {
    forall p: nat ::
      && At(c.commitLen, p) <= At(c.sentLen, p) <= |Full(c)|
      && (p < |c.followers| ==> At(c.commitLen, p) <= |c.followers[p].replica.log|)
  }

  ghost predicate FollowersOk(c: Cluster) {
    forall p :: 0 <= p < |c.followers| ==> FollowerOk(Full(c), |c.log|, c.followers[p].replica)
  }

  ghost predicate NetworkOk(c: Cluster) {
    && (forall k :: k in c.packets ==> PacketOk(c, k))
    && (forall a :: a in c.acks ==> AckOk(c, a))
  }

  ghost predicate Inv(c: Cluster) {
    MasterOk(c) && FollowersOk(c) && NetworkOk(c) && CountsOk(c)
  }

  // ----- one follower handles one message of the master

  lemma FullAt(full: seq<Entry>, e: Entry)
    requires Chain(full) && e in full
    ensures e.ind < |full| && full[e.ind] == e && e.op != ""
  {
    var i :| 0 <= i < |full| && full[i] == e;
    ChainAt(full, i);
  }

  /** A prefix of the master's log counts and numbers its entries by their places. */
  lemma InPlace(full: seq<Entry>, log: seq<Entry>, e: Entry)
    requires Chain(full) && log <= full
    ensures LenOf(log) == |log| && Numbered(log, [], e) == Filed(log, e)
  {
    hide Chain, Filed, Numbered;
    ChainPrefix(full, |log|);
    assert full[..|log|] == log == log + [];
    LenIsLength(log, []);
    NumberedIsFiled(log, [], e);
  }

  /** Filing an entry behind the entries before it gives it back. */
  lemma FiledIsEntry(full: seq<Entry>, r: Replica, e: Entry)
    requires Chain(full) && e in full && r.log <= full && |r.log| == e.ind
    ensures Filed(r.log, e) == e && r.log + [e] <= full
  {
    FullAt(full, e);
    assert full[..e.ind] == r.log;
    assert full[e.ind] == Filed(full[..e.ind], full[e.ind]);
    assert r.log + [e] == full[..e.ind + 1];
  }

  /** Which entries of the master's log a follower stores: the next one, and entry 0 when it
      has committed exactly one entry. */
  lemma AcceptsWhat(full: seq<Entry>, r: Replica, e: Entry)
    requires Chain(full) && |full| < WORDS && e in full && r.log <= full
    ensures Accepts(r, e) <==>
            (r.log == [] && r.toCommit == [] && e.ind == 0) || (r.log != [] && e.ind == |r.log|) || (|r.log| == 1 && e.ind == 0)
  {
    hide Chain, LenOf;
    InPlace(full, r.log, e);
    FullAt(full, e);
    ChainAt(full, e.ind);
  }

  /** A delivered append keeps the follower's whole log a copy of the master's exactly if it is
      not a late append of entry 0 to a follower with one committed entry -- or entry 1
      happens to repeat entry 0. */
  lemma AppendIsFaithful(full: seq<Entry>, r: Replica, e: Entry)
    requires Chain(full) && |full| < WORDS && e in full && ReplicaOk(r) && r.log + r.toCommit <= full
    ensures var s := Store(r, e);
            s.log + s.toCommit <= full <==>
            !(|r.log| == 1 && e.ind == 0) || (|full| > 1 && full[1] == Filed(full[..1], e))
  {
    hide Chain, Numbered, Filed, Accepts, ReplicaOk;
    assert r.log <= full;
    AcceptsWhat(full, r, e);
    InPlace(full, r.log, e);
    var s := Store(r, e);
    if |r.log| == 1 && e.ind == 0 {
      assert s.log + s.toCommit == r.log + [Filed(r.log, e)];
      assert r.log == full[..1];
      assert (r.log + [Filed(r.log, e)])[1] == Filed(r.log, e);
    } else if Accepts(r, e) {
      FullAt(full, e);
      FiledIsEntry(full, r, e);
    }
  }

  lemma BeforeIs(x: nat)
    requires x <= WORDS
    ensures Before(x) == if x == 0 then WORDS - 1 else x - 1
  {
  }

  /** Storing, by the index of the entry. */
  lemma StoreOutcome(full: seq<Entry>, n: nat, r: Replica, e: Entry)
    requires Chain(full) && |full| < WORDS && FollowerOk(full, n, r) && e in full
    ensures var s := Store(r, e);
            && s.log == r.log
            && (e.ind == |r.log| ==> s.toCommit == [e])
            && (e.ind == 0 && |r.log| == 1 ==> |s.toCommit| == 1)
            && (e.ind != |r.log| && !(e.ind == 0 && |r.log| == 1) ==> s == r)
  {
    hide Chain, ReplicaOk, Replay, Numbered, Filed, Accepts;
    FullAt(full, e);
    assert r.log <= full;
    AcceptsWhat(full, r, e);
    InPlace(full, r.log, e);
    if e.ind == |r.log| {
      FiledIsEntry(full, r, e);
      if r.log == [] && r.toCommit != [] {
        assert r.toCommit == [full[0]];
      }
    }
  }

  /** A commit at a follower: it appends the entry, changes nothing, or stops the process. */
  lemma CommitOutcome(full: seq<Entry>, n: nat, r: Replica, e: Entry)
    requires Chain(full) && |full| < WORDS && FollowerOk(full, n, r)
    requires e in full && r.role == Slave
    ensures var (s, answer) := HandleAsSlave(r, LogCommit, e);
            && (answer != Fatal <==>
                e.ind == |r.log| || (e.ind + 1 == |r.log| && r.toCommit == [] && |r.log| != 1))
            && (e.ind == |r.log| ==> s.log == r.log + [e] && s.toCommit == [] && answer == Reply(|s.log|, true))
            && (e.ind != |r.log| ==> s.log == r.log)
  {
    hide Chain, Replay, Store, ApplyToKvs, ReplicaOk, Before, Filed, LenOf;
    FullAt(full, e);
    StoreOutcome(full, n, r, e);
    assert r.log <= full && |r.toCommit| <= 1;
    InPlace(full, r.log, e);
    if e.ind == |r.log| {
      FiledIsEntry(full, r, e);
      InPlace(full, r.log + [e], e);
    }
    BeforeIs(|Store(r, e).log| + |Store(r, e).toCommit|);
  }

  lemma StoreFollowerOk(full: seq<Entry>, n: nat, r: Replica, e: Entry)
    requires Chain(full) && |full| < WORDS && FollowerOk(full, n, r) && e in full
    ensures FollowerOk(full, n, Store(r, e)) && Store(r, e).log == r.log
  {
    hide Chain, Filed, Numbered, Accepts, Replay;
    FullAt(full, e);
    StoreOk(r, e);
    assert r.log <= full;
    AcceptsWhat(full, r, e);
    InPlace(full, r.log, e);
    if r.log == [] && Accepts(r, e) {
      FiledIsEntry(full, r, e);
    }
  }

  lemma CommitFollowerOk(full: seq<Entry>, n: nat, r: Replica, e: Entry)
    requires Chain(full) && |full| < WORDS && FollowerOk(full, n, r)
    requires e in full[..n] && e.ind <= |r.log| && r.role == Slave
    ensures var (s, answer) := HandleAsSlave(r, LogCommit, e);
            FollowerOk(full, n, s) && r.log <= s.log
  {
    hide Chain, Replay, Store, Commit, Filed, Before;
    var i :| 0 <= i < n && full[i] == e;
    FullAt(full, e);
    ChainAt(full, i);
    StoreFollowerOk(full, n, r, e);
    CommitOutcome(full, n, r, e);
    CommitOk(Store(r, e));
    CommitShrinks(Store(r, e));
    if e.ind == |r.log| {
      assert r.log <= full;
      FiledIsEntry(full, r, e);
      assert r.log + [e] == full[..n][..i + 1];
    }
  }

  lemma CommitShrinks(r: Replica)
    ensures Commit(r).role == r.role && |Commit(r).toCommit| <= |r.toCommit|
    ensures Commit(r).log == [] ==> Commit(r).toCommit == r.toCommit
  {
  }

  /** Whatever the master has sent, the follower stays a copy of a prefix of its committed log. */
  lemma HandleFollowerOk(full: seq<Entry>, n: nat, r: Replica, m: Message)
    requires Chain(full) && |full| < WORDS && FollowerOk(full, n, r)
    requires m.mean == LogAppend ==> m.entry in full
    requires m.mean == LogCommit ==> m.entry in full[..n] && m.entry.ind <= |r.log|
    requires m.mean != Unsupported
    ensures var (s, answer) := Handle(r, m.mean, m.term, m.entry);
            FollowerOk(full, n, s) && r.log <= s.log && (answer.Reply? && answer.ack ==> answer.len == |s.log|)
  {
    hide Chain, ReplicaOk, Store, Commit, LenOf;
    if r.role == Slave && r.term <= m.term {
      var q := r.(term := m.term);
      assert FollowerOk(full, n, q) by { SameLog(full, n, r, q); }
      if m.mean == LogAppend {
        StoreFollowerOk(full, n, q, m.entry);
      } else if m.mean == LogCommit {
        CommitFollowerOk(full, n, q, m.entry);
      }
    } else {
      SameLog(full, n, r, r.(term := m.term, role := Slave));
    }
    var s := Handle(r, m.mean, m.term, m.entry).0;
    assert s.log <= full;
    InPlace(full, s.log, m.entry);
  }

  /** The term and the role do not matter to it. */
  lemma SameLog(full: seq<Entry>, n: nat, r: Replica, q: Replica)
    requires FollowerOk(full, n, r) && q.role != Master && q.log == r.log && q.toCommit == r.toCommit && q.kvs == r.kvs
    ensures FollowerOk(full, n, q)
  {
  }

  // ----- every step keeps the invariant

  lemma InitOk(c: Cluster)
    requires Init(c)
    ensures Inv(c)
  {
    assert Full(c) == c.log;
    forall p | 0 <= p < |c.followers| ensures FollowerOk(Full(c), |c.log|, c.followers[p].replica) {
      assert c.followers[p] in c.followers;
      var r := c.followers[p].replica;
      assert r.log + r.toCommit == [];
    }
  }

  lemma LongerMaster(full: seq<Entry>, n: nat, full': seq<Entry>, n': nat, r: Replica)
    requires FollowerOk(full, n, r) && full <= full' && n <= n' <= |full'|
    ensures FollowerOk(full', n', r)
  {
    hide ReplicaOk;
    assert full[..n] <= full'[..n'];
  }

  lemma ClientOpLogs(c: Cluster, op: Entry)
    requires MasterOk(c) && Enabled(c, ClientOp(op))
    ensures var c' := Do(c, ClientOp(op));
            && MasterOk(c') && c'.log == c.log
            && Full(c') == Full(c) + [Filed(Full(c), op.(term := c.term))] && Full(c) <= Full(c')
  {
    hide Chain, Filed, Numbered;
    var c', msg := Do(c, ClientOp(op)), op.(term := c.term);
    NumberedIsFiled(c.log, c.toCommit, msg);
    ChainGrows(Full(c), msg);
    assert Full(c') == Full(c) + [Filed(Full(c), msg)];
  }

  lemma ClientOpOk(c: Cluster, op: Entry)
    requires Inv(c) && Enabled(c, ClientOp(op))
    ensures Inv(Do(c, ClientOp(op)))
  {
    var c' := Do(c, ClientOp(op));
    ClientOpLogs(c, op);
    hide MasterOk, FollowerOk, Numbered;
    assert c.log <= Full(c) && c.log <= Full(c');
    forall p | 0 <= p < |c'.followers| ensures FollowerOk(Full(c'), |c'.log|, c'.followers[p].replica) {
      LongerMaster(Full(c), |c.log|, Full(c'), |c'.log|, c.followers[p].replica);
    }
    forall k | k in c'.packets ensures PacketOk(c', k) { assert PacketOk(c, k); }
    forall a | a in c'.acks ensures AckOk(c', a) { assert AckOk(c, a); }
  }

  lemma CommitNextOk(c: Cluster)
    requires Inv(c) && Enabled(c, CommitNext)
    ensures Inv(Do(c, CommitNext))
  {
    var c' := Do(c, CommitNext);
    assert Full(c') == Full(c);
    hide Chain, FollowerOk;
    forall p | 0 <= p < |c'.followers| ensures FollowerOk(Full(c'), |c'.log|, c'.followers[p].replica) {
      LongerMaster(Full(c), |c.log|, Full(c'), |c'.log|, c.followers[p].replica);
    }
    forall k | k in c'.packets ensures PacketOk(c', k) { assert PacketOk(c, k); }
    forall a | a in c'.acks ensures AckOk(c', a) { assert AckOk(c, a); }
  }

  /** The commit branch that reads at SentLen is never taken, and a commit sent to a follower
      names an entry that it has or the one right after. */
  lemma ChooseOk(c: Cluster, p: nat, first: bool)
    requires Inv(c) && p < |c.followers|
    ensures PacketOk(c, Packet(p, Choose(c, p, first)))
    ensures Choose(c, p, first).mean == LogCommit ==>
              At(c.commitLen, p) < |c.log| && Choose(c, p, first).entry == c.log[At(c.commitLen, p)]
  {
    hide Chain, FollowersOk, NetworkOk;
    assert At(c.commitLen, p) <= At(c.sentLen, p) <= |Full(c)|;
    if At(c.commitLen, p) < |c.log| {
      ChainAt(Full(c), At(c.commitLen, p));
    }
    if |c.log| <= At(c.sentLen, p) < |Full(c)| {
      assert Full(c)[At(c.sentLen, p)] == c.toCommit[At(c.sentLen, p) - |c.log|];
    }
  }

  lemma SendOk(c: Cluster, p: nat, first: bool)
    requires Inv(c) && Enabled(c, Send(p, first))
    ensures Inv(Do(c, Send(p, first)))
  {
    ChooseOk(c, p, first);
    hide Chain, FollowerOk, Choose;
    var c' := Do(c, Send(p, first));
    assert Full(c') == Full(c);
    forall k | k in c'.packets ensures PacketOk(c', k) {
      assert PacketOk(c, k);
    }
    forall a | a in c'.acks ensures AckOk(c', a) { assert AckOk(c, a); }
  }

  /** A follower that is replaced by one with the same or a longer committed log. */
  lemma FollowerGrows(c: Cluster, p: nat, f: Follower, acks: set<Ack>)
    requires Inv(c) && p < |c.followers|
    requires FollowerOk(Full(c), |c.log|, f.replica) && c.followers[p].replica.log <= f.replica.log
    requires forall a :: a in acks ==> a.peer == p && (a.ack ==> a.len <= |f.replica.log|)
    ensures Inv(c.(followers := c.followers[p := f], acks := c.acks + acks))
  {
    hide Chain, FollowerOk;
    var c' := c.(followers := c.followers[p := f], acks := c.acks + acks);
    assert Full(c') == Full(c);
    forall k | k in c'.packets ensures PacketOk(c', k) { assert PacketOk(c, k); }
    forall a | a in c'.acks ensures AckOk(c', a) {
      if a in c.acks { assert AckOk(c, a); }
    }
  }

  lemma ReceiveOk(c: Cluster, k: Packet)
    requires Inv(c) && Enabled(c, Receive(k))
    ensures Inv(Do(c, Receive(k))) && c.followers[k.peer].replica.log <= Do(c, Receive(k)).followers[k.peer].replica.log
  {
    hide Chain, FollowerOk, Handle;
    assert PacketOk(c, k);
    assert Full(c)[..|c.log|] == c.log;
    var r := c.followers[k.peer].replica;
    HandleFollowerOk(Full(c), |c.log|, r, k.msg);
    var (s, answer) := Handle(r, k.msg.mean, k.msg.term, k.msg.entry);
    var acks := if answer.Reply? then {Ack(k.peer, answer.len, answer.ack)} else {};
    FollowerGrows(c, k.peer, Follower(s, answer != Fatal), acks);
    assert c.acks + {} == c.acks;
  }

  lemma AnswerOk(c: Cluster, a: Ack)
    requires Inv(c) && Enabled(c, Answer(a))
    ensures Inv(Do(c, Answer(a)))
  {
    hide Chain, FollowerOk;
    var c' := Do(c, Answer(a));
    assert AckOk(c, a) && Full(c') == Full(c);
    assert At(c.commitLen, a.peer) <= At(c.sentLen, a.peer) <= |Full(c)|;
    assert At(c.commitLen, a.peer) <= |c.followers[a.peer].replica.log|;
    forall p: nat
      ensures At(c'.commitLen, p) <= At(c'.sentLen, p) <= |Full(c')|
      ensures p < |c'.followers| ==> At(c'.commitLen, p) <= |c'.followers[p].replica.log|
    {
      assert At(c.commitLen, p) <= At(c.sentLen, p) <= |Full(c)|;
    }
    forall k | k in c'.packets ensures PacketOk(c', k) { assert PacketOk(c, k); }
    forall b | b in c'.acks ensures AckOk(c', b) { assert AckOk(c, b); }
  }

  lemma DisturbOk(c: Cluster, p: nat, r: Replica)
    requires Inv(c) && Enabled(c, Disturb(p, r))
    ensures Inv(Do(c, Disturb(p, r)))
  {
    hide Chain;
    var q := c.followers[p].replica;
    assert FollowerOk(Full(c), |c.log|, q);
    ChainPrefix(q.log + q.toCommit, |q.log|);
    assert (q.log + q.toCommit)[..|q.log|] == q.log + [];
    FollowerGrows(c, p, Follower(r, true), {});
    assert c.acks + {} == c.acks;
  }

  lemma DoOk(c: Cluster, s: Step)
    requires Inv(c) && Enabled(c, s)
    ensures Inv(Do(c, s))
  {
    hide Inv;
    match s
    case ClientOp(op) => ClientOpOk(c, op);
    case CommitNext => CommitNextOk(c);
    case Send(p, first) => SendOk(c, p, first);
    case Receive(k) => ReceiveOk(c, k);
    case Answer(a) => AnswerOk(c, a);
    case Disturb(p, r) => DisturbOk(c, p, r);
  }

  // ----- runs

  /** The clusters of a run, and the step from each to the next. */
  ghost predicate Run(cs: seq<Cluster>, steps: seq<Step>) {
    && |cs| == |steps| + 1 && Init(cs[0])
    && forall i {:trigger steps[i]} :: 0 <= i < |steps| ==> Enabled(cs[i], steps[i]) && cs[i + 1] == Do(cs[i], steps[i])
  }

  lemma {:induction false} RunOk(cs: seq<Cluster>, steps: seq<Step>, i: nat)
    requires Run(cs, steps) && i < |cs|
    ensures Inv(cs[i])
  {
    hide Inv, Init, Enabled, Do;
    if i == 0 {
      InitOk(cs[0]);
    } else {
      RunOk(cs, steps, i - 1);
      assert Enabled(cs[i - 1], steps[i - 1]);
      DoOk(cs[i - 1], steps[i - 1]);
    }
  }

  /** In every state of every run, each follower's committed log is a prefix of the master's
      committed log, down to the indices and the terms, its store is the replay of that log,
      and the master's count of its committed entries does not exceed it. */
  lemma CommittedPrefix(cs: seq<Cluster>, steps: seq<Step>, i: nat, p: nat)
    requires Run(cs, steps) && i < |cs| && p < |cs[i].followers|
    ensures cs[i].followers[p].replica.log <= cs[i].log
    ensures cs[i].followers[p].replica.kvs == Replay(cs[i].followers[p].replica.log)
    ensures At(cs[i].commitLen, p) <= |cs[i].followers[p].replica.log|
    ensures Chain(cs[i].log)
  {
    RunOk(cs, steps, i);
    hide Chain;
    assert FollowerOk(Full(cs[i]), |cs[i].log|, cs[i].followers[p].replica);
    ChainPrefix(Full(cs[i]), |cs[i].log|);
    assert Full(cs[i])[..|cs[i].log|] == cs[i].log;
  }

  // ----- one session with one peer

  /** What a session sends: the first one, and later ones if both counts are up to date, a heartbeat with
      the last committed entry; else the commit at CommitLen, if there is one; else the append
      at SentLen. */
  lemma ChoosesExactly(c: Cluster, p: nat, first: bool)
    requires Inv(c) && p < |c.followers|
    ensures var m, sent, commited := Choose(c, p, first), At(c.sentLen, p), At(c.commitLen, p);
            && m.term == c.term
            && (m.mean == Heartbeat <==> first || (commited >= |c.log| && sent >= |Full(c)|))
            && (m.mean == LogCommit <==> !first && commited < |c.log|)
            && (m.mean == LogAppend <==> !first && commited >= |c.log| && sent < |Full(c)|)
            && (m.mean == Heartbeat ==> m.entry == LastOf(c.log))
            && (m.mean == LogCommit ==> m.entry == Full(c)[commited] && m.entry.ind == commited)
            && (m.mean == LogAppend ==> m.entry == Full(c)[sent] && m.entry.ind == sent)
  {
    hide Chain, FollowersOk, NetworkOk;
    var sent, commited := At(c.sentLen, p), At(c.commitLen, p);
    assert commited <= sent <= |Full(c)|;
    if commited < |c.log| {
      ChainAt(Full(c), commited);
    } else if sent < |Full(c)| {
      ChainAt(Full(c), sent);
      assert Full(c)[sent] == c.toCommit[sent - |c.log|];
    }
  }

  /** An answer that claims no more than the master has raises the peer's counts to the length that it
      tells, and never lowers them; any other one, and every other peer, keeps them. */
  lemma CollectsExactly(c: Cluster, a: Ack, p: nat)
    ensures var c' := Collect(c, a);
            var taken := p == a.peer && a.len <= (if a.ack then |c.log| else |Full(c)|);
            && At(c'.sentLen, p) == (if taken && At(c.sentLen, p) < a.len then a.len else At(c.sentLen, p))
            && At(c'.commitLen, p) == (if taken && a.ack && At(c.commitLen, p) < a.len then a.len else At(c.commitLen, p))
            && c' == c.(sentLen := c'.sentLen, commitLen := c'.commitLen)
  {
  }

  /** The master sends to peer p, the peer handles the message, and the master takes its answer. */
  function Session(c: Cluster, p: nat, answer: Ack): (c': Cluster)
    requires p < |c.followers|
    ensures |c'.followers| == |c.followers|
  {
    var k := Packet(p, Choose(c, p, false));
    Collect(Deliver(c.(packets := c.packets + {k}), k), answer)
  }

  lemma SessionSteps(c: Cluster, p: nat, answer: Ack)
    requires p < |c.followers| && c.followers[p].alive
    ensures var sent := Do(c, Send(p, false));
            var k := Packet(p, Choose(c, p, false));
            && Enabled(c, Send(p, false)) && Enabled(sent, Receive(k))
            && (answer in Do(sent, Receive(k)).acks ==>
                  Enabled(Do(sent, Receive(k)), Answer(answer))
                  && Session(c, p, answer) == Do(Do(sent, Receive(k)), Answer(answer)))
  {
    hide Choose, Handle, Collect;
  }

  /** What the handler's answer does to the follower and to the master's counts. */
  lemma SessionOutcome(c: Cluster, p: nat, s: Replica, len: nat, ack: bool)
    requires p < |c.followers| && len <= (if ack then |c.log| else |Full(c)|)
    requires var m := Choose(c, p, false); Handle(c.followers[p].replica, m.mean, m.term, m.entry) == (s, Reply(len, ack))
    ensures var c' := Session(c, p, Ack(p, len, ack));
            && Ack(p, len, ack) in c'.acks && c'.followers == c.followers[p := Follower(s, true)]
            && At(c'.sentLen, p) == Max(len, At(c.sentLen, p))
            && At(c'.commitLen, p) == if ack then Max(len, At(c.commitLen, p)) else At(c.commitLen, p)
  {
    hide Handle, Choose;
  }

  /** A slave of the master's term that has committed as much as the master has sent it gets the next entry:
      it holds exactly that one uncommitted, and SentLen goes up by one. */
  lemma AppendSession(c: Cluster, p: nat)
    requires Inv(c) && p < |c.followers| && c.followers[p].alive
    requires var r := c.followers[p].replica; r.role == Slave && r.term <= c.term && |r.log| == At(c.sentLen, p)
    requires At(c.commitLen, p) >= |c.log| && At(c.sentLen, p) < |Full(c)|
    ensures var sent, r := At(c.sentLen, p), c.followers[p].replica;
            var c' := Session(c, p, Ack(p, sent + 1, false));
            && Ack(p, sent + 1, false) in c'.acks && At(c'.sentLen, p) == sent + 1
            && c'.followers == c.followers[p := Follower(r.(term := c.term, toCommit := [Full(c)[sent]]), true)]
  {
    hide Inv, Chain, FollowerOk, Handle, Choose, Session, Full, At;
    ChoosesExactly(c, p, false);
    FollowerOf(c, p);
    var sent, r, m := At(c.sentLen, p), c.followers[p].replica, Choose(c, p, false);
    assert m.entry in Full(c);
    NextIsStored(Full(c), |c.log|, r, c.term, m.entry);
    SessionOutcome(c, p, r.(term := c.term, toCommit := [m.entry]), sent + 1, false);
  }

  lemma NextIsStored(full: seq<Entry>, n: nat, r: Replica, term: nat, e: Entry)
    requires Chain(full) && |full| < WORDS && FollowerOk(full, n, r) && e in full && e.ind == |r.log|
    requires r.role == Slave && r.term <= term
    ensures Handle(r, LogAppend, term, e) == (r.(term := term, toCommit := [e]), Reply(e.ind + 1, false))
  {
    hide Chain, ReplicaOk, Accepts, Numbered, LenOf;
    var q := r.(term := term);
    SameLog(full, n, r, q);
    StoreOutcome(full, n, q, e);
    SlaveStores(r, term, e);
    assert q.log <= full;
    InPlace(full, q.log, e);
    assert Store(q, e) == q.(toCommit := [e]);
  }

  lemma SlaveStores(r: Replica, term: nat, e: Entry)
    requires r.role == Slave && r.term <= term
    ensures var s := Store(r.(term := term), e);
            && Handle(r, LogAppend, term, e) == (s, Reply(LenOf(s.log) + |s.toCommit|, s.toCommit == []))
            && s.term == term && s.role == Slave && s.kvs == r.kvs
  {
    hide Accepts, Numbered, LenOf;
  }

  lemma FollowerOf(c: Cluster, p: nat)
    requires Inv(c) && p < |c.followers|
    ensures FollowerOk(Full(c), |c.log|, c.followers[p].replica) && Chain(Full(c)) && |Full(c)| < WORDS
  {
  }

  /** A slave of the master's term that has committed exactly CommitLen entries commits the next one, and
      CommitLen goes up by one. */
  lemma CommitSession(c: Cluster, p: nat)
    requires Inv(c) && p < |c.followers| && c.followers[p].alive
    requires var r := c.followers[p].replica; r.role == Slave && r.term <= c.term && |r.log| == At(c.commitLen, p)
    requires At(c.commitLen, p) < |c.log|
    ensures var n, r := At(c.commitLen, p), c.followers[p].replica;
            var c' := Session(c, p, Ack(p, n + 1, true));
            var r' := c'.followers[p].replica;
            && Ack(p, n + 1, true) in c'.acks && c'.followers[p].alive && At(c'.commitLen, p) == n + 1
            && r'.log == r.log + [c.log[n]] && r'.toCommit == []
  {
    hide Chain, ReplicaOk, HandleAsSlave, Choose, FollowersOk, NetworkOk, Collect, Deliver, Session;
    ChoosesExactly(c, p, false);
    FollowerOf(c, p);
    var n, r, m := At(c.commitLen, p), c.followers[p].replica, Choose(c, p, false);
    var q := r.(term := c.term);
    SameLog(Full(c), |c.log|, r, q);
    CommitOutcome(Full(c), |c.log|, q, m.entry);
    assert Handle(r, m.mean, m.term, m.entry) == HandleAsSlave(q, LogCommit, m.entry);
    SessionOutcome(c, p, HandleAsSlave(q, LogCommit, m.entry).0, n + 1, true);
  }

  /** A heartbeat lets the master learn what the peer has, and changes nothing but the term at a slave. */
  lemma HeartbeatSession(c: Cluster, p: nat)
    requires Inv(c) && p < |c.followers| && c.followers[p].alive
    requires var r := c.followers[p].replica; r.role == Slave && r.term <= c.term
    requires At(c.commitLen, p) >= |c.log| && At(c.sentLen, p) >= |Full(c)|
    ensures var r := c.followers[p].replica;
            var a := Ack(p, |r.log| + |r.toCommit|, r.toCommit == []);
            a in Session(c, p, a).acks && Session(c, p, a).followers == c.followers[p := Follower(r.(term := c.term), true)]
  {
    hide Chain, ReplicaOk, Choose, FollowersOk, NetworkOk, LenOf, Collect;
    ChoosesExactly(c, p, false);
    FollowerOf(c, p);
    var r := c.followers[p].replica;
    assert r.log <= Full(c);
    InPlace(Full(c), r.log, Choose(c, p, false).entry);
    var k := Packet(p, Choose(c, p, false));
    CollectsExactly(Deliver(c.(packets := c.packets + {k}), k), Ack(p, |r.log| + |r.toCommit|, r.toCommit == []), p);
  }

  // ----- what a late message does

  /** A delivery stops the follower's process exactly if it is a commit of an entry that the
      follower has already committed, other than a repetition of its last commit while it
      holds nothing uncommitted and more than one committed entry. */
  lemma StopsExactlyWhen(c: Cluster, k: Packet)
    requires Inv(c) && Enabled(c, Receive(k))
    ensures var r := c.followers[k.peer].replica;
            Do(c, Receive(k)).followers[k.peer].alive <==>
            !(r.role == Slave && r.term <= c.term && k.msg.mean == LogCommit && k.msg.entry.ind < |r.log|
              && (k.msg.entry.ind + 1 < |r.log| || r.toCommit != [] || |r.log| == 1))
  {
    hide Chain, FollowerOk, Store, Commit, ReplicaOk, Before;
    assert PacketOk(c, k);
    var r := c.followers[k.peer].replica;
    if r.role == Slave && r.term <= c.term && k.msg.mean == LogCommit {
      var q := r.(term := c.term);
      SameLog(Full(c), |c.log|, r, q);
      CommitOutcome(Full(c), |c.log|, q, k.msg.entry);
    }
  }

  /** A late append of entry 0, delivered when the follower has committed just that entry, is
      filed as entry 1 and acknowledged as such: the master then counts entry 1 as sent, but the
      follower holds entry 1 only if it repeats entry 0. */
  lemma LateAppendIsCounted(c: Cluster, k: Packet)
    requires Inv(c) && Enabled(c, Receive(k)) && |Full(c)| >= 2
    requires k.msg.mean == LogAppend && k.msg.entry.ind == 0
    requires var r := c.followers[k.peer].replica; r.role == Slave && r.term <= c.term && |r.log| == 1
    ensures var c' := Do(c, Receive(k));
            var r' := c'.followers[k.peer].replica;
            && Ack(k.peer, 2, false) in c'.acks
            && At(Do(c', Answer(Ack(k.peer, 2, false))).sentLen, k.peer) >= 2
            && (r'.log + r'.toCommit <= Full(c) <==> Full(c)[1] == Filed(Full(c)[..1], k.msg.entry))
  {
    hide Chain, ReplicaOk, Filed, Numbered;
    assert PacketOk(c, k) && FollowerOk(Full(c), |c.log|, c.followers[k.peer].replica);
    var r := c.followers[k.peer].replica.(term := c.term);
    assert r.log <= Full(c);
    AcceptsWhat(Full(c), r, k.msg.entry);
    FullAt(Full(c), k.msg.entry);
    InPlace(Full(c), r.log, k.msg.entry);
    var s := Store(r, k.msg.entry);
    assert r.log == Full(c)[..1];
    assert s.log + s.toCommit == r.log + [Filed(r.log, k.msg.entry)];
    assert (r.log + [Filed(r.log, k.msg.entry)])[1] == Filed(r.log, k.msg.entry);
  }

  // Such a run: after the first entry is appended, committed and the second one logged, the
  // first append arrives again.

  const ENTRY_0 := Entry("create", "a", "1", "", 1, 0, 0, 0)
  const ENTRY_1 := Entry("create", "b", "2", "", 1, 1, 0, 1)
  const MISFILED := Entry("create", "a", "1", "", 1, 1, 0, 1)
  const APPEND_0 := Packet(0, Message(LogAppend, 1, ENTRY_0))
  const COMMIT_0 := Packet(0, Message(LogCommit, 1, ENTRY_0))

  function OneFollower(log: seq<Entry>, toCommit: seq<Entry>): seq<Follower> {
    [Follower(Replica(1, Slave, log, toCommit, if log == [] then map[] else map["a" := "1"]), true)]
  }

  function RunAt(i: nat): Cluster {
    match i
    case 0 => Cluster(1, [], [], map[], map[], OneFollower([], []), {}, {})
    case 1 => Cluster(1, [], [ENTRY_0], map[], map[], OneFollower([], []), {}, {})
    case 2 => Cluster(1, [], [ENTRY_0], map[], map[], OneFollower([], []), {APPEND_0}, {})
    case 3 => Cluster(1, [], [ENTRY_0], map[], map[], OneFollower([], [ENTRY_0]), {APPEND_0}, {Ack(0, 1, false)})
    case 4 => Cluster(1, [ENTRY_0], [], map[], map[], OneFollower([], [ENTRY_0]), {APPEND_0}, {Ack(0, 1, false)})
    case 5 => Cluster(1, [ENTRY_0], [], map[], map[], OneFollower([], [ENTRY_0]), {APPEND_0, COMMIT_0}, {Ack(0, 1, false)})
    case 6 => Cluster(1, [ENTRY_0], [], map[], map[], OneFollower([ENTRY_0], []), {APPEND_0, COMMIT_0},
                      {Ack(0, 1, false), Ack(0, 1, true)})
    case 7 => Cluster(1, [ENTRY_0], [ENTRY_1], map[], map[], OneFollower([ENTRY_0], []), {APPEND_0, COMMIT_0},
                      {Ack(0, 1, false), Ack(0, 1, true)})
    case 8 => Cluster(1, [ENTRY_0], [ENTRY_1], map[], map[], OneFollower([ENTRY_0], [MISFILED]), {APPEND_0, COMMIT_0},
                      {Ack(0, 1, false), Ack(0, 1, true), Ack(0, 2, false)})
    case _ => Cluster(1, [ENTRY_0], [ENTRY_1], map[0 := 2], map[], OneFollower([ENTRY_0], [MISFILED]), {APPEND_0, COMMIT_0},
                      {Ack(0, 1, false), Ack(0, 1, true), Ack(0, 2, false)})
  }

  function StepAt(i: nat): Step {
    match i
    case 0 => ClientOp(ENTRY_0)
    case 1 => Send(0, false)
    case 2 => Receive(APPEND_0)
    case 3 => CommitNext
    case 4 => Send(0, false)
    case 5 => Receive(COMMIT_0)
    case 6 => ClientOp(ENTRY_1)
    case 7 => Receive(APPEND_0)
    case _ => Answer(Ack(0, 2, false))
  }

  lemma MasterSteps(i: nat)
    requires i in {0, 1, 3, 4, 6, 8}
    ensures Enabled(RunAt(i), StepAt(i)) && Do(RunAt(i), StepAt(i)) == RunAt(i + 1)
  {
  }

  lemma FollowerSteps(i: nat)
    requires i in {2, 5, 7}
    ensures Enabled(RunAt(i), StepAt(i)) && Do(RunAt(i), StepAt(i)) == RunAt(i + 1)
  {
    hide Store, Commit, LenOf;
    AppendStored([], []);
    AppendStored([ENTRY_0], []);
    CommitStored();
  }

  /** Entry 0 arrives to be logged: at an empty log, or late. */
  lemma AppendStored(log: seq<Entry>, toCommit: seq<Entry>)
    requires log in {[], [ENTRY_0]} && toCommit == []
    ensures var r := OneFollower(log, toCommit)[0].replica;
            && Store(r, ENTRY_0) == r.(toCommit := [if log == [] then ENTRY_0 else MISFILED])
            && LenOf(log) == |log|
  {
    var r := OneFollower(log, toCommit)[0].replica;
    assert [] + [ENTRY_0] == [ENTRY_0] && [] + [MISFILED] == [MISFILED];
    assert log == [ENTRY_0] ==> Numbered(log, [], ENTRY_0) == MISFILED;
  }

  lemma CommitStored()
    ensures var r := OneFollower([], [ENTRY_0])[0].replica;
            && Store(r, ENTRY_0) == r && LenOf([]) == 0 && LenOf([ENTRY_0]) == 1
            && Commit(r) == OneFollower([ENTRY_0], [])[0].replica
  {
    assert [] + [ENTRY_0] == [ENTRY_0];
  }

  /** At its end the master counts two entries as sent to a follower that does not have the
      second one. */
  lemma LateAppendHappens()
    ensures Run(seq(10, (i: nat) => RunAt(i)), seq(9, (i: nat) => StepAt(i)))
    ensures At(RunAt(9).sentLen, 0) == |Full(RunAt(9))| == 2
    ensures var r := RunAt(9).followers[0].replica; r.log + r.toCommit != Full(RunAt(9))
  {
    assert Init(RunAt(0));
    var r := RunAt(9).followers[0].replica;
    assert (r.log + r.toCommit)[1] == MISFILED && Full(RunAt(9))[1] == ENTRY_1;
    forall i: nat | i < 9 ensures Enabled(RunAt(i), StepAt(i)) && Do(RunAt(i), StepAt(i)) == RunAt(i + 1) {
      if i in {2, 5, 7} { FollowerSteps(i); } else { MasterSteps(i); }
    }
  }

  // The same run up to its first commit, which then arrives twice.

  function TwiceAt(i: nat): Cluster {
    if i <= 6 then RunAt(i)
    else RunAt(6).(followers := [Follower(Replica(1, Slave, [ENTRY_0], [MISFILED], map["a" := "1"]), false)])
  }

  function TwiceStep(i: nat): Step {
    if i < 6 then StepAt(i) else Receive(COMMIT_0)
  }

  lemma SecondCommit()
    ensures Enabled(RunAt(6), Receive(COMMIT_0)) && Do(RunAt(6), Receive(COMMIT_0)) == TwiceAt(7)
  {
    hide Store, LenOf;
    AppendStored([ENTRY_0], []);
  }

  /** It stops the follower. */
  lemma FirstCommitTwice()
    ensures Run(seq(8, (i: nat) => TwiceAt(i)), seq(7, (i: nat) => TwiceStep(i)))
    ensures TwiceStep(5) == TwiceStep(6) == Receive(COMMIT_0)
    ensures TwiceAt(6).followers[0].alive && !TwiceAt(7).followers[0].alive
  {
    assert Init(RunAt(0));
    forall i: nat | i < 7 ensures Enabled(TwiceAt(i), TwiceStep(i)) && Do(TwiceAt(i), TwiceStep(i)) == TwiceAt(i + 1) {
      if i == 6 { SecondCommit(); } else if i in {2, 5} { FollowerSteps(i); } else { MasterSteps(i); }
    }
  }
}
