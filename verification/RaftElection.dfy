/** Elections of the replication cluster (DB/internal/raft/middleware.go:229-274,
    DB/internal/raft/raftapi.go:290-354): any number of nodes, votes that are lost, delayed, repeated
    and reordered.  The code as it stands can elect two masters in one term; three
    changes, each of them needed, make that impossible.
 */
module RaftElection {
  import opened Common

  /** The body of a vote request, with its sender. */
  datatype Request = Request(from: nat, logLen: nat, logTerm: nat, elTerm: nat)

  /** A vote request that is being handled, with the value that Term was loaded with. */
  datatype Handling = Handling(req: Request, term: nat)

  datatype Node = Node(
    term: nat, role: Role, votedFor: Option<nat>, logTerm: nat, logLen: nat, handling: Option<Handling>)

  datatype Vote = Vote(voter: nat, candidate: nat, term: nat)

  /** `sent`, `granted`, `started` and `masters` collect what has happened so far: requests
      sent, votes granted, elections started, and nodes that became master, with the
      value of Term at that moment. */
  datatype State = State(
    nodes: seq<Node>, sent: set<Request>, granted: set<Vote>,
    started: set<(nat, nat)>, masters: set<(nat, nat)>)

  /** Three ways in which the code could be changed: to record the candidate's vote for
      itself in VotedFor, to check before becoming master that Term is still the election's
      term, and to take the lock of the vote handler for starting an election. */
  datatype Variant = Variant(recordSelf: bool, recheck: bool, lockStart: bool)

  const AS_WRITTEN := Variant(false, false, false)

  ghost predicate Init(s: State) {
    && (forall i :: 0 <= i < |s.nodes| ==> s.nodes[i] == Node(0, Slave, None, 0, 0, None))
    && s.sent == {} && s.granted == {} && s.started == {} && s.masters == {}
  }

  /** len(OtherIp) / 2 + 1 */
  function Quorum(n: nat): nat
    requires n > 0
  {
    (n - 1) / 2 + 1
  }

  /** Heartbeat_consumer_co: the timer of a slave expires. */
  predicate Timeout(s: State, i: nat, s': State) {
    && i < |s.nodes| && s.nodes[i].role == Slave
    && s' == s.(nodes := s.nodes[i := s.nodes[i].(role := Condidate)])
  }

  /** Election_co up to the requests.  It is started when State is CONDIDATE; a vote may have
      made the node a slave again before it runs. */
  predicate StartElection(v: Variant, s: State, i: nat, s': State) {
    && i < |s.nodes| && s.nodes[i].role != Master
    && (v.lockStart ==> s.nodes[i].handling.None?)
    && var n := s.nodes[i];
       var n' := n.(term := n.term + 1, votedFor := if v.recordSelf then Some(i) else n.votedFor);
       s' == s.(nodes := s.nodes[i := n'],
                sent := s.sent + {Request(i, n.logLen, n.logTerm, n'.term)},
                started := s.started + {(i, n'.term)})
  }

  /** HandleVoteRequest, under the node's lock: load Term. */
  predicate HandleLoad(s: State, i: nat, req: Request, s': State) {
    && i < |s.nodes| && s.nodes[i].handling.None? && req in s.sent && req.from != i
    && s' == s.(nodes := s.nodes[i := s.nodes[i].(handling := Some(Handling(req, s.nodes[i].term)))])
  }

  predicate LogOk(n: Node, c: Request) {
    c.logTerm > n.logTerm || (c.logTerm == n.logTerm && c.logLen >= n.logLen)
  }

  predicate TermOk(n: Node, c: Request, term: nat) {
    c.elTerm > term || (c.elTerm == term && n.votedFor == Some(c.from))
  }

  /** HandleVoteRequest, still under the lock: decide, and give the lock up. */
  predicate HandleDecide(s: State, i: nat, s': State) {
    && i < |s.nodes| && s.nodes[i].handling.Some?
    && var n, c := s.nodes[i], s.nodes[i].handling.value.req;
       if TermOk(n, c, n.handling.value.term) && LogOk(n, c) then
         s' == s.(nodes := s.nodes[i := n.(term := c.elTerm, role := Slave, votedFor := Some(c.from), handling := None)],
                  granted := s.granted + {Vote(i, c.from, c.elTerm)})
       else s' == s.(nodes := s.nodes[i := n.(handling := None)])
  }

  /** The votes that node i can have collected in its election of a term. */
  ghost predicate Collected(s: State, i: nat, term: nat, votes: set<nat>) {
    forall v: nat :: v in votes ==> v == i || (v < |s.nodes| && Vote(v, i, term) in s.granted)
  }

  /** The end of Election_co, under the lock: a quorum makes the node master. */
  ghost predicate Win(v: Variant, s: State, i: nat, term: nat, votes: set<nat>, s': State) {
    && i < |s.nodes| && s.nodes[i].handling.None? && (i, term) in s.started
    && Collected(s, i, term, votes) && i in votes && |votes| >= Quorum(|s.nodes|)
    && (v.recheck ==> s.nodes[i].term == term)
    && s' == s.(nodes := s.nodes[i := s.nodes[i].(role := Master)], masters := s.masters + {(i, s.nodes[i].term)})
  }

  /** HandleReplicate, under the lock, for a message of any term: what it does to Term and
      State.  A master steps down only for a higher term. */
  predicate Replicate(s: State, i: nat, term: nat, s': State) {
    && i < |s.nodes| && s.nodes[i].handling.None?
    && s.nodes[i].term <= term && (s.nodes[i].role == Master ==> s.nodes[i].term < term)
    && s' == s.(nodes := s.nodes[i := s.nodes[i].(term := term, role := Slave)])
  }

  /** Heartbeat_producer_co: a master whose heartbeats find no quorum in time gives up, without the lock. */
  predicate StepDown(s: State, i: nat, s': State) {
    && i < |s.nodes| && s.nodes[i].role == Master
    && s' == s.(nodes := s.nodes[i := s.nodes[i].(role := Slave)])
  }

  /** The log grows; elections only read its length and last term. */
  predicate LogChanges(s: State, i: nat, logTerm: nat, logLen: nat, s': State) {
    && i < |s.nodes|
    && s' == s.(nodes := s.nodes[i := s.nodes[i].(logTerm := logTerm, logLen := logLen)])
  }

  ghost predicate Next(v: Variant, s: State, s': State) {
    || (exists i: nat :: Timeout(s, i, s'))
    || (exists i: nat :: StartElection(v, s, i, s'))
    || (exists i: nat, req :: HandleLoad(s, i, req, s'))
    || (exists i: nat :: HandleDecide(s, i, s'))
    || (exists i: nat, term: nat, votes :: Win(v, s, i, term, votes, s'))
    || (exists i: nat, term: nat :: Replicate(s, i, term, s'))
    || (exists i: nat :: StepDown(s, i, s'))
    || (exists i: nat, logTerm: nat, logLen: nat :: LogChanges(s, i, logTerm, logLen, s'))
  }

  ghost predicate Run(v: Variant, n: nat, b: seq<State>) {
    && |b| > 0 && Init(b[0]) && |b[0].nodes| == n
    && forall k :: 0 <= k < |b| - 1 ==> Next(v, b[k], b[k + 1])
  }

  /** No term has two masters. */
  ghost predicate OneMaster(s: State) {
    forall i: nat, j: nat, term: nat :: (i, term) in s.masters && (j, term) in s.masters ==> i == j
  }

  /** A node stands for election only from being a slave, becomes master only by winning, and a master
      becomes nothing but a slave. */
  lemma RolesChange(v: Variant, s: State, s': State, i: nat)
    requires Next(v, s, s') && i < |s.nodes|
    ensures i < |s'.nodes|
    ensures var r, r' := s.nodes[i].role, s'.nodes[i].role;
            && (r' == Condidate ==> r == Condidate || r == Slave)
            && (r' == Master ==> r == Master || exists term: nat, votes :: Win(v, s, i, term, votes, s'))
            && (r == Master ==> r' == Master || r' == Slave)
  {
    if j: nat, term: nat, votes :| Win(v, s, j, term, votes, s') {
      assert i == j ==> Win(v, s, i, term, votes, s');
    }
  }

  // ----- votes

  /** v has given its vote in a term to c: to another node, or to itself by standing. */
  ghost predicate Voted(s: State, v: nat, c: nat, term: nat) {
    Vote(v, c, term) in s.granted || (v == c && (v, term) in s.started)
  }

  ghost predicate NodeInv(s: State, i: nat)
    requires i < |s.nodes|
  {
    var n := s.nodes[i];
    && (n.handling.Some? ==> n.handling.value.term == n.term)
    && (forall c: nat, term: nat :: Voted(s, i, c, term) ==> term <= n.term)
    && (forall c: nat, term: nat :: Voted(s, i, c, term) && term == n.term ==> n.votedFor == Some(c))
    && (forall c: nat, d: nat, term: nat :: Voted(s, i, c, term) && Voted(s, i, d, term) ==> c == d)
    && (n.role == Master ==> (i, n.term) in s.masters)
  }

  ghost predicate Elected(s: State, i: nat, term: nat, votes: set<nat>) {
    i < |s.nodes| && |votes| >= Quorum(|s.nodes|) && forall v: nat :: v in votes ==> v < |s.nodes| && Voted(s, v, i, term)
  }

  ghost predicate Inv(s: State) {
    && |s.nodes| > 0
    && (forall i :: 0 <= i < |s.nodes| ==> NodeInv(s, i))
    && (forall i: nat, term: nat :: (i, term) in s.started ==> i < |s.nodes|)
    && (forall r :: r in s.granted ==> r.voter < |s.nodes|)
    && (forall i: nat, term: nat :: (i, term) in s.masters ==> exists votes :: Elected(s, i, term, votes))
  }

  function Repaired(): Variant {
    Variant(true, true, true)
  }

  lemma InitInv(s: State)
    requires Init(s) && |s.nodes| > 0
    ensures Inv(s)
  {
  }

  /** Votes are never taken back. */
  ghost predicate Keeps(s: State, s': State) {
    && |s'.nodes| == |s.nodes| && s.granted <= s'.granted && s.started <= s'.started
  }

  lemma ElectedStays(s: State, s': State, i: nat, term: nat, votes: set<nat>)
    requires Keeps(s, s') && Elected(s, i, term, votes)
    ensures Elected(s', i, term, votes)
  {
  }

  /** A step that adds no master keeps the invariant if it keeps that of the node it changes. */
  lemma OneNodeStep(s: State, s': State, i: nat)
    requires Inv(s) && Keeps(s, s') && i < |s.nodes| && s'.masters == s.masters && NodeInv(s', i)
    requires forall j :: 0 <= j < |s.nodes| && j != i ==> s'.nodes[j] == s.nodes[j]
    requires forall v: nat, c: nat, term: nat :: v != i && Voted(s', v, c, term) ==> Voted(s, v, c, term)
    requires forall j: nat, term: nat :: (j, term) in s'.started ==> j < |s.nodes|
    requires forall r :: r in s'.granted ==> r.voter < |s.nodes|
    ensures Inv(s')
  {
    forall j | 0 <= j < |s'.nodes| ensures NodeInv(s', j) {
      if j != i { assert NodeInv(s, j); }
    }
    forall j: nat, term: nat | (j, term) in s'.masters ensures exists votes :: Elected(s', j, term, votes) {
      var votes :| Elected(s, j, term, votes);
      ElectedStays(s, s', j, term, votes);
    }
  }

  lemma StartElectionInv(s: State, i: nat, s': State)
    requires Inv(s) && StartElection(Repaired(), s, i, s')
    ensures Inv(s')
  {
    assert NodeInv(s, i);
    assert forall c: nat, t: nat :: Voted(s', i, c, t) ==> Voted(s, i, c, t) || (c == i && t == s'.nodes[i].term);
    OneNodeStep(s, s', i);
  }

  lemma HandleLoadInv(s: State, i: nat, req: Request, s': State)
    requires Inv(s) && HandleLoad(s, i, req, s')
    ensures Inv(s')
  {
    assert NodeInv(s, i);
    assert forall c: nat, t: nat :: Voted(s', i, c, t) <==> Voted(s, i, c, t);
    OneNodeStep(s, s', i);
  }

  lemma HandleDecideInv(s: State, i: nat, s': State)
    requires Inv(s) && HandleDecide(s, i, s')
    ensures Inv(s')
  {
    assert NodeInv(s, i);
    var c0 := s.nodes[i].handling.value.req;
    assert forall c: nat, t: nat :: Voted(s', i, c, t) ==>
             Voted(s, i, c, t) || (c == c0.from && t == c0.elTerm && Vote(i, c, t) in s'.granted - s.granted);
    OneNodeStep(s, s', i);
  }

  lemma OtherStepsInv(s: State, i: nat, s': State, term: nat, logTerm: nat, logLen: nat)
    requires Inv(s)
    requires Timeout(s, i, s') || Replicate(s, i, term, s') || StepDown(s, i, s') || LogChanges(s, i, logTerm, logLen, s')
    ensures Inv(s')
  {
    assert NodeInv(s, i);
    assert forall c: nat, t: nat :: Voted(s', i, c, t) <==> Voted(s, i, c, t);
    OneNodeStep(s, s', i);
  }

  lemma WinInv(s: State, i: nat, term: nat, votes: set<nat>, s': State)
    requires Inv(s) && Win(Repaired(), s, i, term, votes, s')
    ensures Inv(s')
  {
    forall j | 0 <= j < |s'.nodes| ensures NodeInv(s', j) {
      assert NodeInv(s, j);
      assert forall c: nat, t: nat :: Voted(s', j, c, t) <==> Voted(s, j, c, t);
    }
    forall j: nat, t: nat | (j, t) in s'.masters ensures exists vs :: Elected(s', j, t, vs) {
      if (j, t) in s.masters {
        var vs :| Elected(s, j, t, vs);
        ElectedStays(s, s', j, t, vs);
      } else {
        assert Elected(s', i, term, votes);
      }
    }
  }

  lemma NextInv(s: State, s': State)
    requires Inv(s) && Next(Repaired(), s, s')
    ensures Inv(s')
  {
    hide Inv, Timeout, StartElection, HandleLoad, HandleDecide, Win, Replicate, StepDown, LogChanges;
    if i: nat :| Timeout(s, i, s') {
      OtherStepsInv(s, i, s', 0, 0, 0);
    } else if i: nat :| StartElection(Repaired(), s, i, s') {
      StartElectionInv(s, i, s');
    } else if i: nat, req :| HandleLoad(s, i, req, s') {
      HandleLoadInv(s, i, req, s');
    } else if i: nat :| HandleDecide(s, i, s') {
      HandleDecideInv(s, i, s');
    } else if i: nat, term: nat, votes :| Win(Repaired(), s, i, term, votes, s') {
      WinInv(s, i, term, votes, s');
    } else if i: nat, term: nat :| Replicate(s, i, term, s') {
      OtherStepsInv(s, i, s', term, 0, 0);
    } else if i: nat :| StepDown(s, i, s') {
      OtherStepsInv(s, i, s', 0, 0, 0);
    } else {
      var i: nat, logTerm: nat, logLen: nat :| LogChanges(s, i, logTerm, logLen, s');
      OtherStepsInv(s, i, s', 0, logTerm, logLen);
    }
  }

  // ----- quorums

  ghost predicate IsQuorum(n: nat, a: set<nat>)
    requires n > 0
  {
    a <= Range(n) && |a| >= Quorum(n)
  }

  /** Any two sets of len(OtherIp) / 2 + 1 nodes have a node in common exactly if the number of nodes is odd. */
  lemma QuorumsMeet(n: nat)
    requires n > 0
    ensures (forall a, b :: IsQuorum(n, a) && IsQuorum(n, b) ==> a * b != {}) <==> n % 2 == 1
  {
    if n % 2 == 1 {
      forall a, b | IsQuorum(n, a) && IsQuorum(n, b) ensures a * b != {} {
        SubsetSize(a + b, Range(n));
      }
    } else {
      var a := Range(n / 2);
      var b := Range(n) - a;
      SubsetSize(a, Range(n));
      assert a + b == Range(n);
      assert IsQuorum(n, a) && IsQuorum(n, b) && a * b == {};
    }
  }

  lemma InvOneMaster(s: State)
    requires Inv(s) && |s.nodes| % 2 == 1
    ensures OneMaster(s)
  {
    forall i: nat, j: nat, term: nat | (i, term) in s.masters && (j, term) in s.masters ensures i == j {
      var a :| Elected(s, i, term, a);
      var b :| Elected(s, j, term, b);
      QuorumsMeet(|s.nodes|);
      assert IsQuorum(|s.nodes|, a) && IsQuorum(|s.nodes|, b);
      var v :| v in a * b;
      assert NodeInv(s, v);
    }
  }

  lemma {:induction false} RunInv(n: nat, b: seq<State>, k: nat)
    requires Run(Repaired(), n, b) && k < |b| && n > 0
    ensures Inv(b[k]) && |b[k].nodes| == n
  {
    hide Inv, Next;
    if k == 0 {
      InitInv(b[0]);
    } else {
      RunInv(n, b, k - 1);
      assert Next(Repaired(), b[k - 1], b[k - 1 + 1]);
      NextInv(b[k - 1], b[k]);
      NextKeepsNodes(Repaired(), b[k - 1], b[k]);
    }
  }

  lemma NextKeepsNodes(v: Variant, s: State, s': State)
    requires Next(v, s, s')
    ensures |s'.nodes| == |s.nodes|
  {
  }

  /** Election safety of the repaired protocol, in every odd cluster, over every run: at most
      one node becomes master in a term, and two nodes that are master have different terms. */
  lemma ElectionSafety(n: nat, b: seq<State>, k: nat)
    requires n % 2 == 1 && Run(Repaired(), n, b) && k < |b|
    ensures OneMaster(b[k]) && |b[k].nodes| == n
    ensures forall i, j :: 0 <= i < j < n && b[k].nodes[i].role == b[k].nodes[j].role == Master ==>
              b[k].nodes[i].term != b[k].nodes[j].term
  {
    RunInv(n, b, k);
    InvOneMaster(b[k]);
    forall i | 0 <= i < n && b[k].nodes[i].role == Master ensures (i, b[k].nodes[i].term) in b[k].masters {
      assert NodeInv(b[k], i);
    }
  }

  // ----- votes and logs, in the code as written and in every variant of it

  /** Every request that is under way or being handled was sent in this run. */
  ghost predicate RequestsOk(s: State) {
    forall i :: 0 <= i < |s.nodes| && s.nodes[i].handling.Some? ==> s.nodes[i].handling.value.req in s.sent
  }

  /** At this step the candidate started the election of the request, with that log. */
  ghost predicate Sends(v: Variant, s: State, s': State, c: Request) {
    && c.from < |s.nodes| && StartElection(v, s, c.from, s')
    && s.nodes[c.from].logTerm == c.logTerm && s.nodes[c.from].logLen == c.logLen && s'.nodes[c.from].term == c.elTerm
  }

  lemma NextRequests(v: Variant, s: State, s': State)
    requires Next(v, s, s') && RequestsOk(s)
    ensures RequestsOk(s') && s.sent <= s'.sent
    ensures forall c :: c in s'.sent - s.sent ==> Sends(v, s, s', c)
  {
    hide Win;
    if i: nat, term: nat, votes :| Win(v, s, i, term, votes, s') {
      WinKeepsRequests(v, s, i, term, votes, s');
    } else if i: nat :| StartElection(v, s, i, s') {
      forall c | c in s'.sent - s.sent ensures Sends(v, s, s', c) {
        assert c.from == i;
      }
    }
  }

  lemma WinKeepsRequests(v: Variant, s: State, i: nat, term: nat, votes: set<nat>, s': State)
    requires Win(v, s, i, term, votes, s') && RequestsOk(s)
    ensures RequestsOk(s') && s'.sent == s.sent
  {
  }

  lemma {:induction false} SentBy(v: Variant, n: nat, b: seq<State>, k: nat, c: Request) returns (j: nat)
    requires Run(v, n, b) && k < |b|
    ensures RequestsOk(b[k])
    ensures c in b[k].sent ==> j < k && Sends(v, b[j], b[j + 1], c)
  {
    hide Next, Sends, RequestsOk;
    j := 0;
    if k == 0 {
      assert RequestsOk(b[0]) by { NothingSent(b[0]); }
    } else {
      j := SentBy(v, n, b, k - 1, c);
      assert Next(v, b[k - 1], b[k - 1 + 1]);
      NextRequests(v, b[k - 1], b[k]);
      if c in b[k].sent && c !in b[k - 1].sent { j := k - 1; }
    }
  }

  lemma NothingSent(s: State)
    requires Init(s)
    ensures RequestsOk(s)
  {
  }

  /** The log (term of its last entry, length) is behind the other one. */
  predicate Behind(term: nat, len: nat, otherTerm: nat, otherLen: nat) {
    term < otherTerm || (term == otherTerm && len < otherLen)
  }

  /** When a node votes: the candidate's log is not behind its own, and the election's term is above the
      term that the handler has loaded, or is that term and the node's vote in it already
      went to this candidate. */
  predicate VotesFor(n: Node, c: Request, loaded: nat) {
    && !Behind(c.logTerm, c.logLen, n.logTerm, n.logLen)
    && (c.elTerm > loaded || (c.elTerm == loaded && n.votedFor == Some(c.from)))
  }

  /** The decision is a vote exactly then: the node goes over to the candidate's term as a slave, with
      the candidate as its favourite. Otherwise it only gives up the lock. */
  lemma DecidesExactlyWhen(s: State, i: nat, s': State)
    requires HandleDecide(s, i, s')
    ensures |s'.nodes| == |s.nodes| && forall j :: 0 <= j < |s.nodes| && j != i ==> s'.nodes[j] == s.nodes[j]
    ensures s'.sent == s.sent && s'.started == s.started && s'.masters == s.masters
    ensures var n, n', h := s.nodes[i], s'.nodes[i], s.nodes[i].handling.value;
            && n'.handling.None? && n'.logTerm == n.logTerm && n'.logLen == n.logLen
            && if VotesFor(n, h.req, h.term) then
                 && s'.granted == s.granted + {Vote(i, h.req.from, h.req.elTerm)}
                 && n'.term == h.req.elTerm && n'.role == Slave && n'.votedFor == Some(h.req.from)
               else s'.granted == s.granted && n'.term == n.term && n'.role == n.role && n'.votedFor == n.votedFor
  {
  }

  /** In every run, nobody votes for a candidate whose committed log, when it started the election,
      was behind the voter's own: a new vote comes from a request that the candidate sent earlier,
      with the log that it had then. */
  lemma VotesFollowLogs(v: Variant, n: nat, b: seq<State>, k: nat, i: nat) returns (j: nat, c: Request)
    requires Run(v, n, b) && k + 1 < |b| && HandleDecide(b[k], i, b[k + 1]) && b[k + 1].granted != b[k].granted
    ensures j < k && Sends(v, b[j], b[j + 1], c) && b[k + 1].granted == b[k].granted + {Vote(i, c.from, c.elTerm)}
    ensures !Behind(c.logTerm, c.logLen, b[k].nodes[i].logTerm, b[k].nodes[i].logLen)
  {
    hide Sends, Next;
    c := b[k].nodes[i].handling.value.req;
    j := SentBy(v, n, b, k, c);
  }
}
