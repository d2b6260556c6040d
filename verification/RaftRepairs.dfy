/** Which changes the election code needs (DB/internal/raft/middleware.go:229-274,
    DB/internal/raft/raftapi.go:315-338): for each of the three, a run of three nodes that elects two
    masters in one term although the other two changes have been made.
 */
module RaftRepairs {
  import opened Common
  import opened RaftElection

  ghost predicate Reachable(v: Variant, n: nat, s: State) {
    exists b :: Run(v, n, b) && b[|b| - 1] == s
  }

  lemma Extend(v: Variant, n: nat, s: State, s': State)
    requires Reachable(v, n, s) && Next(v, s, s')
    ensures Reachable(v, n, s')
  {
    hide Next, Init;
    var b :| Run(v, n, b) && b[|b| - 1] == s;
    var b' := b + [s'];
    forall k | 0 <= k < |b'| - 1 ensures Next(v, b'[k], b'[k + 1]) {
      if k < |b| - 1 { assert b'[k] == b[k] && b'[k + 1] == b[k + 1]; }
    }
    assert Run(v, n, b') && b'[|b'| - 1] == s';
  }

  function Start(n: nat): State {
    State(seq(n, i => Node(0, Slave, None, 0, 0, None)), {}, {}, {}, {})
  }

  lemma StartReachable(v: Variant, n: nat)
    ensures Reachable(v, n, Start(n))
  {
    var b := [Start(n)];
    assert Run(v, n, b) && b[|b| - 1] == Start(n);
  }

  // ----- the steps as functions

  function Stand(v: Variant, s: State, i: nat): State
    requires i < |s.nodes|
  {
    var n := s.nodes[i];
    var n' := n.(term := n.term + 1, votedFor := if v.recordSelf then Some(i) else n.votedFor, role := Condidate);
    s.(nodes := s.nodes[i := n'], sent := s.sent + {Request(i, n.logLen, n.logTerm, n'.term)},
       started := s.started + {(i, n'.term)})
  }

  /** The timer expires, and the node starts an election. */
  lemma StandSteps(v: Variant, n: nat, s: State, i: nat)
    requires Reachable(v, n, s) && i < |s.nodes| && s.nodes[i].role != Master && s.nodes[i].handling.None?
    ensures Reachable(v, n, Stand(v, s, i))
  {
    hide Reachable;
    var m := if s.nodes[i].role == Slave then s.(nodes := s.nodes[i := s.nodes[i].(role := Condidate)]) else s;
    if s.nodes[i].role == Slave {
      assert Timeout(s, i, m);
      Extend(v, n, s, m);
    }
    var s' := Stand(v, s, i);
    assert s'.nodes == m.nodes[i := s'.nodes[i]];
    assert StartElection(v, m, i, s');
    Extend(v, n, m, s');
  }

  function Load(s: State, i: nat, c: Request): State
    requires i < |s.nodes|
  {
    s.(nodes := s.nodes[i := s.nodes[i].(handling := Some(Handling(c, s.nodes[i].term)))])
  }

  lemma LoadSteps(v: Variant, n: nat, s: State, i: nat, c: Request)
    requires Reachable(v, n, s) && i < |s.nodes| && s.nodes[i].handling.None? && c in s.sent && c.from != i
    ensures Reachable(v, n, Load(s, i, c))
  {
    hide Reachable;
    assert HandleLoad(s, i, c, Load(s, i, c));
    Extend(v, n, s, Load(s, i, c));
  }

  function Grant(s: State, i: nat, c: Request): State
    requires i < |s.nodes|
  {
    s.(nodes := s.nodes[i := s.nodes[i].(term := c.elTerm, role := Slave, votedFor := Some(c.from), handling := None)],
       granted := s.granted + {Vote(i, c.from, c.elTerm)})
  }

  lemma DecideSteps(v: Variant, n: nat, s: State, i: nat, c: Request)
    requires Reachable(v, n, s) && i < |s.nodes| && s.nodes[i].handling.Some? && s.nodes[i].handling.value.req == c
    requires TermOk(s.nodes[i], c, s.nodes[i].handling.value.term) && LogOk(s.nodes[i], c)
    ensures Reachable(v, n, Grant(s, i, c))
  {
    hide Reachable;
    assert HandleDecide(s, i, Grant(s, i, c));
    Extend(v, n, s, Grant(s, i, c));
  }

  /** A vote request is handled without interruption. */
  lemma VoteSteps(v: Variant, n: nat, s: State, i: nat, c: Request)
    requires Reachable(v, n, s) && i < |s.nodes| && s.nodes[i].handling.None? && c in s.sent && c.from != i
    requires TermOk(s.nodes[i], c, s.nodes[i].term) && LogOk(s.nodes[i], c)
    ensures Reachable(v, n, Grant(s, i, c))
  {
    hide Reachable;
    LoadSteps(v, n, s, i, c);
    DecideSteps(v, n, Load(s, i, c), i, c);
    assert Grant(Load(s, i, c), i, c).nodes == Grant(s, i, c).nodes;
  }

  function Crown(s: State, i: nat): State
    requires i < |s.nodes|
  {
    s.(nodes := s.nodes[i := s.nodes[i].(role := Master)], masters := s.masters + {(i, s.nodes[i].term)})
  }

  lemma WinSteps(v: Variant, n: nat, s: State, i: nat, term: nat, voter: nat)
    requires Reachable(v, n, s) && |s.nodes| == 3 && i < 3 && voter < 3 && voter != i && s.nodes[i].handling.None?
    requires (i, term) in s.started && Vote(voter, i, term) in s.granted && (v.recheck ==> s.nodes[i].term == term)
    ensures Reachable(v, n, Crown(s, i))
  {
    hide Reachable;
    assert Win(v, s, i, term, {i, voter}, Crown(s, i));
    Extend(v, n, s, Crown(s, i));
  }

  // ----- one run for each missing change

  /** Node 0 votes for node 1 in term 1, stands itself in term 2 and wins with the vote of node 2;
      as VotedFor still names node 1, it grants node 1 its vote for term 2 as well. */
  lemma WithoutRecordSelf(v: Variant) returns (s: State)
    requires !v.recordSelf
    ensures Reachable(v, 3, s) && !OneMaster(s)
  {
    hide Reachable;
    StartReachable(v, 3);
    var c1 := Request(1, 0, 0, 1);
    var c0 := Request(0, 0, 0, 2);
    var c2 := Request(1, 0, 0, 2);
    StandSteps(v, 3, Start(3), 1);
    var s1 := Stand(v, Start(3), 1);
    VoteSteps(v, 3, s1, 0, c1);
    var s2 := Grant(s1, 0, c1);
    StandSteps(v, 3, s2, 0);
    var s3 := Stand(v, s2, 0);
    VoteSteps(v, 3, s3, 2, c0);
    var s4 := Grant(s3, 2, c0);
    WinSteps(v, 3, s4, 0, 2, 2);
    var s5 := Crown(s4, 0);
    StandSteps(v, 3, s5, 1);
    var s6 := Stand(v, s5, 1);
    VoteSteps(v, 3, s6, 0, c2);
    var s7 := Grant(s6, 0, c2);
    WinSteps(v, 3, s7, 1, 2, 0);
    s := Crown(s7, 1);
    assert (0, 2) in s.masters && (1, 2) in s.masters;
  }

  /** Node 0 has the votes for term 1, then grants node 1 its vote for term 2, and then becomes
      master, with Term 2. */
  lemma WithoutRecheck(v: Variant) returns (s: State)
    requires !v.recheck
    ensures Reachable(v, 3, s) && !OneMaster(s)
  {
    hide Reachable;
    StartReachable(v, 3);
    var c0 := Request(0, 0, 0, 1);
    var c1 := Request(1, 0, 0, 2);
    StandSteps(v, 3, Start(3), 0);
    var s1 := Stand(v, Start(3), 0);
    VoteSteps(v, 3, s1, 2, c0);
    var s2 := Grant(s1, 2, c0);
    StandSteps(v, 3, s2, 1);
    var s3 := Stand(v, s2, 1);
    StandSteps(v, 3, s3, 1);
    var s4 := Stand(v, s3, 1);
    VoteSteps(v, 3, s4, 0, c1);
    var s5 := Grant(s4, 0, c1);
    WinSteps(v, 3, s5, 0, 1, 2);
    var s6 := Crown(s5, 0);
    WinSteps(v, 3, s6, 1, 2, 0);
    s := Crown(s6, 1);
    assert (0, 2) in s.masters && (1, 2) in s.masters;
  }

  /** Node 1 stands in term 1, and node 0 has loaded Term 0 to decide about its request when it
      starts an election for term 1 itself. */
  lemma Contested(v: Variant) returns (s: State)
    requires !v.lockStart
    ensures Reachable(v, 3, s) && |s.nodes| == 3
    ensures s.nodes[0].handling == Some(Handling(Request(1, 0, 0, 1), 0)) && s.nodes[2] == Start(3).nodes[2]
    ensures s.nodes[0].term == s.nodes[1].term == 1 && s.nodes[0].logTerm == s.nodes[0].logLen == 0
    ensures s.nodes[1].handling.None? && Request(0, 0, 0, 1) in s.sent && {(0, 1), (1, 1)} <= s.started
  {
    hide Reachable;
    StartReachable(v, 3);
    StandSteps(v, 3, Start(3), 1);
    var s1 := Stand(v, Start(3), 1);
    var m := s1.(nodes := s1.nodes[0 := s1.nodes[0].(role := Condidate)]);
    assert Timeout(s1, 0, m);
    Extend(v, 3, s1, m);
    LoadSteps(v, 3, m, 0, Request(1, 0, 0, 1));
    var s2 := Load(m, 0, Request(1, 0, 0, 1));
    s := Stand(v, s2, 0);
    assert StartElection(v, s2, 0, s);
    Extend(v, 3, s2, s);
  }

  /** Then node 0 wins with node 2's vote, and grants node 1 the vote that it had begun to
      decide about. */
  lemma WithoutLockStart(v: Variant) returns (s: State)
    requires !v.lockStart
    ensures Reachable(v, 3, s) && !OneMaster(s)
  {
    hide Reachable;
    var s3 := Contested(v);
    var c0 := Request(0, 0, 0, 1);
    var c1 := Request(1, 0, 0, 1);
    VoteSteps(v, 3, s3, 2, c0);
    var s4 := Grant(s3, 2, c0);
    DecideSteps(v, 3, s4, 0, c1);
    var s5 := Grant(s4, 0, c1);
    WinSteps(v, 3, s5, 0, 1, 2);
    var s6 := Crown(s5, 0);
    WinSteps(v, 3, s6, 1, 1, 0);
    s := Crown(s6, 1);
    assert (0, 1) in s.masters && (1, 1) in s.masters;
  }

  /** At most one master per term in every odd cluster and every run: exactly if all three
      changes are made. */
  lemma SafeExactlyIfRepaired(v: Variant)
    ensures (forall n: nat, s: State :: n % 2 == 1 && Reachable(v, n, s) ==> OneMaster(s)) <==> v == Repaired()
  {
    hide Reachable;
    if v == Repaired() {
      forall n: nat, s: State | n % 2 == 1 && Reachable(v, n, s) ensures OneMaster(s) {
        RepairedIsSafe(n, s);
      }
    } else {
      var s;
      if !v.recordSelf {
        s := WithoutRecordSelf(v);
      } else if !v.recheck {
        s := WithoutRecheck(v);
      } else {
        s := WithoutLockStart(v);
      }
      assert 3 % 2 == 1 && Reachable(v, 3, s) && !OneMaster(s);
    }
  }

  lemma RepairedIsSafe(n: nat, s: State)
    requires n % 2 == 1 && Reachable(Repaired(), n, s)
    ensures OneMaster(s)
  {
    hide Next, Init;
    var b :| Run(Repaired(), n, b) && b[|b| - 1] == s;
    ElectionSafety(n, b, |b| - 1);
  }
}
