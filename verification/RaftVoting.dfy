/** The vote handler and the election of one node as they run
    (DB/internal/raft/raftapi.go:290-354, DB/internal/raft/middleware.go:229-274), against the steps of
    the election protocol.
 */
module RaftVoting {
  import opened Common
  import opened RaftElection
  import RaftReplica
  import RaftLog

  /** An answer to a vote request; `err` stands for a failed one. */
  datatype Rsp = Rsp(ip: nat, term: nat, err: bool, ans: bool)

  /** A node after it has handled a vote request without interruption. */
  function Decided(n: Node, c: Request): (Node, bool) {
    if TermOk(n, c, n.term) && LogOk(n, c) then (n.(term := c.elTerm, role := Slave, votedFor := Some(c.from)), true)
    else (n, false)
  }

  /** That is the two steps of the protocol, one after the other. */
  lemma DecidedIsTwoSteps(s: State, i: nat, c: Request, mid: State, s': State)
    requires HandleLoad(s, i, c, mid) && HandleDecide(mid, i, s')
    ensures var (n, yes) := Decided(s.nodes[i], c);
            && s' == s.(nodes := s.nodes[i := n], granted := s'.granted)
            && s'.granted == if yes then s.granted + {Vote(i, c.from, c.elTerm)} else s.granted
  {
    var (n, yes) := Decided(s.nodes[i], c);
    assert s.nodes[i].(handling := None) == s.nodes[i];
    assert mid.nodes[i := n] == s.nodes[i := n];
  }

  /** The answer is yes exactly if the candidate's log is not behind the node's and its term is above
      the node's, or the same with the node's vote already given to it; a no changes nothing. */
  lemma VotesExactlyWhen(n: Node, c: Request)
    ensures var (n', yes) := Decided(n, c);
            && (yes <==> VotesFor(n, c, n.term))
            && (yes ==> n' == Node(c.elTerm, Slave, Some(c.from), n.logTerm, n.logLen, n.handling))
            && (!yes ==> n' == n) && n.term <= n'.term
  {
  }

  /** What the message handler does to term and role is what the election machine lets a message do:
      nothing, or the step that makes the node a slave of a term that is not lower. */
  lemma HandleIsReplicate(s: State, i: nat, r: RaftReplica.Replica, mean: RaftReplica.Mean, term: nat, e: RaftLog.Entry)
    requires i < |s.nodes| && s.nodes[i].handling.None? && s.nodes[i].term == r.term && s.nodes[i].role == r.role
    ensures var (r', answer) := RaftReplica.Handle(r, mean, term, e);
            var s' := s.(nodes := s.nodes[i := s.nodes[i].(term := r'.term, role := r'.role)]);
            s' == s || Replicate(s, i, term, s')
    ensures RaftReplica.Handle(r, mean, term, e).1 != RaftReplica.Refused ==>
              var r' := RaftReplica.Handle(r, mean, term, e).0;
              Replicate(s, i, term, s.(nodes := s.nodes[i := s.nodes[i].(term := r'.term, role := r'.role)]))
  {
    RaftReplica.HandleAnswers(r, mean, term, e);
    hide RaftReplica.Handle;
    var r' := RaftReplica.Handle(r, mean, term, e).0;
    if r'.term == r.term && r'.role == r.role {
      assert s.nodes[i].(term := r'.term, role := r'.role) == s.nodes[i];
      assert s.nodes[i := s.nodes[i]] == s.nodes;
    }
  }

  /** The nodes that a sequence of answers gives a candidate, with its own vote. */
  ghost function Votes(self: nat, term: nat, answers: seq<Rsp>): set<nat> {
    {self} + set a | a in answers && a.term == term && a.ans && !a.err :: a.ip
  }

  lemma {:induction false} VotesGrow(self: nat, term: nat, answers: seq<Rsp>, k: nat)
    requires k <= |answers|
    ensures |Votes(self, term, answers[..k])| <= |Votes(self, term, answers)|
  {
    SubsetSize(Votes(self, term, answers[..k]), Votes(self, term, answers));
  }

  class MiddleWare {
    const self: nat
    const peers: nat
    const logTerm: nat
    const logLen: nat
    var term: nat
    var role: Role
    var votedFor: Option<nat>
    var leader: nat

    constructor (self: nat, peers: nat, logTerm: nat, logLen: nat)
      ensures this.self == self && this.peers == peers && this.logTerm == logTerm && this.logLen == logLen
      ensures View() == Node(0, Slave, None, logTerm, logLen, None) && leader == self
    {
      this.self, this.peers, this.logTerm, this.logLen := self, peers, logTerm, logLen;
      term, role, votedFor, leader := 0, Slave, None, self;
    }

    ghost function View(): Node
      reads this
    {
      Node(term, role, votedFor, logTerm, logLen, None)
    }

    /** The answer carries the term after the decision. */
    method HandleVoteRequest(c: Request) returns (answerTerm: nat, answer: bool)
      modifies `term, `role, `votedFor, `leader
      ensures (View(), answer) == Decided(old(View()), c) && answerTerm == term
      ensures answer <==> VotesFor(old(View()), c, old(term))
      ensures leader == if answer then c.from else old(leader)
    {
      var loaded := term;
      var logOk := c.logTerm > logTerm || (c.logTerm == logTerm && c.logLen >= logLen);
      var termOk := c.elTerm > loaded || (c.elTerm == loaded && votedFor != None && votedFor.value == c.from);
      if termOk && logOk {
        term := c.elTerm;
        role := Slave;
        votedFor := Some(c.from);
        leader := c.from;
      }
      return term, termOk && logOk;
    }

    /** Election_co without interruption: `answers` are those that arrive before the timer expires,
        in their order. The node becomes master exactly if they give it a quorum, however
        often a peer is among them. VotedFor is left as it was. */
    method Elect(answers: seq<Rsp>) returns (request: Request, votes: set<nat>)
      modifies `term, `role, `leader
      ensures term == old(term) + 1 && request == Request(self, logLen, logTerm, term)
      ensures votes <= Votes(self, term, answers)
      ensures |votes| >= Quorum(peers + 1) <==> |Votes(self, term, answers)| >= Quorum(peers + 1)
      ensures role == if |votes| >= Quorum(peers + 1) then Master else old(role)
      ensures leader == if |votes| >= Quorum(peers + 1) then self else old(leader)
    {
      term := term + 1;
      request := Request(self, logLen, logTerm, term);
      votes := {self};
      var next := 0;
      while |votes| < peers / 2 + 1
        invariant next <= |answers| && votes == Votes(self, term, answers[..next])
        decreases |answers| - next
      {
        if next == |answers| {
          assert answers[..next] == answers;
          return;
        }
        var rsp := answers[next];
        assert answers[..next + 1] == answers[..next] + [rsp];
        if !rsp.err && rsp.term == term && rsp.ans {
          votes := votes + {rsp.ip};
        }
        next := next + 1;
      }
      VotesGrow(self, term, answers, next);
      role := Master;
      leader := self;
    }
  }
}
