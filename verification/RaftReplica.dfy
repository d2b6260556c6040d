/** How a replica handles a replicate message (DB/internal/raft/raftapi.go:90-229), and the
    key-value store that it keeps beside its log (DB/internal/raft/raftapi.go:367-378).
 */
module RaftReplica {
  import opened Common
  import opened RaftLog

  datatype Mean = Heartbeat | LogAppend | LogCommit | Unsupported

  datatype Answer = Reply(len: nat, ack: bool) | Refused | Fatal

  /** The message brings an entry to be logged. A heartbeat brings the master's last one, which has
      no op as long as the master's log is empty. */
  predicate Logs(mean: Mean) {
    mean == LogAppend || mean == LogCommit
  }

  type Kvs = map<string, string>

  /** `x - 1` on a uint64. */
  function Before(x: nat): nat {
    (x + WORDS - 1) % WORDS
  }

  function ApplyToKvs(kvs: Kvs, e: Entry): Kvs {
    if e.op == "create" || e.op == "update" then kvs[e.operand := e.value1]
    else if e.op == "delete" then kvs - {e.operand}
    else kvs
  }

  /** The store after all entries of a log, from the empty store. */
  function Replay(log: seq<Entry>): Kvs {
    if log == [] then map[] else ApplyToKvs(Replay(log[..|log| - 1]), log[|log| - 1])
  }

  datatype Replica = Replica(term: nat, role: Role, log: seq<Entry>, toCommit: seq<Entry>, kvs: Kvs)

  function Lens(r: Replica): Answer {
    Reply(LenOf(r.log) + |r.toCommit|, |r.toCommit| == 0)
  }

  /** The entry is stored as the next one: it is the first, or names the last committed one. */
  predicate Accepts(r: Replica, e: Entry) {
    (e.ind == 0 && LenOf(r.log) + |r.toCommit| == 0) || e.prevInd == Before(LenOf(r.log))
  }

  function Store(r: Replica, e: Entry): Replica {
    if Accepts(r, e) then
      var pending := if |r.toCommit| > 0 then [] else r.toCommit;
      r.(toCommit := pending + [Numbered(r.log, pending, e)])
    else r
  }

  function Commit(r: Replica): Replica {
    var r' := if r.toCommit == [] then r else r.(log := r.log + [r.toCommit[0]], toCommit := r.toCommit[1..]);
    r'.(kvs := ApplyToKvs(r'.kvs, LastOf(r'.log)))
  }

  /** A slave handles a message of its own term. */
  function HandleAsSlave(r: Replica, mean: Mean, e: Entry): (Replica, Answer) {
    match mean
    case Heartbeat => (r, Lens(r))
    case LogAppend => (Store(r, e), Lens(Store(r, e)))
    case LogCommit =>
      var s := Store(r, e);
      if Before(LenOf(s.log) + |s.toCommit|) != e.ind then (s, Fatal) else (Commit(s), Lens(Commit(s)))
    case Unsupported => (r, Refused)
  }

  function Handle(r: Replica, mean: Mean, term: nat, e: Entry): (Replica, Answer) {
    match r.role
    case Master => if r.term >= term then (r, Refused) else (r.(term := term, role := Slave), Lens(r))
    case Condidate => if r.term <= term then (r.(term := term, role := Slave), Lens(r)) else (r, Refused)
    case Slave =>
      if r.term > term then (r, Refused) else HandleAsSlave(r.(term := term), mean, e)
  }

  // ----- the store is the replay of the log

  ghost predicate ReplicaOk(r: Replica) {
    Chain(r.log + r.toCommit) && r.kvs == Replay(r.log)
  }

  lemma ApplyTwice(kvs: Kvs, e: Entry)
    ensures ApplyToKvs(ApplyToKvs(kvs, e), e) == ApplyToKvs(kvs, e)
  {
  }

  lemma ReplayLast(log: seq<Entry>)
    ensures ApplyToKvs(Replay(log), LastOf(log)) == Replay(log)
  {
    if log != [] { ApplyTwice(Replay(log[..|log| - 1]), log[|log| - 1]); }
  }

  /** The entry binds the key. */
  predicate Binds(e: Entry, key: string, value: string) {
    e.op in {"create", "update"} && e.operand == key && e.value1 == value
  }

  /** The entry says something about the key. */
  predicate Touches(e: Entry, key: string) {
    e.op in {"create", "update", "delete"} && e.operand == key
  }

  /** The last entry about the key binds it to the value. */
  ghost predicate LastBinds(log: seq<Entry>, key: string, value: string) {
    exists i :: 0 <= i < |log| && Binds(log[i], key, value) && forall j :: i < j < |log| ==> !Touches(log[j], key)
  }

  /** The replay binds exactly what the last entry about each key binds. */
  lemma {:induction false} ReplayIsLast(log: seq<Entry>, key: string, value: string)
    ensures key in Replay(log) && Replay(log)[key] == value <==> LastBinds(log, key, value)
  {
    if log != [] {
      var front, e := log[..|log| - 1], log[|log| - 1];
      ReplayIsLast(front, key, value);
      LastStep(front, e, key, value);
      ApplyStep(Replay(front), e, key, value);
      assert log == front + [e];
    }
  }

  lemma ApplyStep(kvs: Kvs, e: Entry, key: string, value: string)
    ensures key in ApplyToKvs(kvs, e) && ApplyToKvs(kvs, e)[key] == value <==>
            if Touches(e, key) then Binds(e, key, value) else key in kvs && kvs[key] == value
  {
  }

  lemma LastStep(front: seq<Entry>, e: Entry, key: string, value: string)
    ensures LastBinds(front + [e], key, value) <==>
            if Touches(e, key) then Binds(e, key, value) else LastBinds(front, key, value)
  {
    var log := front + [e];
    if LastBinds(log, key, value) {
      var i :| 0 <= i < |log| && Binds(log[i], key, value) && forall j :: i < j < |log| ==> !Touches(log[j], key);
      if i < |front| {
        assert log[|front|] == e;
        assert Binds(front[i], key, value) && forall j :: i < j < |front| ==> front[j] == log[j];
      }
    }
    if Touches(e, key) {
      if Binds(e, key, value) { assert Binds(log[|front|], key, value); }
    } else if LastBinds(front, key, value) {
      var i :| 0 <= i < |front| && Binds(front[i], key, value) && forall j :: i < j < |front| ==> !Touches(front[j], key);
      assert Binds(log[i], key, value);
    }
  }

  lemma StoreOk(r: Replica, e: Entry)
    requires Chain(r.log + r.toCommit)
    ensures e.op != "" ==> Chain(Store(r, e).log + Store(r, e).toCommit)
  {
    hide Chain, Numbered;
    ChainPrefix(r.log + r.toCommit, |r.log|);
    assert (r.log + r.toCommit)[..|r.log|] == r.log + [];
    if e.op != "" { NumberedGrows(r.log, [], e); }
  }

  lemma CommitOk(r: Replica)
    ensures Commit(r).log + Commit(r).toCommit == r.log + r.toCommit && r.log <= Commit(r).log
    ensures r.kvs == Replay(r.log) ==> Commit(r).kvs == Replay(Commit(r).log)
  {
    if r.toCommit == [] {
      ReplayLast(r.log);
    } else {
      var log := r.log + [r.toCommit[0]];
      assert log[..|log| - 1] == r.log;
      assert log + r.toCommit[1..] == r.log + r.toCommit;
    }
  }

  /** Whatever message a replica handles, its committed log only grows, and its store stays the replay
      of the committed log: committing again and applying the last entry again change
      nothing. Its log stays a chain, as long as the entries to be logged have an op. */
  lemma HandleKeepsReplay(r: Replica, mean: Mean, term: nat, e: Entry)
    ensures var s := Handle(r, mean, term, e).0;
      && r.log <= s.log && (r.kvs == Replay(r.log) ==> s.kvs == Replay(s.log))
      && (Chain(r.log + r.toCommit) && (Logs(mean) ==> e.op != "") ==> Chain(s.log + s.toCommit))
  {
    hide Chain, Replay, Commit, Numbered, Accepts;
    var s := r.(term := term);
    CommitOk(Store(s, e));
    if Chain(r.log + r.toCommit) && Logs(mean) {
      StoreOk(s, e);
    }
  }

  /** By term and role, which messages a replica refuses: those of a lower term, as a master also those
      of its own, and as a slave those of an unknown kind. */
  predicate Refuses(r: Replica, mean: Mean, term: nat) {
    term < r.term || (r.role == Master && term == r.term) || (r.role == Slave && mean == Unsupported)
  }

  /** A refused message changes nothing -- one of an unknown kind can raise a slave's term --, and every
      other one makes the replica a slave of the message's term. Only a slave touches its log and its
      store, and not for a heartbeat. An answer tells the length of the whole log, and whether
      all of it is committed. */
  lemma HandleAnswers(r: Replica, mean: Mean, term: nat, e: Entry)
    ensures var (s, answer) := Handle(r, mean, term, e);
            && (answer == Refused <==> Refuses(r, mean, term))
            && (Refuses(r, mean, term) ==>
                  s == r.(term := if r.role == Slave && r.term < term then term else r.term))
            && (!Refuses(r, mean, term) ==> s.term == term && s.role == Slave && r.term <= term)
            && (answer.Reply? ==> answer == Reply(LenOf(s.log) + |s.toCommit|, s.toCommit == []))
            && (answer == Fatal ==> r.role == Slave && mean == LogCommit)
            && (r.role != Slave || !Logs(mean) ==> s.log == r.log && s.toCommit == r.toCommit && s.kvs == r.kvs)
            && (!(r.role == Slave && mean == LogCommit) ==> s.log == r.log && s.kvs == r.kvs)
  {
    hide Numbered, LenOf, Accepts, Before, ApplyToKvs;
  }

  /** A message: its kind, the term in it, and the entry. */
  datatype Message = Message(mean: Mean, term: nat, entry: Entry)

  function HandleAll(r: Replica, ms: seq<Message>): Replica {
    if ms == [] then r
    else
      var m := ms[|ms| - 1];
      Handle(HandleAll(r, ms[..|ms| - 1]), m.mean, m.term, m.entry).0
  }

  /** After any messages at all, in any order and with any repetitions. */
  lemma {:induction false} StoreIsReplay(r: Replica, ms: seq<Message>)
    requires r.log == [] && r.toCommit == [] && r.kvs == map[]
    ensures var s := HandleAll(r, ms);
      && s.kvs == Replay(s.log)
      && ((forall m :: m in ms && Logs(m.mean) ==> m.entry.op != "") ==> Chain(s.log + s.toCommit))
  {
    if ms == [] {
      assert r.log + r.toCommit == [];
    } else {
      hide Handle, Chain, Replay;
      StoreIsReplay(r, ms[..|ms| - 1]);
      var m := ms[|ms| - 1];
      HandleKeepsReplay(HandleAll(r, ms[..|ms| - 1]), m.mean, m.term, m.entry);
    }
  }

  // ----- the handler as it runs

  class MiddleWare {
    var term: nat
    var role: Role
    const raftLog: Logger
    var kvs: Kvs

    ghost function View(): Replica
      reads this, raftLog
    {
      Replica(term, role, raftLog.file, raftLog.toCommit, kvs)
    }

    ghost predicate Valid()
      reads this, raftLog
    {
      raftLog.Valid()
    }

    constructor ()
      ensures Valid() && fresh(raftLog) && View() == Replica(0, Slave, [], [], map[])
    {
      term, role, kvs := 0, Slave, map[];
      raftLog := new Logger.InitOrRestore();
    }

    method Lengths() returns (answer: Answer)
      requires Valid()
      ensures answer == Lens(View())
    {
      var uncommited := raftLog.LenUncommited();
      var commited := raftLog.LenCommited();
      answer := Reply(uncommited, uncommited == commited);
    }

    method ApplyToStore(e: Entry)
      modifies `kvs
      ensures kvs == ApplyToKvs(old(kvs), e)
    {
      if e.op == "create" || e.op == "update" {
        kvs := kvs[e.operand := e.value1];
      } else if e.op == "delete" {
        kvs := kvs - {e.operand};
      }
    }

    method HandleReplicate(mean: Mean, msgTerm: nat, entry: Entry) returns (answer: Answer)
      requires Valid()
      modifies this, raftLog
      ensures Valid() && (View(), answer) == Handle(old(View()), mean, msgTerm, entry)
    {
      hide Store, Commit;
      if role == Master && term >= msgTerm {
        return Refused;
      }
      if role == Master || role == Condidate {
        if term <= msgTerm {
          term, role := msgTerm, Slave;
          answer := Lengths();
        } else {
          answer := Refused;
        }
        return;
      }
      if term < msgTerm {
        term := msgTerm;
      }
      if term > msgTerm {
        return Refused;
      }
      if mean == Unsupported {
        return Refused;
      }
      if mean == LogAppend || mean == LogCommit {
        StoreEntry(entry);
        if mean == LogCommit {
          var uncommited := raftLog.LenUncommited();
          if Before(uncommited) != entry.ind {
            return Fatal;
          }
          CommitEntry();
        }
      }
      answer := Lengths();
    }

    method CommitEntry()
      requires Valid()
      modifies raftLog, `kvs
      ensures Valid() && View() == Commit(old(View()))
    {
      raftLog.LogCommit();
      var last := raftLog.LastOp();
      ApplyToStore(last);
    }

    method StoreEntry(entry: Entry)
      requires Valid()
      modifies raftLog`toCommit
      ensures Valid() && View() == Store(old(View()), entry)
    {
      var uncommited := raftLog.LenUncommited();
      var commited := raftLog.LenCommited();
      if (entry.ind == 0 && uncommited == 0) || entry.prevInd == Before(commited) {
        if uncommited > commited {
          raftLog.FlushUncommited();
        }
        raftLog.LogOp(entry);
      }
    }
  }
}
