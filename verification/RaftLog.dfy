/** The two-part log of a replica (DB/internal/logger/logger.go): entries that are committed, in a
    file, and entries that are not, in memory.
 */
module RaftLog {

  datatype Entry = Entry(
    op: string, operand: string, value1: string, value2: string,
    term: nat, ind: nat, prevInd: nat, prevTerm: nat)

  /** last_entry of a log without committed entries: its empty op says so. */
  const NO_ENTRY := Entry("", "", "", "", 0, 0, 0, 0)

  /** The entry as it is stored behind the entries of `full`: its index and the index and
      term before it are computed, whatever the message said. */
  function Filed(full: seq<Entry>, msg: Entry): Entry {
    if full == [] then msg.(ind := 0, prevInd := 0, prevTerm := 0)
    else msg.(ind := |full|, prevInd := |full| - 1, prevTerm := full[|full| - 1].term)
  }

  /** Entry i has index i and names the entry before it. */
  ghost predicate Chain(full: seq<Entry>) {
    forall i {:trigger full[i]} :: 0 <= i < |full| ==> full[i].op != "" && full[i] == Filed(full[..i], full[i])
  }

  lemma ChainGrows(full: seq<Entry>, msg: Entry)
    requires Chain(full) && msg.op != ""
    ensures Chain(full + [Filed(full, msg)])
  {
    var next := full + [Filed(full, msg)];
    forall i {:trigger next[i]} | 0 <= i < |next| ensures next[i].op != "" && next[i] == Filed(next[..i], next[i]) {
      if i < |full| {
        assert next[..i] == full[..i] && next[i] == full[i];
      } else {
        assert next[..i] == full;
      }
    }
  }

  lemma ChainPrefix(full: seq<Entry>, n: nat)
    requires Chain(full) && n <= |full|
    ensures Chain(full[..n])
  {
    forall i {:trigger full[..n][i]} | 0 <= i < n
      ensures full[..n][i].op != "" && full[..n][i] == Filed(full[..n][..i], full[..n][i])
    {
      assert full[..n][..i] == full[..i] && full[..n][i] == full[i];
    }
  }

  lemma ChainAt(full: seq<Entry>, i: nat)
    requires Chain(full) && i < |full|
    ensures full[i].op != "" && full[i].ind == i
    ensures i > 0 ==> full[i].prevInd == full[i - 1].ind == i - 1 && full[i].prevTerm == full[i - 1].term
    ensures i == 0 ==> full[i].prevInd == 0 && full[i].prevTerm == 0
  {
    assert full[i] == Filed(full[..i], full[i]);
  }

  function LastOf(log: seq<Entry>): Entry {
    if log == [] then NO_ENTRY else log[|log| - 1]
  }

  /** LenCommited counts from the index of the last committed entry. */
  function LenOf(file: seq<Entry>): nat {
    var last := LastOf(file);
    if last.op != "" then last.ind + 1 else last.ind
  }

  /** LogOp numbers an entry from the last uncommitted one, or else from the last committed one. */
  function Numbered(file: seq<Entry>, toCommit: seq<Entry>, msg: Entry): Entry {
    var last := if toCommit != [] then toCommit[|toCommit| - 1] else LastOf(file);
    if toCommit == [] && last.op == "" then msg.(ind := 0, prevInd := 0, prevTerm := 0)
    else msg.(ind := last.ind + 1, prevInd := last.ind, prevTerm := last.term)
  }

  /** In a chain that counts the committed entries. */
  lemma LenIsLength(file: seq<Entry>, toCommit: seq<Entry>)
    requires Chain(file + toCommit)
    ensures LenOf(file) == |file|
  {
    if file != [] { ChainAt(file + toCommit, |file| - 1); }
  }

  /** In a chain the number is the place of the entry. */
  lemma NumberedIsFiled(file: seq<Entry>, toCommit: seq<Entry>, msg: Entry)
    requires Chain(file + toCommit)
    ensures Numbered(file, toCommit, msg) == Filed(file + toCommit, msg)
  {
    var full := file + toCommit;
    if full != [] { ChainAt(full, |full| - 1); }
  }

  /** So the log stays a chain, as long as its entries have an op. */
  lemma NumberedGrows(file: seq<Entry>, toCommit: seq<Entry>, msg: Entry)
    requires Chain(file + toCommit) && msg.op != ""
    ensures Chain(file + (toCommit + [Numbered(file, toCommit, msg)]))
  {
    NumberedIsFiled(file, toCommit, msg);
    ChainGrows(file + toCommit, msg);
    assert file + (toCommit + [Filed(file + toCommit, msg)]) == file + toCommit + [Filed(file + toCommit, msg)];
  }

  class Logger {
    /** The lines of the log file. */
    var file: seq<Entry>
    var lastEntry: Entry
    var toCommit: seq<Entry>

    ghost predicate Valid()
      reads this
    {
      lastEntry == LastOf(file)
    }

    /** All entries have their place as index. */
    ghost predicate Ordered()
      reads this
    {
      Chain(file + toCommit)
    }

    /** InitOrRestore on a new file. */
    constructor InitOrRestore()
      ensures Valid() && Ordered() && file == [] && toCommit == []
    {
      file, lastEntry, toCommit := [], NO_ENTRY, [];
    }

    /** The caller has to specify an op; without one the indices get out of step. */
    method LogOp(message: Entry)
      requires Valid()
      modifies `toCommit
      ensures Valid() && toCommit == old(toCommit) + [Numbered(file, old(toCommit), message)]
      ensures old(Ordered()) && message.op != "" ==>
                Ordered() && toCommit == old(toCommit) + [Filed(old(file + toCommit), message)]
    {
      hide Chain, Filed;
      if Ordered() && message.op != "" {
        NumberedIsFiled(file, toCommit, message);
        NumberedGrows(file, toCommit, message);
      }
      var msg := message;
      if |toCommit| > 0 {
        msg := msg.(ind := toCommit[|toCommit| - 1].ind + 1);
        msg := msg.(prevInd := msg.ind - 1, prevTerm := toCommit[|toCommit| - 1].term);
      } else if lastEntry.op == "" {
        msg := msg.(ind := 0, prevInd := 0, prevTerm := 0);
      } else {
        msg := msg.(ind := lastEntry.ind + 1);
        msg := msg.(prevInd := msg.ind - 1, prevTerm := lastEntry.term);
      }
      toCommit := toCommit + [msg];
    }

    /** The first uncommitted entry, if there is one, is appended to the file. */
    method LogCommit()
      requires Valid()
      modifies this
      ensures Valid() && file + toCommit == old(file + toCommit)
      ensures toCommit == if old(toCommit) == [] then [] else old(toCommit)[1..]
      ensures file == if old(toCommit) == [] then old(file) else old(file) + [old(toCommit)[0]]
    {
      if |toCommit| == 0 { return; }
      var m := toCommit[0];
      assert file + toCommit == (file + [m]) + toCommit[1..];
      toCommit := toCommit[1..];
      file := file + [m];
      lastEntry := m;
    }

    method LastOp() returns (last: Entry)
      requires Valid()
      ensures last == LastOf(file)
    {
      last := lastEntry;
    }

    method LenCommited() returns (length: nat)
      requires Valid()
      ensures length == LenOf(file)
      ensures Ordered() ==> length == |file|
    {
      if Ordered() { LenIsLength(file, toCommit); }
      length := lastEntry.ind;
      if lastEntry.op != "" {
        length := length + 1;
      }
    }

    method FlushUncommited()
      requires Valid()
      modifies `toCommit
      ensures Valid() && toCommit == [] && (old(Ordered()) ==> Ordered())
    {
      if Ordered() {
        ChainPrefix(file + toCommit, |file|);
        assert (file + toCommit)[..|file|] == file + [];
      }
      if |toCommit| > 0 {
        toCommit := [];
      }
    }

    method LenUncommited() returns (length: nat)
      requires Valid()
      ensures length == LenOf(file) + |toCommit|
      ensures Ordered() ==> length == |file| + |toCommit|
    {
      length := LenCommited();
      length := length + |toCommit|;
    }

    /** Ops(0): all committed entries. */
    method Ops() returns (ops: seq<Entry>)
      ensures ops == file
    {
      ops := file;
    }

    method UncommitedOps() returns (ops: seq<Entry>)
      ensures ops == toCommit
    {
      ops := toCommit;
    }
  }
}
