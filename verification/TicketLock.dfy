/** The ticket lock (SpinLock/src/TicketLock.hpp) with its 64-bit counters, as an interleaving of
    the atomic accesses of any number of threads.
 */
module TicketLock {
  import opened Common

  /** `order` counts the fetch_adds before the thread's own; it is only there for the proof. */
  datatype Phase = Outside | Waiting(ticket: nat, order: nat) | Inside(order: nat)

  /** The two counters and the threads. For the proof only: the number of unlocks, the threads in
      the order of their fetch_add, and the threads in the order of entering. */
  datatype State = State(
    nextTicket: nat, current: nat, threads: seq<Phase>,
    served: nat, takers: seq<nat>, entered: seq<nat>)

  /** A thread takes a ticket, reads `current` once, or unlocks; only the thread inside unlocks. */
  datatype Step = Take | Poll | Unlock

  predicate Enabled(s: State, t: nat, step: Step) {
    && t < |s.threads|
    && match step
       case Take => s.threads[t].Outside?
       case Poll => s.threads[t].Waiting?
       case Unlock => s.threads[t].Inside?
  }

  function Do(s: State, t: nat, step: Step): State
    requires Enabled(s, t, step)
  {
    match step
    case Take =>
      s.(threads := s.threads[t := Waiting(s.nextTicket, |s.takers|)],
         nextTicket := (s.nextTicket + 1) % WORDS, takers := s.takers + [t])
    case Poll =>
      if s.threads[t].ticket == s.current then
        s.(threads := s.threads[t := Inside(s.threads[t].order)], entered := s.entered + [t])
      else s
    case Unlock =>
      s.(threads := s.threads[t := Outside], current := (s.current + 1) % WORDS, served := s.served + 1)
  }

  function Start(n: nat): State {
    State(0, 0, seq(n, _ => Outside), 0, [], [])
  }

  ghost predicate Next(a: State, b: State) {
    exists t: nat, step :: Enabled(a, t, step) && b == Do(a, t, step)
  }

  /** `s` is reached with n threads in k steps. */
  ghost predicate Reached(n: nat, k: nat, s: State) {
    if k == 0 then s == Start(n) else exists before :: Reached(n, k - 1, before) && Next(before, s)
  }

  // ----- the invariant

  ghost predicate CountersOk(s: State) {
    s.nextTicket == |s.takers| % WORDS && s.current == s.served % WORDS && s.served <= |s.takers|
  }

  ghost predicate ThreadOk(s: State, t: nat)
    requires t < |s.threads|
  {
    match s.threads[t]
    case Outside => true
    case Waiting(ticket, order) =>
      s.served <= order < |s.takers| && s.takers[order] == t && ticket == order % WORDS
    case Inside(order) => s.served == order < |s.takers| && s.takers[order] == t
  }

  /** Every ticket that is not served yet is held by the thread that took it. */
  ghost predicate Held(s: State, o: nat)
    requires o < |s.takers|
  {
    var t := s.takers[o];
    && t < |s.threads| && !s.threads[t].Outside?
    && s.threads[t].order == o
  }

  ghost predicate EntriesOk(s: State) {
    && |s.entered| <= |s.takers| && s.entered == s.takers[..|s.entered|]
    && |s.entered| == if exists t :: 0 <= t < |s.threads| && s.threads[t].Inside? then s.served + 1 else s.served
  }

  ghost predicate Inv(s: State) {
    && CountersOk(s) && EntriesOk(s)
    && (forall t :: 0 <= t < |s.threads| ==> ThreadOk(s, t))
    && (forall o :: s.served <= o < |s.takers| ==> Held(s, o))
  }

  lemma {:induction false} DistinctBelow(s: seq<nat>, n: nat)
    requires forall i :: 0 <= i < |s| ==> s[i] < n
    requires forall i, j :: 0 <= i < j < |s| ==> s[i] != s[j]
    ensures |s| <= n
  {
    if s != [] {
      assert s[0] < n;
      if exists i :: 0 <= i < |s| && s[i] == n - 1 {
        var i :| 0 <= i < |s| && s[i] == n - 1;
        DistinctBelow(s[..i] + s[i + 1..], n - 1);
      } else {
        DistinctBelow(s, n - 1);
      }
    }
  }

  /** No more tickets are out than there are threads. */
  lemma InFlight(s: State)
    requires Inv(s)
    ensures |s.takers| - s.served <= |s.threads|
  {
    var out := s.takers[s.served..];
    forall i | 0 <= i < |out| ensures out[i] < |s.threads| && s.threads[out[i]] != Outside && s.threads[out[i]].order == s.served + i {
      assert Held(s, s.served + i);
    }
    DistinctBelow(out, |s.threads|);
  }

  lemma TakeKeeps(s: State, t: nat)
    requires Inv(s) && Enabled(s, t, Take)
    ensures Inv(Do(s, t, Take))
  {
    var s' := Do(s, t, Take);
    NextWord(|s.takers|);
    forall u | 0 <= u < |s'.threads| ensures ThreadOk(s', u) { assert ThreadOk(s, u); }
    forall o | s'.served <= o < |s'.takers| ensures Held(s', o) {
      if o < |s.takers| { assert Held(s, o); }
    }
    if u :| 0 <= u < |s.threads| && s.threads[u].Inside? {
      assert s'.threads[u].Inside?;
    }
  }

  /** With at most 2^64 threads, a thread that reads its own ticket is the one whose turn it is. */
  lemma PollMeansTurn(s: State, t: nat)
    requires Inv(s) && |s.threads| <= WORDS && Enabled(s, t, Poll)
    ensures s.threads[t].ticket == s.current <==> s.threads[t].order == s.served
  {
    assert ThreadOk(s, t);
    InFlight(s);
    if s.threads[t].ticket == s.current {
      SameWord(s.served, s.threads[t].order);
    }
  }

  lemma PollKeeps(s: State, t: nat)
    requires Inv(s) && |s.threads| <= WORDS && Enabled(s, t, Poll)
    ensures Inv(Do(s, t, Poll))
  {
    PollMeansTurn(s, t);
    if s.threads[t].ticket == s.current {
      var s' := Do(s, t, Poll);
      assert ThreadOk(s, t);
      forall u | 0 <= u < |s.threads| ensures !s.threads[u].Inside? { assert ThreadOk(s, u); }
      forall u | 0 <= u < |s'.threads| ensures ThreadOk(s', u) { assert ThreadOk(s, u); }
      forall o | s'.served <= o < |s'.takers| ensures Held(s', o) { assert Held(s, o); }
      assert s'.threads[t].Inside?;
    }
  }

  lemma UnlockKeeps(s: State, t: nat)
    requires Inv(s) && Enabled(s, t, Unlock)
    ensures Inv(Do(s, t, Unlock))
  {
    var s' := Do(s, t, Unlock);
    NextWord(s.served);
    assert ThreadOk(s, t);
    forall u | 0 <= u < |s'.threads| ensures ThreadOk(s', u) && !s'.threads[u].Inside? { assert ThreadOk(s, u); }
    forall o | s'.served <= o < |s'.takers| ensures Held(s', o) { assert Held(s, o); }
  }

  lemma {:induction false} ReachedOk(n: nat, k: nat, s: State)
    requires n <= WORDS && Reached(n, k, s)
    ensures Inv(s) && |s.threads| == n
  {
    if k > 0 {
      var before :| Reached(n, k - 1, before) && Next(before, s);
      ReachedOk(n, k - 1, before);
      var t: nat, step :| Enabled(before, t, step) && s == Do(before, t, step);
      match step
      case Take => TakeKeeps(before, t);
      case Poll => PollKeeps(before, t);
      case Unlock => UnlockKeeps(before, t);
    }
  }

  // ----- what it guarantees

  /** Threads enter in exactly the order of their fetch_add. */
  lemma FirstComeFirstServed(n: nat, k: nat, s: State)
    requires n <= WORDS && Reached(n, k, s)
    ensures s.entered <= s.takers
  {
    ReachedOk(n, k, s);
  }

  /** Whenever tickets are out and nobody is inside, exactly one thread can enter: the one
      that has waited longest. No turn is lost. */
  lemma OneCanEnter(n: nat, k: nat, s: State, t: nat)
    requires n <= WORDS && Reached(n, k, s) && t < |s.threads|
    requires |s.takers| > s.served && forall u :: 0 <= u < |s.threads| ==> !s.threads[u].Inside?
    ensures Enabled(s, t, Poll) && Do(s, t, Poll).threads[t].Inside? && Do(s, t, Poll).entered == s.entered + [t]
            <==> t == s.takers[s.served]
  {
    ReachedOk(n, k, s);
    assert Held(s, s.served);
    assert ThreadOk(s, t);
    if s.threads[t].Waiting? { PollMeansTurn(s, t); }
  }

  ghost predicate Exclusive(s: State) {
    forall t, u :: 0 <= t < |s.threads| && 0 <= u < |s.threads| && s.threads[t].Inside? && s.threads[u].Inside? ==> t == u
  }

  /** The first k of n threads have taken their tickets. */
  function Queue(n: nat, k: nat): State
    requires k <= n
  {
    State(k % WORDS, 0, seq(n, i => if 0 <= i < k then Waiting(i % WORDS, i) else Outside), 0, seq(k, i => i), [])
  }

  lemma {:induction false} QueueReached(n: nat, k: nat)
    requires k <= n
    ensures Reached(n, k, Queue(n, k))
  {
    if k == 0 {
      assert Queue(n, 0).threads == Start(n).threads && Queue(n, 0).takers == [];
    } else {
      QueueReached(n, k - 1);
      var a, b := Queue(n, k - 1), Queue(n, k);
      NextWord(k - 1);
      assert Enabled(a, k - 1, Take);
      assert b.threads == a.threads[k - 1 := Waiting(a.nextTicket, k - 1)] && b.takers == a.takers + [k - 1];
      assert b == Do(a, k - 1, Take);
      assert Next(a, b);
    }
  }

  lemma StepReaches(n: nat, k: nat, s: State, t: nat, step: Step)
    requires Reached(n, k, s) && Enabled(s, t, step)
    ensures Reached(n, k + 1, Do(s, t, step))
  {
    assert Next(s, Do(s, t, step));
  }

  /** More threads than words: the last one gets the first one's ticket, and both enter. */
  lemma TooManyThreads(n: nat) returns (s: State)
    requires n > WORDS
    ensures Reached(n, WORDS + 3, s) && !Exclusive(s)
  {
    var q := Queue(n, WORDS + 1);
    QueueReached(n, WORDS + 1);
    var one := Do(q, 0, Poll);
    StepReaches(n, WORDS + 1, q, 0, Poll);
    s := Do(one, WORDS, Poll);
    StepReaches(n, WORDS + 2, one, WORDS, Poll);
    assert s.threads[0].Inside? && s.threads[WORDS].Inside?;
  }

  /** At most one thread is in the critical section, in every interleaving, exactly if there are
      at most 2^64 threads. */
  lemma ExclusiveExactlyWhen(n: nat)
    ensures (forall k: nat, s :: Reached(n, k, s) ==> Exclusive(s)) <==> n <= WORDS
  {
    if n <= WORDS {
      forall k: nat, s | Reached(n, k, s) ensures Exclusive(s) {
        ReachedOk(n, k, s);
        forall t, u | 0 <= t < n && 0 <= u < n && s.threads[t].Inside? && s.threads[u].Inside? ensures t == u {
          assert ThreadOk(s, t) && ThreadOk(s, u);
        }
      }
    } else {
      var s := TooManyThreads(n);
      var k: nat := WORDS + 3;
      assert Reached(n, k, s) && !Exclusive(s);
    }
  }
}
