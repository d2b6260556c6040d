/** What several of the models share. */
module Common {

  datatype Option<T> = None | Some(value: T)

  /** The replication states of a node of the store. */
  datatype Role = Master | Slave | Condidate

  /** A word of 64 bits has this many values. */
  const WORDS := 0x1_0000_0000_0000_0000

  /** Reading a map of Go: a missing key reads as 0. */
  function At(m: map<nat, nat>, key: nat): nat {
    if key in m then m[key] else 0
  }

  /** Two counts less than 2^64 apart with the same word are the same. */
  lemma SameWord(x: nat, y: nat)
    requires x <= y < x + WORDS && x % WORDS == y % WORDS
    ensures x == y
  {
    assert y % WORDS == (x % WORDS + (y - x)) % WORDS;
  }

  lemma NextWord(x: nat)
    ensures (x % WORDS + 1) % WORDS == (x + 1) % WORDS
  {
  }

  ghost function Range(n: nat): (r: set<nat>)
    ensures |r| == n && forall k: nat :: k in r <==> k < n
  {
    if n == 0 then {} else Range(n - 1) + {n - 1}
  }

  lemma SubsetSize<T>(a: set<T>, b: set<T>)
    requires a <= b
    ensures |a| <= |b|
  {
    assert b == a + (b - a);
  }
}
