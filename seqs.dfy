/** Identities about sequences, stated generically so that their proofs stay small. */
module Seqs {

  lemma ConcatAssoc<T>(x: seq<T>, y: seq<T>, z: seq<T>)
    ensures (x + y) + z == x + (y + z)
  {
  }

  lemma PrefixAgrees<T>(s: seq<T>, n: nat)
    requires n <= |s|
    ensures forall j | 0 <= j < n :: s[..n][j] == s[j]
  {
  }

  lemma InConcat<T>(a: seq<T>, b: seq<T>, x: T)
    ensures x in a + b <==> x in a || x in b
  {
  }

  lemma SnocSplit<T>(a: seq<T>, b: seq<T>)
    requires |b| > 0
    ensures b == b[..|b| - 1] + [b[|b| - 1]]
    ensures a + b == (a + b[..|b| - 1]) + [b[|b| - 1]]
  {
  }
}
