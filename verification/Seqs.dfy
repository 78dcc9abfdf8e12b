/** Rearrangements of sequences that the proofs lean on, stated once. */
module Seqs {

  /** The head and the tail of a concatenation. */
  lemma TailOf<T>(a: seq<T>, b: seq<T>)
    requires a != []
    ensures a + b != [] && (a + b)[0] == a[0] && (a + b)[1..] == a[1..] + b
  {
  }

  lemma NilLeft<T>(a: seq<T>, b: seq<T>)
    requires a == []
    ensures a + b == b
  {
  }

  lemma NilRight<T>(a: seq<T>)
    ensures a + [] == a
  {
  }

  lemma Uncons<T>(s: seq<T>)
    requires s != []
    ensures s == [s[0]] + s[1..]
  {
  }

  lemma Recons<T>(p: seq<T>, rest: seq<T>)
    requires p != []
    ensures [p[0]] + (p[1..] + rest) == p + rest
  {
  }

  lemma Assoc<T>(a: seq<T>, b: seq<T>, c: seq<T>)
    ensures (a + b) + c == a + (b + c)
  {
  }

  lemma DropTwice<T>(s: seq<T>, i: nat, k: nat)
    requires i + k <= |s|
    ensures s[i..][k..] == s[i + k..]
  {
  }

  /** One element further into a suffix. */
  lemma OneFurther<T>(s: seq<T>, i: nat)
    requires i < |s|
    ensures s[i..] != [] && s[i..][0] == s[i] && s[i..][1..] == s[i + 1..]
  {
  }

  /** One element further along a prefix. */
  lemma OneLonger<T>(s: seq<T>, i: nat)
    requires i < |s|
    ensures s[..i + 1][..i] == s[..i] && s[..i + 1][i] == s[i] && s[..i + 1] == s[..i] + [s[i]]
  {
  }

  lemma TailOfPrefix<T>(a: seq<T>, b: seq<T>)
    requires b != []
    ensures (a + b)[..|a + b| - 1] == a + b[..|b| - 1] && (a + b)[|a + b| - 1] == b[|b| - 1]
  {
  }
}
