/**
  Generic facts about sequence concatenation, proved once in an empty
  context so that proofs about traces can use them as plain equations.
 */
module Seqs {

  lemma AppendAssoc<T>(x: seq<T>, y: seq<T>, z: seq<T>)
    ensures x + (y + z) == (x + y) + z
  {
  }

  lemma AppendEmpty<T>(a: seq<T>, b: seq<T>)
    requires |a| == 0
    ensures a + b == b && b + a == b
  {
  }

  /** A non-empty sequence is its head followed by its tail, also when
      something is appended. */
  lemma ConsAppend<T>(a: seq<T>, b: seq<T>)
    requires |a| > 0
    ensures a == [a[0]] + a[1..]
    ensures a + b == [a[0]] + (a[1..] + b)
    ensures (a + b)[0] == a[0] && (a + b)[1..] == a[1..] + b
  {
  }

  /** A non-empty sequence is its front followed by its last element. */
  lemma LastSplit<T>(s: seq<T>)
    requires |s| > 0
    ensures s == s[..|s| - 1] + [s[|s| - 1]]
  {
  }

  /** The parts of a sequence with one element added at the end. */
  lemma SnocParts<T>(x: seq<T>, t: T)
    ensures (x + [t])[..|x|] == x && (x + [t])[|x|] == t
  {
  }

  /** Two elements in front of a sequence, one at a time. */
  lemma PairAppend<T>(x: T, y: T, rest: seq<T>)
    ensures [x, y] + rest == [x] + ([y] + rest)
  {
  }

  /** The head and tail of a sequence built with one element in front. */
  lemma ConsParts<T>(x: T, rest: seq<T>)
    ensures ([x] + rest)[0] == x && ([x] + rest)[1..] == rest
  {
  }

  /** Cutting a sequence at `k` and gluing the pieces gives it back. */
  lemma TakeDrop<T>(s: seq<T>, k: int)
    requires 0 <= k <= |s|
    ensures s[..k] + s[k..] == s
    ensures s[..|s|] == s
    ensures k < |s| ==> s[k..][0] == s[k]
  {
  }
}
