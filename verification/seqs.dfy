/**
 * Sequence identities, stated once for any element type so that proofs about
 * sequences of records use them without unfolding the records themselves.
 */
module Seqs {
  lemma ConcatAssoc<T>(a: seq<T>, b: seq<T>, c: seq<T>)
    ensures a + (b + c) == (a + b) + c
  {
  }

  /** A non-empty sequence is its first element followed by the rest. */
  lemma HeadTail<T>(s: seq<T>)
    requires s != []
    ensures [s[0]] + s[1..] == s
  {
  }

  /** Element i of a sequence is element i - 1 of its tail, and of the tail of a cons. */
  lemma ShiftIndex<T>(s: seq<T>, h: T, t: seq<T>, i: nat)
    requires 0 < i < |s| && i <= |t|
    ensures s[1..][i - 1] == s[i] && ([h] + t)[i] == t[i - 1]
  {
  }

  /** A non-empty sequence is its prefix followed by its last element. */
  lemma ButLast<T>(s: seq<T>)
    requires s != []
    ensures s[..|s| - 1] + [s[|s| - 1]] == s
  {
  }

  /** Dropping the first element commutes with appending at the end. */
  lemma TailOfConcat<T>(a: seq<T>, b: seq<T>)
    requires a != []
    ensures (a + b)[0] == a[0] && (a + b)[1..] == a[1..] + b
  {
  }

  /** Appending and then dropping the last element gives the sequence back. */
  lemma PrefixOfAppend<T>(s: seq<T>, x: T)
    ensures (s + [x])[..|s|] == s && (s + [x])[|s|] == x
  {
  }

  lemma ConcatEmpty<T>(s: seq<T>)
    ensures s + [] == s && [] + s == s
  {
  }

  /**
   * A relation that holds between the first elements and pointwise between the
   * tails holds pointwise between the whole sequences.
   */
  lemma ConsPointwise<A, B>(rel: (A, B) -> bool, xs: seq<A>, y: B, ys: seq<B>)
    requires xs != [] && |ys| == |xs| - 1
    requires rel(xs[0], y)
    requires forall i :: 0 <= i < |ys| ==> rel(xs[1..][i], ys[i])
    ensures forall i :: 0 <= i < |xs| ==> rel(xs[i], ([y] + ys)[i])
  {
    forall i | 0 <= i < |xs| ensures rel(xs[i], ([y] + ys)[i]) {
      if i > 0 {
        assert xs[i] == xs[1..][i - 1];
      }
    }
  }
}
