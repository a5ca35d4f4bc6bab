/** Identities of sequence concatenation and slicing, each proved on its
    own so that proofs about the codec can cite them instead of re-deriving
    them next to the decoder's definitions. */
module Sequences {

  lemma Assoc<T>(a: seq<T>, b: seq<T>, c: seq<T>)
    ensures a + b + c == a + (b + c)
  {
  }

  lemma Assoc4<T>(a: seq<T>, b: seq<T>, c: seq<T>, d: seq<T>)
    ensures a + b + c + d == a + (b + c + d)
  {
  }

  lemma EmptyLeft<T>(a: seq<T>)
    ensures [] + a == a
  {
  }

  lemma EmptyRight<T>(a: seq<T>)
    ensures a + [] == a
  {
  }

  /** Both halves of a concatenation can be sliced back out. */
  lemma Split<T>(a: seq<T>, b: seq<T>)
    ensures (a + b)[..|a|] == a && (a + b)[|a|..] == b
  {
  }

  /** A non-empty sequence is its first element followed by the others. */
  lemma Cons<T>(s: seq<T>)
    requires |s| > 0
    ensures [s[0]] + s[1..] == s
  {
  }

  /** A prefix of `a + b` no longer than `a` is a prefix of `a`. */
  lemma PrefixWithin<T>(a: seq<T>, b: seq<T>, p: seq<T>)
    requires |p| <= |a| && p == (a + b)[..|p|]
    ensures p == a[..|p|]
  {
  }

  /** A prefix of `a + b` at least as long as `a` is `a` followed by a prefix of `b`. */
  lemma PrefixBeyond<T>(a: seq<T>, b: seq<T>, p: seq<T>)
    requires |a| <= |p| <= |a| + |b| && p == (a + b)[..|p|]
    ensures p == a + p[|a|..] && p[|a|..] == b[..|p| - |a|]
  {
    assert forall k | 0 <= k < |a| :: p[k] == a[k];
    assert forall k | |a| <= k < |p| :: p[k] == b[k - |a|];
  }
}
