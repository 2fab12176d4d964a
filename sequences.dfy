/**
 * Facts about sequences that the models of the C loops share: a loop
 * that appends one piece per index builds, after n rounds, the first n
 * pieces laid end to end.
 */
module Sequences {
  /** Concatenation is associative; stated generically so that the
   *  solver need not look at the elements. */
  lemma AppendAssoc<T>(a: seq<T>, b: seq<T>, c: seq<T>)
    ensures a + (b + c) == (a + b) + c
  {
  }

  /** A slice from i is its first element followed by the slice from i+1. */
  lemma SliceCons<T>(s: seq<T>, i: nat, t: seq<T>)
    requires i < |s|
    ensures s[i..] + t == [s[i]] + (s[i + 1..] + t)
  {
    assert s[i..] == [s[i]] + s[i + 1..];
    AppendAssoc([s[i]], s[i + 1..], t);
  }

  /** The pieces 0 .. n-1 laid end to end, as a loop appending one piece
   *  per round has them after n rounds. */
  function Prefix<T>(piece: nat -> seq<T>, n: nat): (r: seq<T>)
  {
    if n == 0 then [] else Prefix(piece, n - 1) + piece(n - 1)
  }

  /** The pieces from .. to-1 laid end to end, as a recursive definition
   *  from `from` onwards has them. */
  function Suffix<T>(piece: nat -> seq<T>, from: nat, to: nat): (r: seq<T>)
    decreases to - from
  {
    if from >= to then [] else piece(from) + Suffix(piece, from + 1, to)
  }

  /** The first n pieces followed by the pieces from n on are all the pieces. */
  lemma {:induction false} PrefixSuffix<T>(piece: nat -> seq<T>, n: nat, to: nat)
    requires n <= to
    ensures Prefix(piece, n) + Suffix(piece, n, to) == Suffix(piece, 0, to)
  {
    if n > 0 {
      PrefixSuffix(piece, n - 1, to);
      AppendAssoc(Prefix(piece, n - 1), piece(n - 1), Suffix(piece, n, to));
    }
  }

  /** Once every index has been visited the loop holds all the pieces. */
  lemma PrefixWhole<T>(piece: nat -> seq<T>, to: nat)
    ensures Prefix(piece, to) == Suffix(piece, 0, to)
  {
    PrefixSuffix(piece, to, to);
    assert Prefix(piece, to) + [] == Prefix(piece, to);
  }
}
