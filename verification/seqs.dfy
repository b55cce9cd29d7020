/** Generic facts about sequences used by more than one part of the model. */
module Seqs {
  /** No element occurs twice. */
  predicate Distinct<T(==)>(s: seq<T>) {
    forall i, j :: 0 <= i < j < |s| ==> s[i] != s[j]
  }

  lemma AppendAssoc<T>(a: seq<T>, b: seq<T>, c: seq<T>)
    ensures a + (b + c) == (a + b) + c
  {
  }

  /** `xs` is `ys` with some elements left out, the rest in the same order. */
  predicate Subsequence<T(==)>(xs: seq<T>, ys: seq<T>)
    decreases |ys|
  {
    if |xs| == 0 then true
    else if |ys| == 0 then false
    else if xs[0] == ys[0] then Subsequence(xs[1..], ys[1..])
    else Subsequence(xs, ys[1..])
  }

  lemma {:induction false} SubsequenceSkip<T>(xs: seq<T>, ys: seq<T>)
    requires |ys| > 0 && Subsequence(xs, ys[1..])
    ensures Subsequence(xs, ys)
    decreases |ys|, 0
  {
    if |xs| > 0 && xs[0] == ys[0] {
      SubsequenceTail(xs, ys[1..]);
    }
  }

  lemma {:induction false} SubsequenceTail<T>(xs: seq<T>, ys: seq<T>)
    requires |xs| > 0 && Subsequence(xs, ys)
    ensures Subsequence(xs[1..], ys)
    decreases |ys|, 1
  {
    if xs[0] != ys[0] {
      SubsequenceTail(xs, ys[1..]);
      SubsequenceSkip(xs[1..], ys);
    } else if |xs| > 1 {
      SubsequenceSkip(xs[1..], ys);
    }
  }

  /** A subsequence of a duplicate-free sequence is duplicate-free and no longer. */
  lemma {:induction false} SubsequenceOfDistinct<T>(xs: seq<T>, ys: seq<T>)
    requires Subsequence(xs, ys) && Distinct(ys)
    ensures Distinct(xs) && |xs| <= |ys|
    ensures forall x :: x in xs ==> x in ys
    decreases |ys|
  {
    if |xs| > 0 {
      if xs[0] == ys[0] {
        SubsequenceOfDistinct(xs[1..], ys[1..]);
        assert forall x :: x in xs[1..] ==> x in ys[1..];
        assert forall i :: 0 < i < |xs| ==> xs[i] in xs[1..];
      } else {
        SubsequenceOfDistinct(xs, ys[1..]);
      }
    }
  }

  /** The position of the first occurrence of `x` in `s`. */
  function IndexOf<T(==)>(s: seq<T>, x: T): (i: nat)
    requires x in s
    ensures i < |s| && s[i] == x
    ensures forall j :: 0 <= j < i ==> s[j] != x
  {
    if s[0] == x then 0 else 1 + IndexOf(s[1..], x)
  }
}
