/**
 Integer sums over sequences: the mathematical value that both reducers of
 the benchmark compute, and the facts about it that make a chunked,
 combined-afterwards reduction agree with a single left-to-right pass.
 */
module Sums {

  /** The sum of `s`, folded from left to right as `soma += vetor[i]` does. */
  function Sum(s: seq<int>): (total: int)
  {
    if |s| == 0 then 0 else Sum(s[..|s| - 1]) + s[|s| - 1]
  }

  /** One step of an accumulating loop: appending `x` adds `x` to the sum. */
  lemma {:induction false} SumSnoc(s: seq<int>, x: int)
    ensures Sum(s + [x]) == Sum(s) + x
  {
    assert (s + [x])[..|s|] == s;
  }

  /** Summing a concatenation is summing the parts: integer addition is associative. */
  lemma {:induction false} SumConcat(a: seq<int>, b: seq<int>)
    ensures Sum(a + b) == Sum(a) + Sum(b)
    decreases |b|
  {
    if |b| == 0 {
      assert a + b == a;
    } else {
      var init := b[..|b| - 1];
      assert (a + b)[..|a + b| - 1] == a + init;
      SumConcat(a, init);
    }
  }

  /**
   The order in which values are added does not matter: integer addition is
   commutative, so any rearrangement of the same values has the same sum.
   */
  lemma {:induction false} SumPermutation(a: seq<int>, b: seq<int>)
    requires multiset(a) == multiset(b)
    ensures Sum(a) == Sum(b)
    decreases |a|
  {
    if |a| == 0 {
      assert |b| == |multiset(b)| == 0;
    } else {
      var x := a[|a| - 1];
      var init := a[..|a| - 1];
      assert a == init + [x];
      assert x in multiset(a);
      assert x in b;
      var j :| 0 <= j < |b| && b[j] == x;
      var rest := b[..j] + b[j + 1..];
      assert b == b[..j] + [x] + b[j + 1..];
      assert multiset(rest) == multiset(b) - multiset{x};
      assert multiset(rest) == multiset(init);
      SumPermutation(init, rest);
      SumConcat(b[..j] + [x], b[j + 1..]);
      SumSnoc(b[..j], x);
      SumConcat(b[..j], b[j + 1..]);
      SumSnoc(init, x);
    }
  }

  /** Every element in [lo, hi] puts the sum in [lo * |s|, hi * |s|]. */
  lemma {:induction false} SumBounds(s: seq<int>, lo: int, hi: int)
    requires forall i :: 0 <= i < |s| ==> lo <= s[i] <= hi
    ensures lo * |s| <= Sum(s) <= hi * |s|
    decreases |s|
  {
    if |s| > 0 {
      var init := s[..|s| - 1];
      SumBounds(init, lo, hi);
      assert lo * |s| == lo * |init| + lo;
      assert hi * |s| == hi * |init| + hi;
    }
  }

  /** With no negative element, every prefix sum lies between 0 and the whole sum. */
  lemma {:induction false} SumPrefixBounded(s: seq<int>, j: nat)
    requires forall i :: 0 <= i < |s| ==> 0 <= s[i]
    requires j <= |s|
    ensures 0 <= Sum(s[..j]) <= Sum(s)
    decreases |s|
  {
    if |s| == 0 {
      assert s[..j] == [];
    } else {
      var init := s[..|s| - 1];
      if j < |s| {
        assert init[..j] == s[..j];
        SumPrefixBounded(init, j);
      } else {
        assert init[..|init|] == init;
        SumPrefixBounded(init, |init|);
        assert s[..j] == s;
      }
    }
  }
}
