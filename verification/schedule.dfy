/**
 The sequential meaning of `#pragma omp parallel for reduction(+:soma)`:
 the iterations [0, n) are split into contiguous chunks, one per thread;
 each thread adds its chunk into a private copy of `soma` that starts at
 the identity 0; after the implicit barrier the private copies are added
 together. This module states the split and proves that the combined
 partial sums equal the plain sum, whatever contiguous split is used.
 */
module Schedule {
  import opened Sums

  /**
   Chunk boundaries: nondecreasing and inside [0, n]. Chunk k covers the
   indices [bounds[k], bounds[k + 1]), which is empty when the two are equal.
   */
  predicate IsChain(bounds: seq<int>, n: int)
  {
    forall i, j :: 0 <= i <= j < |bounds| ==> 0 <= bounds[i] <= bounds[j] <= n
  }

  /** A split of the whole range [0, n) into |bounds| - 1 contiguous chunks. */
  predicate IsPartition(bounds: seq<int>, n: int)
  {
    |bounds| >= 1 && bounds[0] == 0 && bounds[|bounds| - 1] == n && IsChain(bounds, n)
  }

  /**
   The partial sum of every chunk, in thread order: what each thread's
   private copy of `soma` holds when it reaches the barrier.
   */
  function ChunkSums(s: seq<int>, bounds: seq<int>): (partials: seq<int>)
    requires IsChain(bounds, |s|)
    ensures |partials| == if |bounds| == 0 then 0 else |bounds| - 1
    ensures forall k :: 0 <= k < |partials| ==> partials[k] == Sum(s[bounds[k]..bounds[k + 1]])
    decreases |bounds|
  {
    if |bounds| <= 1 then []
    else ChunkSums(s, bounds[..|bounds| - 1]) + [Sum(s[bounds[|bounds| - 2]..bounds[|bounds| - 1]])]
  }

  /** The first partials of a split are the partials of the split's first chunks. */
  lemma {:induction false} ChunkSumsPrefix(s: seq<int>, bounds: seq<int>, j: nat)
    requires IsChain(bounds, |s|) && j < |bounds|
    ensures IsChain(bounds[..j + 1], |s|)
    ensures ChunkSums(s, bounds)[..j] == ChunkSums(s, bounds[..j + 1])
  {
    assert IsChain(bounds[..j + 1], |s|);
    var whole, prefix := ChunkSums(s, bounds)[..j], ChunkSums(s, bounds[..j + 1]);
    assert |whole| == |prefix|;
    forall k | 0 <= k < j
      ensures whole[k] == prefix[k]
    {
      assert bounds[..j + 1][k] == bounds[k] && bounds[..j + 1][k + 1] == bounds[k + 1];
    }
  }

  /** Adding the partials of consecutive chunks gives the sum of the range they cover. */
  lemma {:induction false} ChainSum(s: seq<int>, bounds: seq<int>)
    requires IsChain(bounds, |s|) && |bounds| >= 1
    ensures Sum(ChunkSums(s, bounds)) == Sum(s[bounds[0]..bounds[|bounds| - 1]])
    decreases |bounds|
  {
    var m := |bounds|;
    if m > 1 {
      var init := bounds[..m - 1];
      assert IsChain(init, |s|);
      ChainSum(s, init);
      var first, last := s[bounds[0]..bounds[m - 2]], s[bounds[m - 2]..bounds[m - 1]];
      SumSnoc(ChunkSums(s, init), Sum(last));
      SumConcat(first, last);
      assert first + last == s[bounds[0]..bounds[m - 1]];
    }
  }

  /**
   Partition and combine is exact: for ANY split of [0, |s|) into contiguous
   chunks, some possibly empty, the partials add up to the sum of `s`.
   */
  lemma {:induction false} PartitionSum(s: seq<int>, bounds: seq<int>)
    requires IsPartition(bounds, |s|)
    ensures Sum(ChunkSums(s, bounds)) == Sum(s)
  {
    ChainSum(s, bounds);
    assert s[0..|s|] == s;
  }

  /**
   First index of thread k's chunk under the even static split that GCC's
   OpenMP runtime uses when no schedule is given: the first n % t threads
   take n / t + 1 iterations each, the others n / t.
   */
  function ChunkStart(n: nat, t: nat, k: nat): (start: nat)
    requires 1 <= t && k <= t
  {
    (n / t) * k + (if k < n % t then k else n % t)
  }

  /** Multiplying by a non-negative factor preserves order. */
  lemma {:induction false} MulMonotone(a: nat, b: nat, c: nat)
    requires b <= c
    ensures a * b <= a * c
  {
  }

  /** Thread 0 starts at 0 and the end of the last chunk is n. */
  lemma {:induction false} ChunkStartEnds(n: nat, t: nat)
    requires 1 <= t
    ensures ChunkStart(n, t, 0) == 0 && ChunkStart(n, t, t) == n
  {
    var q, r := n / t, n % t;
    assert n == q * t + r && r < t;
    assert ChunkStart(n, t, t) == q * t + r;
  }

  /** Chunk starts never decrease and never pass n. */
  lemma {:induction false} ChunkStartMonotone(n: nat, t: nat, k: nat, j: nat)
    requires 1 <= t && k <= j <= t
    ensures ChunkStart(n, t, k) <= ChunkStart(n, t, j) <= n
  {
    var q, r := n / t, n % t;
    MulMonotone(q, k, j);
    MulMonotone(q, j, t);
    ChunkStartEnds(n, t);
    assert ChunkStart(n, t, k) == q * k + (if k < r then k else r);
    assert ChunkStart(n, t, j) == q * j + (if j < r then j else r);
    assert ChunkStart(n, t, t) == q * t + r;
  }

  /** The static split is balanced: chunk k has n / t elements, plus one for the first n % t threads. */
  lemma {:induction false} ChunkLength(n: nat, t: nat, k: nat)
    requires 1 <= t && k < t
    ensures ChunkStart(n, t, k + 1) - ChunkStart(n, t, k) == n / t + (if k < n % t then 1 else 0)
  {
    assert (n / t) * (k + 1) == (n / t) * k + n / t;
  }

  /** The three facts above, for every thread of a team of t. */
  lemma {:induction false} ChunkStartFacts(n: nat, t: nat)
    requires 1 <= t
    ensures ChunkStart(n, t, 0) == 0 && ChunkStart(n, t, t) == n
    ensures forall i, j :: 0 <= i <= j <= t ==> ChunkStart(n, t, i) <= ChunkStart(n, t, j) <= n
    ensures forall k :: 0 <= k < t ==>
      ChunkStart(n, t, k + 1) - ChunkStart(n, t, k) == n / t + (if k < n % t then 1 else 0)
  {
    ChunkStartEnds(n, t);
    forall i, j | 0 <= i <= j <= t
      ensures ChunkStart(n, t, i) <= ChunkStart(n, t, j) <= n
    {
      ChunkStartMonotone(n, t, i, j);
    }
    forall k | 0 <= k < t
      ensures ChunkStart(n, t, k + 1) - ChunkStart(n, t, k) == n / t + (if k < n % t then 1 else 0)
    {
      ChunkLength(n, t, k);
    }
  }

  /**
   The boundaries of the static split of [0, n) among t threads: a partition
   of [0, n) into exactly t chunks, chunk k holding n / t iterations plus one
   for each of the first n % t threads.
   */
  function StaticBounds(n: nat, t: nat): (bounds: seq<int>)
    requires t >= 1
    ensures |bounds| == t + 1 && IsPartition(bounds, n)
    ensures forall k :: 0 <= k < t ==> bounds[k + 1] - bounds[k] == n / t + (if k < n % t then 1 else 0)
  {
    ChunkStartFacts(n, t);
    seq(t + 1, k requires 0 <= k <= t => ChunkStart(n, t, k))
  }

  /** The parallel reduction under the static split gives the serial sum, for every thread count t >= 1. */
  lemma {:induction false} ParallelEqualsSerial(s: seq<int>, t: nat)
    requires t >= 1
    ensures Sum(ChunkSums(s, StaticBounds(|s|, t))) == Sum(s)
  {
    PartitionSum(s, StaticBounds(|s|, t));
  }

  /**
   After the first j private copies have been added in, the combined value is
   the sum of the elements before the start of chunk j: a prefix sum.
   */
  lemma {:induction false} CombinePrefix(s: seq<int>, t: nat, j: nat)
    requires 1 <= t && j <= t
    ensures Sum(ChunkSums(s, StaticBounds(|s|, t))[..j]) == Sum(s[..StaticBounds(|s|, t)[j]])
  {
    var bounds := StaticBounds(|s|, t);
    ChunkSumsPrefix(s, bounds, j);
    ChainSum(s, bounds[..j + 1]);
  }

  /** With a single thread there is one chunk, the whole range, and its partial is the whole sum. */
  lemma {:induction false} SingleThread(s: seq<int>)
    ensures StaticBounds(|s|, 1) == [0, |s|]
    ensures ChunkSums(s, StaticBounds(|s|, 1)) == [Sum(s)]
  {
    ChunkStartEnds(|s|, 1);
    var bounds := [0, |s|];
    assert StaticBounds(|s|, 1) == bounds;
    assert IsChain(bounds, |s|);
    var partials := ChunkSums(s, bounds);
    assert |partials| == 1 && partials[0] == Sum(s[0..|s|]);
    assert s[0..|s|] == s;
  }

  /** Fewer iterations than threads: thread k starts at k, or at n once the iterations run out. */
  lemma {:induction false} SmallChunkStart(n: nat, t: nat, k: nat)
    requires n < t && k <= t
    ensures ChunkStart(n, t, k) == if k < n then k else n
  {
    assert n / t == 0 && n % t == n;
  }

  /** The one-element or empty chunk of thread k when there are more threads than elements. */
  lemma {:induction false} SmallChunkSum(s: seq<int>, t: nat, k: nat)
    requires |s| < t && k < t
    ensures ChunkStart(|s|, t, k) <= ChunkStart(|s|, t, k + 1) <= |s|
    ensures Sum(s[ChunkStart(|s|, t, k)..ChunkStart(|s|, t, k + 1)]) == if k < |s| then s[k] else 0
  {
    SmallChunkStart(|s|, t, k);
    SmallChunkStart(|s|, t, k + 1);
    if k < |s| {
      assert s[k..k + 1] == [] + [s[k]];
      SumSnoc([], s[k]);
    } else {
      assert s[|s|..|s|] == [];
    }
  }

  /**
   More threads than elements: thread k < |s| gets exactly element k and every
   other thread gets an empty chunk whose private copy stays at 0.
   */
  lemma {:induction false} OverSubscribed(s: seq<int>, t: nat)
    requires |s| < t
    ensures forall k :: 0 <= k < t ==>
      ChunkSums(s, StaticBounds(|s|, t))[k] == if k < |s| then s[k] else 0
  {
    var bounds := StaticBounds(|s|, t);
    var partials := ChunkSums(s, bounds);
    forall k | 0 <= k < t
      ensures partials[k] == if k < |s| then s[k] else 0
    {
      SmallChunkSum(s, t, k);
      assert partials[k] == Sum(s[bounds[k]..bounds[k + 1]]);
    }
  }
}
