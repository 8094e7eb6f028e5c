/**
 The benchmark program: it fills an array of N ints with values in [1, 100],
 sums it once serially and then once in parallel for 1, 2, 4 and 8 threads.
 The array is an `array<int>` written in place by the generator and only
 read by the reducers; both reducers are proved against `Sum`.
 */
module Ponderada {
  import opened Sums
  import opened Schedule

  /** Number of elements the program allocates and sums. */
  const N: nat := 100_000_000

  /** Range of the C `long long` accumulator (signed 64 bits). */
  const LongLongMin: int := -0x8000_0000_0000_0000
  const LongLongMax: int := 0x7fff_ffff_ffff_ffff

  predicate FitsLongLong(x: int)
  {
    LongLongMin <= x <= LongLongMax
  }

  /** Every element of vetor[lo..hi) lies in [1, 100], as the generator leaves them. */
  predicate InGeneratedRange(vetor: array<int>, lo: int, hi: int)
    reads vetor
  {
    forall k :: lo <= k < hi && 0 <= k < vetor.Length ==> 1 <= vetor[k] <= 100
  }

  /** How many times `for (int i = 0; i < tamanho; i++)` runs: none for a negative count. */
  function Iterations(tamanho: int): nat
  {
    if tamanho < 0 then 0 else tamanho
  }

  /** The value stored for one result `r` of `rand()`, which is never negative. */
  function RandomValue(r: nat): (v: int)
    ensures 1 <= v <= 100
  {
    r % 100 + 1
  }

  /**
   `inicializa_vetor`: slot i receives RandomValue(rands[i]), where rands[i] is
   what the i-th call of `rand()` returned; the slots from `tamanho` on are
   left as they were.
   */
  method InicializaVetor(vetor: array<int>, tamanho: int, rands: seq<nat>)
    requires tamanho <= vetor.Length
    requires tamanho <= |rands|
    modifies vetor
    ensures forall i :: 0 <= i < tamanho ==> vetor[i] == RandomValue(rands[i])
    ensures forall i :: 0 <= i < tamanho ==> 1 <= vetor[i] <= 100
    ensures forall i :: 0 <= i < vetor.Length && tamanho <= i ==> vetor[i] == old(vetor[i])
  {
    var i := 0;
    while i < tamanho
      invariant 0 <= i <= Iterations(tamanho)
      invariant forall k :: 0 <= k < i ==> vetor[k] == RandomValue(rands[k])
      invariant forall k :: i <= k < vetor.Length ==> vetor[k] == old(vetor[k])
    {
      vetor[i] := RandomValue(rands[i]);
      i := i + 1;
    }
  }

  /**
   `soma_serial`: one accumulator, starting at 0, adds the elements from left
   to right. The method has no `modifies` clause, so the array is only read.
   */
  method SomaSerial(vetor: array<int>, tamanho: int) returns (soma: int)
    requires tamanho <= vetor.Length
    ensures soma == Sum(vetor[..Iterations(tamanho)])
    ensures tamanho <= 0 ==> soma == 0
    ensures tamanho <= N && InGeneratedRange(vetor, 0, tamanho) ==> FitsLongLong(soma)
  {
    soma := 0;
    var i := 0;
    while i < tamanho
      invariant 0 <= i <= Iterations(tamanho)
      invariant soma == Sum(vetor[..i])
      invariant tamanho <= N && InGeneratedRange(vetor, 0, tamanho) ==> FitsLongLong(soma)
    {
      assert vetor[..i + 1][..i] == vetor[..i];
      soma := soma + vetor[i];
      i := i + 1;
      if tamanho <= N && InGeneratedRange(vetor, 0, tamanho) {
        NoOverflow(vetor[..tamanho], 0, i);
        assert vetor[..tamanho][0..i] == vetor[..i];
      }
    }
  }

  /**
   The work of one thread of `soma_paralela`: its private copy of `soma`
   starts at the identity 0 and adds the elements of its chunk [lo, hi).
   */
  method ThreadShare(vetor: array<int>, lo: nat, hi: nat) returns (local: int)
    requires lo <= hi <= vetor.Length
    ensures local == Sum(vetor[lo..hi])
    ensures hi - lo <= N && InGeneratedRange(vetor, lo, hi) ==> FitsLongLong(local)
  {
    local := 0;
    var i := lo;
    while i < hi
      invariant lo <= i <= hi
      invariant local == Sum(vetor[lo..i])
      invariant hi - lo <= N && InGeneratedRange(vetor, lo, hi) ==> FitsLongLong(local)
    {
      assert vetor[lo..i + 1][..i - lo] == vetor[lo..i];
      local := local + vetor[i];
      i := i + 1;
      if hi - lo <= N && InGeneratedRange(vetor, lo, hi) {
        NoOverflow(vetor[lo..hi], 0, i - lo);
        assert vetor[lo..hi][0..i - lo] == vetor[lo..i];
      }
    }
  }

  /**
   The parallel region of `soma_paralela`: thread k, for k from 0 to t - 1,
   computes its private partial sum over chunk k of the static split of
   [0, n). The threads share nothing but the array, which they only read.
   */
  method WorkPhase(vetor: array<int>, n: nat, t: nat) returns (partials: seq<int>)
    requires n <= vetor.Length
    requires t >= 1
    ensures partials == ChunkSums(vetor[..n], StaticBounds(n, t))
  {
    ghost var s := vetor[..n];
    var bounds := StaticBounds(n, t);
    partials := [];
    var k := 0;
    while k < t
      invariant 0 <= k <= t
      invariant partials == ChunkSums(s, bounds)[..k]
    {
      var lo, hi := bounds[k], bounds[k + 1];
      var local := ThreadShare(vetor, lo, hi);
      assert vetor[lo..hi] == s[lo..hi];
      partials := partials + [local];
      k := k + 1;
    }
  }

  /**
   The combination at the end of the `reduction(+:soma)` region: the original
   `soma`, which is 0, plus every private copy, in thread order. When no
   partial is negative and their total fits in a `long long`, so does every
   intermediate value of the combination.
   */
  method CombinePhase(partials: seq<int>) returns (soma: int)
    ensures soma == Sum(partials)
  {
    soma := 0;
    var j := 0;
    while j < |partials|
      invariant 0 <= j <= |partials|
      invariant soma == Sum(partials[..j])
      invariant (forall k :: 0 <= k < |partials| ==> 0 <= partials[k]) && FitsLongLong(Sum(partials)) ==>
        FitsLongLong(soma)
    {
      assert partials[..j + 1] == partials[..j] + [partials[j]];
      SumSnoc(partials[..j], partials[j]);
      soma := soma + partials[j];
      j := j + 1;
      if (forall k :: 0 <= k < |partials| ==> 0 <= partials[k]) && FitsLongLong(Sum(partials)) {
        SumPrefixBounded(partials, j);
      }
    }
    assert partials[..j] == partials;
  }

  /**
   `soma_paralela` under `reduction(+:soma)`, run sequentially: the work
   phase over the static split for `numThreads` threads, the implicit
   barrier, then the combination. The array is only read, and the result is
   the serial sum for every thread count.
   */
  method SomaParalela(vetor: array<int>, tamanho: int, numThreads: int) returns (soma: int)
    requires tamanho <= vetor.Length
    requires numThreads >= 1
    ensures soma == Sum(vetor[..Iterations(tamanho)])
    ensures tamanho <= 0 ==> soma == 0
    ensures tamanho <= N && InGeneratedRange(vetor, 0, tamanho) ==> FitsLongLong(soma)
  {
    var n := Iterations(tamanho);
    ghost var s := vetor[..n];
    var partials := WorkPhase(vetor, n, numThreads);
    if tamanho <= N && InGeneratedRange(vetor, 0, tamanho) {
      // Every partial is non-negative and their total fits: the combination cannot overflow.
      assert forall i :: 0 <= i < |s| ==> 1 <= s[i] <= 100;
      PartialsFit(s, numThreads);
      assert (forall k :: 0 <= k < |partials| ==> 0 <= partials[k]) && FitsLongLong(Sum(partials));
    }
    soma := CombinePhase(partials);
    ParallelEqualsSerial(s, numThreads);
  }

  /** One line of the report: the thread count used and the sum obtained. */
  datatype Measurement = Measurement(threads: int, soma: int)

  /**
   The sweep in `main`: `threads` starts at 1 and doubles while it is at most
   8, so the parallel reducer runs for exactly 1, 2, 4 and 8 threads, in that
   order, and every run yields the sum of the same array.
   */
  method ParallelSweep(vetor: array<int>, tamanho: int) returns (runs: seq<Measurement>)
    requires tamanho <= vetor.Length
    ensures |runs| == 4
    ensures runs[0].threads == 1 && runs[1].threads == 2 && runs[2].threads == 4 && runs[3].threads == 8
    ensures forall k :: 0 <= k < |runs| ==> runs[k].soma == Sum(vetor[..Iterations(tamanho)])
  {
    runs := [];
    var threads := 1;
    while threads <= 8
      invariant |runs| <= 4 && threads == [1, 2, 4, 8, 16][|runs|]
      invariant forall k :: 0 <= k < |runs| ==> runs[k].threads == [1, 2, 4, 8][k]
      invariant forall k :: 0 <= k < |runs| ==> runs[k].soma == Sum(vetor[..Iterations(tamanho)])
      decreases 16 - threads
    {
      var soma := SomaParalela(vetor, tamanho, threads);
      runs := runs + [Measurement(threads, soma)];
      threads := threads * 2;
    }
  }

  /**
   With at most N elements, all in [1, 100], the sum of any slice lies in
   [hi - lo, 100 * (hi - lo)] and so fits in a `long long`.
   */
  lemma {:induction false} NoOverflow(s: seq<int>, lo: int, hi: int)
    requires |s| <= N
    requires forall i :: 0 <= i < |s| ==> 1 <= s[i] <= 100
    requires 0 <= lo <= hi <= |s|
    ensures hi - lo <= Sum(s[lo..hi]) <= 100 * (hi - lo)
    ensures FitsLongLong(Sum(s[lo..hi]))
  {
    SumBounds(s[lo..hi], 1, 100);
  }

  /**
   Under the same hypothesis, the private partials of the static split are
   never negative and their total fits in a `long long`: the condition under
   which CombinePhase keeps every intermediate value in range.
   */
  lemma {:induction false} PartialsFit(s: seq<int>, t: nat)
    requires |s| <= N
    requires forall i :: 0 <= i < |s| ==> 1 <= s[i] <= 100
    requires t >= 1
    ensures forall k :: 0 <= k < t ==> 0 <= ChunkSums(s, StaticBounds(|s|, t))[k]
    ensures FitsLongLong(Sum(ChunkSums(s, StaticBounds(|s|, t))))
  {
    var bounds := StaticBounds(|s|, t);
    var partials := ChunkSums(s, bounds);
    forall k | 0 <= k < t
      ensures 0 <= partials[k]
    {
      NoOverflow(s, bounds[k], bounds[k + 1]);
    }
    ParallelEqualsSerial(s, t);
    NoOverflow(s, 0, |s|);
    assert s[0..|s|] == s;
  }

  /**
   `main`: allocation (`vetor` is null when `malloc` failed, and the program
   exits with -1), generation, one serial run, then the sweep. All five sums
   are the same number, which lies in [N, 100 * N] and fits in a `long long`.
   */
  method Benchmark(vetor: array?<int>, rands: seq<nat>) returns (status: int, serial: int, runs: seq<Measurement>)
    requires vetor != null ==> vetor.Length == N
    requires |rands| >= N
    modifies vetor
    ensures vetor == null ==> status == -1 && runs == []
    ensures vetor != null ==> status == 0
    ensures vetor != null ==> forall i :: 0 <= i < N ==> 1 <= vetor[i] <= 100
    ensures vetor != null ==> serial == Sum(vetor[..N])
    ensures vetor != null ==> N <= serial <= 100 * N && FitsLongLong(serial)
    ensures vetor != null ==> |runs| == 4 && forall k :: 0 <= k < 4 ==> runs[k].soma == serial
    ensures vetor != null ==>
      runs[0].threads == 1 && runs[1].threads == 2 && runs[2].threads == 4 && runs[3].threads == 8
  {
    if vetor == null {
      return -1, 0, [];
    }
    InicializaVetor(vetor, N, rands);
    serial := SomaSerial(vetor, N);
    NoOverflow(vetor[..N], 0, N);
    assert vetor[..N][0..N] == vetor[..N];
    runs := ParallelSweep(vetor, N);
    status := 0;
  }
}
