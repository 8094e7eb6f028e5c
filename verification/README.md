# Serial and OpenMP-parallel array summation, modelled in Dafny

The program `Ponderada-sem04/ponderada-sem04.c` benchmarks a reduction. It
allocates an array of `N = 100000000` C `int`s and fills it with
`rand() % 100 + 1` (`inicializa_vetor`). It sums the array once with a plain
loop into a `long long` (`soma_serial`). It then sums it again with
`#pragma omp parallel for reduction(+:soma)` (`soma_paralela`) for 1, 2, 4
and 8 threads, and reports each sum.

This project models that core as imperative Dafny:

- `sums.dfy` (module `Sums`): `Sum`, the left-to-right sum of a sequence, with
  the facts the reduction relies on. These are concatenation (associativity),
  rearrangement (commutativity) and value bounds.
- `schedule.dfy` (module `Schedule`): the sequential meaning of the
  `reduction(+:soma)` clause, following section 2.19.5.4 of the OpenMP API 5.0
  specification. The loop's iterations `[0, n)` are split into contiguous
  chunks, one per thread, some possibly empty. Each thread adds its chunk into
  a private copy initialised to 0, and the copies are added at the end.
  `PartitionSum` proves that this equals `Sum` for any contiguous split.
  `ChunkStart` gives the concrete even split that GCC's OpenMP runtime uses
  by default: the first `n % t` threads take `n / t + 1` iterations and the
  others take `n / t`.
- `ponderada.dfy` (module `Ponderada`): the C functions as methods over an
  `array<int>`. `InicializaVetor` writes the array in place. `SomaSerial` and
  `SomaParalela` only read it, since they have no `modifies` clause. Each loop
  carries invariants tied to `Sum`. `ParallelSweep` is the doubling loop of
  `main`. `Benchmark` is `main` itself.

`rand()` is modelled as a sequence `rands: seq<nat>` of the values its
successive calls return, one per loop step. The allocation made by `malloc` is
the parameter `vetor: array?<int>` of `Benchmark`, which is `null` when the
allocation failed.

## Model

| member | source | states |
|---|---|---|
| `Ponderada.RandomValue` | Ponderada-sem04/ponderada-sem04.c:12 | the value stored for any non-negative `rand()` result lies in [1, 100] |
| `Ponderada.InicializaVetor` | Ponderada-sem04/ponderada-sem04.c:9-14 | every slot `i < tamanho` is written with `rand_i % 100 + 1` and so lies in [1, 100]; slots from `tamanho` on are unchanged |
| `Ponderada.SomaSerial` | Ponderada-sem04/ponderada-sem04.c:17-24 | returns exactly the sum of `vetor[0..tamanho)`, and 0 when `tamanho <= 0`; the array is not modified; when `tamanho <= N` and the elements lie in [1, 100], the accumulator fits in a `long long` after every step (loop invariant) and at the end |
| `Ponderada.ThreadShare` | Ponderada-sem04/ponderada-sem04.c:35-37 | a thread's private copy, started at 0, ends as the sum of its chunk `[lo, hi)`; for a chunk of at most N elements in [1, 100] it fits in a `long long` after every step and at the end |
| `Ponderada.WorkPhase` | Ponderada-sem04/ponderada-sem04.c:34-37 | the private partials are, in thread order, the sums of the chunks of the static split for `t` threads, which is a partition of `[0, n)` |
| `Ponderada.CombinePhase` | Ponderada-sem04/ponderada-sem04.c:28-39 | the original `soma` (0) plus every private copy is the sum of the partials; when no partial is negative and their total fits in a `long long`, the running value fits after every step (loop invariant) |
| `Ponderada.SomaParalela` | Ponderada-sem04/ponderada-sem04.c:27-40 | for every `num_threads >= 1` returns exactly the serial sum of `vetor[0..tamanho)`, and 0 when `tamanho <= 0`; the array is not modified; when `tamanho <= N` and the elements lie in [1, 100], the result fits in a `long long` |
| `Ponderada.ParallelSweep` | Ponderada-sem04/ponderada-sem04.c:61-69 | the doubling loop runs exactly four times, with 1, 2, 4 and 8 threads in that order, and every run yields the sum of the same array |
| `Ponderada.NoOverflow` | Ponderada-sem04/ponderada-sem04.c:17-24 | with at most N elements, all in [1, 100], the sum of any slice `[lo, hi)` lies in `[hi - lo, 100 * (hi - lo)]` and fits in a signed 64-bit `long long` |
| `Ponderada.PartialsFit` | Ponderada-sem04/ponderada-sem04.c:34-39 | with at most N elements, all in [1, 100], every private partial of the static split is non-negative and their total fits in a `long long`, which is the hypothesis under which `CombinePhase` never leaves that range |
| `Ponderada.Benchmark` | Ponderada-sem04/ponderada-sem04.c:42-74 | exits with -1 when the allocation failed; otherwise every element lies in [1, 100], the serial sum lies in [N, 100 * N] and fits in a `long long`, and the four parallel runs (1, 2, 4, 8 threads) report that same sum |
| `Sums.SumSnoc` | Ponderada-sem04/ponderada-sem04.c:21 | one `soma += x` step adds `x` to the running sum |
| `Sums.SumConcat` | Ponderada-sem04/ponderada-sem04.c:34-39 | the sum of two consecutive pieces is the sum of the pieces' sums |
| `Sums.SumPermutation` | Ponderada-sem04/ponderada-sem04.c:34 | any order of adding the same values, including any order of combining the private copies, gives the same sum |
| `Sums.SumBounds` | Ponderada-sem04/ponderada-sem04.c:12 | elements in `[lo, hi]` bound the sum by `lo * len` and `hi * len` |
| `Sums.SumPrefixBounded` | Ponderada-sem04/ponderada-sem04.c:39 | with no negative element, every prefix sum lies between 0 and the whole sum |
| `Schedule.ChunkSums` | Ponderada-sem04/ponderada-sem04.c:34-37 | there is one partial per chunk, and partial `k` is the sum of chunk `[bounds[k], bounds[k+1])` |
| `Schedule.ChainSum` | Ponderada-sem04/ponderada-sem04.c:34-39 | the partials of consecutive chunks add up to the sum of the range the chunks cover |
| `Schedule.PartitionSum` | Ponderada-sem04/ponderada-sem04.c:34-39 | for any split of `[0, n)` into contiguous chunks, some possibly empty, the partials add up to the whole sum |
| `Schedule.ChunkStartEnds` | Ponderada-sem04/ponderada-sem04.c:34-35 | under the static split thread 0 starts at iteration 0 and the last thread's chunk ends at `n` |
| `Schedule.ChunkStartMonotone` | Ponderada-sem04/ponderada-sem04.c:34-35 | static chunk starts never decrease and never pass `n` |
| `Schedule.ChunkLength` | Ponderada-sem04/ponderada-sem04.c:34-35 | chunk `k` holds `n / t` iterations, plus one for the first `n % t` threads |
| `Schedule.StaticBounds` | Ponderada-sem04/ponderada-sem04.c:34-35 | the static split for `t >= 1` threads is a partition of `[0, n)` into exactly `t` chunks, chunk `k` holding `n / t` iterations plus one for each of the first `n % t` threads |
| `Schedule.ParallelEqualsSerial` | Ponderada-sem04/ponderada-sem04.c:27-40 | under the static split, the combined partials equal the serial sum for every thread count `t >= 1` |
| `Schedule.CombinePrefix` | Ponderada-sem04/ponderada-sem04.c:34-39 | after the first `j` private copies are combined in thread order, the value is the sum of the array before chunk `j` |
| `Schedule.SingleThread` | Ponderada-sem04/ponderada-sem04.c:31-37 | with one thread the only chunk is `[0, n)`, and its partial is the whole sum |
| `Schedule.OverSubscribed` | Ponderada-sem04/ponderada-sem04.c:31-37 | with more threads than elements, thread `k < n` gets exactly element `k` and every other thread gets an empty chunk that contributes 0 |

## Left out

- Thread creation, the OpenMP runtime and the process-wide `omp_set_num_threads` setting (lines 31 and 34). The parallel loop is modelled by its sequential meaning: split the iterations, compute the partials, then combine them. The thread count is a parameter of `SomaParalela`.
- The OpenMP API leaves the default loop schedule to the implementation. It may also give a team fewer threads than requested. `SomaParalela` runs GCC's even static split with exactly `numThreads` chunks. `PartitionSum` shows that the sum is the same for any contiguous split into any number of chunks. Round-robin (cyclic) schedules are not modelled.
- The combination of the private copies runs in thread order. The OpenMP API leaves that order unspecified, and `SumPermutation` shows that the order does not change the result.
- Wall-clock timing with `omp_get_wtime` and the elapsed-time arithmetic (lines 53-55 and 62-64). These are floating-point values and carry no correctness property.
- `srand(time(NULL))` and the internals of `rand()` (lines 10 and 12). The values `rand()` returns are the input sequence `rands`, and they are only assumed to be non-negative.
- `printf` reporting (lines 47, 58 and 67-68). `Benchmark` returns the reported values instead: the serial sum and one `Measurement` per thread count.
- `malloc` and `free` (lines 44 and 71). The allocation is the `vetor` parameter of `Benchmark`, which is `null` on failure.
- The 32-bit width of the C `int` elements, `tamanho` and `threads` is not modelled. The generated values (1 to 100), N and the thread counts (at most 16) are all far inside that range.
- SomaSerial: accumulates in an unbounded integer rather than a 64-bit `long long`, whose signed overflow would be undefined behaviour in C. Its loop invariant proves that, when `tamanho <= N` and every element lies in [1, 100], the accumulator stays within the `long long` range after every step.
- SomaParalela: accumulates its private copies and the combined value in unbounded integers. `ThreadShare`'s loop invariant keeps every private copy within the `long long` range, for the program's values. `CombinePhase`'s loop invariant does the same for the running combined value, under the hypothesis that `PartialsFit` proves. That argument follows the thread-order combination. Under the unspecified order the OpenMP API allows, the intermediate values are sums of arbitrary subsets of the partials, and no lemma bounds those.
