# π calculators on exact decimals

This project models the π calculators of the repository.

- **Sequential base and its Java 8 counterpart.** A calculator is built with a
  non-negative number of decimal digits. `compute()` floors the result of the
  algorithm's `computeImpl()` to exactly that many fractional digits. Both bases
  share a Babylonian `sqrt`. The Java 8 base can also be verbose, which prints a
  line before and after the computation.
- **Machin.** π = 4·(4·arctan(1/5) − arctan(1/239)), each arctangent summed
  term by term at the working scale P = digits + 10.
- **MachinParallel.** The same formula, with each series summed in chunks of
  24000 terms. A chunk longer than 3000 terms is bisected as a fork/join task.
  The chunk sums are added by a stream, which is parallel above 24 chunks.
- **Chudnovsky.** The Chudnovsky series, evaluated by binary splitting into
  integer triples (P, Q, T) under a fork/join task, then Q·426880·√10005 / T at
  P = digits + 1.
- **BrentSalamin.** The Gauss–Legendre AGM iteration on a, b, t, p at
  P = digits + 3. It is repeated `numberOfIterations(digits)` times, and the
  result is (a + b)² / (4t).

`java.math.BigDecimal` is modelled by `Decimals.Dec(unscaled, scale)`:
- Its structural equality is `BigDecimal.equals`.
- `add`, `subtract` and `multiply` are exact.
- `divide(y, s, mode)` rounds the exact quotient to scale s, by FLOOR or by HALF_UP.
- `Value` gives the rational number a decimal denotes.

What is proved about each calculator:
- **Base.** The result of `compute()` is the floor of the exact value at the
  requested number of digits. A fixed point of the square-root step is within
  one unit in the last place of the quotient a/x.
- **Machin.** The loop computes the floor-rounded alternating series, and the
  powers alternate in sign and shrink.
- **MachinParallel.** The chunk loop, the task bisection and any split of the
  parallel reductions give exactly the plain sum of one term per index. The
  power of each index is the one the code reaches through the chunk and task
  split points, not the one a single pass would compute (see below). The sign
  pattern survives every chunk and task boundary.
- **Chudnovsky.** The triple combination has an identity and is associative.
  Hence `bs`, and the fork/join task built on it, equal a left-to-right fold
  whatever the split points.
- **BrentSalamin.**
  - `numberOfIterations(d)` is the least n ≥ 1 with 2 + 4 + … + 2ⁿ ≥ d, in the
    closed form ⌈log₂ ⌊(d + 3) / 2⌋⌉ for d > 2, and it is monotone.
  - In each turn, a_i is the exact (a + b)/2 floored to P digits, b_i is the
    root applied to the exact product a·b, and t_i and p are exact.
  - p is exactly 2ᵏ after k turns.
  - The only failure is a division by zero.

The two Machin calculators do not compute the same first power.
- The parallel code starts its power sequence from −x at scale 0. Its first
  power is therefore −floor(−10^P / x), the CEILING of 10^P / x at scale P.
- The sequential code floors 1/x.
- They agree only when x divides 10^P. They agree for x = 5, but never for
  x = 239, where every later power of that series can also differ.
- The model follows the code. `MachinParallel.FirstPowerIsCeiling` states the
  difference: the first powers differ by one unit at scale P whenever x does
  not divide 10^P. The two variants are therefore not digit-for-digit
  identical at the working scale. How far the final sums drift apart is not
  proved.

The parallel code jumps over indices where a single pass steps through them.
- A single pass, as in `getPowers`, moves one index at a time: it floors by x²
  and negates.
- At a chunk boundary the code jumps over 24000 indices. Where a task of more
  than 3000 terms is bisected, it jumps over half the task, so at least 1500
  indices. Each jump floors once by x^(2·dist) and negates when dist is odd.
- One floor over several indices and several floors over one index each can
  round differently, by one unit at scale P. A two-index jump shows it: for
  x = 239 at scale 10 the jump formula gives −733, where two single steps give
  −732. `MachinParallel.SplitPowerDiffers` states this small case. It is an
  illustration of the rounding, not a split the code performs.
- So a power reached after a chunk boundary or a task split may differ by one
  unit from the power a single pass would reach. Whether the chunked sum can
  then differ from the single-pass sum is not proved either way. The model
  follows the code: `MachinParallel.ArctanIsSeries` states the result over the
  powers the code actually reaches.

## Model

| member | source | states |
|---|---|---|
| PiCalc.New | src/main/java/com/rbc/rbcone/pi/PiCalc.java:12-17 | a calculator exists exactly when the digit count is non-negative, and keeps that count; otherwise an IllegalArgument error |
| PiCalc.Compute | src/main/java/com/rbc/rbcone/pi/PiCalc.java:19-22 | the result has exactly decimalDigits fractional digits and is the largest such decimal not above computeImpl() |
| PiCalc.ComputeIsFloor | src/main/java/com/rbc/rbcone/pi/PiCalc.java:19-22 | the unscaled result is the floor of the exact real value times 10^decimalDigits |
| PiCalc.ComputeKeepsExact | src/main/java/com/rbc/rbcone/pi/PiCalc.java:19-22 | a value already at decimalDigits digits is returned unchanged |
| PiCalc.ComputeTwice | src/main/java/com/rbc/rbcone/pi/PiCalc.java:19-22 | flooring to d + 1 digits and then to d digits equals flooring to d digits directly |
| PiCalc.Step | src/main/java/com/rbc/rbcone/pi/PiCalc.java:35-37 | one Babylonian step (a/x + x)/2, both divisions HALF_UP, has the requested scale |
| PiCalc.Sqrt | src/main/java/com/rbc/rbcone/pi/PiCalc.java:30-40 | a zero seed returns ZERO; a zero non-ZERO seed is a division by zero; a normal exit is a non-zero fixed point of the step at the requested scale; the only errors are division by zero and non-convergence |
| PiCalc.FixedPointNearQuotient | src/main/java/com/rbc/rbcone/pi/PiCalc.java:33-37 | at a fixed point, the half-up quotient a/x equals x or is one unit in the last place away from it, on the side given by the sign |
| PiCalcJava8.New | src/main/java/com/rbc/rbcone/java8/pi/PiCalc.java:17-23 | as the base constructor, also keeping the verbose flag |
| PiCalcJava8.NewQuiet | src/main/java/com/rbc/rbcone/java8/pi/PiCalc.java:13-15 | the one-argument constructor validates alike and is never verbose |
| PiCalcJava8.Compute | src/main/java/com/rbc/rbcone/java8/pi/PiCalc.java:25-36 | the value is computeImpl() floored to decimalDigits digits; exactly two lines are printed when verbose, none otherwise |
| PiCalcJava8.VerboseOnlyPrints | src/main/java/com/rbc/rbcone/java8/pi/PiCalc.java:25-36 | the verbose flag never changes the value, which equals the sequential base's compute() |
| PiCalcJava8.Sqrt | src/main/java/com/rbc/rbcone/java8/pi/PiCalc.java:44-54 | the same contract as the sequential sqrt |
| Machin.ArctanRecip | src/main/java/com/rbc/rbcone/pi/Machin.java:35-51 | the loop returns, at scale P, the sum of floor(10^P/x) and the floored terms pow_i/(2i-1), each power the previous floored by x² and negated |
| Machin.PowerSign | src/main/java/com/rbc/rbcone/pi/Machin.java:45-48 | the powers alternate in sign: non-negative at odd i, non-positive at even i |
| Machin.PowerShrinks | src/main/java/com/rbc/rbcone/pi/Machin.java:47 | the magnitude of the powers never increases |
| Machin.NumberOfTerms | src/main/java/com/rbc/rbcone/pi/Machin.java:27-29 | at least one term is always summed; the parallel calculator, whose numberOfTerms is identical, uses the same function |
| Machin.ComputeImpl | src/main/java/com/rbc/rbcone/pi/Machin.java:13-20 | the result is exactly 4·(4·arctan(1/5) − arctan(1/239)) of the two series, at scale P |
| Machin.Compute | src/main/java/com/rbc/rbcone/pi/PiCalc.java:19-22 | compute() of Machin is computeImpl() floored to decimalDigits digits |
| Machin.ZeroDigitsGivesThree | src/main/java/com/rbc/rbcone/pi/Machin.java:13-20 | with zero digits computeImpl() is 3.1832635984 and compute() is exactly 3 |
| MachinParallel.FoldLeftIsSum | src/main/java/com/rbc/rbcone/pi/MachinParallel.java:70-72 | the sequential stream reduction from ZERO is the exact sum |
| MachinParallel.ReduceFromZeroIsSum | src/main/java/com/rbc/rbcone/pi/MachinParallel.java:70-72 | the parallel reduction from ZERO is the exact sum however the runtime splits it |
| MachinParallel.ReduceIsSum | src/main/java/com/rbc/rbcone/pi/MachinParallel.java:93-101 | reduce without identity is the exact sum however split, and empty only for an empty range |
| MachinParallel.Powers | src/main/java/com/rbc/rbcone/pi/MachinParallel.java:103-111 | the list has n powers, the first being lastPow floored by sqr and negated |
| MachinParallel.PowersStep | src/main/java/com/rbc/rbcone/pi/MachinParallel.java:106-109 | every later power is the previous one floored by sqr and negated |
| MachinParallel.GetPowers | src/main/java/com/rbc/rbcone/pi/MachinParallel.java:103-111 | the loop builds exactly that list |
| MachinParallel.PowersSign | src/main/java/com/rbc/rbcone/pi/MachinParallel.java:103-111 | if the power before the list fits the sign of its index, every power in the list fits its own index |
| MachinParallel.Advance | src/main/java/com/rbc/rbcone/pi/MachinParallel.java:118-123 | advancing a power over dist indices never increases its magnitude |
| MachinParallel.AdvanceSign | src/main/java/com/rbc/rbcone/pi/MachinParallel.java:59-67 | advancing over dist indices (negating on odd dist) keeps the sign pattern |
| MachinParallel.SumTerms | src/main/java/com/rbc/rbcone/pi/MachinParallel.java:93-101 | sumTerms yields a value exactly when the range is non-empty |
| MachinParallel.SumTermsAnyOrder | src/main/java/com/rbc/rbcone/pi/MachinParallel.java:93-101 | the parallel stream of sumTerms gives the same value for every split of the range |
| MachinParallel.Mid | src/main/java/com/rbc/rbcone/pi/MachinParallel.java:118 | the split point leaves both halves non-empty |
| MachinParallel.SumTask | src/main/java/com/rbc/rbcone/pi/MachinParallel.java:113-131 | no contract of its own: a range of at most 3000 terms is summed from getPowers' list, a longer one is bisected at mid with its right half started from the advanced power; its value is stated by SumTaskIsSum |
| MachinParallel.SumTaskIsSum | src/main/java/com/rbc/rbcone/pi/MachinParallel.java:113-131 | the bisecting task equals the plain sum of one floored term per index of [start, end] |
| MachinParallel.LeafIsSum | src/main/java/com/rbc/rbcone/pi/MachinParallel.java:115-116 | a task of at most 3000 terms sums its own powers directly |
| MachinParallel.SplitIsSum | src/main/java/com/rbc/rbcone/pi/MachinParallel.java:117-130 | a larger task, started from the power advanced to mid for its right half, sums the same terms as one sequence |
| MachinParallel.TaskPowersFirst | src/main/java/com/rbc/rbcone/pi/MachinParallel.java:103-111 | a task's first power is its start power floored by x² and negated |
| MachinParallel.TaskPowersSign | src/main/java/com/rbc/rbcone/pi/MachinParallel.java:113-131 | task boundaries never drop or add a sign flip |
| MachinParallel.SplitPowerDiffers | src/main/java/com/rbc/rbcone/pi/MachinParallel.java:118-123 | the jump formula and repeated getPowers steps can round differently: for x = 239 at scale 10, jumping over two indices gives −733, while two single steps give −732 (an illustration; the code's own jumps span 1500 or more indices) |
| MachinParallel.ChunkEnd | src/main/java/com/rbc/rbcone/pi/MachinParallel.java:56-57 | a chunk is non-empty, ends at or before n, is at most 24000 long, and is full unless last |
| MachinParallel.ChunksPartition | src/main/java/com/rbc/rbcone/pi/MachinParallel.java:44-57 | the chunks are consecutive and cover exactly indices 1..n |
| MachinParallel.ChunkRound | src/main/java/com/rbc/rbcone/pi/MachinParallel.java:55-68 | one round of the chunk loop appends the chunk's sum and advances the power to the next chunk |
| MachinParallel.ChunkSumsAreSeries | src/main/java/com/rbc/rbcone/pi/MachinParallel.java:55-68 | the chunk sums add up to one floored term per index, over consecutive powers |
| MachinParallel.ChunkFirstPowSign | src/main/java/com/rbc/rbcone/pi/MachinParallel.java:50-67 | every chunk starts from a power with the sign of the index just before it |
| MachinParallel.SeriesPowersFirst | src/main/java/com/rbc/rbcone/pi/MachinParallel.java:50-68 | the first power of the whole series is the start −x floored by x² and negated |
| MachinParallel.SeriesPowersSign | src/main/java/com/rbc/rbcone/pi/MachinParallel.java:50-68 | from the non-positive start, the power of index i is non-negative when i is odd, non-positive when even, across all chunks |
| MachinParallel.FirstPowerIsCeiling | src/main/java/com/rbc/rbcone/pi/MachinParallel.java:50 | the series has n powers; the first is the ceiling of 10^P/x, equal to Machin's floor only when x divides 10^P |
| MachinParallel.ScaledStart | src/main/java/com/rbc/rbcone/pi/MachinParallel.java:50 | dividing the scale-0 start −x at scale P equals dividing −x·10^P at scale P |
| MachinParallel.Sqr | src/main/java/com/rbc/rbcone/pi/MachinParallel.java:46 | x² is at least 1 |
| MachinParallel.ArctanRecip | src/main/java/com/rbc/rbcone/pi/MachinParallel.java:36-73 | the chunk loop and final reduction return the specified arctangent value, for every split of the reduction |
| MachinParallel.ArctanIsSeries | src/main/java/com/rbc/rbcone/pi/MachinParallel.java:36-73 | for n ≥ 1 that value is the sum over i = 1..n of floor(pow_i/(2i−1)), with alternating signs |
| MachinParallel.ComputeImpl | src/main/java/com/rbc/rbcone/pi/MachinParallel.java:19-26 | 4·(4·arctan(1/5) − arctan(1/239)) exactly, whatever the split of the reductions |
| MachinParallel.Compute | src/main/java/com/rbc/rbcone/pi/PiCalc.java:19-22 | computeImpl() floored to decimalDigits digits |
| Chudnovsky.C3Over24IsExact | src/main/java/com/rbc/rbcone/java8/pi/Chudnovsky.java:10-11 | 640320³ is divisible by 24, and the constant is 10939058860032000 |
| Chudnovsky.Base | src/main/java/com/rbc/rbcone/java8/pi/Chudnovsky.java:56-69 | the triple of one index, (1, 1, 13591409) at 0 and (6a−5)(2a−1)(6a−1), a³·C³/24 and ±P·(13591409 + 545140134a) elsewhere: P and Q are positive, and T is non-zero and negative exactly at odd indices |
| Chudnovsky.CombineIdentity | src/main/java/com/rbc/rbcone/java8/pi/Chudnovsky.java:78-84 | (1, 1, 0) is a two-sided identity of combine |
| Chudnovsky.CombineAssociative | src/main/java/com/rbc/rbcone/java8/pi/Chudnovsky.java:78-84 | combine is associative |
| Chudnovsky.Combine | src/main/java/com/rbc/rbcone/java8/pi/Chudnovsky.java:78-84 | combining two triples with positive P and Q gives positive P and Q |
| Chudnovsky.Bs | src/main/java/com/rbc/rbcone/java8/pi/Chudnovsky.java:55-76 | every range's P and Q are positive |
| Chudnovsky.FoldSplit | src/main/java/com/rbc/rbcone/java8/pi/Chudnovsky.java:70-75 | splitting a range at any interior point and combining gives the fold of the range |
| Chudnovsky.BsIsFold | src/main/java/com/rbc/rbcone/java8/pi/Chudnovsky.java:55-76 | bs(a, b) is the left-to-right fold of the base triples of [a, b) |
| Chudnovsky.BinarySplit | src/main/java/com/rbc/rbcone/java8/pi/Chudnovsky.java:86-99 | the fork/join task, splitting above 128 terms, returns exactly bs(a, b) |
| Chudnovsky.BinarySplitIsFold | src/main/java/com/rbc/rbcone/java8/pi/Chudnovsky.java:86-99 | the fork/join task returns the left-to-right fold of the base triples of its range |
| Chudnovsky.NumberOfTerms | src/main/java/com/rbc/rbcone/java8/pi/Chudnovsky.java:39-42 | at least 8 terms, and exactly max(8, quotient + 1) |
| Chudnovsky.ComputeImpl | src/main/java/com/rbc/rbcone/java8/pi/Chudnovsky.java:28-37 | fails, as a division by zero, exactly when T of [0, n) is zero; otherwise Q·D/T floored to scale d + 1, where D = 426880·sqrt(10005) and (P, Q, T) is the fold of the base triples |
| Chudnovsky.Compute | src/main/java/com/rbc/rbcone/java8/pi/PiCalc.java:25-36 | succeeds exactly when computeImpl() does, and then is the Java 8 compute() of its value: floored to decimalDigits digits, with the verbose lines |
| BrentSalamin.NumberOfIterations | src/main/java/com/rbc/rbcone/java8/pi/BrentSalamin.java:49-59 | the loop returns the least n ≥ 1 with 2^(n+1) − 2 ≥ d, which is the closed form |
| BrentSalamin.IterationsIsLeast | src/main/java/com/rbc/rbcone/java8/pi/BrentSalamin.java:49-59 | the closed form is the least sufficient number of iterations |
| BrentSalamin.LeastIterationsUnique | src/main/java/com/rbc/rbcone/java8/pi/BrentSalamin.java:49-59 | the least number of iterations is unique |
| BrentSalamin.IterationsMonotone | src/main/java/com/rbc/rbcone/java8/pi/BrentSalamin.java:49-59 | more digits never need fewer iterations |
| BrentSalamin.ComputeImpl | src/main/java/com/rbc/rbcone/java8/pi/BrentSalamin.java:22-47 | the loop computes the initial state, numberOfIterations steps and the final quotient |
| BrentSalamin.Compute | src/main/java/com/rbc/rbcone/java8/pi/PiCalc.java:25-36 | fails only by division by zero, exactly when computeImpl() fails; otherwise computeImpl() floored to decimalDigits digits |
| BrentSalamin.ImplFailure | src/main/java/com/rbc/rbcone/java8/pi/BrentSalamin.java:28-46 | computeImpl() fails exactly when sqrt(2) or the final t is zero, always as a division by zero |
| BrentSalamin.ReciprocalIsFloor | src/main/java/com/rbc/rbcone/java8/pi/BrentSalamin.java:28 | b has scale P and is 1/sqrt(2) floored to P digits |
| BrentSalamin.MeanIsFloor | src/main/java/com/rbc/rbcone/java8/pi/BrentSalamin.java:35 | a_i has scale P and is the exact (a + b)/2 floored to P digits |
| BrentSalamin.StepRoot | src/main/java/com/rbc/rbcone/java8/pi/BrentSalamin.java:36 | the argument handed to root has value exactly a·b, with no rounding before the root |
| BrentSalamin.CorrectionExact | src/main/java/com/rbc/rbcone/java8/pi/BrentSalamin.java:37 | t_i = t − p·(a − a_i)² exactly |
| BrentSalamin.IterateDoubling | src/main/java/com/rbc/rbcone/java8/pi/BrentSalamin.java:42 | p is exactly 2^k after k turns |
| BrentSalamin.FinalFails | src/main/java/com/rbc/rbcone/java8/pi/BrentSalamin.java:45-46 | the final division fails exactly when t is zero, as a division by zero |
| BrentSalamin.QuotientIsFloor | src/main/java/com/rbc/rbcone/java8/pi/BrentSalamin.java:45-46 | the final value has scale P and is x/d floored to P digits; it fails exactly when d is zero |
| BrentSalamin.FinalOperands | src/main/java/com/rbc/rbcone/java8/pi/BrentSalamin.java:45-46 | the final operands are exactly (a + b)² and 4t |
| Decimals.SetScaleFloor | src/main/java/com/rbc/rbcone/pi/PiCalc.java:20-21 | setScale(s, FLOOR) gives the largest decimal of scale s not above x |
| Decimals.DivideFloorIsFloor | src/main/java/com/rbc/rbcone/pi/Machin.java:38 | divide(y, s, FLOOR) is the floor of (x/y)·10^s, whatever the signs |
| Decimals.HalfUpDivBounds | src/main/java/com/rbc/rbcone/pi/PiCalc.java:35-37 | HALF_UP division is the nearest integer, ties away from zero, with the sign of the quotient |
| Decimals.DivideAtScale | src/main/java/com/rbc/rbcone/pi/Machin.java:47-48 | dividing a decimal of scale P by an integer at scale P rounds its unscaled value |
| Decimals.ValueAdd | src/main/java/com/rbc/rbcone/java8/pi/BrentSalamin.java:35 | add is exact |
| Decimals.ValueSubtract | src/main/java/com/rbc/rbcone/java8/pi/BrentSalamin.java:37 | subtract is exact |
| Decimals.ValueMultiply | src/main/java/com/rbc/rbcone/java8/pi/BrentSalamin.java:36 | multiply is exact |

## Left out

- Fork/join and parallel streams are plain recursion. A `Shape` argument
  stands for how the runtime splits a stream reduction. Scheduling, threads and
  the common pool are not modelled; the lemmas show the result does not depend
  on them.
- Floating-point arithmetic is left out. `Math.ceil(d / (2·log10 x))`,
  `(int) (d / DIGITS_PER_TERM)` and the `Math.sqrt(a.doubleValue())` seed of
  `sqrt` are parameters of the model (`ceiling`, `quotient`, `seed`).
- PiCalc.Sqrt: the loop runs until two iterates are equal, and its termination
  is not proved. The model stops after `fuel` steps with a NotConverged error.
- BrentSalamin.ComputeImpl: `sqrt(x, precision)` is the function parameter
  `root`. The model therefore does not capture the way that sqrt can fail or
  loop inside the iteration.
- Chudnovsky.ComputeImpl: the value of `sqrt(10005, precision)` is a parameter.
- Chudnovsky.Base: computed on unbounded integers. The source computes P and
  a³ in 64-bit `long` before turning them into BigInteger. The product
  (6a − 5)(2a − 1)(6a − 1) first exceeds 2^63 − 1 at a = 504104. At 14.18
  digits per term, that is about 7.1 million requested digits. Wrap-around
  beyond that is not modelled.
- MachinParallel: the `int` loop counters are unbounded integers, so `int`
  overflow is not modelled.
- PiCalcJava8.Compute: the printing is returned as the list of lines, not
  written to standard output.
- Chudnovsky.Compute, BrentSalamin.Compute: when computeImpl() fails in a
  verbose calculator, the source has already printed the "has started
  computing" line. The model's Failure result does not carry that line.
- π: agreement of any result with the true digits of π is not proved. Only
  the arithmetic the code performs is.
- Other files of the repository are not part of this model: the image and
  utility code, the factories, the command-line entry points and the tests.
