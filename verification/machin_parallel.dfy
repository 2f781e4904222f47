/**
 * Machin's formula with each arctangent series summed in chunks of 24000
 * terms. A chunk needs only its first index and the power just before it; a
 * chunk longer than 3000 terms is bisected (a fork/join task, here plain
 * recursion) and each half starts from a power derived by dividing by a power
 * of x^2. All quantities have scale P = decimalDigits + 10 and are modelled by
 * their unscaled integers, as Decimals.DivideAtScale and
 * Decimals.DivideScaledInteger justify; the starting value -x of scale 0 is
 * -x * 10^P at scale P.
 */
module MachinParallel {
  import opened Decimals
  import PiCalc
  import Machin

  const ChunkSize: nat := 24000
  const SequentialThreshold: nat := 3000

  /** Above this many chunks the chunk sums are added by a parallel stream. */
  const ParallelChunks: nat := 24

  // ---------------------------------------------------------------------
  // Exact summation in any order

  function Sum(s: seq<int>): int
  {
    if s == [] then 0 else s[0] + Sum(s[1..])
  }

  lemma {:induction false} SumConcat(a: seq<int>, b: seq<int>)
    ensures Sum(a + b) == Sum(a) + Sum(b)
  {
    if a != [] {
      assert (a + b)[0] == a[0];
      assert (a + b)[1..] == a[1..] + b;
      SumConcat(a[1..], b);
    } else {
      assert a + b == b;
    }
  }

  /** The left-to-right accumulation a sequential stream performs. */
  function FoldLeft(acc: int, s: seq<int>): int
    decreases |s|
  {
    if s == [] then acc else FoldLeft(acc + s[0], s[1..])
  }

  lemma {:induction false} FoldLeftIsSum(acc: int, s: seq<int>)
    ensures FoldLeft(acc, s) == acc + Sum(s)
    decreases |s|
  {
    if s != [] {
      FoldLeftIsSum(acc + s[0], s[1..]);
    }
  }

  /** How a stream runtime may split a reduction: each Fork cuts the elements
      at `at` (clamped to the length) and reduces the two parts separately. */
  datatype Shape = Sequential | Fork(at: nat, left: Shape, right: Shape)

  function Cut(s: seq<int>, at: nat): nat
  {
    if at <= |s| then at else |s|
  }

  function Merge(a: Option<int>, b: Option<int>): Option<int>
  {
    match (a, b)
    case (Some(x), Some(y)) => Some(x + y)
    case (Some(_), None) => a
    case (None, _) => b
  }

  /** reduce(BigDecimal::add) without an identity: an empty part yields no
      value (an empty Optional). */
  function Reduce(s: seq<int>, shape: Shape): Option<int>
    decreases shape
  {
    match shape
    case Sequential => if s == [] then None else Some(FoldLeft(s[0], s[1..]))
    case Fork(at, l, r) => Merge(Reduce(s[..Cut(s, at)], l), Reduce(s[Cut(s, at)..], r))
  }

  /** reduce(ZERO, BigDecimal::add): every part starts from the identity. */
  function ReduceFromZero(s: seq<int>, shape: Shape): int
    decreases shape
  {
    match shape
    case Sequential => FoldLeft(0, s)
    case Fork(at, l, r) => ReduceFromZero(s[..Cut(s, at)], l) + ReduceFromZero(s[Cut(s, at)..], r)
  }

  /** Whatever way the runtime splits it, the reduction is the exact sum, and
      it is empty only for an empty stream. */
  lemma {:induction false} ReduceIsSum(s: seq<int>, shape: Shape)
    ensures Reduce(s, shape) == if s == [] then None else Some(Sum(s))
    decreases shape
  {
    match shape
    case Sequential =>
      if s != [] {
        FoldLeftIsSum(s[0], s[1..]);
      }
    case Fork(at, l, r) =>
      var k := Cut(s, at);
      ReduceIsSum(s[..k], l);
      ReduceIsSum(s[k..], r);
      assert s == s[..k] + s[k..];
      SumConcat(s[..k], s[k..]);
  }

  lemma {:induction false} ReduceFromZeroIsSum(s: seq<int>, shape: Shape)
    ensures ReduceFromZero(s, shape) == Sum(s)
    decreases shape
  {
    match shape
    case Sequential =>
      FoldLeftIsSum(0, s);
    case Fork(at, l, r) =>
      var k := Cut(s, at);
      ReduceFromZeroIsSum(s[..k], l);
      ReduceFromZeroIsSum(s[k..], r);
      assert s == s[..k] + s[k..];
      SumConcat(s[..k], s[k..]);
  }

  // ---------------------------------------------------------------------
  // Powers of the series

  /** The sign pattern of the series: the power at an odd index is
      non-negative, at an even index non-positive (index 0 is the start -x). */
  predicate SignFits(i: int, p: int)
  {
    if i % 2 == 1 then p >= 0 else p <= 0
  }

  /** The list getPowers(n, sqr, lastPow) builds: each element is the previous
      one (lastPow before the first) divided by sqr, floored, and negated. */
  function Powers(n: nat, sqr: int, last: int): (pows: seq<int>)
    requires sqr >= 1
    ensures |pows| == n
    ensures n > 0 ==> pows[0] == -FloorDiv(last, sqr)
  {
    if n == 0 then []
    else
      var prev := Powers(n - 1, sqr, last);
      prev + [-FloorDiv(if n == 1 then last else prev[n - 2], sqr)]
  }

  /** Each power after the first is the one before it divided by sqr, floored,
      and negated. */
  lemma {:induction false} PowersStep(n: nat, sqr: int, last: int, k: nat)
    requires sqr >= 1 && 0 < k < n
    ensures Powers(n, sqr, last)[k] == -FloorDiv(Powers(n, sqr, last)[k - 1], sqr)
  {
    var prev := Powers(n - 1, sqr, last);
    assert Powers(n, sqr, last)[k - 1] == prev[k - 1];
    if k < n - 1 {
      PowersStep(n - 1, sqr, last, k);
      assert Powers(n, sqr, last)[k] == prev[k];
    }
  }

  /** getPowers: the loop that fills the list. */
  method GetPowers(n: nat, sqr: int, lastPow: int) returns (pows: seq<int>)
    requires sqr >= 1
    ensures pows == Powers(n, sqr, lastPow)
  {
    var pow := lastPow;
    pows := [];
    for i := 0 to n
      invariant pows == Powers(i, sqr, lastPow)
      invariant pow == if i == 0 then lastPow else pows[i - 1]
    {
      pow := -FloorDiv(pow, sqr);
      pows := pows + [pow];
    }
  }

  /** If the power before the list has the sign its index calls for, so does
      every power in it. */
  lemma PowersSign(i: int, n: nat, sqr: int, last: int)
    requires sqr >= 1 && SignFits(i, last)
    ensures forall k :: 0 <= k < n ==> SignFits(i + 1 + k, Powers(n, sqr, last)[k])
  {
    forall k | 0 <= k < n
      ensures SignFits(i + 1 + k, Powers(n, sqr, last)[k])
    {
      PowerSignAt(i, n, sqr, last, k);
    }
  }

  lemma {:induction false} PowerSignAt(i: int, n: nat, sqr: int, last: int, k: nat)
    requires sqr >= 1 && SignFits(i, last) && k < n
    ensures SignFits(i + 1 + k, Powers(n, sqr, last)[k])
  {
    var pows := Powers(n, sqr, last);
    var before := if k == 0 then last else pows[k - 1];
    if k > 0 {
      PowerSignAt(i, n, sqr, last, k - 1);
    }
    assert SignFits(i + k, before);
    if k > 0 {
      PowersStep(n, sqr, last, k);
    }
    assert pows[k] == -FloorDiv(before, sqr);
    FloorDivShrinks(before, sqr);
  }

  /** The power `dist` indices further on, as both the chunk loop and the
      task split derive it: floor(pow / sqr^dist), negated when dist is odd.
      Its magnitude never exceeds that of pow. */
  function Advance(pow: int, sqr: int, dist: nat): (r: int)
    requires sqr >= 1
    ensures Abs(r) <= Abs(pow)
  {
    PowPositive(sqr, dist);
    FloorDivShrinks(pow, Pow(sqr, dist));
    var q := FloorDiv(pow, Pow(sqr, dist));
    if dist % 2 != 0 then -q else q
  }

  /** Advancing keeps the sign pattern: the new power fits index i + dist. */
  lemma AdvanceSign(i: int, pow: int, sqr: int, dist: nat)
    requires sqr >= 1 && SignFits(i, pow)
    ensures SignFits(i + dist, Advance(pow, sqr, dist))
  {
    PowPositive(sqr, dist);
    FloorDivShrinks(pow, Pow(sqr, dist));
  }

  // ---------------------------------------------------------------------
  // The summation task

  /** The terms floor(pow / (2i - 1)) of indices start, start + 1, ... */
  function Terms(start: int, pows: seq<int>): (t: seq<int>)
    requires start >= 1
    ensures |t| == |pows|
  {
    seq(|pows|, k requires 0 <= k < |pows| => FloorDiv(pows[k], 2 * (start + k) - 1))
  }

  lemma TermsConcat(start: int, a: seq<int>, b: seq<int>)
    requires start >= 1
    ensures Terms(start, a + b) == Terms(start, a) + Terms(start + |a|, b)
  {
  }

  /** The terms of two adjacent runs of powers add up to the terms of both. */
  lemma TermsSplit(start: int, a: seq<int>, b: seq<int>)
    requires start >= 1
    ensures Sum(Terms(start, a + b)) == Sum(Terms(start, a)) + Sum(Terms(start + |a|, b))
  {
    TermsConcat(start, a, b);
    SumConcat(Terms(start, a), Terms(start + |a|, b));
  }

  /** sumTerms(start, end, pows): the terms of indices start..end added by a
      parallel stream; an empty range gives no value (null). */
  function SumTerms(start: int, end: int, pows: seq<int>): (r: Option<int>)
    requires start >= 1 && (start <= end ==> |pows| >= end - start + 1)
    ensures r.Some? <==> start <= end
  {
    if end < start then None else Some(Sum(Terms(start, pows[..end - start + 1])))
  }

  /** The parallel stream of sumTerms may split its range in any way: the
      result is the same. */
  lemma SumTermsAnyOrder(start: int, end: int, pows: seq<int>, shape: Shape)
    requires 1 <= start <= end && |pows| == end - start + 1
    ensures Reduce(Terms(start, pows), shape) == SumTerms(start, end, pows)
  {
    ReduceIsSum(Terms(start, pows), shape);
    assert pows[..end - start + 1] == pows;
  }

  /** The split point of a task: start - 1 + len / 2. Both halves are
      non-empty and together cover [start, end]. */
  function Mid(start: int, end: int): (mid: int)
    requires start < end
    ensures start <= mid < end
  {
    start - 1 + (end - start + 1) / 2
  }

  /** The power the second half of a split task starts from: firstPow
      advanced over the first half (indices start..mid). */
  function MidPow(start: int, end: int, sqr: int, firstPow: int): int
    requires start < end && sqr >= 1
  {
    Advance(firstPow, sqr, Mid(start, end) - start + 1)
  }

  /** The sum of a task small enough to run directly. */
  function LeafSum(start: int, end: int, sqr: int, firstPow: int): int
    requires 1 <= start <= end && sqr >= 1
  {
    SumTerms(start, end, Powers(end - start + 1, sqr, firstPow)).value
  }

  /** SumTask.compute(): a range of at most 3000 terms is summed directly from
      the powers getPowers builds from firstPow; a longer one is bisected, the
      second half starting from the power advanced over the first half. */
  function SumTask(start: int, end: int, sqr: int, firstPow: int): int
    requires 1 <= start <= end && sqr >= 1
    decreases end - start
  {
    if end - start + 1 <= SequentialThreshold then LeafSum(start, end, sqr, firstPow)
    else
      SumTask(start, Mid(start, end), sqr, firstPow)
        + SumTask(Mid(start, end) + 1, end, sqr, MidPow(start, end, sqr, firstPow))
  }

  /** The powers a task uses, leaf by leaf, in index order. */
  function TaskPowers(start: int, end: int, sqr: int, firstPow: int): (pows: seq<int>)
    requires 1 <= start <= end && sqr >= 1
    ensures |pows| == end - start + 1
    decreases end - start
  {
    if end - start + 1 <= SequentialThreshold then Powers(end - start + 1, sqr, firstPow)
    else
      TaskPowers(start, Mid(start, end), sqr, firstPow)
        + TaskPowers(Mid(start, end) + 1, end, sqr, MidPow(start, end, sqr, firstPow))
  }

  /** The divide-and-add recursion is the plain sum of one term per index of
      [start, end], each term the index's power divided by 2i - 1. */
  lemma {:induction false} SumTaskIsSum(start: int, end: int, sqr: int, firstPow: int)
    requires 1 <= start <= end && sqr >= 1
    ensures SumTask(start, end, sqr, firstPow) == Sum(Terms(start, TaskPowers(start, end, sqr, firstPow)))
    decreases end - start
  {
    if end - start + 1 <= SequentialThreshold {
      LeafIsSum(start, end, sqr, firstPow);
    } else {
      SumTaskIsSum(start, Mid(start, end), sqr, firstPow);
      SumTaskIsSum(Mid(start, end) + 1, end, sqr, MidPow(start, end, sqr, firstPow));
      SplitIsSum(start, end, sqr, firstPow);
    }
  }

  lemma LeafIsSum(start: int, end: int, sqr: int, firstPow: int)
    requires 1 <= start <= end && sqr >= 1 && end - start + 1 <= SequentialThreshold
    ensures SumTask(start, end, sqr, firstPow) == Sum(Terms(start, TaskPowers(start, end, sqr, firstPow)))
  {
    var pows := Powers(end - start + 1, sqr, firstPow);
    assert pows[..end - start + 1] == pows;
  }

  lemma SplitIsSum(start: int, end: int, sqr: int, firstPow: int)
    requires 1 <= start <= end && sqr >= 1 && end - start + 1 > SequentialThreshold
    requires SumTask(start, Mid(start, end), sqr, firstPow)
          == Sum(Terms(start, TaskPowers(start, Mid(start, end), sqr, firstPow)))
    requires SumTask(Mid(start, end) + 1, end, sqr, MidPow(start, end, sqr, firstPow))
          == Sum(Terms(Mid(start, end) + 1, TaskPowers(Mid(start, end) + 1, end, sqr, MidPow(start, end, sqr, firstPow))))
    ensures SumTask(start, end, sqr, firstPow) == Sum(Terms(start, TaskPowers(start, end, sqr, firstPow)))
  {
    var mid, midPow := Mid(start, end), MidPow(start, end, sqr, firstPow);
    var a := TaskPowers(start, mid, sqr, firstPow);
    var b := TaskPowers(mid + 1, end, sqr, midPow);
    TermsSplit(start, a, b);
  }

  /** Jumping and stepping can round differently: advancing over two indices
      floors once by sqr^2, where getPowers floors twice with a negation in
      between. For x = 239 at scale 10 the jump gives -733 and two steps give
      -732. The code's own jumps span at least 1500 indices; this small case
      only shows the rounding. */
  lemma SplitPowerDiffers()
    ensures Advance(Start(239, 10), Sqr(239), 2) == -733
    ensures Powers(2, Sqr(239), Start(239, 10))[1] == -732
  {
    assert Pow10(10) == 10000000000;
    assert Pow(57121, 2) == 3262808641;
    PowersStep(2, 57121, -2390000000000, 1);
  }

  /** Chunk and task boundaries never drop or add a sign flip: if firstPow has
      the sign of index start - 1, every power of the task has the sign of its
      own index. */
  lemma {:induction false} TaskPowersSign(start: int, end: int, sqr: int, firstPow: int)
    requires 1 <= start <= end && sqr >= 1 && SignFits(start - 1, firstPow)
    ensures forall k :: 0 <= k <= end - start ==> SignFits(start + k, TaskPowers(start, end, sqr, firstPow)[k])
    decreases end - start
  {
    var len := end - start + 1;
    if len <= SequentialThreshold {
      PowersSign(start - 1, len, sqr, firstPow);
    } else {
      var mid := Mid(start, end);
      var midPow := MidPow(start, end, sqr, firstPow);
      AdvanceSign(start - 1, firstPow, sqr, mid - start + 1);
      TaskPowersSign(start, mid, sqr, firstPow);
      TaskPowersSign(mid + 1, end, sqr, midPow);
      var a := TaskPowers(start, mid, sqr, firstPow);
      var b := TaskPowers(mid + 1, end, sqr, midPow);
      assert TaskPowers(start, end, sqr, firstPow) == a + b;
      forall k | 0 <= k <= end - start
        ensures SignFits(start + k, (a + b)[k])
      {
        if k >= |a| {
          assert (a + b)[k] == b[k - |a|];
        }
      }
    }
  }

  // ---------------------------------------------------------------------
  // The chunk loop

  function NumberOfChunks(n: nat): nat
    requires n >= 1
  {
    (n - 1) / ChunkSize + 1
  }

  function ChunkStart(chunk: nat): nat
  {
    chunk * ChunkSize + 1
  }

  /** The last index of a chunk: 23999 after its start, or n for the last
      chunk. A chunk is never empty and never longer than 24000. */
  function ChunkEnd(chunk: nat, n: nat): (end: nat)
    requires n >= 1 && chunk < NumberOfChunks(n)
    ensures ChunkStart(chunk) <= end <= n
    ensures end - ChunkStart(chunk) < ChunkSize
    ensures end < n ==> end == ChunkStart(chunk) + ChunkSize - 1
  {
    MulLe(chunk, (n - 1) / ChunkSize, ChunkSize);
    var last := ChunkStart(chunk) + ChunkSize - 1;
    if last < n then last else n
  }

  /** The chunks are consecutive and together cover exactly 1..n. */
  lemma ChunksPartition(n: nat)
    requires n >= 1
    ensures ChunkStart(0) == 1
    ensures ChunkEnd(NumberOfChunks(n) - 1, n) == n
    ensures forall c :: 0 <= c < NumberOfChunks(n) - 1 ==> ChunkStart(c + 1) == ChunkEnd(c, n) + 1
  {
    forall c | 0 <= c < NumberOfChunks(n) - 1
      ensures ChunkStart(c + 1) == ChunkEnd(c, n) + 1
    {
      MulLe(c + 1, (n - 1) / ChunkSize, ChunkSize);
    }
  }

  /** The number of terms of a chunk. */
  function ChunkLength(chunk: nat, n: nat): nat
    requires n >= 1 && chunk < NumberOfChunks(n)
  {
    ChunkEnd(chunk, n) - ChunkStart(chunk) + 1
  }

  /** The power just before chunk c: `first` (the unscaled -x) for the first
      chunk, and each next one the previous advanced over a whole chunk. */
  function ChunkFirstPow(chunk: nat, sqr: int, first: int, n: nat): int
    requires sqr >= 1 && n >= 1 && chunk <= NumberOfChunks(n)
  {
    if chunk == 0 then first
    else Advance(ChunkFirstPow(chunk - 1, sqr, first, n), sqr, ChunkLength(chunk - 1, n))
  }

  /** The sum chunk c contributes: its task started from the power before it. */
  function ChunkSum(chunk: nat, sqr: int, first: int, n: nat): int
    requires sqr >= 1 && n >= 1 && chunk < NumberOfChunks(n)
  {
    SumTask(ChunkStart(chunk), ChunkEnd(chunk, n), sqr, ChunkFirstPow(chunk, sqr, first, n))
  }

  /** The sums of the chunks 0, 1, ..., k - 1, in chunk order. */
  function ChunkSums(k: nat, sqr: int, first: int, n: nat): (sums: seq<int>)
    requires sqr >= 1 && n >= 1 && k <= NumberOfChunks(n)
    ensures |sums| == k
  {
    if k == 0 then [] else ChunkSums(k - 1, sqr, first, n) + [ChunkSum(k - 1, sqr, first, n)]
  }

  /** The indices the loop computes for chunk c are the chunk's bounds. */
  lemma ChunkIndices(chunk: nat, n: nat, start: int, end: int)
    requires n >= 1 && chunk < NumberOfChunks(n)
    requires start == chunk * ChunkSize + 1
    requires end == if start + ChunkSize - 1 < n then start + ChunkSize - 1 else n
    ensures start == ChunkStart(chunk) && end == ChunkEnd(chunk, n)
    ensures end - start + 1 == ChunkLength(chunk, n)
  {
  }

  /** One more round of the chunk loop: the next chunk's sum is appended and
      the power advances over the chunk. */
  lemma ChunkStep(chunk: nat, sqr: int, first: int, n: nat)
    requires sqr >= 1 && n >= 1 && chunk < NumberOfChunks(n)
    ensures ChunkSums(chunk + 1, sqr, first, n)
         == ChunkSums(chunk, sqr, first, n)
            + [SumTask(ChunkStart(chunk), ChunkEnd(chunk, n), sqr, ChunkFirstPow(chunk, sqr, first, n))]
    ensures ChunkFirstPow(chunk + 1, sqr, first, n)
         == Advance(ChunkFirstPow(chunk, sqr, first, n), sqr, ChunkLength(chunk, n))
  {
  }

  /** The loop's round for chunk c appends the chunk's sum and advances the
      power over the chunk. */
  lemma ChunkRound(chunk: nat, sqr: int, first: int, n: nat, sums: seq<int>, pow: int, start: int, end: int, factor: int)
    requires sqr >= 1 && n >= 1 && chunk < NumberOfChunks(n)
    requires sums == ChunkSums(chunk, sqr, first, n) && pow == ChunkFirstPow(chunk, sqr, first, n)
    requires start == chunk * ChunkSize + 1
    requires end == if start + ChunkSize - 1 < n then start + ChunkSize - 1 else n
    requires factor == Pow(sqr, end - start + 1)
    ensures 1 <= start <= end && factor >= 1
    ensures sums + [SumTask(start, end, sqr, pow)] == ChunkSums(chunk + 1, sqr, first, n)
    ensures (if (end - start + 1) % 2 != 0 then -FloorDiv(pow, factor) else FloorDiv(pow, factor))
         == ChunkFirstPow(chunk + 1, sqr, first, n)
  {
    ChunkIndices(chunk, n, start, end);
    ChunkStep(chunk, sqr, first, n);
    PowPositive(sqr, end - start + 1);
  }

  /** Every chunk starts from a power with the sign of the index before it. */
  lemma {:induction false} ChunkFirstPowSign(chunk: nat, sqr: int, first: int, n: nat)
    requires sqr >= 1 && first <= 0 && n >= 1 && chunk < NumberOfChunks(n)
    ensures SignFits(ChunkStart(chunk) - 1, ChunkFirstPow(chunk, sqr, first, n))
  {
    if chunk > 0 {
      var c := chunk - 1;
      ChunkFirstPowSign(c, sqr, first, n);
      ChunksPartition(n);
      AdvanceSign(ChunkStart(c) - 1, ChunkFirstPow(c, sqr, first, n), sqr, ChunkLength(c, n));
    }
  }

  /** The powers of indices 1, 2, ... that the chunks 0, 1, ..., k - 1 use,
      one after the other. */
  function SeriesPowers(k: nat, sqr: int, first: int, n: nat): seq<int>
    requires sqr >= 1 && n >= 1 && k <= NumberOfChunks(n)
  {
    if k == 0 then []
    else
      SeriesPowers(k - 1, sqr, first, n)
        + TaskPowers(ChunkStart(k - 1), ChunkEnd(k - 1, n), sqr, ChunkFirstPow(k - 1, sqr, first, n))
  }

  /** The chunk sums add up to one term per index 1..ChunkEnd(k - 1), each
      index's power divided by 2i - 1. */
  lemma {:induction false} ChunkSumsAreSeries(k: nat, sqr: int, first: int, n: nat)
    requires sqr >= 1 && n >= 1 && k <= NumberOfChunks(n)
    ensures |SeriesPowers(k, sqr, first, n)| == if k == 0 then 0 else ChunkEnd(k - 1, n)
    ensures Sum(ChunkSums(k, sqr, first, n)) == Sum(Terms(1, SeriesPowers(k, sqr, first, n)))
  {
    if k > 0 {
      var c := k - 1;
      ChunkSumsAreSeries(c, sqr, first, n);
      ChunksPartition(n);
      var start, end, pow := ChunkStart(c), ChunkEnd(c, n), ChunkFirstPow(c, sqr, first, n);
      var before := SeriesPowers(c, sqr, first, n);
      var task := TaskPowers(start, end, sqr, pow);
      assert |before| == start - 1;
      var sums, last := ChunkSums(c, sqr, first, n), ChunkSum(c, sqr, first, n);
      assert ChunkSums(k, sqr, first, n) == sums + [last];
      assert SeriesPowers(k, sqr, first, n) == before + task;
      calc {
        Sum(sums + [last]);
        { SumConcat(sums, [last]); assert Sum([last]) == last + Sum([]); }
        Sum(Terms(1, before)) + last;
        { SumTaskIsSum(start, end, sqr, pow); }
        Sum(Terms(1, before)) + Sum(Terms(start, task));
        { SumConcat(Terms(1, before), Terms(start, task)); }
        Sum(Terms(1, before) + Terms(start, task));
        { TermsConcat(1, before, task); }
        Sum(Terms(1, before + task));
      }
    }
  }

  /** Starting from a non-positive power, the powers alternate in sign: the
      power of index i is non-negative when i is odd, non-positive when even. */
  lemma {:induction false} SeriesPowersSign(k: nat, sqr: int, first: int, n: nat)
    requires sqr >= 1 && first <= 0 && n >= 1 && k <= NumberOfChunks(n)
    ensures forall j :: 0 <= j < |SeriesPowers(k, sqr, first, n)| ==>
              SignFits(1 + j, SeriesPowers(k, sqr, first, n)[j])
  {
    if k > 0 {
      var c := k - 1;
      SeriesPowersSign(c, sqr, first, n);
      ChunkSumsAreSeries(c, sqr, first, n);
      ChunksPartition(n);
      var start, end, pow := ChunkStart(c), ChunkEnd(c, n), ChunkFirstPow(c, sqr, first, n);
      var before := SeriesPowers(c, sqr, first, n);
      var task := TaskPowers(start, end, sqr, pow);
      ChunkFirstPowSign(c, sqr, first, n);
      TaskPowersSign(start, end, sqr, pow);
      forall j | 0 <= j < |before + task|
        ensures SignFits(1 + j, (before + task)[j])
      {
        if j >= |before| {
          assert (before + task)[j] == task[j - |before|];
        } else {
          assert (before + task)[j] == before[j];
        }
      }
    }
  }

  /** The first power of a task is firstPow divided by sqr and negated. */
  lemma {:induction false} TaskPowersFirst(start: int, end: int, sqr: int, firstPow: int)
    requires 1 <= start <= end && sqr >= 1
    ensures TaskPowers(start, end, sqr, firstPow)[0] == -FloorDiv(firstPow, sqr)
    decreases end - start
  {
    if end - start + 1 > SequentialThreshold {
      TaskPowersFirst(start, Mid(start, end), sqr, firstPow);
    }
  }

  /** The first power of the whole series is the start divided by sqr and
      negated. */
  lemma {:induction false} SeriesPowersFirst(k: nat, sqr: int, first: int, n: nat)
    requires sqr >= 1 && n >= 1 && 1 <= k <= NumberOfChunks(n)
    ensures |SeriesPowers(k, sqr, first, n)| >= 1
    ensures SeriesPowers(k, sqr, first, n)[0] == -FloorDiv(first, sqr)
  {
    if k == 1 {
      var t := TaskPowers(ChunkStart(0), ChunkEnd(0, n), sqr, first);
      assert SeriesPowers(1, sqr, first, n) == [] + t;
      TaskPowersFirst(ChunkStart(0), ChunkEnd(0, n), sqr, first);
    } else {
      SeriesPowersFirst(k - 1, sqr, first, n);
      var before := SeriesPowers(k - 1, sqr, first, n);
      assert SeriesPowers(k, sqr, first, n)[0] == before[0];
    }
  }

  /** The start value -x and the square x^2 of arctanRecip(x, n), unscaled at
      scale `precision`. */
  function Start(x: nat, precision: nat): int
  {
    -(x as int) * Pow10(precision)
  }

  function Sqr(x: nat): (sqr: int)
    requires x >= 1
    ensures sqr >= 1
  {
    MulPositive(x, x);
    x * x
  }

  /** The series starts from -x, so its first power is -floor(-x / x^2), the
      CEILING of 1/x at scale P, where the sequential Machin calculator uses the
      floor; the two agree exactly when x divides 10^P. */
  lemma FirstPowerIsCeiling(x: nat, n: nat, precision: nat)
    requires x >= 1 && n >= 1
    ensures var pows := SeriesPowers(NumberOfChunks(n), Sqr(x), Start(x, precision), n);
      && |pows| == n
      && pows[0] == -FloorDiv(-(Pow10(precision) as int), x)
      && (Pow10(precision) % x == 0 ==> pows[0] == FloorDiv(Pow10(precision), x))
      && (Pow10(precision) % x != 0 ==> pows[0] == FloorDiv(Pow10(precision), x) + 1)
  {
    var sqr, first := Sqr(x), Start(x, precision);
    var ten: int := Pow10(precision);
    ChunkSumsAreSeries(NumberOfChunks(n), sqr, first, n);
    ChunksPartition(n);
    SeriesPowersFirst(NumberOfChunks(n), sqr, first, n);
    FloorDivCancel(-ten, x, x);
    assert first == -ten * x;
    CeilingOfQuotient(ten, x);
  }

  /** -floor(-a / b) is floor(a / b) when b divides a, and one more otherwise. */
  lemma CeilingOfQuotient(a: int, b: int)
    requires b >= 1
    ensures a % b == 0 ==> -FloorDiv(-a, b) == FloorDiv(a, b)
    ensures a % b != 0 ==> -FloorDiv(-a, b) == FloorDiv(a, b) + 1
  {
    var q := a / b;
    assert a == q * b + a % b;
    FloorDivUnique(a, b, q);
    if a % b == 0 {
      FloorDivUnique(-a, b, -q);
    } else {
      FloorDivUnique(-a, b, -q - 1);
    }
  }

  /** The source starts from -x at scale 0; dividing it by any integer k at
      scale P gives what dividing -x * 10^P at scale P does, which is why every
      power is modelled by its unscaled integer at scale P. */
  lemma ScaledStart(x: nat, k: int, precision: nat)
    requires k != 0
    ensures Divide(Dec(-(x as int), 0), Dec(k, 0), precision, Floor)
         == Divide(Dec(Start(x, precision), precision), Dec(k, 0), precision, Floor)
    ensures Divide(Dec(-(x as int), 0), Dec(k, 0), precision, Floor)
         == Dec(FloorDiv(Start(x, precision), k), precision)
  {
    DivideScaledInteger(-(x as int), k, precision, Floor);
    DivideAtScale(Start(x, precision), k, precision, Floor);
  }

  /** What arctanRecip(x, n) returns, unscaled at scale P: floor(10^P / x)
      when n is 0, otherwise the sum of the chunk sums. */
  function ArctanValue(calculator: PiCalc.Calculator, x: nat, n: nat): int
    requires x >= 1
  {
    var precision := calculator.decimalDigits + 10;
    if n == 0 then FloorDiv(Pow10(precision), x)
    else Sum(ChunkSums(NumberOfChunks(n), Sqr(x), Start(x, precision), n))
  }

  /** arctanRecip(x, n): with no terms, floor(10^P / x); otherwise the chunk
      loop, followed by the sum of the chunk sums (by a parallel stream split
      as `shape` says above 24 chunks, sequentially otherwise). */
  method ArctanRecip(calculator: PiCalc.Calculator, x: nat, n: nat, shape: Shape) returns (r: int)
    requires x >= 1
    ensures r == ArctanValue(calculator, x, n)
  {
    var precision := calculator.decimalDigits + 10;
    var pow := FloorDiv(Pow10(precision), x);
    if n == 0 {
      return pow;
    }
    var chunkSize := ChunkSize;
    var numberOfChunks := (n - 1) / chunkSize + 1;
    var sqr := Sqr(x);
    var sqrPowChunkSize := Pow(sqr, chunkSize);
    var firstPow := Start(x, precision);
    ghost var first := firstPow;
    var chunkSums: seq<int> := [];
    for chunk := 0 to numberOfChunks
      invariant chunkSums == ChunkSums(chunk, sqr, first, n)
      invariant firstPow == ChunkFirstPow(chunk, sqr, first, n)
    {
      var start := chunk * chunkSize + 1;
      var end := if start + chunkSize - 1 < n then start + chunkSize - 1 else n;
      var dist := end - start + 1;
      var nextPowFactor := if dist == chunkSize then sqrPowChunkSize else Pow(sqr, dist);
      ChunkRound(chunk, sqr, first, n, chunkSums, firstPow, start, end, nextPowFactor);
      chunkSums := chunkSums + [SumTask(start, end, sqr, firstPow)];
      firstPow := FloorDiv(firstPow, nextPowFactor);
      if dist % 2 != 0 {
        firstPow := -firstPow;
      }
    }
    if numberOfChunks > ParallelChunks {
      r := ReduceFromZero(chunkSums, shape);
      ReduceFromZeroIsSum(chunkSums, shape);
    } else {
      r := FoldLeft(0, chunkSums);
      FoldLeftIsSum(0, chunkSums);
    }
  }

  /** For n >= 1, arctanRecip(x, n) is the sum over i = 1..n of
      floor(pow_i / (2i - 1)), the powers alternating in sign from a
      non-negative first one. */
  lemma ArctanIsSeries(calculator: PiCalc.Calculator, x: nat, n: nat)
    requires x >= 1 && n >= 1
    ensures var pows := SeriesPowers(NumberOfChunks(n), Sqr(x), Start(x, calculator.decimalDigits + 10), n);
      && |pows| == n
      && ArctanValue(calculator, x, n) == Sum(Terms(1, pows))
      && forall j :: 0 <= j < n ==> SignFits(1 + j, pows[j])
  {
    var precision := calculator.decimalDigits + 10;
    ChunksPartition(n);
    ChunkSumsAreSeries(NumberOfChunks(n), Sqr(x), Start(x, precision), n);
    SeriesPowersSign(NumberOfChunks(n), Sqr(x), Start(x, precision), n);
  }

  /** The exact value of computeImpl(), at scale P. */
  function ImplValue(calculator: PiCalc.Calculator, n5: nat, n239: nat): Dec
  {
    Dec(4 * (4 * ArctanValue(calculator, 5, n5) - ArctanValue(calculator, 239, n239)),
        calculator.decimalDigits + 10)
  }

  /** computeImpl(): 4 * (4 * arctan(1/5) - arctan(1/239)) exactly, whatever
      way the two chunk-sum reductions are split. */
  method ComputeImpl(calculator: PiCalc.Calculator, ceiling5: nat, ceiling239: nat, shape5: Shape, shape239: Shape)
    returns (r: Dec)
    ensures r == ImplValue(calculator, Machin.NumberOfTerms(ceiling5), Machin.NumberOfTerms(ceiling239))
    ensures r.scale == calculator.decimalDigits + 10
  {
    var precision := calculator.decimalDigits + 10;
    var bd4 := Dec(4, 0);
    var term1 := ArctanRecip(calculator, 5, Machin.NumberOfTerms(ceiling5), shape5);
    var term2 := ArctanRecip(calculator, 239, Machin.NumberOfTerms(ceiling239), shape239);
    assert Pow10(0) == 1;
    r := Multiply(bd4, Subtract(Multiply(bd4, Dec(term1, precision)), Dec(term2, precision)));
  }

  /** compute(): computeImpl() floored to decimalDigits digits. */
  method Compute(calculator: PiCalc.Calculator, ceiling5: nat, ceiling239: nat, shape5: Shape, shape239: Shape)
    returns (r: Dec)
    ensures r == PiCalc.Compute(calculator, ImplValue(calculator, Machin.NumberOfTerms(ceiling5), Machin.NumberOfTerms(ceiling239)))
    ensures r.scale == calculator.decimalDigits
  {
    var impl := ComputeImpl(calculator, ceiling5, ceiling239, shape5, shape239);
    r := PiCalc.Compute(calculator, impl);
  }
}
