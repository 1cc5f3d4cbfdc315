/** Integer aggregates of timing samples and the packed record of lifecycle outcomes. */
module Measurement {
  import opened Common

  // ---- sorting ----

  predicate Ordered(values: seq<int>) {
    forall i, j :: 0 <= i < j < |values| ==> values[i] <= values[j]
  }

  function Insert(x: int, values: seq<int>): (r: seq<int>) {
    if values == [] || x <= values[0] then [x] + values else [values[0]] + Insert(x, values[1..])
  }

  function Sort(values: seq<int>): (r: seq<int>) {
    if values == [] then [] else Insert(values[0], Sort(values[1..]))
  }

  predicate AllAtLeast(values: seq<int>, low: int) {
    forall i :: 0 <= i < |values| ==> low <= values[i]
  }

  lemma {:induction false} FrontOrdered(first: int, rest: seq<int>)
    ensures Ordered([first] + rest) <==> Ordered(rest) && AllAtLeast(rest, first)
  {
    var values := [first] + rest;
    if Ordered(values) {
      forall i, j | 0 <= i < j < |rest| ensures rest[i] <= rest[j] {
        assert values[i + 1] <= values[j + 1];
      }
      forall i | 0 <= i < |rest| ensures first <= rest[i] {
        assert values[0] <= values[i + 1];
      }
    }
  }

  lemma {:induction false} InsertAtLeast(x: int, values: seq<int>, low: int)
    requires low <= x && AllAtLeast(values, low)
    ensures AllAtLeast(Insert(x, values), low)
  {
    if values != [] && x > values[0] {
      InsertAtLeast(x, values[1..], low);
    }
  }

  lemma {:induction false} InsertOrdered(x: int, values: seq<int>)
    requires Ordered(values)
    ensures Ordered(Insert(x, values))
  {
    if values != [] {
      assert values == [values[0]] + values[1..];
      FrontOrdered(values[0], values[1..]);
      if x <= values[0] {
        FrontOrdered(x, values);
      } else {
        hide Ordered;
        InsertOrdered(x, values[1..]);
        InsertAtLeast(x, values[1..], values[0]);
        FrontOrdered(values[0], Insert(x, values[1..]));
      }
    }
  }

  lemma {:induction false} InsertAdds(x: int, values: seq<int>)
    ensures multiset(Insert(x, values)) == multiset{x} + multiset(values)
  {
    if values != [] && x > values[0] {
      InsertAdds(x, values[1..]);
      assert values == [values[0]] + values[1..];
    }
  }

  lemma {:induction false} SortOrders(values: seq<int>)
    ensures Ordered(Sort(values)) && multiset(Sort(values)) == multiset(values)
  {
    if values != [] {
      SortOrders(values[1..]);
      InsertOrdered(values[0], Sort(values[1..]));
      InsertAdds(values[0], Sort(values[1..]));
      assert values == [values[0]] + values[1..];
    }
  }

  /** There is one ordered arrangement of the same values. */
  lemma {:induction false} OrderedUnique(a: seq<int>, b: seq<int>)
    requires Ordered(a) && Ordered(b) && multiset(a) == multiset(b)
    ensures a == b
  {
    SameSize(a, b);
    if a != [] {
      assert a == [a[0]] + a[1..] && b == [b[0]] + b[1..];
      LeastFirst(a, b);
      LeastFirst(b, a);
      MultisetMatch(a, b, 0);
      assert b[..0] + b[1..] == b[1..];
      FrontOrdered(a[0], a[1..]);
      FrontOrdered(b[0], b[1..]);
      hide Ordered;
      OrderedUnique(a[1..], b[1..]);
    }
  }

  lemma {:induction false} SameSize(a: seq<int>, b: seq<int>)
    requires multiset(a) == multiset(b)
    ensures |a| == |b|
  {
    assert |multiset(a)| == |multiset(b)|;
  }

  lemma {:induction false} LeastFirst(a: seq<int>, b: seq<int>)
    requires Ordered(a) && multiset(a) == multiset(b) && a != [] && b != []
    ensures a[0] <= b[0]
  {
    assert b[0] in multiset(b);
    assert b[0] in a;
  }

  /** Sorting forgets the order of its input. */
  lemma {:induction false} SortPermutes(a: seq<int>, b: seq<int>)
    requires multiset(a) == multiset(b)
    ensures Sort(a) == Sort(b)
  {
    SortOrders(a);
    SortOrders(b);
    OrderedUnique(Sort(a), Sort(b));
  }

  // ---- aggregates ----

  const MAX_SAMPLE_NS := 600_000_000_000

  datatype Summary = Summary(count: int, median: int, p95: int, samples: seq<int>)

  datatype SampleError = CountBoundInvalid | InventoryInvalid

  predicate SamplesValid(samples: seq<int>) {
    forall i :: 0 <= i < |samples| ==> 0 < samples[i] <= MAX_SAMPLE_NS
  }

  lemma {:induction false} SortSize(values: seq<int>)
    ensures |Sort(values)| == |values|
  {
    SortOrders(values);
    assert |multiset(Sort(values))| == |multiset(values)|;
  }

  /** `summarize_samples`. */
  function SummarizeSamples(samples: seq<int>, expected: int): (r: Result<Summary, SampleError>) {
    if expected <= 0 then Err(CountBoundInvalid)
    else if |samples| != expected || !SamplesValid(samples) then Err(InventoryInvalid)
    else
      SortSize(samples);
      var values := Sort(samples);
      var middle := expected / 2;
      var median := if expected % 2 == 1 then values[middle] else (values[middle - 1] + values[middle]) / 2;
      var rank := (95 * expected + 99) / 100;
      Ok(Summary(expected, median, values[rank - 1], values))
  }

  /** The verifier's own `summarize`, over exactly one hundred samples. */
  function VerifierSummarize(values: seq<int>): (r: Option<Summary>) {
    if |values| != 100 || !(forall i :: 0 <= i < |values| ==> values[i] > 0) then None
    else
      SortSize(values);
      var ordered := Sort(values);
      Some(Summary(100, (ordered[49] + ordered[50]) / 2, ordered[94], ordered))
  }

  /** The two derivations agree on a hundred samples exactly when none exceeds the producer's bound. */
  lemma {:induction false} SummariesAgree(samples: seq<int>)
    requires |samples| == 100
    ensures SummarizeSamples(samples, 100).Ok? ==> VerifierSummarize(samples) == Some(SummarizeSamples(samples, 100).value)
    ensures VerifierSummarize(samples).Some? ==>
              (SummarizeSamples(samples, 100).Ok? <==> forall i :: 0 <= i < |samples| ==> samples[i] <= 600 * 1_000_000_000)
  {
    hide Sort;
    SortSize(samples);
  }

  /** A summary is made exactly of the expected positive number of samples, each positive and at most ten minutes. */
  lemma {:induction false} SummaryExists(samples: seq<int>, expected: int)
    ensures SummarizeSamples(samples, expected).Ok?
       <==> expected > 0 && |samples| == expected && forall i :: 0 <= i < |samples| ==> 0 < samples[i] <= 600 * 1_000_000_000
    ensures SummarizeSamples(samples, expected).Ok? ==>
              var r := SummarizeSamples(samples, expected).value;
              r.count == expected && Ordered(r.samples) && multiset(r.samples) == multiset(samples)
  {
    hide Sort;
    SortOrders(samples);
    SortSize(samples);
  }

  lemma {:induction false} SummaryPermutes(a: seq<int>, b: seq<int>, expected: int)
    requires multiset(a) == multiset(b)
    ensures SummarizeSamples(a, expected) == SummarizeSamples(b, expected)
    ensures VerifierSummarize(a) == VerifierSummarize(b)
  {
    hide Sort;
    SortPermutes(a, b);
    assert |a| == |multiset(a)| == |multiset(b)| == |b|;
    forall i | 0 <= i < |a| ensures a[i] in b {
      assert a[i] in multiset(b);
    }
    forall i | 0 <= i < |b| ensures b[i] in a {
      assert b[i] in multiset(a);
    }
  }

  // ---- what the percentile means ----

  function AtMost(values: seq<int>, x: int): (r: nat) {
    if values == [] then 0 else (if values[0] <= x then 1 else 0) + AtMost(values[1..], x)
  }

  function Below(values: seq<int>, x: int): (r: nat) {
    if values == [] then 0 else (if values[0] < x then 1 else 0) + Below(values[1..], x)
  }

  lemma {:induction false} InsertCounts(y: int, values: seq<int>, x: int)
    ensures AtMost(Insert(y, values), x) == AtMost(values, x) + (if y <= x then 1 else 0)
    ensures Below(Insert(y, values), x) == Below(values, x) + (if y < x then 1 else 0)
  {
    if values == [] || y <= values[0] {
      assert ([y] + values)[1..] == values;
    } else {
      InsertCounts(y, values[1..], x);
      assert ([values[0]] + Insert(y, values[1..]))[1..] == Insert(y, values[1..]);
    }
  }

  lemma {:induction false} SortCounts(values: seq<int>, x: int)
    ensures AtMost(Sort(values), x) == AtMost(values, x) && Below(Sort(values), x) == Below(values, x)
  {
    if values != [] {
      SortCounts(values[1..], x);
      InsertCounts(values[0], Sort(values[1..]), x);
    }
  }

  /** In order, the values at most `x` fill an initial stretch, and so do the values below it. */
  lemma {:induction false} OrderedCounts(values: seq<int>, x: int, k: nat)
    requires Ordered(values) && k < |values|
    ensures AtMost(values, x) > k <==> values[k] <= x
    ensures Below(values, x) > k <==> values[k] < x
  {
    if k == 0 {
      if values[0] > x {
        NoneBelow(values[1..], x);
      } else if values[0] == x {
        NoneBelowEqual(values[1..], x);
      }
    } else {
      OrderedCounts(values[1..], x, k - 1);
      assert values[1..][k - 1] == values[k];
      if values[0] >= x {
        NoneBelowEqual(values[1..], x);
      }
      if values[0] > x {
        NoneBelow(values[1..], x);
      }
    }
  }

  lemma {:induction false} NoneBelow(values: seq<int>, x: int)
    requires forall i :: 0 <= i < |values| ==> values[i] > x
    ensures AtMost(values, x) == 0 && Below(values, x) == 0
  {
    if values != [] {
      NoneBelow(values[1..], x);
    }
  }

  lemma {:induction false} NoneBelowEqual(values: seq<int>, x: int)
    requires forall i :: 0 <= i < |values| ==> values[i] >= x
    ensures Below(values, x) == 0
  {
    if values != [] {
      NoneBelowEqual(values[1..], x);
    }
  }

  /** The percentile is the one number that 95% of the samples reach at most and fewer than 95% stay below. */
  lemma {:induction false} PercentileExact(samples: seq<int>, expected: int, x: int)
    requires SummarizeSamples(samples, expected).Ok?
    ensures x == SummarizeSamples(samples, expected).value.p95
       <==> 100 * AtMost(samples, x) >= 95 * expected && 100 * Below(samples, x) < 95 * expected
  {
    hide Sort;
    SortOrders(samples);
    SortSize(samples);
    SortCounts(samples, x);
    var values, rank := Sort(samples), (95 * expected + 99) / 100;
    OrderedCounts(values, x, rank - 1);
    RankBounds(expected, AtMost(samples, x));
    RankBounds(expected, Below(samples, x));
  }

  lemma {:induction false} RankBounds(expected: int, count: int)
    requires expected > 0
    ensures 1 <= (95 * expected + 99) / 100 <= expected
    ensures 100 * count >= 95 * expected <==> count > (95 * expected + 99) / 100 - 1
  {
  }

  /** The least number that at least half of the samples do not exceed. */
  predicate LowerMedian(samples: seq<int>, x: int) {
    2 * AtMost(samples, x) >= |samples| && 2 * Below(samples, x) < |samples|
  }

  /** The greatest number that at most half of the samples stay below. */
  predicate UpperMedian(samples: seq<int>, x: int) {
    2 * AtMost(samples, x) > |samples| && 2 * Below(samples, x) <= |samples|
  }

  lemma {:induction false} MedianBetween(samples: seq<int>, expected: int, lower: int, upper: int)
    requires SummarizeSamples(samples, expected).Ok? && LowerMedian(samples, lower) && UpperMedian(samples, upper)
    ensures SummarizeSamples(samples, expected).value.median == (lower + upper) / 2
  {
    hide Sort;
    SortOrders(samples);
    SortSize(samples);
    var values := Sort(samples);
    SortCounts(samples, lower);
    SortCounts(samples, upper);
    OrderedCounts(values, lower, (expected - 1) / 2);
    OrderedCounts(values, upper, expected / 2);
  }

  /** Both medians exist. */
  lemma {:induction false} MediansExist(samples: seq<int>) returns (lower: int, upper: int)
    requires samples != []
    ensures LowerMedian(samples, lower) && UpperMedian(samples, upper)
  {
    hide Sort;
    SortOrders(samples);
    SortSize(samples);
    var values, n := Sort(samples), |samples|;
    lower, upper := values[(n - 1) / 2], values[n / 2];
    SortCounts(samples, lower);
    SortCounts(samples, upper);
    OrderedCounts(values, lower, (n - 1) / 2);
    OrderedCounts(values, upper, n / 2);
  }

  /** A number is the median if and only if it is the rounded-down midpoint of a lower and an upper median. */
  lemma {:induction false} MedianExact(samples: seq<int>, expected: int, m: int)
    requires SummarizeSamples(samples, expected).Ok?
    ensures m == SummarizeSamples(samples, expected).value.median
       <==> exists lower, upper :: LowerMedian(samples, lower) && UpperMedian(samples, upper) && m == (lower + upper) / 2
  {
    hide LowerMedian, UpperMedian, Sort;
    var lower, upper := MediansExist(samples);
    MedianBetween(samples, expected, lower, upper);
    forall a, b | LowerMedian(samples, a) && UpperMedian(samples, b)
      ensures SummarizeSamples(samples, expected).value.median == (a + b) / 2
    {
      MedianBetween(samples, expected, a, b);
    }
  }

  // ---- lifecycle outcomes ----

  /** Bit `k` of an octet. */
  function Mask(k: nat): (r: bv8)
    requires k < 8
  {
    if k == 0 then 0x01 else if k == 1 then 0x02 else if k == 2 then 0x04 else if k == 3 then 0x08
    else if k == 4 then 0x10 else if k == 5 then 0x20 else if k == 6 then 0x40 else 0x80
  }

  /** The `unused` highest bits of an octet. */
  function PaddingMask(unused: nat): (r: bv8)
    requires unused < 8
  {
    if unused == 0 then 0x00 else if unused == 1 then 0x80 else if unused == 2 then 0xC0 else if unused == 3 then 0xE0
    else if unused == 4 then 0xF0 else if unused == 5 then 0xF8 else if unused == 6 then 0xFC else 0xFE
  }

  predicate BitAt(bits: seq<bv8>, index: nat)
    requires index < 8 * |bits|
  {
    bits[index / 8] & Mask(index % 8) != 0
  }

  lemma {:induction false} OrMask(b: bv8, k: nat, j: nat)
    requires k < 8 && j < 8
    ensures (b | Mask(k)) & Mask(j) != 0 <==> j == k || b & Mask(j) != 0
  {
  }

  lemma {:induction false} PaddingClear(b: bv8, unused: nat)
    requires unused < 8 && forall j: nat :: 8 - unused <= j < 8 ==> b & Mask(j) == 0
    ensures b & PaddingMask(unused) == 0
  {
    var clear := (j: nat) requires j < 8 => b & Mask(j) == 0;
    assert unused >= 1 ==> clear(7);
    assert unused >= 2 ==> clear(6);
    assert unused >= 3 ==> clear(5);
    assert unused >= 4 ==> clear(4);
    assert unused >= 5 ==> clear(3);
    assert unused >= 6 ==> clear(2);
    assert unused >= 7 ==> clear(1);
  }

  /** An outcome: passed, or a failure code. */
  type Outcome = Option<string>

  datatype Failure = Failure(code: string, iteration: nat)

  datatype Lifecycle = Lifecycle(bits: seq<bv8>, firstFailure: Option<Failure>, count: int, passed: nat)

  datatype LifecycleError = BoundInvalid | CountInvalid | CodeUnknown | PaddingNotZero

  const FAILURE_CODES: set<string> :=
    { "create-failed", "failure-injection-failed", "request-released", "cleanup-failed", "resource-survived", "observation-invalid" }

  function PassedCount(outcomes: seq<Outcome>): (r: nat) {
    if outcomes == [] then 0 else PassedCount(outcomes[..|outcomes| - 1]) + if outcomes[|outcomes| - 1].None? then 1 else 0
  }

  /** The least failing iteration. */
  predicate IsFirstFailure(outcomes: seq<Outcome>, first: Option<Failure>) {
    match first
    case None => forall i :: 0 <= i < |outcomes| ==> outcomes[i].None?
    case Some(f) =>
      f.iteration < |outcomes| && outcomes[f.iteration] == Some(f.code)
      && forall i :: 0 <= i < f.iteration ==> outcomes[i].None?
  }

  /** Bit `i` is set exactly for a passed iteration `i` below the bound. */
  predicate BitsShow(bits: seq<bv8>, outcomes: seq<Outcome>) {
    forall i :: 0 <= i < 8 * |bits| ==> (BitAt(bits, i) <==> i < |outcomes| && outcomes[i].None?)
  }

  predicate Observes(outcomes: seq<Outcome>, o: Lifecycle) {
    && o.count == |outcomes|
    && |o.bits| == (|outcomes| + 7) / 8
    && BitsShow(o.bits, outcomes)
    && o.passed == PassedCount(outcomes)
    && IsFirstFailure(outcomes, o.firstFailure)
  }

  predicate CodesKnown(outcomes: seq<Outcome>) {
    forall i :: 0 <= i < |outcomes| && outcomes[i].Some? ==> outcomes[i].value in FAILURE_CODES
  }

  /** `lifecycle_observation`. */
  method LifecycleObservation(outcomes: seq<Outcome>, expected: int) returns (r: Result<Lifecycle, LifecycleError>)
    ensures expected <= 0 ==> r == Err(BoundInvalid)
    ensures expected > 0 && |outcomes| != expected ==> r == Err(CountInvalid)
    ensures expected > 0 && |outcomes| == expected && !CodesKnown(outcomes) ==> r == Err(CodeUnknown)
    ensures expected > 0 && |outcomes| == expected && CodesKnown(outcomes) ==> r.Ok? && Observes(outcomes, r.value)
  {
    hide Mask, PaddingMask, BitsShow, PassedCount, IsFirstFailure, FAILURE_CODES;
    if expected <= 0 {
      return Err(BoundInvalid);
    }
    if |outcomes| != expected {
      return Err(CountInvalid);
    }
    var size := (expected + 7) / 8;
    var bits := new bv8[size](_ => 0);
    var first: Option<Failure> := None;
    var passed := 0;
    var index := 0;
    NothingShown(bits[..], outcomes);
    while index < expected
      invariant 0 <= index <= expected && bits.Length == size
      invariant BitsShow(bits[..], outcomes[..index])
      invariant passed == PassedCount(outcomes[..index])
      invariant IsFirstFailure(outcomes[..index], first)
      invariant CodesKnown(outcomes[..index])
    {
      ghost var before := bits[..];
      PassedStep(outcomes, index);
      FailureStep(outcomes, index, first);
      if outcomes[index].None? {
        bits[index / 8] := bits[index / 8] | Mask(index % 8);
        SetShows(before, bits[..], outcomes, index);
        passed := passed + 1;
      } else if outcomes[index].value !in FAILURE_CODES {
        return Err(CodeUnknown);
      } else {
        SkipShows(before, outcomes, index);
        if first.None? {
          first := Some(Failure(outcomes[index].value, index));
        }
      }
      index := index + 1;
    }
    assert outcomes[..index] == outcomes;
    var unused := size * 8 - expected;
    PaddingShown(bits[..], outcomes);
    r := if unused != 0 && bits[size - 1] & PaddingMask(unused) != 0 then Err(PaddingNotZero)
         else Ok(Lifecycle(bits[..], first, expected, passed));
  }

  /** The record and the counters before the first iteration. */
  lemma {:induction false} NothingShown(bits: seq<bv8>, outcomes: seq<Outcome>)
    requires forall i :: 0 <= i < |bits| ==> bits[i] == 0
    ensures BitsShow(bits, outcomes[..0]) && PassedCount(outcomes[..0]) == 0 && IsFirstFailure(outcomes[..0], None)
  {
    forall i | 0 <= i < 8 * |bits| ensures !BitAt(bits, i) {
      assert bits[i / 8] == 0;
    }
  }

  lemma {:induction false} FailureStep(outcomes: seq<Outcome>, index: nat, first: Option<Failure>)
    requires index < |outcomes| && IsFirstFailure(outcomes[..index], first)
    ensures IsFirstFailure(
              outcomes[..index + 1],
              if outcomes[index].Some? && first.None? then Some(Failure(outcomes[index].value, index)) else first)
  {
  }

  lemma {:induction false} SetShows(before: seq<bv8>, after: seq<bv8>, outcomes: seq<Outcome>, index: nat)
    requires index < |outcomes| && |before| == (|outcomes| + 7) / 8 && outcomes[index].None?
    requires after == before[index / 8 := before[index / 8] | Mask(index % 8)]
    requires BitsShow(before, outcomes[..index])
    ensures BitsShow(after, outcomes[..index + 1])
  {
    hide Mask;
    forall i | 0 <= i < 8 * |after| ensures BitAt(after, i) <==> i < index + 1 && outcomes[i].None? {
      assert BitAt(before, i) <==> i < index && outcomes[i].None?;
      if i / 8 == index / 8 {
        OrMask(before[index / 8], index % 8, i % 8);
      }
    }
  }

  lemma {:induction false} SkipShows(bits: seq<bv8>, outcomes: seq<Outcome>, index: nat)
    requires index < |outcomes| && outcomes[index].Some? && BitsShow(bits, outcomes[..index])
    ensures BitsShow(bits, outcomes[..index + 1])
  {
    hide Mask;
    forall i | 0 <= i < 8 * |bits| ensures BitAt(bits, i) <==> i < index + 1 && outcomes[i].None? {
      assert BitAt(bits, i) <==> i < index && outcomes[i].None?;
    }
  }

  lemma {:induction false} PaddingShown(bits: seq<bv8>, outcomes: seq<Outcome>)
    requires outcomes != [] && |bits| == (|outcomes| + 7) / 8 && BitsShow(bits, outcomes)
    ensures bits[|bits| - 1] & PaddingMask(|bits| * 8 - |outcomes|) == 0
  {
    hide Mask;
    var last, unused := |bits| - 1, |bits| * 8 - |outcomes|;
    forall j: nat | 8 - unused <= j < 8 ensures bits[last] & Mask(j) == 0 {
      assert !BitAt(bits, 8 * last + j);
    }
    PaddingClear(bits[last], unused);
  }

  // ---- the record determines the outcomes' passes, and is determined by them ----

  lemma {:induction false} OctetFromBits(a: bv8, b: bv8)
    requires forall j: nat :: j < 8 ==> (a & Mask(j) != 0 <==> b & Mask(j) != 0)
    ensures a == b
  {
    assert a & Mask(0) != 0 <==> b & Mask(0) != 0;
    assert a & Mask(1) != 0 <==> b & Mask(1) != 0;
    assert a & Mask(2) != 0 <==> b & Mask(2) != 0;
    assert a & Mask(3) != 0 <==> b & Mask(3) != 0;
    assert a & Mask(4) != 0 <==> b & Mask(4) != 0;
    assert a & Mask(5) != 0 <==> b & Mask(5) != 0;
    assert a & Mask(6) != 0 <==> b & Mask(6) != 0;
    assert a & Mask(7) != 0 <==> b & Mask(7) != 0;
    OctetFromMasks(a, b);
  }

  lemma {:induction false} OctetFromMasks(a: bv8, b: bv8)
    requires a & 0x01 != 0 <==> b & 0x01 != 0
    requires a & 0x02 != 0 <==> b & 0x02 != 0
    requires a & 0x04 != 0 <==> b & 0x04 != 0
    requires a & 0x08 != 0 <==> b & 0x08 != 0
    requires a & 0x10 != 0 <==> b & 0x10 != 0
    requires a & 0x20 != 0 <==> b & 0x20 != 0
    requires a & 0x40 != 0 <==> b & 0x40 != 0
    requires a & 0x80 != 0 <==> b & 0x80 != 0
    ensures a == b
  {
  }

  /** A list of outcomes has one observation. */
  lemma {:induction false} ObservationUnique(outcomes: seq<Outcome>, a: Lifecycle, b: Lifecycle)
    requires Observes(outcomes, a) && Observes(outcomes, b)
    ensures a == b
  {
    hide Mask;
    forall k | 0 <= k < |a.bits| ensures a.bits[k] == b.bits[k] {
      forall j: nat | j < 8 ensures a.bits[k] & Mask(j) != 0 <==> b.bits[k] & Mask(j) != 0 {
        assert BitAt(a.bits, 8 * k + j) <==> BitAt(b.bits, 8 * k + j);
      }
      OctetFromBits(a.bits[k], b.bits[k]);
    }
    FirstFailureUnique(outcomes, a.firstFailure, b.firstFailure);
  }

  lemma {:induction false} FirstFailureUnique(outcomes: seq<Outcome>, a: Option<Failure>, b: Option<Failure>)
    requires IsFirstFailure(outcomes, a) && IsFirstFailure(outcomes, b)
    ensures a == b
  {
  }

  /** Reading the bits back. */
  function Passes(bits: seq<bv8>, count: nat): (r: set<nat>)
    requires count <= 8 * |bits|
  {
    set i: nat | 0 <= i < count && BitAt(bits, i)
  }

  lemma {:induction false} PassesDecoded(outcomes: seq<Outcome>, o: Lifecycle)
    requires Observes(outcomes, o)
    ensures Passes(o.bits, |outcomes|) == set i: nat | 0 <= i < |outcomes| && outcomes[i].None?
    ensures |Passes(o.bits, |outcomes|)| == o.passed
  {
    hide BitAt;
    PassedSize(outcomes);
  }

  lemma {:induction false} PassedSize(outcomes: seq<Outcome>)
    ensures |set i: nat | 0 <= i < |outcomes| && outcomes[i].None?| == PassedCount(outcomes)
  {
    var all := set i: nat | 0 <= i < |outcomes| && outcomes[i].None?;
    if outcomes == [] {
      assert all == {};
    } else {
      var n := |outcomes| - 1;
      var front := outcomes[..n];
      PassedSize(front);
      var fewer := set i: nat | 0 <= i < |front| && front[i].None?;
      assert all == if outcomes[n].None? then fewer + {n} else fewer;
    }
  }

  // ---- population count ----

  function OctetOnes(b: bv8, upTo: nat): (r: nat)
    requires upTo <= 8
  {
    if upTo == 0 then 0 else OctetOnes(b, upTo - 1) + if b & Mask(upTo - 1) != 0 then 1 else 0
  }

  function Ones(bits: seq<bv8>): (r: nat) {
    if bits == [] then 0 else Ones(bits[..|bits| - 1]) + OctetOnes(bits[|bits| - 1], 8)
  }

  /** The passed count is the number of one bits in the whole record, padding included. */
  lemma {:induction false} PassedIsPopulation(outcomes: seq<Outcome>, o: Lifecycle)
    requires Observes(outcomes, o)
    ensures Ones(o.bits) == o.passed
  {
    OnesShown(o.bits, outcomes);
    assert outcomes[..|outcomes|] == outcomes;
  }

  /** The first `k` octets count the passes among the iterations they cover. */
  lemma {:induction false} OnesShown(bits: seq<bv8>, outcomes: seq<Outcome>)
    requires BitsShow(bits, outcomes)
    ensures Ones(bits) == PassedCount(outcomes[..Least(8 * |bits|, |outcomes|)])
  {
    hide BitAt, OctetOnes;
    if bits == [] {
      assert outcomes[..0] == [];
    } else {
      var k := |bits| - 1;
      var front := bits[..k];
      FrontShows(bits, outcomes);
      var covered := outcomes[..Least(8 * k, |outcomes|)];
      OnesShown(front, covered);
      assert covered[..Least(8 * k, |covered|)] == covered;
      OctetShown(bits, outcomes, k, 8);
    }
  }

  function Least(a: int, b: int): int {
    if a <= b then a else b
  }

  lemma {:induction false} FrontShows(bits: seq<bv8>, outcomes: seq<Outcome>)
    requires bits != [] && BitsShow(bits, outcomes)
    ensures BitsShow(bits[..|bits| - 1], outcomes[..Least(8 * (|bits| - 1), |outcomes|)])
  {
    hide Mask;
    var k := |bits| - 1;
    var front := bits[..k];
    forall i | 0 <= i < 8 * k ensures BitAt(front, i) <==> i < Least(8 * k, |outcomes|) && outcomes[i].None? {
      assert BitAt(bits, i) <==> i < |outcomes| && outcomes[i].None?;
    }
  }

  lemma {:induction false} OctetShown(bits: seq<bv8>, outcomes: seq<Outcome>, k: nat, upTo: nat)
    requires k < |bits| && BitsShow(bits, outcomes) && upTo <= 8
    ensures PassedCount(outcomes[..Least(8 * k, |outcomes|)]) + OctetOnes(bits[k], upTo)
         == PassedCount(outcomes[..Least(8 * k + upTo, |outcomes|)])
  {
    hide Mask, PassedCount, BitsShow;
    if upTo > 0 {
      OctetShown(bits, outcomes, k, upTo - 1);
      var i := 8 * k + upTo - 1;
      BitShown(bits, outcomes, k, upTo - 1);
      if i < |outcomes| {
        PassedStep(outcomes, i);
      }
    }
  }

  lemma {:induction false} BitShown(bits: seq<bv8>, outcomes: seq<Outcome>, k: nat, j: nat)
    requires k < |bits| && BitsShow(bits, outcomes) && j < 8
    ensures bits[k] & Mask(j) != 0 <==> 8 * k + j < |outcomes| && outcomes[8 * k + j].None?
  {
    hide Mask;
    assert BitAt(bits, 8 * k + j) <==> 8 * k + j < |outcomes| && outcomes[8 * k + j].None?;
  }

  lemma {:induction false} PassedStep(outcomes: seq<Outcome>, i: nat)
    requires i < |outcomes|
    ensures PassedCount(outcomes[..i + 1]) == PassedCount(outcomes[..i]) + if outcomes[i].None? then 1 else 0
  {
    assert outcomes[..i + 1][..i] == outcomes[..i];
  }
}
