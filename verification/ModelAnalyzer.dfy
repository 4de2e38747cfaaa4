/** The analyzer's memory bounds and its tensor-parallelism recommendation, with the two
    floating-point operations it uses: scaling the parameter count and dividing the
    upper bound by the accelerator's memory. */
module ModelAnalyzer {
  import opened Wrappers
  import opened Doubles

  const MEBIBYTE: nat := 1024 * 1024

  datatype Precision = Fp32 | Fp16 | Bf16 | Fp8 | Int8 | Int4 | UnknownPrecision

  /** Bytes per parameter, in halves. */
  function HalfBytes(precision: Precision): nat
    requires !precision.UnknownPrecision?
  {
    match precision
    case Fp32 => 8
    case Fp16 => 4
    case Bf16 => 4
    case Fp8 => 2
    case Int8 => 2
    case Int4 => 1
  }

  /** What `analyze` reads of a request; a field that is not an integer is None. */
  datatype Request = Request(parameterCount: Option<int>, precision: Precision, activation: Option<int>,
                             acceleratorMemory: Option<int>, training: bool)

  datatype Estimate = Estimate(lower: nat, upper: nat)

  datatype Evidence = ActivationEstimated | ActivationProvided | Recommendation(count: nat) | Parameters(count: nat)
    | Unknown

  datatype Analysis = Analysis(parameterCount: Option<nat>, estimate: Option<Estimate>, recommendation: Option<nat>,
                               evidence: seq<Evidence>)

  function Max(a: int, b: int): int {
    if a < b then b else a
  }

  /** A count that is not positive counts as unknown. */
  function KnownCount(request: Request): Option<nat> {
    if request.parameterCount.Some? && request.parameterCount.value > 0 then Some(request.parameterCount.value)
    else None
  }

  predicate Analyzable(request: Request) {
    KnownCount(request).Some? && !request.precision.UnknownPrecision?
  }

  function Weights(request: Request): nat
    requires Analyzable(request)
  {
    WeightBytes(request.parameterCount.value, request.precision)
  }

  function WeightBytes(count: nat, precision: Precision): nat
    requires !precision.UnknownPrecision?
  {
    AsDouble(count) * HalfBytes(precision) / 2
  }

  predicate ActivationIsGiven(request: Request) {
    request.activation.Some? && request.activation.value >= 0
  }

  function Activation(request: Request): nat
    requires Analyzable(request)
  {
    if ActivationIsGiven(request) then request.activation.value else Max(512 * MEBIBYTE, Weights(request) / 8)
  }

  function Bounds(request: Request): Estimate
    requires Analyzable(request)
  {
    var weights, activation := Weights(request), Activation(request);
    if request.training then
      var lower := weights * 4 + activation;
      Estimate(lower, lower + Max(1024 * MEBIBYTE, weights / 2))
    else Estimate(weights, weights + activation)
  }

  /** A quotient below one rounds to at most one. */
  function Recommended(upper: nat, memory: nat): nat
    requires memory > 0
  {
    if upper < memory then 1 else Max(1, CeilOfQuotient(upper, memory))
  }

  function Recommends(request: Request): Option<nat>
    requires Analyzable(request)
  {
    if request.acceleratorMemory.Some? && request.acceleratorMemory.value > 0
    then Some(Recommended(Bounds(request).upper, request.acceleratorMemory.value))
    else None
  }

  /** `analyze`, branch by branch. */
  method Analyze(request: Request) returns (r: Analysis)
    ensures r.parameterCount == KnownCount(request)
    ensures r.estimate.Some? <==> Analyzable(request)
    ensures r.estimate.Some? ==> r.estimate.value == Bounds(request) && r.estimate.value.lower <= r.estimate.value.upper
    ensures r.recommendation == if Analyzable(request) then Recommends(request) else None
    ensures r.recommendation.Some? <==> exists e | e in r.evidence :: e.Recommendation?
    ensures !Analyzable(request) <==> Unknown in r.evidence
  {
    var count := request.parameterCount;
    if count.Some? && count.value <= 0 {
      count := None;
    }
    var evidence: seq<Evidence> := [];
    var estimate: Option<Estimate> := None;
    var recommendation: Option<nat> := None;
    if count.Some? && !request.precision.UnknownPrecision? {
      var weights := WeightBytes(count.value, request.precision);
      var activation: nat;
      if request.activation.None? || request.activation.value < 0 {
        activation := Max(512 * MEBIBYTE, weights / 8);
        evidence := evidence + [ActivationEstimated];
      } else {
        activation := request.activation.value;
        evidence := evidence + [ActivationProvided];
      }
      var lower, upper;
      if request.training {
        lower := weights * 4 + activation;
        upper := lower + Max(1024 * MEBIBYTE, weights / 2);
      } else {
        lower := weights;
        upper := weights + activation;
      }
      if request.acceleratorMemory.Some? && request.acceleratorMemory.value > 0 {
        recommendation := Some(Recommended(upper, request.acceleratorMemory.value));
        evidence := evidence + [Recommendation(recommendation.value)];
        assert evidence[1] == Recommendation(recommendation.value);
      }
      estimate := Some(Estimate(lower, upper));
      evidence := evidence + [Parameters(count.value)];
    } else {
      evidence := evidence + [Unknown];
      assert evidence[0] == Unknown;
    }
    r := Analysis(if count.Some? then Some(count.value) else None, estimate, recommendation, evidence);
  }

  // ---- Bounds and recommendation -----------------------------------------

  /** The bytes of the weights: four, two or one per parameter, or half a byte. */
  lemma {:induction false} WeightsInBytes(request: Request)
    requires Analyzable(request) && request.parameterCount.value < EXACT_DOUBLES
    ensures
      var count, precision := request.parameterCount.value, request.precision;
      && (precision.Fp32? ==> Weights(request) == 4 * count)
      && (precision.Fp16? || precision.Bf16? ==> Weights(request) == 2 * count)
      && (precision.Fp8? || precision.Int8? ==> Weights(request) == count)
      && (precision.Int4? ==> Weights(request) == count / 2)
  {
    SmallIntegersAreDoubles(request.parameterCount.value);
  }

  /** Inference needs weights and activation; training four times the weights, and up to
      half of them, or one GiB, on top. An activation that is not given is an eighth of
      the weights, or half a GiB. */
  lemma {:induction false} BoundsInBytes(request: Request)
    requires Analyzable(request)
    ensures
      var weights, bounds := Weights(request), Bounds(request);
      var slack := bounds.upper - bounds.lower;
      && (!request.training ==> bounds.lower == weights)
      && (request.training ==>
            && slack >= 1073741824 && slack >= weights / 2 && (slack == 1073741824 || slack == weights / 2))
      && var activation := if request.training then bounds.lower - 4 * weights else slack;
         if request.activation.Some? && request.activation.value >= 0 then activation == request.activation.value
         else activation >= 536870912 && activation >= weights / 8
              && (activation == 536870912 || activation == weights / 8)
  {
  }

  /** For every analyzable model the lower bound is at most the upper one, and covers
      the weights. */
  lemma {:induction false} BoundsAreOrdered(request: Request)
    requires Analyzable(request)
    ensures Weights(request) <= Bounds(request).lower <= Bounds(request).upper
  {
  }

  /** How many accelerators more than recommended the upper bound needs. */
  function Missing(upper: nat, memory: nat): nat
    requires memory > 0
  {
    if RoundsShort(upper, memory) then 1 else 0
  }

  lemma {:induction false} RecommendationExactly(upper: nat, memory: nat)
    requires memory > 0 && upper / memory < EXACT_DOUBLES
    ensures Recommended(upper, memory) + Missing(upper, memory) == Max(1, CeilDiv(upper, memory))
  {
    CeilDivCovers(upper, memory);
    if upper < memory {
      DivisionIsUnique(upper, memory, 0, upper);
      if CeilDiv(upper, memory) > 1 {
        Grows(1, CeilDiv(upper, memory) - 1, memory);
      }
    } else {
      CeilingExactly(upper, memory);
      if CeilDiv(upper, memory) <= 1 {
        Grows(CeilDiv(upper, memory), 1, memory);
        DivisionIsUnique(upper, memory, 1, 0);
      }
    }
  }

  /** The least number of accelerators that holds the upper bound is the recommended
      one, or one more exactly when the quotient rounds down to an integer. */
  lemma {:induction false} RecommendationIsLeast(upper: nat, memory: nat, n: nat)
    requires memory > 0 && n > 0 && upper / memory < EXACT_DOUBLES
    ensures n * memory >= upper <==> n >= Recommended(upper, memory) + Missing(upper, memory)
  {
    RecommendationExactly(upper, memory);
    CeilDivCovers(upper, memory);
    var k := Max(1, CeilDiv(upper, memory));
    if n >= k {
      Grows(k, n, memory);
    } else {
      Grows(n, k - 1, memory);
    }
  }

  /** Below 2^53 bytes the recommendation is that least number. */
  lemma {:induction false} SmallRecommendationIsLeast(upper: nat, memory: nat, n: nat)
    requires memory > 0 && n > 0 && upper < EXACT_DOUBLES
    ensures n * memory >= upper <==> n >= Recommended(upper, memory)
  {
    SmallNeverRoundsShort(upper, memory);
    Shrinks(upper, memory);
    RecommendationIsLeast(upper, memory, n);
  }

  lemma {:induction false} Shrinks(n: nat, d: nat)
    requires d > 0
    ensures n / d <= n
  {
    IntegerPart(n, d);
    if n / d > n {
      Grows(1, d, n / d);
    }
  }

  /** From 2^53 bytes on it can be one accelerator too few. */
  lemma {:induction false} RecommendationFallsShort()
    ensures Recommended(EXACT_DOUBLES + 1, 0x10_0000_0000) * 0x10_0000_0000 < EXACT_DOUBLES + 1
  {
    var upper, memory := EXACT_DOUBLES + 1, 0x10_0000_0000;
    assert upper / memory == 0x2_0000 && upper % memory == 1;
    SomePowers();
    BitOf(17, 0x2_0000);
    PowersAdd(1, 35);
    assert RoundsShort(upper, memory);
    RecommendationIsLeast(upper, memory, Recommended(upper, memory));
  }

  // ---- The floating-point quotient ---------------------------------------

  function Ceil(x: real): int {
    if x == x.Floor as real then x.Floor else x.Floor + 1
  }

  /** `math.ceil(upper / memory)` below 2^53: any quotient within half a unit in the
      last place of the exact one (relative error 2^-53, here multiplied out), and
      exact where the division is, rounds up to the exact ceiling. */
  lemma {:induction false} RoundedCeilingIsExact(upper: nat, memory: nat, quotient: real)
    requires 0 < upper < EXACT_DOUBLES && memory > 0
    requires upper % memory == 0 ==> quotient == (upper / memory) as real
    requires
      var error := quotient * memory as real - upper as real;
      -(upper as real) <= error * EXACT_DOUBLES as real <= upper as real
    ensures Ceil(quotient) == CeilDiv(upper, memory)
  {
    ExactCeiling(upper, memory, upper / memory, upper % memory);
    if upper % memory != 0 {
      ErrorBelowOne(upper, quotient * memory as real);
      CeilingOfProduct(upper, memory, upper / memory, upper % memory, quotient, quotient * memory as real);
    }
  }

  lemma {:induction false} CeilingOfProduct(upper: nat, memory: nat, k: nat, r: nat, quotient: real, product: real)
    requires 0 < r < memory && k == upper / memory && r == upper % memory && product == quotient * memory as real
    requires upper as real - 1.0 < product < upper as real + 1.0
    ensures Ceil(quotient) == k + 1
  {
    var base := k * memory;
    assert upper == base + r;
    Bracket(quotient, k, memory, product, base);
    CeilBetween(quotient, k);
  }

  lemma {:induction false} ErrorBelowOne(upper: nat, product: real)
    requires 0 < upper < EXACT_DOUBLES
    requires -(upper as real) <= (product - upper as real) * EXACT_DOUBLES as real <= upper as real
    ensures upper as real - 1.0 < product < upper as real + 1.0
  {
  }

  lemma {:induction false} Bracket(quotient: real, k: nat, memory: nat, product: real, base: nat)
    requires memory > 0 && product == quotient * memory as real && base == k * memory
    requires base as real < product < (base + memory) as real
    ensures k as real < quotient < k as real + 1.0
  {
    var m, x := memory as real, k as real;
    var low, high := x * m, (x + 1.0) * m;
    Distributes(x, m);
    assert low == base as real && high == low + m;
    Cancel(x, quotient, m, low, product);
    Cancel(quotient, x + 1.0, m, product, high);
  }

  lemma {:induction false} Distributes(x: real, m: real)
    ensures (x + 1.0) * m == x * m + m
  {
  }

  lemma {:induction false} Cancel(a: real, b: real, m: real, am: real, bm: real)
    requires m > 0.0 && am == a * m && bm == b * m && am < bm
    ensures a < b
  {
  }

  lemma {:induction false} CeilBetween(x: real, k: int)
    requires k as real < x < k as real + 1.0
    ensures Ceil(x) == k + 1
  {
  }
}
