/**
 * Integer bucketing of `LocalyticsSession.createRangedAttribute`: a value is
 * mapped to the bucket of a step array that contains it, and a
 * (min, max, step) description is turned into such a step array first.
 */
module Ranged {
  import opened Wrappers

  const INT_MIN: int := -0x8000_0000
  const INT_MAX: int := 0x7fff_ffff
  const TWO_32: int := 0x1_0000_0000

  predicate IsInt32(x: int) { INT_MIN <= x <= INT_MAX }

  /** Java `int` arithmetic: the value congruent to `x` modulo 2^32 in the int range. */
  function Wrap32(x: int): (r: int)
    ensures IsInt32(r)
    ensures (x - r) % TWO_32 == 0
    ensures IsInt32(x) ==> r == x
  {
    (x - INT_MIN) % TWO_32 + INT_MIN
  }

  /** Java `/` on `int` with a positive divisor: rounds toward zero. */
  function JavaDiv(a: int, b: int): (r: int)
    requires b > 0
    ensures a >= 0 ==> r == a / b && 0 <= r <= a
    ensures a < 0 ==> r == -((-a) / b) && a <= r <= 0
  {
    if a >= 0 then
      DivShrinks(a, b);
      a / b
    else
      DivShrinks(-a, b);
      -((-a) / b)
  }

  lemma DivShrinks(x: int, b: int)
    requires x >= 0 && b >= 1
    ensures 0 <= x / b <= x
  {
    var q := x / b;
    DivBounds(x, b);
    assert q >= 0;
    assert q * b == q + q * (b - 1);
    assert q * (b - 1) >= 0;
  }

  // ---------------------------------------------------------------------------
  // Decimal rendering (Integer.toString and string concatenation)
  // ---------------------------------------------------------------------------

  function DigitChar(d: nat): char
    requires d < 10
  {
    "0123456789"[d]
  }

  function NatToString(n: nat): string
    decreases n
  {
    if n < 10 then [DigitChar(n)] else NatToString(n / 10) + [DigitChar(n % 10)]
  }

  function IntToString(x: int): string
  {
    if x < 0 then "-" + NatToString(-x) else NatToString(x)
  }

  // ---------------------------------------------------------------------------
  // The int[] overload
  // ---------------------------------------------------------------------------

  /** The four shapes of bucket label the int[] overload produces. */
  datatype Bucket =
    | LessThan(bound: int)       // "less than <bound>"
    | AndAbove(bound: int)       // "<bound> and above"
    | Single(value: int)         // "<value>"
    | Span(low: int, high: int)  // "<low>-<high>"

  function Render(b: Bucket): string
  {
    match b
    case LessThan(x) => "less than " + IntToString(x)
    case AndAbove(x) => IntToString(x) + " and above"
    case Single(x) => IntToString(x)
    case Span(lo, hi) => IntToString(lo) + "-" + IntToString(hi)
  }

  predicate StrictlyAscending(s: seq<int>)
  {
    forall p, q :: 0 <= p < q < |s| ==> s[p] < s[q]
  }

  /**
   * `java.util.Arrays.binarySearch` on `a[low..high]` (inclusive): the index of
   * `key` if the probe finds it, otherwise -(insertion point) - 1.
   */
  function BinarySearch(a: seq<int>, key: int, low: int, high: int): int
    requires 0 <= low <= |a| && -1 <= high < |a|
    decreases high + 1 - low
  {
    if low > high then -(low + 1)
    else
      var mid := (low + high) / 2;
      if a[mid] < key then BinarySearch(a, key, mid + 1, high)
      else if a[mid] > key then BinarySearch(a, key, low, mid - 1)
      else mid
  }

  /**
   * Whatever the order of `a`, the search keeps "everything left of `low` is
   * below the key and everything right of `high` is above it", so a miss
   * reports an insertion point between a smaller and a larger element.
   */
  lemma {:induction false} SearchBrackets(a: seq<int>, key: int, low: int, high: int)
    requires 0 <= low <= high + 1 <= |a|
    requires low > 0 ==> a[low - 1] < key
    requires high < |a| - 1 ==> a[high + 1] > key
    ensures var r := BinarySearch(a, key, low, high);
      if r >= 0 then r < |a| && a[r] == key
      else
        var ins := -r - 1;
        low <= ins <= high + 1 &&
        (ins > 0 ==> a[ins - 1] < key) &&
        (ins < |a| ==> a[ins] > key)
    decreases high + 1 - low
  {
    if low <= high {
      var mid := (low + high) / 2;
      if a[mid] < key {
        SearchBrackets(a, key, mid + 1, high);
      } else if a[mid] > key {
        SearchBrackets(a, key, low, mid - 1);
      }
    }
  }

  /** The lower bound of a bucket that lies inside the steps. */
  function LowOf(b: Bucket): int
    requires b.Single? || b.Span?
  {
    if b.Single? then b.value else b.low
  }

  /** The upper bound of a bucket that lies inside the steps. */
  function HighOf(b: Bucket): int
    requires b.Single? || b.Span?
  {
    if b.Single? then b.value else b.high
  }

  /**
   * `x - 1` in `int` arithmetic: Integer.MIN_VALUE - 1 wraps to
   * Integer.MAX_VALUE. Entries outside the int range occur only in the
   * overflow-free step arrays further down, where this is exact subtraction.
   */
  function Decrement32(x: int): int
  {
    if x == INT_MIN then INT_MAX else x - 1
  }

  /** On every `int`, Decrement32 is `x - 1` wrapped to the int range. */
  lemma Decrement32Wraps(x: int)
    requires IsInt32(x)
    ensures Decrement32(x) == Wrap32(x - 1)
  {
    if x == INT_MIN {
      assert Wrap32(x - 1) == (-1) % TWO_32 + INT_MIN;
    }
  }

  /**
   * The bracket the lookup reads for a value strictly inside the steps: the
   * index the binary search hits, or the index before its insertion point.
   * For ANY array (sorted or not) it stays in bounds and starts at or below
   * the value; only a hit can be followed by a step at or below the value.
   */
  function Probe(v: int, steps: seq<int>): (i: int)
    requires |steps| > 0 && steps[0] <= v < steps[|steps| - 1]
    ensures 0 <= i < |steps| - 1 && steps[i] <= v
    ensures steps[i] == v || v < steps[i + 1]
  {
    var found := BinarySearch(steps, v, 0, |steps| - 1);
    SearchBrackets(steps, v, 0, |steps| - 1);
    if found < 0 then -found - 2 else found
  }

  /**
   * `createRangedAttribute(actualValue, steps)` for a non-null array: throws
   * on an empty array, labels values below the first step and from the last
   * step on, and otherwise labels the bracket [steps[i], steps[i+1] - 1]
   * (`int` arithmetic) the probe reads, as a single number when it holds
   * one value. When steps[i] < steps[i+1] the value lies inside the bucket.
   */
  function Bucketize(v: int, steps: seq<int>): (r: Result<Bucket>)
    ensures r.Err? <==> |steps| == 0
    ensures |steps| > 0 && v < steps[0] ==> r == Ok(LessThan(steps[0]))
    ensures |steps| > 0 && steps[0] <= v && steps[|steps| - 1] <= v ==> r == Ok(AndAbove(steps[|steps| - 1]))
    ensures |steps| > 0 && steps[0] <= v < steps[|steps| - 1] ==>
      r.Ok? && (r.value.Single? || r.value.Span?) &&
      (r.value.Span? ==> r.value.low != r.value.high) &&
      var i := Probe(v, steps);
      LowOf(r.value) == steps[i] <= v && HighOf(r.value) == Decrement32(steps[i + 1]) &&
      (steps[i] < steps[i + 1] ==> v <= HighOf(r.value))
  {
    if |steps| == 0 then Err("IllegalArgumentException: steps length must be greater than 0")
    else if v < steps[0] then Ok(LessThan(steps[0]))
    else if v >= steps[|steps| - 1] then Ok(AndAbove(steps[|steps| - 1]))
    else
      var i := Probe(v, steps);
      var high := Decrement32(steps[i + 1]);
      if steps[i] == high then Ok(Single(steps[i]))
      else Ok(Span(steps[i], high))
  }

  /** The whole overload, with a null array as `None`. */
  function CreateRangedAttribute(v: int, steps: Option<seq<int>>): (r: Result<string>)
    ensures r.Err? <==> steps.None? || |steps.value| == 0
    ensures r.Ok? ==> r.value == Render(Bucketize(v, steps.value).value)
  {
    match steps
    case None => Err("IllegalArgumentException: steps cannot be null")
    case Some(s) =>
      match Bucketize(v, s)
      case Err(m) => Err(m)
      case Ok(b) => Ok(Render(b))
  }

  /** In an ascending array a value lies between at most one pair of neighbours. */
  lemma BracketUnique(s: seq<int>, v: int, i: int, j: int)
    requires StrictlyAscending(s)
    requires 0 <= i < |s| - 1 && s[i] <= v < s[i + 1]
    requires 0 <= j < |s| - 1 && s[j] <= v < s[j + 1]
    ensures i == j
  {
  }

  /**
   * An unsorted array whose probe hits a copy of the value followed by
   * Integer.MIN_VALUE: steps[i+1] - 1 wraps, and the label is
   * "-2147483648-2147483647".
   */
  lemma WrappedUpperBound()
    ensures Bucketize(INT_MIN, [INT_MIN, INT_MIN, INT_MIN, 0]) == Ok(Span(INT_MIN, INT_MAX))
  {
    assert BinarySearch([INT_MIN, INT_MIN, INT_MIN, 0], INT_MIN, 0, 3) == 1;
  }

  /**
   * For strictly ascending steps the label is the bucket [steps[i], steps[i+1]-1]
   * that contains the value, written as one number when it holds one value.
   */
  lemma {:induction false} BucketizeAscending(v: int, steps: seq<int>, i: int)
    requires StrictlyAscending(steps)
    requires 0 <= i < |steps| - 1 && steps[i] <= v < steps[i + 1]
    ensures Bucketize(v, steps) ==
      Ok(if steps[i] == Decrement32(steps[i + 1]) then Single(steps[i]) else Span(steps[i], Decrement32(steps[i + 1])))
  {
    var n := |steps|;
    assert steps[0] <= steps[i] && steps[i + 1] <= steps[n - 1];
    var j := Probe(v, steps);
    if steps[j] == v {
      assert j < j + 1;
    }
    BracketUnique(steps, v, i, j);
  }

  // ---------------------------------------------------------------------------
  // The (min, max, step) overload
  // ---------------------------------------------------------------------------

  /** Number of steps after the first: (max - min + step) / step, computed without overflow. */
  function StepCount(min: int, max: int, step: int): (q: nat)
    requires step >= 1 && min < max
    ensures q >= 1
  {
    (max - min + step) / step
  }

  /** steps[k] = min + k * step for k = 0 .. StepCount. */
  function IntendedSteps(min: int, max: int, step: int): (s: seq<int>)
    requires step >= 1 && min < max
    ensures |s| == StepCount(min, max, step) + 1
    ensures forall k :: 0 <= k < |s| ==> s[k] == min + k * step
  {
    seq(StepCount(min, max, step) + 1, k => min + k * step)
  }

  /**
   * The step array starts at min, rises by `step`, and its last entry is the
   * first step beyond max: every value of [min, max] falls in some bucket.
   */
  lemma IntendedStepsShape(min: int, max: int, step: int)
    requires step >= 1 && min < max
    ensures StrictlyAscending(IntendedSteps(min, max, step))
    ensures var s := IntendedSteps(min, max, step);
      s[0] == min && max < s[|s| - 1] && s[|s| - 1] - step <= max
  {
    var s := IntendedSteps(min, max, step);
    var q := StepCount(min, max, step);
    var n := max - min + step;
    assert n == q * step + n % step && 0 <= n % step < step;
    forall p, r | 0 <= p < r < |s| ensures s[p] < s[r] {
      MulStrict(p, r, step);
    }
  }

  lemma MulStrict(p: int, r: int, step: int)
    requires p < r && step >= 1
    ensures p * step < r * step
  {
    assert r * step - p * step == (r - p) * step;
  }

  /**
   * With the intended arithmetic, a value v in [min, max] is labelled with
   * its regular interval [min + k*step, min + (k+1)*step - 1], k = (v-min)/step.
   */
  lemma SteppedBucket(v: int, min: int, max: int, step: int)
    requires IsInt32(v)
    requires step >= 1 && min < max && min <= v <= max
    ensures var k := (v - min) / step;
      Bucketize(v, IntendedSteps(min, max, step)) ==
        Ok(if step == 1 then Single(min + k * step) else Span(min + k * step, min + (k + 1) * step - 1))
  {
    var s := IntendedSteps(min, max, step);
    IntendedStepsShape(min, max, step);
    var k := (v - min) / step;
    var q := StepCount(min, max, step);
    DivBounds(v - min, step);
    DivBounds(max - min + step, step);
    if q <= k {
      MulLe(q, k, step);
      assert false;
    }
    assert (k + 1) * step == k * step + step;
    assert s[k] == min + k * step;
    assert s[k + 1] == min + (k + 1) * step;
    BucketizeAscending(v, s, k);
  }

  lemma DivBounds(a: int, b: int)
    requires a >= 0 && b >= 1
    ensures (a / b) * b <= a < (a / b) * b + b
  {
    assert a == (a / b) * b + a % b;
  }

  lemma MulLe(q: int, k: int, step: int)
    requires q <= k && step >= 1
    ensures q * step <= k * step
  {
    assert k * step - q * step == (k - q) * step;
  }

  /**
   * `createRangedAttribute(actualValue, minValue, maxValue, step)` with the
   * step count and the steps computed without overflow: null for a step
   * below 1 or an empty range, otherwise the label of the int[] overload on
   * min, min+step, ..., the first step beyond max.
   */
  method CreateSteppedRangedAttribute(v: int, min: int, max: int, step: int) returns (r: Option<string>)
    ensures step < 1 || min >= max ==> r == None
    ensures step >= 1 && min < max ==>
      r == Some(Render(Bucketize(v, IntendedSteps(min, max, step)).value))
  {
    if step < 1 {
      return None;
    }
    if min >= max {
      return None;
    }
    var stepQuantity := (max - min + step) / step;
    var steps := new int[stepQuantity + 1];
    var k := 0;
    while k <= stepQuantity
      invariant 0 <= k <= stepQuantity + 1
      invariant forall j :: 0 <= j < k ==> steps[j] == min + j * step
    {
      steps[k] := min + k * step;
      k := k + 1;
    }
    assert steps[..] == IntendedSteps(min, max, step);
    var text := CreateRangedAttribute(v, Some(steps[..]));
    return Some(text.value);
  }

  // ---------------------------------------------------------------------------
  // The same overload as written: 32-bit int arithmetic
  // ---------------------------------------------------------------------------

  /**
   * The step array the source builds with `int` arithmetic: the step count
   * and every entry wrap modulo 2^32, and a negative array size throws.
   */
  function StepsAsWritten(min: int, max: int, step: int): (r: Result<seq<int>>)
    requires IsInt32(min) && IsInt32(max) && IsInt32(step)
    requires step >= 1 && min < max
    ensures r.Err? <==> Wrap32(JavaDiv(Wrap32(max - min + step), step) + 1) < 0
    ensures r.Ok? ==> |r.value| == Wrap32(JavaDiv(Wrap32(max - min + step), step) + 1)
    ensures r.Ok? ==> forall k :: 0 <= k < |r.value| ==> r.value[k] == StepAsWritten(min, step, k)
  {
    var stepQuantity := JavaDiv(Wrap32(max - min + step), step);
    var size := Wrap32(stepQuantity + 1);
    if size < 0 then Err("NegativeArraySizeException")
    else Ok(seq(size, k => StepAsWritten(min, step, k)))
  }

  /** `minValue + currentStep * step` in `int` arithmetic. */
  function StepAsWritten(min: int, step: int, k: int): int
  {
    Wrap32(min + Wrap32(k * step))
  }

  /** The overload exactly as written; a thrown exception is an `Err`. */
  method CreateSteppedRangedAttributeAsWritten(v: int, min: int, max: int, step: int) returns (r: Result<Option<string>>)
    requires IsInt32(v) && IsInt32(min) && IsInt32(max) && IsInt32(step)
    ensures step < 1 || min >= max ==> r == Ok(None)
    ensures step >= 1 && min < max ==>
      match StepsAsWritten(min, max, step)
      case Err(m) => r == Err(m)
      case Ok(s) => r == (match CreateRangedAttribute(v, Some(s)) case Err(m) => Err(m) case Ok(t) => Ok(Some(t)))
  {
    if step < 1 {
      return Ok(None);
    }
    if min >= max {
      return Ok(None);
    }
    var stepQuantity := JavaDiv(Wrap32(max - min + step), step);
    var size := Wrap32(stepQuantity + 1);
    if size < 0 {
      return Err("NegativeArraySizeException");
    }
    assert IsInt32(stepQuantity);
    assert size == stepQuantity + 1;
    var steps := new int[size];
    var k := 0;
    while k <= stepQuantity
      invariant 0 <= k <= size
      invariant forall j :: 0 <= j < k ==> steps[j] == StepAsWritten(min, step, j)
    {
      steps[k] := StepAsWritten(min, step, k);
      k := k + 1;
    }
    assert steps[..] == StepsAsWritten(min, max, step).value;
    var text := CreateRangedAttribute(v, Some(steps[..]));
    match text
    case Err(m) => return Err(m);
    case Ok(t) => return Ok(Some(t));
  }

  /**
   * The full int range with step 1: max - min + step wraps to 0, the array
   * holds only min, and every value is labelled "-2147483648 and above".
   * The intended arithmetic labels 5 as "5".
   */
  lemma FullRangeCollapses()
    ensures StepsAsWritten(INT_MIN, INT_MAX, 1) == Ok([INT_MIN])
    ensures Bucketize(5, StepsAsWritten(INT_MIN, INT_MAX, 1).value) == Ok(AndAbove(INT_MIN))
    ensures Bucketize(5, IntendedSteps(INT_MIN, INT_MAX, 1)) == Ok(Single(5))
  {
    var s := StepsAsWritten(INT_MIN, INT_MAX, 1);
    assert Wrap32(INT_MAX - INT_MIN + 1) == 0;
    assert s.value == [INT_MIN];
    SteppedBucket(5, INT_MIN, INT_MAX, 1);
  }

  /**
   * min = 0, max = 2147483646, step = 1: the step count is Integer.MAX_VALUE,
   * one more wraps negative and the array allocation throws, although the
   * intended step array is well formed.
   */
  lemma WideRangeThrows()
    ensures StepsAsWritten(0, INT_MAX - 1, 1).Err?
    ensures |IntendedSteps(0, INT_MAX - 1, 1)| == INT_MAX + 1
  {
    assert Wrap32(INT_MAX - 1 - 0 + 1) == INT_MAX;
    assert Wrap32(INT_MAX + 1) == INT_MIN;
  }
}
