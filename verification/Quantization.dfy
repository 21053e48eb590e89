// mini-ai-accelerator/src/quantization.c: affine quantisation and its half-step error bound.
module Quantization {
  import opened Vectors

  datatype QuantType = Int8 | Int4 | Fp16
  datatype QuantParams = QuantParams(scale: real, zeroPoint: int, minVal: real, maxVal: real)

  const RANGE_FLOOR: real := 0.0000001
  const CODE_MAX: int := 255

  // Round half away from zero.
  function Round(x: real): int {
    if x >= 0.0 then (x + 0.5).Floor else -((-x + 0.5).Floor)
  }

  function Clamp(q: int, lo: int, hi: int): int {
    if q < lo then lo else if q > hi then hi else q
  }

  function QMax(t: QuantType): (r: int)
    ensures r > 0
  {
    match t
    case Int8 => 255
    case Int4 => 15
    case Fp16 => 65535
  }

  lemma RoundNear(x: real)
    ensures -0.5 <= Round(x) as real - x <= 0.5
    ensures x < -0.5 ==> Round(x) <= -1
  {
  }

  // The nearest integer, and of two equally near ones the one further from zero.
  lemma RoundIs(x: real, k: int)
    ensures Round(x) == k <==>
      if x >= 0.0 then k as real - 0.5 <= x < k as real + 0.5 else k as real - 0.5 < x <= k as real + 0.5
  {
  }

  lemma RoundWithin(x: real, hi: int)
    requires hi >= 0
    ensures 0.0 <= x <= hi as real ==> 0 <= Round(x) <= hi
    ensures x > hi as real + 0.5 ==> Round(x) >= hi + 1
    ensures -0.5 <= x < 0.0 ==> -1 <= Round(x) <= 0
    ensures hi as real < x <= hi as real + 0.5 ==> hi <= Round(x) <= hi + 1
  {
  }

  lemma RoundOfInteger(n: int, x: real)
    requires x == n as real
    ensures Round(x) == n
  {
  }

  lemma RoundMonotone(x: real, y: real)
    requires x <= y
    ensures Round(x) <= Round(y)
  {
  }

  // ---------------------------------------------------------------- steps

  // The value of a steps of size s, and the number of steps in a value.
  function Steps(s: real, a: real): real {
    a * s
  }

  function InSteps(s: real, x: real): real
    requires s != 0.0
  {
    x * (1.0 / s)
  }

  lemma Reciprocal(s: real, i: real)
    requires s != 0.0 && i == 1.0 / s
    ensures s * i == 1.0
  {
  }

  lemma Regroup(x: real, i: real, s: real, u: real)
    requires u == s * i
    ensures (x * i) * s == x * u && (x * s) * i == x * u
  {
  }

  lemma StepsInverse(s: real, x: real)
    requires s != 0.0
    ensures Steps(s, InSteps(s, x)) == x && InSteps(s, Steps(s, x)) == x
  {
    var i := 1.0 / s;
    Reciprocal(s, i);
    Regroup(x, i, s, s * i);
  }

  lemma Order(s: real, a: real, b: real)
    requires s > 0.0
    ensures a <= b <==> Steps(s, a) <= Steps(s, b)
  {
    var p := Steps(s, b - a);
    Difference(s, b, a);
    if a < b {
      ProductPositive(b - a, s, p);
    } else if b < a {
      ProductPositive(a - b, s, -p);
    }
  }

  lemma Difference(s: real, a: real, b: real)
    ensures Steps(s, a - b) == Steps(s, a) - Steps(s, b)
    ensures Steps(s, -b) == -Steps(s, b)
  {
  }

  lemma Halves(s: real)
    ensures Steps(s, 0.5) == s / 2.0 && Steps(s, -0.5) == -(s / 2.0) && Steps(s, 0.0) == 0.0
  {
  }

  lemma InStepsOrder(s: real, x: real, y: real)
    requires s > 0.0
    ensures x <= y <==> InSteps(s, x) <= InSteps(s, y)
  {
    hide Steps, InSteps;
    StepsInverse(s, x);
    StepsInverse(s, y);
    Order(s, InSteps(s, x), InSteps(s, y));
  }

  // ---------------------------------------------------------------- codes

  // A zero scale makes the number of steps infinite, with the sign of x; only x = 0 has no code then.
  function QuantizeValue(p: QuantParams, x: real): int
    requires p.scale != 0.0 || x != 0.0
  {
    if p.scale == 0.0 then (if x > 0.0 then CODE_MAX else 0)
    else Clamp(Round(InSteps(p.scale, x)) + p.zeroPoint, 0, CODE_MAX)
  }

  function DequantizeValue(p: QuantParams, q: int): real {
    Steps(p.scale, q as real - p.zeroPoint as real)
  }

  // What dequantising the code of x gives differs from x by at most half a step.
  predicate WithinHalfStep(p: QuantParams, x: real)
    requires p.scale > 0.0
  {
    Abs(DequantizeValue(p, QuantizeValue(p, x)) - x) <= p.scale / 2.0
  }

  // The values whose code, before the clamp, lies in 0..255, ends included.
  predicate InReach(p: QuantParams, x: real) {
    Steps(p.scale, -0.5 - p.zeroPoint as real) <= x <= Steps(p.scale, 255.5 - p.zeroPoint as real)
  }

  // The clamp keeps a rounded code within half a unit of its target exactly for targets in reach.
  lemma ClampNear(n: int, z: int, t: real)
    requires -0.5 <= n as real - t <= 0.5
    ensures var e := Clamp(n + z, 0, CODE_MAX) as real - z as real - t;
      -0.5 <= e <= 0.5 <==> -0.5 - z as real <= t <= 255.5 - z as real
  {
  }

  // The exact condition on a value for the half-step bound, whatever the parameters.
  lemma HalfStepIff(p: QuantParams, x: real)
    requires p.scale > 0.0
    ensures WithinHalfStep(p, x) <==> InReach(p, x)
  {
    hide Steps, InSteps, Round, Clamp;
    var s, z, t := p.scale, p.zeroPoint as real, InSteps(p.scale, x);
    var c := QuantizeValue(p, x) as real - z;
    StepsInverse(s, x);
    RoundNear(t);
    ClampNear(Round(t), p.zeroPoint, t);
    Difference(s, c, t);
    Halves(s);
    Order(s, c - t, 0.5);
    Order(s, -0.5, c - t);
    Order(s, -0.5 - z, t);
    Order(s, t, 255.5 - z);
  }

  // Codes survive the round trip.
  lemma CodeRoundTrip(p: QuantParams, q: int)
    requires p.scale != 0.0 && 0 <= q <= CODE_MAX
    ensures QuantizeValue(p, DequantizeValue(p, q)) == q
  {
    hide Steps, InSteps, Round;
    var d := q as real - p.zeroPoint as real;
    StepsInverse(p.scale, d);
    RoundOfInteger(q - p.zeroPoint, d);
  }

  lemma CodesMonotone(p: QuantParams, x: real, y: real)
    requires p.scale > 0.0 && x <= y
    ensures QuantizeValue(p, x) <= QuantizeValue(p, y)
  {
    hide Steps, InSteps, Round;
    InStepsOrder(p.scale, x, y);
    RoundMonotone(InSteps(p.scale, x), InSteps(p.scale, y));
  }

  // The codes of a zero scale are those of every small enough one.
  lemma ZeroScaleIsLimit(p: QuantParams, x: real, s: real)
    requires p.scale == 0.0 && x != 0.0 && s > 0.0 && Steps(s, 256.0 + Abs(p.zeroPoint as real)) <= Abs(x)
    ensures QuantizeValue(p, x) == QuantizeValue(p.(scale := s), x)
  {
    hide Steps, InSteps;
    var z, t, m := p.zeroPoint as real, InSteps(s, x), 256.0 + Abs(p.zeroPoint as real);
    StepsInverse(s, x);
    Difference(s, m, m);
    if x > 0.0 {
      Order(s, m, t);
      RoundMonotone(m, t);
      RoundOfInteger(256 + (if p.zeroPoint < 0 then -p.zeroPoint else p.zeroPoint), m);
    } else {
      Order(s, t, -m);
      RoundMonotone(t, -m);
      RoundOfInteger(-256 - (if p.zeroPoint < 0 then -p.zeroPoint else p.zeroPoint), -m);
    }
  }

  // ---------------------------------------------------------------- choosing the parameters

  ghost predicate IsRange(data: seq<real>, lo: real, hi: real) {
    lo in data && hi in data && forall i :: 0 <= i < |data| ==> lo <= data[i] <= hi
  }

  function Scale(lo: real, hi: real, t: QuantType): (s: real)
    ensures s > 0.0
    ensures Steps(s, QMax(t) as real) == if hi - lo < RANGE_FLOOR then RANGE_FLOOR else hi - lo
  {
    (if hi - lo < RANGE_FLOOR then RANGE_FLOOR else hi - lo) / QMax(t) as real
  }

  // The codes span the data: 255, 15 or 65535 steps, at least 1e-7 in all.
  lemma StepsSpanRange(lo: real, hi: real, t: QuantType)
    requires lo <= hi
    ensures var steps := (match t case Int8 => 255.0 case Int4 => 15.0 case Fp16 => 65535.0) * ParamsFor(lo, hi, t).scale;
      steps >= 0.0000001 && (hi - lo >= 0.0000001 ==> steps == hi - lo)
  {
  }

  // The zero point before it is rounded and clamped.
  function IdealZero(lo: real, hi: real, t: QuantType): real {
    QMax(t) as real * 0.5 - ((hi + lo) * 0.5) / Scale(lo, hi, t)
  }

  function ParamsFor(lo: real, hi: real, t: QuantType): (p: QuantParams)
    ensures p.scale > 0.0
  {
    QuantParams(Scale(lo, hi, t), Clamp(Round(IdealZero(lo, hi, t)), 0, QMax(t)), lo, hi)
  }

  method FindParams(data: array<real>, t: QuantType) returns (params: QuantParams)
    ensures data.Length == 0 ==> params == QuantParams(0.0, 0, 0.0, 0.0)
    ensures data.Length > 0 ==> IsRange(data[..], params.minVal, params.maxVal) && params == ParamsFor(params.minVal, params.maxVal, t)
  {
    if data.Length == 0 {
      return QuantParams(0.0, 0, 0.0, 0.0);
    }
    var minVal, maxVal := data[0], data[0];
    for i := 1 to data.Length
      invariant minVal in data[..] && maxVal in data[..]
      invariant forall j :: 0 <= j < i ==> minVal <= data[j] <= maxVal
    {
      if data[i] < minVal {
        minVal := data[i];
      }
      if data[i] > maxVal {
        maxVal := data[i];
      }
    }
    var qmax := QMax(t);
    var range := maxVal - minVal;
    if range < RANGE_FLOOR {
      range := RANGE_FLOOR;
    }
    var scale := range / qmax as real;
    var midReal := (maxVal + minVal) * 0.5;
    var midQuant := qmax as real * 0.5;
    var zeroPoint := Round(midQuant - midReal / scale);
    if zeroPoint < 0 {
      zeroPoint := 0;
    }
    if zeroPoint > qmax {
      zeroPoint := qmax;
    }
    params := QuantParams(scale, zeroPoint, minVal, maxVal);
  }

  method Quantize(data: array<real>, params: QuantParams, output: array<int>)
    requires output.Length >= data.Length
    requires params.scale == 0.0 ==> forall i :: 0 <= i < data.Length ==> data[i] != 0.0
    modifies output
    ensures forall i :: 0 <= i < data.Length ==> output[i] == QuantizeValue(params, data[i])
    ensures forall i :: data.Length <= i < output.Length ==> output[i] == old(output[i])
  {
    hide QuantizeValue;
    var invScale := if params.scale == 0.0 then 0.0 else 1.0 / params.scale;
    for i := 0 to data.Length
      invariant forall j :: 0 <= j < i ==> output[j] == QuantizeValue(params, data[j])
      invariant forall j :: i <= j < output.Length ==> output[j] == old(output[j])
    {
      output[i] := Code(params, data[i], invScale);
    }
  }

  // The loop body; the reciprocal of a zero scale is infinite, and then invScale is not read.
  method Code(params: QuantParams, x: real, invScale: real) returns (code: int)
    requires params.scale != 0.0 || x != 0.0
    requires params.scale != 0.0 ==> invScale == 1.0 / params.scale
    ensures code == QuantizeValue(params, x)
  {
    hide Round;
    if params.scale == 0.0 {
      return if x > 0.0 then CODE_MAX else 0;
    }
    assert x * invScale == InSteps(params.scale, x);
    code := Round(x * invScale) + params.zeroPoint;
    if code < 0 {
      code := 0;
    }
    if code > CODE_MAX {
      code := CODE_MAX;
    }
  }

  method Dequantize(data: array<int>, params: QuantParams, output: array<real>)
    requires output.Length >= data.Length
    modifies output
    ensures forall i :: 0 <= i < data.Length ==> output[i] == DequantizeValue(params, data[i])
    ensures forall i :: data.Length <= i < output.Length ==> output[i] == old(output[i])
  {
    for i := 0 to data.Length
      invariant forall j :: 0 <= j < i ==> output[j] == DequantizeValue(params, data[j])
      invariant forall j :: i <= j < output.Length ==> output[j] == old(output[j])
    {
      output[i] := (data[i] as real - params.zeroPoint as real) * params.scale;
    }
  }

  // ---------------------------------------------------------------- the bound for found parameters

  ghost predicate AllWithinHalfStep(p: QuantParams, data: seq<real>)
    requires p.scale > 0.0
  {
    forall i :: 0 <= i < |data| ==> WithinHalfStep(p, data[i])
  }

  // All elements meet the bound exactly when the two extremes are in reach.
  lemma ExtremesDecide(data: seq<real>, lo: real, hi: real, p: QuantParams)
    requires IsRange(data, lo, hi) && p.scale > 0.0
    ensures AllWithinHalfStep(p, data) <==> InReach(p, lo) && InReach(p, hi)
  {
    forall i | 0 <= i < |data| ensures WithinHalfStep(p, data[i]) <==> InReach(p, data[i]) {
      HalfStepIff(p, data[i]);
    }
    if AllWithinHalfStep(p, data) {
      var i :| 0 <= i < |data| && data[i] == lo;
      var j :| 0 <= j < |data| && data[j] == hi;
      assert WithinHalfStep(p, data[i]) && WithinHalfStep(p, data[j]);
    }
  }

  // The extremes in terms of the ideal zero point: they lie in 0..qmax, and are exactly its ends
  // when the range is not clipped.
  lemma IdealZeroPlaces(lo: real, hi: real, t: QuantType, z: real)
    requires lo <= hi && z == IdealZero(lo, hi, t)
    ensures var s := Scale(lo, hi, t); var range := if hi - lo < RANGE_FLOOR then RANGE_FLOOR else hi - lo;
      Steps(s, z) == range * 0.5 - (hi + lo) * 0.5 && Steps(s, QMax(t) as real - z) == range * 0.5 + (hi + lo) * 0.5
  {
    hide Scale;
    var s, q, m := Scale(lo, hi, t), QMax(t) as real, (hi + lo) * 0.5;
    Requotient(m, s);
    Difference(s, q * 0.5, m / s);
    Difference(s, q, z);
    Halve(q, s);
  }

  lemma Halve(q: real, s: real)
    ensures Steps(s, q * 0.5) == Steps(s, q) * 0.5
  {
  }

  // Reach of an extreme, in steps from the ideal zero point.
  lemma LowInReach(lo: real, hi: real, t: QuantType, z: real)
    requires lo <= hi && z == IdealZero(lo, hi, t)
    ensures var p := ParamsFor(lo, hi, t); var k := p.zeroPoint as real; var excess := Excess(lo, hi, t);
      Steps(p.scale, -0.5 - k) <= lo <==> -0.5 - k <= excess - z
  {
    hide Steps, Scale, IdealZero, Round, Clamp, Excess;
    var p := ParamsFor(lo, hi, t);
    ExtremesInSteps(lo, hi, t, z);
    Order(p.scale, -0.5 - p.zeroPoint as real, Excess(lo, hi, t) - z);
  }

  lemma HighInReach(lo: real, hi: real, t: QuantType, z: real)
    requires lo <= hi && z == IdealZero(lo, hi, t)
    ensures var p := ParamsFor(lo, hi, t); var k := p.zeroPoint as real; var excess := Excess(lo, hi, t);
      hi <= Steps(p.scale, 255.5 - k) <==> QMax(t) as real - z - excess <= 255.5 - k
  {
    hide Steps, Scale, IdealZero, Round, Clamp, Excess;
    var p := ParamsFor(lo, hi, t);
    ExtremesInSteps(lo, hi, t, z);
    Order(p.scale, QMax(t) as real - z - Excess(lo, hi, t), 255.5 - p.zeroPoint as real);
  }

  // Half of what clipping adds to the range, in steps.
  function Excess(lo: real, hi: real, t: QuantType): real {
    InSteps(Scale(lo, hi, t), (if hi - lo < RANGE_FLOOR then RANGE_FLOOR - (hi - lo) else 0.0) * 0.5)
  }

  lemma ExtremesInSteps(lo: real, hi: real, t: QuantType, z: real)
    requires lo <= hi && z == IdealZero(lo, hi, t)
    ensures var s := Scale(lo, hi, t); var excess := Excess(lo, hi, t);
      lo == Steps(s, excess - z) && hi == Steps(s, QMax(t) as real - z - excess) &&
      0.0 <= excess && 2.0 * excess <= QMax(t) as real
  {
    hide Steps, InSteps, Scale, IdealZero;
    var s, q := Scale(lo, hi, t), QMax(t) as real;
    var half := (if hi - lo < RANGE_FLOOR then RANGE_FLOOR - (hi - lo) else 0.0) * 0.5;
    IdealZeroPlaces(lo, hi, t, z);
    StepsInverse(s, half);
    var excess := Excess(lo, hi, t);
    Difference(s, excess, z);
    Difference(s, q - z, excess);
    Halves(s);
    Order(s, 0.0, excess);
    Halve(q, s);
    Order(s, excess, q * 0.5);
  }

  // How far above zero, in steps, a type can reach; 16-bit parameters spend all but the first 256
  // codes on values that the 8-bit clamp cuts off.
  function Top(t: QuantType): real {
    if t == Fp16 then 255.5 - QMax(t) as real else 255.5
  }

  // The same two conditions with the zero point of the parameters in place: rounding and clamping
  // decide nothing more.
  lemma ZeroPointDecides(t: QuantType, z: real, excess: real, k: int)
    requires 0.0 <= excess && 2.0 * excess <= QMax(t) as real && k == Clamp(Round(z), 0, QMax(t))
    ensures var q := QMax(t) as real;
      (-0.5 - k as real <= excess - z && q - z - excess <= 255.5 - k as real) <==>
      (-0.5 - q <= excess - z && q - z - excess <= Top(t))
  {
    hide Round;
    RoundNear(z);
    RoundWithin(z, QMax(t));
  }

  // The exact condition for the half-step bound, whatever the type and the range: with s the step,
  // no element lies below -(qmax + 1/2) s or above 255.5 s, or for 16 bits above (255.5 - qmax) s.
  lemma BoundIff(data: seq<real>, lo: real, hi: real, t: QuantType)
    requires IsRange(data, lo, hi)
    ensures var p := ParamsFor(lo, hi, t);
      AllWithinHalfStep(p, data) <==> Steps(p.scale, -0.5 - QMax(t) as real) <= lo && hi <= Steps(p.scale, Top(t))
  {
    hide Steps, Scale, IdealZero, Excess, Round, Clamp, AllWithinHalfStep, Top;
    var p := ParamsFor(lo, hi, t);
    var q, z, excess := QMax(t) as real, IdealZero(lo, hi, t), Excess(lo, hi, t);
    ExtremesDecide(data, lo, hi, p);
    ExtremesInSteps(lo, hi, t, z);
    LowInReach(lo, hi, t, z);
    HighInReach(lo, hi, t, z);
    ZeroPointDecides(t, z, excess, p.zeroPoint);
    Order(p.scale, -0.5 - q, excess - z);
    Order(p.scale, q - z - excess, Top(t));
    EndsInReach(p, lo, hi);
  }

  lemma EndsInReach(p: QuantParams, lo: real, hi: real)
    requires p.scale > 0.0 && lo <= hi
    ensures InReach(p, lo) && InReach(p, hi) <==>
            Steps(p.scale, -0.5 - p.zeroPoint as real) <= lo && hi <= Steps(p.scale, 255.5 - p.zeroPoint as real)
  {
  }

  // The bound promised for 8-bit and 4-bit codes: every element of data whose range contains zero
  // is reproduced to within half a step.
  lemma ZeroInRange(data: seq<real>, lo: real, hi: real, t: QuantType)
    requires IsRange(data, lo, hi) && lo <= 0.0 <= hi && t != Fp16
    ensures AllWithinHalfStep(ParamsFor(lo, hi, t), data)
  {
    hide Steps, Scale, ParamsFor, AllWithinHalfStep;
    var s, q := Scale(lo, hi, t), QMax(t) as real;
    BoundIff(data, lo, hi, t);
    ScaleOf(lo, hi, t);
    Difference(s, -0.5, q);
    Difference(s, 255.5, q);
    Halves(s);
    Order(s, 0.0, 255.5 - q);
    Order(s, 0.0, 0.5);
  }

  lemma ScaleOf(lo: real, hi: real, t: QuantType)
    ensures ParamsFor(lo, hi, t).scale == Scale(lo, hi, t)
  {
  }

  // 16-bit parameters span 65536 codes but the codes are clamped to 8 bits, so an unclipped range
  // always loses an element.
  lemma Fp16Misses(data: seq<real>, lo: real, hi: real)
    requires IsRange(data, lo, hi) && hi - lo >= RANGE_FLOOR
    ensures !AllWithinHalfStep(ParamsFor(lo, hi, Fp16), data)
  {
    hide Steps, Scale, ParamsFor, AllWithinHalfStep;
    var s, q := Scale(lo, hi, Fp16), QMax(Fp16) as real;
    BoundIff(data, lo, hi, Fp16);
    ScaleOf(lo, hi, Fp16);
    Difference(s, 255.5 - q, q);
    Order(s, -0.5 - q, 255.5 - q - q);
  }

  // Constant data, for which the range is always clipped: in reach only next to zero.
  lemma ConstantIff(c: real, t: QuantType)
    requires t != Fp16
    ensures AllWithinHalfStep(ParamsFor(c, c, t), [c]) <==>
            Steps(RANGE_FLOOR / QMax(t) as real, -0.5 - QMax(t) as real) <= c <= Steps(RANGE_FLOOR / QMax(t) as real, 255.5)
  {
    hide Steps, AllWithinHalfStep;
    assert IsRange([c], c, c);
    BoundIff([c], c, c, t);
  }

  // A tensor of one half is lost: its one code stands for 1e-7.
  lemma ConstantHalfLost()
    ensures var p := ParamsFor(0.5, 0.5, Int8);
      !AllWithinHalfStep(p, [0.5]) && DequantizeValue(p, QuantizeValue(p, 0.5)) == 0.0000001
  {
    ConstantIff(0.5, Int8);
    HalfParams();
  }

  lemma HalfParams()
    ensures var p := ParamsFor(0.5, 0.5, Int8); p.zeroPoint == 0 && QuantizeValue(p, 0.5) == CODE_MAX && p.scale == RANGE_FLOOR / 255.0
  {
    var s := RANGE_FLOOR / 255.0;
    assert 0.5 / s == 1275000000.0;
    assert IdealZero(0.5, 0.5, Int8) == 127.5 - 1275000000.0;
  }
}
