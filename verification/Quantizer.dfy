// linear_model_tflite/src/main.cpp: the int8 quantisation of the model's input (lines 53-58),
// the dequantisation of its output (line 67) and the loop around the inference. Arithmetic is
// over the reals; the conversion to int truncates toward zero (section 7.10 of C++17).
module Quantizer {
  import opened Common

  const QMIN := -128
  const QMAX := 127

  predicate IsInt8(q: int) {
    QMIN <= q <= QMAX
  }

  /** (int32_t)x */
  function Trunc(x: real): int {
    if x >= 0.0 then x.Floor else -((-x).Floor)
  }

  function Clamp(q: int): int {
    if q > QMAX then QMAX else if q < QMIN then QMIN else q
  }

  /** The code before clamping. */
  function Raw(x: real, scale: real, zeroPoint: int): int
    requires scale > 0.0
  {
    Trunc(x / scale) + zeroPoint
  }

  function Quantize(x: real, scale: real, zeroPoint: int): int
    requires scale > 0.0
  {
    Clamp(Raw(x, scale, zeroPoint))
  }

  function Dequantize(q: int, scale: real, zeroPoint: int): real {
    (q - zeroPoint) as real * scale
  }

  function Abs(x: real): real {
    if x >= 0.0 then x else -x
  }

  // ----- truncation -----

  /** Truncation is the integer of largest magnitude between 0 and x. */
  lemma TruncBetween(x: real)
    ensures x >= 0.0 ==> 0.0 <= Trunc(x) as real <= x < Trunc(x) as real + 1.0
    ensures x <= 0.0 ==> Trunc(x) as real - 1.0 < x <= Trunc(x) as real <= 0.0
  {
  }

  lemma TruncMonotone(x: real, y: real)
    requires x <= y
    ensures Trunc(x) <= Trunc(y)
  {
    TruncBetween(x);
    TruncBetween(y);
    assert (Trunc(x) as real) < Trunc(y) as real + 1.0;
  }

  lemma TruncOfInt(n: int)
    ensures Trunc(n as real) == n
  {
    TruncBetween(n as real);
  }

  // ----- division by a positive scale -----

  lemma DivMonotone(x: real, y: real, s: real)
    requires s > 0.0 && x <= y
    ensures x / s <= y / s
  {
    assert x / s - y / s == (x - y) / s;
  }

  lemma MulPositive(a: real, b: real)
    requires a > 0.0 && b > 0.0
    ensures a * b > 0.0
  {
  }

  lemma DivMul(a: real, s: real)
    requires s > 0.0
    ensures a * s / s == a
  {
  }

  lemma MulDiv(x: real, s: real)
    requires s > 0.0
    ensures (x / s) * s == x
  {
  }

  lemma ScaledError(q: int, x: real, s: real, z: int)
    requires s > 0.0
    ensures Dequantize(q, s, z) - x == ((q - z) as real - x / s) * s
  {
    MulDiv(x, s);
  }

  // ----- the laws -----

  /** A larger input never gets a smaller code, and every code is an int8. */
  lemma Monotone(x: real, y: real, s: real, z: int)
    requires s > 0.0 && x <= y
    ensures Quantize(x, s, z) <= Quantize(y, s, z)
    ensures -128 <= Quantize(x, s, z) <= 127
  {
    DivMonotone(x, y, s);
    TruncMonotone(x / s, y / s);
  }

  /** Comparing a product with one step compares the factor with one. */
  lemma WithinOneStep(e: real, s: real, p: real)
    requires s > 0.0 && p == e * s
    ensures p < s <==> e < 1.0
    ensures -s < p <==> -1.0 < e
  {
    if e < 1.0 {
      MulPositive(1.0 - e, s);
      assert (1.0 - e) * s == s - p;
    }
    if e > 1.0 {
      MulPositive(e - 1.0, s);
      assert (e - 1.0) * s == p - s;
    }
    if e > -1.0 {
      MulPositive(e + 1.0, s);
      assert (e + 1.0) * s == p + s;
    }
    if e < -1.0 {
      MulPositive(-1.0 - e, s);
      assert (-1.0 - e) * s == -s - p;
    }
  }

  lemma ErrorBelowScale(e: real, s: real)
    requires s > 0.0
    ensures Abs(e * s) < s <==> -1.0 < e < 1.0
  {
    WithinOneStep(e, s, e * s);
  }

  /** For an int8 zero point, dequantising recovers the input with an error strictly below one
      scale step if and only if nothing was clamped. */
  lemma ErrorLaw(x: real, s: real, z: int)
    requires s > 0.0 && IsInt8(z)
    ensures Abs(Dequantize(Quantize(x, s, z), s, z) - x) < s <==> -128 <= Raw(x, s, z) <= 127
  {
    var q, r := Quantize(x, s, z), x / s;
    var e := (q - z) as real - r;
    ScaledError(q, x, s, z);
    ErrorBelowScale(e, s);
    TruncBetween(r);
    if Raw(x, s, z) > QMAX {
      assert Trunc(r) as real >= (q - z) as real + 1.0;
    } else if Raw(x, s, z) < QMIN {
      assert Trunc(r) as real <= (q - z) as real - 1.0;
    } else {
      assert q - z == Trunc(r);
    }
  }

  /** A code lies between the zero point and the exact quotient. */
  lemma CodeBetween(x: real, s: real, z: int)
    requires s > 0.0 && IsInt8(z)
    ensures var r, t := x / s, (Quantize(x, s, z) - z) as real;
            if r >= 0.0 then 0.0 <= t <= r else r <= t <= 0.0
  {
    TruncBetween(x / s);
  }

  lemma ProductBetween(t: real, r: real, s: real, p: real, x: real)
    requires s > 0.0 && p == t * s && x == r * s
    ensures 0.0 <= t <= r ==> 0.0 <= p <= x
    ensures r <= t <= 0.0 ==> x <= p <= 0.0
  {
    assert (r - t) * s == x - p && (t - r) * s == p - x && (-t) * s == -p;
    if t > 0.0 { MulPositive(t, s); }
    if t < 0.0 { MulPositive(-t, s); }
    if r > t { MulPositive(r - t, s); }
    if r < t { MulPositive(t - r, s); }
  }

  /** ... and never overshoots: a code, clamped or not, stands for a value between 0 and the
      input. */
  lemma TowardZero(x: real, s: real, z: int)
    requires s > 0.0 && IsInt8(z)
    ensures var back := Dequantize(Quantize(x, s, z), s, z);
            if x >= 0.0 then 0.0 <= back <= x else x <= back <= 0.0
  {
    hide Quantize;
    CodeBetween(x, s, z);
    MulDiv(x, s);
    DivSign(x, s);
    ProductBetween((Quantize(x, s, z) - z) as real, x / s, s, Dequantize(Quantize(x, s, z), s, z), x);
  }

  lemma DivSign(x: real, s: real)
    requires s > 0.0
    ensures x >= 0.0 <==> x / s >= 0.0
  {
    MulDiv(x, s);
    if x / s > 0.0 { MulPositive(x / s, s); }
    if x / s < 0.0 { MulPositive(-(x / s), s); assert (-(x / s)) * s == -x; }
  }

  /** Every code survives a round trip through its real value. */
  lemma CodeRoundTrip(q: int, s: real, z: int)
    requires s > 0.0 && -128 <= q <= 127
    ensures Quantize(Dequantize(q, s, z), s, z) == q
  {
    var a := (q - z) as real;
    DivMul(a, s);
    TruncOfInt(q - z);
    assert Dequantize(q, s, z) / s == a;
    assert Raw(Dequantize(q, s, z), s, z) == q;
  }

  /** Exactly the inputs less than one step from zero get the zero point's own code; at an end
      of the range, all those beyond it do as well. */
  lemma DeadZone(x: real, s: real, z: int)
    requires s > 0.0 && IsInt8(z)
    ensures QMIN < z < QMAX ==> (Quantize(x, s, z) == z <==> -s < x < s)
    ensures z == QMIN ==> (Quantize(x, s, z) == z <==> x < s)
    ensures z == QMAX ==> (Quantize(x, s, z) == z <==> -s < x)
  {
    TruncBetween(x / s);
    MulDiv(x, s);
    WithinOneStep(x / s, s, x);
  }

  // ----- the loop -----

  /** One log line: the input, its code, and the prediction. */
  datatype Reading = Reading(input: real, code: int, prediction: real)

  /** The inference loop. `invoke[k]` is the output code of the k-th inference, or None if it
      fails, which ends the loop; the model itself is not part of this. */
  method Infer(invoke: seq<Option<int>>, inScale: real, inZero: int, outScale: real, outZero: int)
    returns (log: seq<Reading>)
    requires inScale > 0.0
    ensures |log| <= |invoke|
    ensures |log| < |invoke| ==> invoke[|log|] == None
    ensures forall k :: 0 <= k < |log| ==>
              && log[k].input == 1.0 + 1.5 * k as real
              && log[k].code == Quantize(log[k].input, inScale, inZero)
              && invoke[k].Some? && log[k].prediction == (invoke[k].value - outZero) as real * outScale
  {
    log := [];
    var current := 1.0;
    var turn := 0;
    while turn < |invoke|
      invariant 0 <= turn <= |invoke| && |log| == turn
      invariant current == 1.0 + 1.5 * turn as real
      invariant forall k :: 0 <= k < turn ==>
                  && log[k].input == 1.0 + 1.5 * k as real
                  && log[k].code == Quantize(log[k].input, inScale, inZero)
                  && invoke[k].Some? && log[k].prediction == (invoke[k].value - outZero) as real * outScale
    {
      var quantized := Trunc(current / inScale) + inZero;
      if quantized > QMAX {
        quantized := QMAX;
      }
      if quantized < QMIN {
        quantized := QMIN;
      }
      if invoke[turn] == None {
        break;
      }
      var prediction := (invoke[turn].value - outZero) as real * outScale;
      log := log + [Reading(current, quantized, prediction)];
      current := current + 1.5;
      turn := turn + 1;
    }
  }

  /** Over the run the codes never decrease, so once one is clamped at 127 all later ones are. */
  lemma CodesNeverDecrease(j: nat, k: nat, s: real, z: int)
    requires s > 0.0 && j <= k
    ensures Quantize(1.0 + 1.5 * j as real, s, z) <= Quantize(1.0 + 1.5 * k as real, s, z)
    ensures Quantize(1.0 + 1.5 * j as real, s, z) == QMAX ==> Quantize(1.0 + 1.5 * k as real, s, z) == QMAX
  {
    Monotone(1.0 + 1.5 * j as real, 1.0 + 1.5 * k as real, s, z);
  }
}
