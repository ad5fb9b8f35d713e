/**
 The perceptual quantizer of SMPTE ST 2084 (Table 4 of ITU-R BT.2100) and its
 inverse, on normalised values. Source:
 libweston-vendored/src/libweston/color-operations.c.
 */
module Pq {
  import opened Power
  import opened Reals

  const C1: real := 0.8359375
  const C2: real := 18.8515625
  const C3: real := 18.6875
  const M1: real := 0.1593017578125
  const M2: real := 78.84375

  /** The rational step from the root of the signal to the root of the light. */
  function Ratio(e: real): real
    requires C2 - C3 * e != 0.0
  {
    Max(e - C1, 0.0) / (C2 - C3 * e)
  }

  /** The rational step back. */
  function RatioInverse(t: real): real
    requires 1.0 + C3 * t != 0.0
  {
    (C1 + C2 * t) / (1.0 + C3 * t)
  }

  /** The denominators do not vanish. */
  predicate Defined(pow: Pow, x: real) {
    C2 - C3 * pow(x, 1.0 / M2) != 0.0
  }

  predicate InverseDefined(pow: Pow, y: real) {
    1.0 + C3 * pow(y, M1) != 0.0
  }

  /** perceptual_quantizer */
  function Quantizer(pow: Pow, x: real): real
    requires Defined(pow, x)
  {
    pow(Ratio(pow(x, 1.0 / M2)), 1.0 / M1)
  }

  /** perceptual_quantizer_inverse */
  function QuantizerInverse(pow: Pow, y: real): real
    requires InverseDefined(pow, y)
  {
    pow(RatioInverse(pow(y, M1)), M2)
  }

  predicate Unit(x: real) {
    0.0 <= x <= 1.0
  }

  // ---- the rational step

  lemma NonnegQuotient(q: real, s: real)
    requires s > 0.0
    ensures q * s >= 0.0 <==> q >= 0.0
    ensures q * s > 0.0 <==> q > 0.0
  {
  }

  /** Both denominators and the order of the values, from the one equation that ties e and t. */
  lemma Tied(e: real, t: real)
    requires e * (1.0 + C3 * t) == C1 + C2 * t && t >= 0.0
    ensures C2 - C3 * e > 0.0 && e >= C1 && t * (C2 - C3 * e) == e - C1
    ensures t <= 1.0 ==> e <= 1.0
  {
    var s := 1.0 + C3 * t;
    assert (C2 - C3 * e) * s == C2 * s - C3 * (e * s) == C2 - C1 * C3;
    NonnegQuotient(C2 - C3 * e, s);
    assert (e - C1) * s == (C2 - C1 * C3) * t;
    NonnegQuotient(e - C1, s);
    assert (1.0 - e) * s == 0.1640625 * (1.0 - t);
    NonnegQuotient(1.0 - e, s);
  }

  lemma RatioUndoes(t: real)
    requires t >= 0.0
    ensures var e := RatioInverse(t);
            C2 - C3 * e > 0.0 && e >= C1 && Ratio(e) == t && (t <= 1.0 ==> e <= 1.0)
  {
    var e := Divide(C1 + C2 * t, 1.0 + C3 * t);
    Tied(e, t);
    var q := Divide(e - C1, C2 - C3 * e);
    Cancel(C2 - C3 * e, q, t);
  }

  lemma RatioUndone(e: real)
    requires C1 <= e <= 1.0
    ensures C2 - C3 * e > 0.0
    ensures var t := Ratio(e);
            0.0 <= t <= 1.0 && RatioInverse(t) == e
  {
    var s := C2 - C3 * e;
    assert s > 0.0;
    var t := Divide(e - C1, s);
    NonnegQuotient(t, s);
    NonnegQuotient(1.0 - t, s);
    assert (1.0 - t) * s == s - t * s == (1.0 + C3) * (1.0 - e);
    var r := Divide(C1 + C2 * t, 1.0 + C3 * t);
    assert e * (1.0 + C3 * t) == C1 + C2 * t by {
      assert t * C2 - t * C3 * e == e - C1;
    }
    Cancel(1.0 + C3 * t, r, e);
  }

  // ---- the powers around it

  lemma UnitPower(pow: Pow, x: real, g: real)
    requires Laws(pow) && Unit(x) && g > 0.0
    ensures Unit(pow(x, g))
  {
    Signs(pow, x, g);
    AtOne(pow, g);
    Monotone(pow, x, 1.0, g);
  }

  /** On [0,1] neither denominator vanishes. */
  lemma DefinedOnUnit(pow: Pow, x: real)
    requires Laws(pow) && Unit(x)
    ensures Defined(pow, x) && InverseDefined(pow, x)
  {
    UnitPower(pow, x, 1.0 / M2);
    UnitPower(pow, x, M1);
  }

  lemma RootOfInverse(pow: Pow, y: real)
    requires Laws(pow) && Unit(y)
    ensures InverseDefined(pow, y) && Unit(QuantizerInverse(pow, y))
    ensures QuantizerInverse(pow, y) >= pow(C1, M2)
    ensures pow(QuantizerInverse(pow, y), 1.0 / M2) == RatioInverse(pow(y, M1))
  {
    DefinedOnUnit(pow, y);
    UnitPower(pow, y, M1);
    var t := pow(y, M1);
    var e := RatioInverse(t);
    RatioUndoes(t);
    UnitPower(pow, e, M2);
    Monotone(pow, C1, e, M2);
    assert M2 * (1.0 / M2) == 1.0;
    Root(pow, e, M2, 1.0 / M2);
  }

  /** On [0,1] the quantizer undoes its inverse. */
  lemma QuantizerUndoesInverse(pow: Pow, y: real)
    requires Laws(pow) && Unit(y)
    ensures InverseDefined(pow, y) && Defined(pow, QuantizerInverse(pow, y))
    ensures Quantizer(pow, QuantizerInverse(pow, y)) == y
  {
    RootOfInverse(pow, y);
    DefinedOnUnit(pow, QuantizerInverse(pow, y));
    var t := pow(y, M1);
    UnitPower(pow, y, M1);
    RatioUndoes(t);
    assert M1 * (1.0 / M1) == 1.0;
    Root(pow, y, M1, 1.0 / M1);
  }

  lemma QuantizerInUnit(pow: Pow, x: real)
    requires Laws(pow) && Unit(x)
    ensures Defined(pow, x) && Unit(Quantizer(pow, x))
  {
    DefinedOnUnit(pow, x);
    UnitPower(pow, x, 1.0 / M2);
    var e := pow(x, 1.0 / M2);
    if e >= C1 {
      RatioUndone(e);
      UnitPower(pow, Ratio(e), 1.0 / M1);
    } else {
      assert Ratio(e) == 0.0;
      UnitPower(pow, 0.0, 1.0 / M1);
    }
  }

  lemma RootIsAbove(pow: Pow, x: real)
    requires Laws(pow) && Unit(x)
    ensures pow(x, 1.0 / M2) >= C1 <==> x >= pow(C1, M2)
    ensures pow(pow(x, 1.0 / M2), M2) == x
  {
    var e := pow(x, 1.0 / M2);
    UnitPower(pow, x, 1.0 / M2);
    Root(pow, x, 1.0 / M2, M2);
    Monotone(pow, C1, e, M2);
    Monotone(pow, e, C1, M2);
  }

  /**
   The other way round the pair is a round trip on [0,1] exactly from
   c1 to the m2 upwards: everything below is sent to 0, and 0 comes back as
   c1 to the m2.
   */
  lemma InverseUndoesQuantizerIff(pow: Pow, x: real)
    requires Laws(pow) && Unit(x)
    ensures Defined(pow, x) && InverseDefined(pow, Quantizer(pow, x))
    ensures QuantizerInverse(pow, Quantizer(pow, x)) == x <==> x >= pow(C1, M2)
  {
    QuantizerInUnit(pow, x);
    DefinedOnUnit(pow, Quantizer(pow, x));
    RootIsAbove(pow, x);
    RootOfInverse(pow, Quantizer(pow, x));
    if x >= pow(C1, M2) {
      UpperUndone(pow, x);
    }
  }

  /** Black is one of the inputs that do not come back. */
  lemma BlackNotUndone(pow: Pow)
    requires Laws(pow)
    ensures Defined(pow, 0.0) && InverseDefined(pow, Quantizer(pow, 0.0))
    ensures QuantizerInverse(pow, Quantizer(pow, 0.0)) != 0.0
  {
    InverseUndoesQuantizerIff(pow, 0.0);
    Signs(pow, C1, M2);
  }

  lemma UpperUndone(pow: Pow, x: real)
    requires Laws(pow) && Unit(x) && x >= pow(C1, M2)
    ensures Defined(pow, x) && InverseDefined(pow, Quantizer(pow, x))
    ensures QuantizerInverse(pow, Quantizer(pow, x)) == x
  {
    QuantizerInUnit(pow, x);
    DefinedOnUnit(pow, Quantizer(pow, x));
    RootIsAbove(pow, x);
    UnitPower(pow, x, 1.0 / M2);
    var e := pow(x, 1.0 / M2);
    RatioUndone(e);
    var t := Ratio(e);
    Root(pow, t, 1.0 / M1, M1);
  }
}
