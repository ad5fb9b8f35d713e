/**
 What the named transfer functions compute, in the numbers of their standards.
 Source: libweston-vendored/src/libweston/color-properties.c, color.c and
 color-operations.c.
 */
module CurveValues {
  import opened Reals
  import opened Power
  import opened TransferFunctions
  import opened Vectors
  import opened ColorCurve
  import Pq
  import Curves
  import Srgb

  // ---- the reference

  /** Below 0 and above 1 the clamped functions have their values at 0 and 1. */
  function Limited(x: real): real {
    if x < 0.0 then 0.0 else if x > 1.0 then 1.0 else x
  }

  function Odd(f: real -> real, x: real): real {
    if x < 0.0 then -f(-x) else f(x)
  }

  /** IEC 61966-2-1: from the signal to light, and back. */
  function SrgbDecoded(pow: Pow, x: real): real {
    if x < 0.04045 then x / 12.92 else pow((x + 0.055) / 1.055, 2.4)
  }

  function SrgbEncoded(pow: Pow, x: real): real {
    if x < 0.0031308 then 12.92 * x else Abs(1.055 * pow(x, 1.0 / 2.4) - 0.055)
  }

  /** Table 4 of ITU-R BT.2100, normalised. */
  function PqDecoded(pow: Pow, x: real): real
    requires 18.8515625 - 18.6875 * pow(x, 1.0 / 78.84375) != 0.0
  {
    var r := pow(x, 1.0 / 78.84375);
    pow((if r < 0.8359375 then 0.0 else r - 0.8359375) / (18.8515625 - 18.6875 * r), 1.0 / 0.1593017578125)
  }

  function PqEncoded(pow: Pow, x: real): real
    requires 1.0 + 18.6875 * pow(x, 0.1593017578125) != 0.0
  {
    var r := pow(x, 0.1593017578125);
    pow((0.8359375 + 18.8515625 * r) / (1.0 + 18.6875 * r), 78.84375)
  }

  /** The exponent of the pure power laws. */
  function Exponent(tf: Tf, e: real): real {
    if tf == BT1886 then 2.4 else if tf == Gamma22 then 2.2 else if tf == Gamma28 then 2.8 else e
  }

  // ---- the curves compute it

  lemma PowerChannel(pow: Pow, g: real, x: real)
    requires Laws(pow) && g > 0.0
    ensures Curves.Linpow(pow, PowerLaw(g), x) == Odd(m => pow(m, g), x)
  {
    var m := Abs(x);
    assert Curves.Base(PowerLaw(g), m) == m;
    Signs(pow, m, g);
  }

  lemma ClampIsLimited(x: real)
    ensures Clamp(x, 0.0, 1.0) == Limited(x) && 0.0 <= Limited(x) <= 1.0
  {
  }

  predicate Pure(tf: Tf) {
    tf == BT1886 || tf == Gamma22 || tf == Gamma28
  }

  /** BT.1886, gamma 2.2 and gamma 2.8: the limited input to the power of the exponent, or of its reciprocal. */
  lemma PureValues(pow: Pow, tf: Tf, e: real, direction: Direction, v: Vec3)
    requires Laws(pow) && Pure(tf)
    ensures Sampleable(Enumerated(tf, e, direction))
    ensures var g := if direction == FORWARD then Exponent(tf, e) else 1.0 / Exponent(tf, e);
            Eval(pow, Enumerated(tf, e, direction), v) ==
            Vec3(pow(Limited(v.x), g), pow(Limited(v.y), g), pow(Limited(v.z), g))
  {
    var g := if direction == FORWARD then Exponent(tf, e) else 1.0 / Exponent(tf, e);
    SignOfReciprocal(Exponent(tf, e));
    ClampIsLimited(v.x);
    ClampIsLimited(v.y);
    ClampIsLimited(v.z);
    PowerChannel(pow, g, Limited(v.x));
    PowerChannel(pow, g, Limited(v.y));
    PowerChannel(pow, g, Limited(v.z));
  }

  /** A power law with a parameter: not limited, and odd. */
  lemma PowerValues(pow: Pow, e: real, direction: Direction, v: Vec3)
    requires Laws(pow) && e > 0.0
    ensures Sampleable(Enumerated(Tf.Power, e, direction))
    ensures var f := (m: real) => pow(m, if direction == FORWARD then e else 1.0 / e);
            Eval(pow, Enumerated(Tf.Power, e, direction), v) == Vec3(Odd(f, v.x), Odd(f, v.y), Odd(f, v.z))
  {
    var g := if direction == FORWARD then e else 1.0 / e;
    SignOfReciprocal(e);
    PowerChannel(pow, g, v.x);
    PowerChannel(pow, g, v.y);
    PowerChannel(pow, g, v.z);
  }

  function SrgbValue(pow: Pow, direction: Direction, x: real): real {
    if direction == FORWARD then Odd(m => SrgbDecoded(pow, m), x) else Odd(m => SrgbEncoded(pow, m), x)
  }

  lemma SrgbChannel(pow: Pow, direction: Direction, x: real)
    requires Laws(pow)
    ensures EvalSrgb(pow, direction, x) == SrgbValue(pow, direction, x)
  {
    var m := Abs(x);
    Srgb.SrgbBases(m);
    if direction == FORWARD && m >= 0.04045 {
      Signs(pow, (m + 0.055) / 1.055, 2.4);
    }
  }

  /** sRGB limits its input, extended sRGB is odd. */
  lemma SrgbValues(pow: Pow, e: real, direction: Direction, v: Vec3)
    requires Laws(pow)
    ensures Sampleable(Enumerated(TfSRGB, e, direction)) && Sampleable(Enumerated(ExtSRGB, e, direction))
    ensures Eval(pow, Enumerated(ExtSRGB, e, direction), v) ==
            Vec3(SrgbValue(pow, direction, v.x), SrgbValue(pow, direction, v.y), SrgbValue(pow, direction, v.z))
    ensures Eval(pow, Enumerated(TfSRGB, e, direction), v) ==
            Vec3(SrgbValue(pow, direction, Limited(v.x)), SrgbValue(pow, direction, Limited(v.y)),
                 SrgbValue(pow, direction, Limited(v.z)))
  {
    ClampIsLimited(v.x);
    ClampIsLimited(v.y);
    ClampIsLimited(v.z);
    SrgbEval(pow, direction, false, v);
    SrgbEval(pow, direction, true, v);
    SrgbChannel(pow, direction, v.x);
    SrgbChannel(pow, direction, v.y);
    SrgbChannel(pow, direction, v.z);
    SrgbChannel(pow, direction, Limited(v.x));
    SrgbChannel(pow, direction, Limited(v.y));
    SrgbChannel(pow, direction, Limited(v.z));
  }

  lemma PqChannel(pow: Pow, direction: Direction, x: real)
    requires Laws(pow)
    ensures var t := Limited(x);
            if direction == FORWARD
            then 18.8515625 - 18.6875 * pow(t, 1.0 / 78.84375) != 0.0 && EvalPq(pow, direction, x) == PqDecoded(pow, t)
            else 1.0 + 18.6875 * pow(t, 0.1593017578125) != 0.0 && EvalPq(pow, direction, x) == PqEncoded(pow, t)
  {
    ClampIsLimited(x);
    Pq.DefinedOnUnit(pow, Limited(x));
  }

  /** The perceptual quantizer limits its input too. */
  lemma PqValues(pow: Pow, e: real, v: Vec3)
    requires Laws(pow)
    ensures PqDefined(pow, Limited(v.x)) && PqDefined(pow, Limited(v.y)) && PqDefined(pow, Limited(v.z))
    ensures Eval(pow, Enumerated(PQ, e, FORWARD), v) ==
            Vec3(PqDecoded(pow, Limited(v.x)), PqDecoded(pow, Limited(v.y)), PqDecoded(pow, Limited(v.z)))
    ensures Eval(pow, Enumerated(PQ, e, INVERSE), v) ==
            Vec3(PqEncoded(pow, Limited(v.x)), PqEncoded(pow, Limited(v.y)), PqEncoded(pow, Limited(v.z)))
  {
    PqChannel(pow, FORWARD, v.x);
    PqChannel(pow, FORWARD, v.y);
    PqChannel(pow, FORWARD, v.z);
    PqChannel(pow, INVERSE, v.x);
    PqChannel(pow, INVERSE, v.y);
    PqChannel(pow, INVERSE, v.z);
  }

  predicate PqDefined(pow: Pow, t: real) {
    18.8515625 - 18.6875 * pow(t, 1.0 / 78.84375) != 0.0 && 1.0 + 18.6875 * pow(t, 0.1593017578125) != 0.0
  }

  // ---- parametric curves

  /** One channel on inputs that are not negative: linear below the cross-over, and the power piece from there on. */
  function ChannelPieces(pow: Pow, kind: Kind, c: Curves.Chan, x: real): real {
    if x < c.d then c.c * x
    else if kind == LINPOW then Abs(pow(c.a * x + c.b, c.g))
    else Abs(c.a * pow(x, c.g) + c.b)
  }

  /** A parametric curve is odd in every channel; clamping limits its input first. */
  lemma ParametricValues(pow: Pow, p: Parametric, v: Vec3)
    requires |p.chan| == 3
    ensures var t := if p.clamped then Vec3(Limited(v.x), Limited(v.y), Limited(v.z)) else v;
            EvalParametric(pow, p, v) ==
            Vec3(Odd(m => ChannelPieces(pow, p.kind, p.chan[0], m), t.x),
                 Odd(m => ChannelPieces(pow, p.kind, p.chan[1], m), t.y),
                 Odd(m => ChannelPieces(pow, p.kind, p.chan[2], m), t.z))
  {
    ClampIsLimited(v.x);
    ClampIsLimited(v.y);
    ClampIsLimited(v.z);
    var t := if p.clamped then Vec3(Limited(v.x), Limited(v.y), Limited(v.z)) else v;
    ChannelValue(pow, p.kind, p.chan[0], t.x);
    ChannelValue(pow, p.kind, p.chan[1], t.y);
    ChannelValue(pow, p.kind, p.chan[2], t.z);
  }

  lemma ChannelValue(pow: Pow, kind: Kind, c: Curves.Chan, x: real)
    ensures EvalChan(pow, kind, c, x) == Odd(m => ChannelPieces(pow, kind, c, m), x)
  {
  }
}
