/**
 The tabled sRGB curve and its tabled inverse, whose cross-over is rounded.
 Source: libweston-vendored/src/libweston/color-properties.c.
 */
module Srgb {
  import opened Reals
  import opened Power
  import opened Curves
  import opened CurveInverse
  import opened CurveThreshold

  const SRGB_CHAN: Chan := Chan(2.4, 1.0 / 1.055, 0.055 / 1.055, 1.0 / 12.92, 0.04045)
  const SRGB_INVERSE_CHAN: Chan := Chan(1.0 / 2.4, 1.055, -0.055, 12.92, 0.0031308)

  /** The smallest magnitude whose linear value reaches the rounded cross-over. */
  const GAP: real := 0.040449936

  lemma SrgbBases(m: real)
    ensures Base(SRGB_CHAN, m) == (m + 0.055) / 1.055
    ensures Straight(SRGB_CHAN, m) == m / 12.92
    ensures Straight(SRGB_CHAN, m) >= SRGB_INVERSE_CHAN.d <==> m >= GAP
  {
  }

  lemma SrgbPair()
    ensures Pair(SRGB_CHAN, SRGB_INVERSE_CHAN)
  {
  }

  /**
   Between the rounded cross-over and the exact one the power piece stays above
   the linear piece, and its mirror image misses it.
   */
  ghost predicate PiecesApart(pow: Pow) {
    forall m: real :: GAP <= m < SRGB_CHAN.d ==> ApartAt(pow, m)
  }

  predicate ApartAt(pow: Pow, m: real) {
    && pow(Base(SRGB_CHAN, m), SRGB_CHAN.g) > Straight(SRGB_CHAN, m)
    && !Takes(pow, SRGB_CHAN, -m, Straight(SRGB_CHAN, m))
  }

  lemma CrossAboveRounded(pow: Pow)
    requires Laws(pow) && PiecesApart(pow)
    ensures LinpowCross(pow, SRGB_CHAN) > SRGB_INVERSE_CHAN.d
  {
    var p := SRGB_CHAN;
    assert ApartAt(pow, GAP);
    SrgbBases(GAP);
    SrgbBases(p.d);
    PowOrder(pow, Base(p, GAP), Base(p, p.d), p.g);
  }

  lemma HighMagnitude(pow: Pow, m: real)
    requires Laws(pow) && PiecesApart(pow) && m >= SRGB_CHAN.d
    ensures pow(Base(SRGB_CHAN, m), SRGB_CHAN.g) >= SRGB_INVERSE_CHAN.d
  {
    var p := SRGB_CHAN;
    CrossAboveRounded(pow);
    SrgbBases(m);
    SrgbBases(p.d);
    PowOrder(pow, Base(p, p.d), Base(p, m), p.g);
  }

  /** The curve and then its tabled inverse give x back exactly outside the gap of the rounding. */
  lemma ForwardThenInverseIff(pow: Pow, x: real)
    requires Laws(pow) && PiecesApart(pow)
    ensures Powlin(pow, SRGB_INVERSE_CHAN, Linpow(pow, SRGB_CHAN, x)) == x <==> Abs(x) < GAP || Abs(x) >= 0.04045
  {
    SrgbPair();
    ForwardIff(pow, SRGB_CHAN, SRGB_INVERSE_CHAN, x);
    var m := Abs(x);
    SrgbBases(m);
    if m >= SRGB_CHAN.d {
      HighMagnitude(pow, m);
    } else if m >= GAP {
      assert ApartAt(pow, m);
    }
  }

  /** One of the inputs that do not come back. */
  lemma SrgbFails(pow: Pow, x: real)
    requires Laws(pow) && PiecesApart(pow) && x == 0.04044994
    ensures Powlin(pow, SRGB_INVERSE_CHAN, Linpow(pow, SRGB_CHAN, x)) != x
  {
    ForwardThenInverseIff(pow, x);
  }

  /** No value between the rounded cross-over and the curve's own value there is given back. */
  lemma BackInGap(pow: Pow, m: real)
    requires Laws(pow) && PiecesApart(pow) && SRGB_INVERSE_CHAN.d <= m < LinpowCross(pow, SRGB_CHAN)
    ensures !BackOk(pow, SRGB_CHAN, SRGB_INVERSE_CHAN, m)
  {
    var p, q := SRGB_CHAN, SRGB_INVERSE_CHAN;
    var t := Straight(q, m);
    if t < p.d {
      SrgbBases(t);
      assert Straight(p, t) == m;
      assert ApartAt(pow, t);
    }
  }

  /** The tabled inverse and then the curve. */
  lemma InverseThenForwardIff(pow: Pow, y: real)
    requires Laws(pow) && PiecesApart(pow)
    ensures Linpow(pow, SRGB_CHAN, Powlin(pow, SRGB_INVERSE_CHAN, y)) == y <==>
            Abs(y) < 0.0031308 || Abs(y) >= LinpowCross(pow, SRGB_CHAN)
  {
    SrgbPair();
    BackIff(pow, SRGB_CHAN, SRGB_INVERSE_CHAN, y);
    CrossAboveRounded(pow);
    var m := Abs(y);
    if SRGB_INVERSE_CHAN.d <= m < LinpowCross(pow, SRGB_CHAN) {
      BackInGap(pow, m);
    }
  }

  // ---- where the pieces are apart

  function Fourth(u: real): real {
    (u * u) * (u * u)
  }

  function Fifth(y: real): real {
    Fourth(y) * y
  }

  function Twelfth(u: real): real {
    Fourth(u) * Fourth(u) * Fourth(u)
  }

  /** f of the power is t of the base. */
  ghost predicate Relates(pow: Pow, f: real -> real, t: real -> real) {
    forall u: real :: u >= 0.0 ==> f(pow(u, 2.4)) == t(u)
  }

  ghost predicate Grows(f: real -> real) {
    forall y: real, z: real :: 0.0 <= y <= z ==> f(y) <= f(z)
  }

  lemma ProductGrows(a: real, b: real, c: real, d: real)
    requires 0.0 <= a <= b && 0.0 <= c <= d
    ensures 0.0 <= a * c <= b * d
  {
    assert a * c <= b * c <= b * d;
  }

  lemma FourthGrows(u: real, v: real)
    requires 0.0 <= u <= v
    ensures 0.0 <= Fourth(u) <= Fourth(v)
  {
    ProductGrows(u, v, u, v);
    ProductGrows(u * u, v * v, u * u, v * v);
  }

  lemma FifthGrows()
    ensures Grows(Fifth)
  {
    forall y: real, z: real | 0.0 <= y <= z ensures Fifth(y) <= Fifth(z) {
      FourthGrows(y, z);
      ProductGrows(Fourth(y), Fourth(z), y, z);
    }
  }

  lemma TwelfthGrows()
    ensures Grows(Twelfth)
  {
    forall u: real, v: real | 0.0 <= u <= v ensures Twelfth(u) <= Twelfth(v) {
      FourthGrows(u, v);
      ProductGrows(Fourth(u), Fourth(v), Fourth(u), Fourth(v));
      ProductGrows(Fourth(u) * Fourth(u), Fourth(v) * Fourth(v), Fourth(u), Fourth(v));
    }
  }

  /** A lower bound of the base and an upper bound of the value, compared through f and t. */
  lemma AboveByBounds(pow: Pow, f: real -> real, t: real -> real, u: real, low: real, y: real, high: real)
    requires Laws(pow) && Grows(f) && Grows(t) && Relates(pow, f, t)
    requires 0.0 <= low <= u && 0.0 <= y <= high && t(low) > f(high)
    ensures pow(u, 2.4) > y
  {
    Signs(pow, u, 2.4);
    assert t(low) <= t(u) && f(y) <= f(high);
    assert f(pow(u, 2.4)) == t(u);
  }

  lemma BelowByBounds(pow: Pow, f: real -> real, t: real -> real, u: real, high: real, y: real, low: real)
    requires Laws(pow) && Grows(f) && Grows(t) && Relates(pow, f, t)
    requires 0.0 <= u <= high && 0.0 <= low <= y && t(high) < f(low)
    ensures pow(u, 2.4) < y
  {
    Signs(pow, u, 2.4);
    assert t(u) <= t(high) && f(low) <= f(y);
    assert f(pow(u, 2.4)) == t(u);
  }

  lemma FirstThird()
    ensures Twelfth(0.09047387298) > Fifth(0.0031308018576)
  {
  }

  lemma SecondThird()
    ensures Twelfth(0.09047389573) > Fifth(0.0031308034056)
  {
  }

  lemma LastThird()
    ensures Twelfth(0.09047391469) > Fifth(0.0031308049536)
  {
  }

  lemma MirrorImage()
    ensures Twelfth(0.014) < Fifth(0.0031308)
  {
  }

  lemma GapBounds(m: real) returns (low: real, high: real)
    requires GAP <= m < SRGB_CHAN.d
    ensures 0.0 <= low <= Base(SRGB_CHAN, m) && 0.0 <= Straight(SRGB_CHAN, m) <= high && Twelfth(low) > Fifth(high)
  {
    SrgbBases(m);
    if m < 0.04044996 {
      FirstThird();
      low, high := 0.09047387298, 0.0031308018576;
    } else if m < 0.04044998 {
      SecondThird();
      low, high := 0.09047389573, 0.0031308034056;
    } else {
      LastThird();
      low, high := 0.09047391469, 0.0031308049536;
    }
  }

  lemma MirrorBounds(m: real)
    requires GAP <= m < SRGB_CHAN.d
    ensures 0.0 <= Base(SRGB_CHAN, -m) <= 0.014 && 0.0031308 <= Straight(SRGB_CHAN, m)
  {
    SrgbBases(m);
    SrgbBases(-m);
  }

  /** The fifth power of x to the 2.4 is the twelfth power of x, so the true power function keeps the pieces apart. */
  lemma TwelveFifthsApart(pow: Pow)
    requires Laws(pow) && Relates(pow, Fifth, Twelfth)
    ensures PiecesApart(pow)
  {
    var p := SRGB_CHAN;
    FifthGrows();
    TwelfthGrows();
    MirrorImage();
    forall m: real | GAP <= m < p.d ensures ApartAt(pow, m) {
      var low, high := GapBounds(m);
      AboveByBounds(pow, Fifth, Twelfth, Base(p, m), low, Straight(p, m), high);
      MirrorBounds(m);
      BelowByBounds(pow, Fifth, Twelfth, Base(p, -m), 0.014, Straight(p, m), 0.0031308);
    }
  }

  lemma ExampleApart()
    ensures PiecesApart(Example)
  {
    forall m: real | GAP <= m < SRGB_CHAN.d ensures ApartAt(Example, m) {
      SrgbBases(m);
      SrgbBases(-m);
    }
  }
}
