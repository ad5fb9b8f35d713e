/**
 Growing curves, and what clamping their inputs to the unit interval costs.
 Source: libweston-vendored/src/libweston/color-operations.c.
 */
module CurveRange {
  import opened Power
  import opened Curves
  import opened CurveInverse
  import opened Vectors

  // ---- continuous channels grow

  /** The power piece. */
  lemma HighMagGrows(pow: Pow, p: Chan, x: real, y: real)
    requires Laws(pow) && Upright(p) && Base(p, p.d) >= 0.0 && p.d <= x < y
    ensures 0.0 <= LinMag(pow, p, x) < LinMag(pow, p, y)
  {
    var u, v := Base(p, x), Base(p, y);
    BaseGrows(p, x);
    BaseOrder(p, x, y);
    PowOrder(pow, u, v, p.g);
    Signs(pow, u, p.g);
  }

  /** The linear piece, below its value at the cross-over. */
  lemma LowGrows(p: Chan, x: real, y: real, top: real)
    requires Upright(p) && 0.0 <= x && top == p.c * p.d
    ensures 0.0 <= p.c * x
    ensures x < p.d ==> p.c * x < top
    ensures x < y ==> p.c * x < p.c * y
  {
    Scale(p.c, 0.0, x);
    Scale(p.c, x, p.d);
    Scale(p.c, x, y);
  }

  lemma LinMagGrows(pow: Pow, p: Chan, x: real, y: real)
    requires Laws(pow) && Upright(p) && Base(p, p.d) >= 0.0 && LinpowCross(pow, p) == p.c * p.d && 0.0 <= x < y
    ensures 0.0 <= LinMag(pow, p, x) < LinMag(pow, p, y)
  {
    if x >= p.d {
      HighMagGrows(pow, p, x, y);
    } else {
      LowGrows(p, x, y, LinpowCross(pow, p));
      if y >= p.d {
        LinMagFromCross(pow, p, y);
      }
    }
  }

  lemma LinpowGrows(pow: Pow, p: Chan, x: real, y: real)
    requires Laws(pow) && Upright(p) && Base(p, p.d) >= 0.0 && LinpowCross(pow, p) == p.c * p.d && x < y
    ensures Linpow(pow, p, x) < Linpow(pow, p, y)
    ensures Linpow(pow, p, 0.0) == 0.0
  {
    LinpowMirrors(pow, p, x);
    LinpowMirrors(pow, p, y);
    if x >= 0.0 {
      LinMagGrows(pow, p, x, y);
    } else if y < 0.0 {
      LinMagGrows(pow, p, -y, -x);
    } else {
      LinMagGrows(pow, p, 0.0, -x);
      if y > 0.0 { LinMagGrows(pow, p, 0.0, y); }
    }
  }

  lemma PowMagFromCross(pow: Pow, r: Chan, x: real)
    requires Laws(pow) && Upright(r) && PowlinCross(pow, r) >= 0.0 && x >= r.d
    ensures PowMag(pow, r, x) == Base(r, pow(x, r.g)) >= PowlinCross(pow, r)
  {
    PowOrder(pow, r.d, x, r.g);
    BaseOrder(r, pow(r.d, r.g), pow(x, r.g));
  }

  lemma HighPowMagGrows(pow: Pow, r: Chan, x: real, y: real)
    requires Laws(pow) && Upright(r) && PowlinCross(pow, r) >= 0.0 && r.d <= x < y
    ensures 0.0 <= PowMag(pow, r, x) < PowMag(pow, r, y)
  {
    PowMagFromCross(pow, r, x);
    PowMagFromCross(pow, r, y);
    PowOrder(pow, x, y, r.g);
    BaseOrder(r, pow(x, r.g), pow(y, r.g));
  }

  lemma PowMagGrows(pow: Pow, r: Chan, x: real, y: real)
    requires Laws(pow) && Upright(r) && PowlinCross(pow, r) == r.c * r.d && 0.0 <= x < y
    ensures 0.0 <= PowMag(pow, r, x) < PowMag(pow, r, y)
  {
    LowGrows(r, 0.0, r.d, PowlinCross(pow, r));
    if x >= r.d {
      HighPowMagGrows(pow, r, x, y);
    } else {
      LowGrows(r, x, y, PowlinCross(pow, r));
      if y >= r.d {
        PowMagFromCross(pow, r, y);
      }
    }
  }

  lemma PowlinGrows(pow: Pow, r: Chan, x: real, y: real)
    requires Laws(pow) && Upright(r) && PowlinCross(pow, r) == r.c * r.d && x < y
    ensures Powlin(pow, r, x) < Powlin(pow, r, y)
  {
    PowlinMirrors(pow, r, x);
    PowlinMirrors(pow, r, y);
    if x >= 0.0 {
      PowMagGrows(pow, r, x, y);
    } else if y < 0.0 {
      PowMagGrows(pow, r, -y, -x);
    } else {
      PowMagGrows(pow, r, 0.0, -x);
      if y > 0.0 { PowMagGrows(pow, r, 0.0, y); }
    }
  }

  // ---- a growing curve and its inverse with clamped inputs

  function Clamped(f: real -> real, x: real): real {
    f(Clamp(x, 0.0, 1.0))
  }

  /** f grows through 0 and g is its inverse on both sides. */
  ghost predicate GrowingPair(f: real -> real, g: real -> real) {
    && f(0.0) == 0.0
    && (forall x: real, y: real :: x < y ==> f(x) < f(y))
    && (forall x: real :: g(f(x)) == x && f(g(x)) == x)
  }

  lemma PairFlips(f: real -> real, g: real -> real)
    requires GrowingPair(f, g)
    ensures GrowingPair(g, f)
  {
    forall x: real, y: real | x < y ensures g(x) < g(y) {
      assert g(y) < g(x) ==> f(g(y)) < f(g(x));
    }
    assert g(f(0.0)) == 0.0;
  }

  /** With clamped inputs exactly the part of the unit interval comes back that f does not take above 1. */
  lemma ClampedPairIff(f: real -> real, g: real -> real, x: real)
    requires GrowingPair(f, g)
    ensures Clamped(g, Clamped(f, x)) == x <==> 0.0 <= x <= 1.0 && x <= g(1.0)
  {
    PairFlips(f, g);
    var t := Clamp(x, 0.0, 1.0);
    var y := f(t);
    assert t > 0.0 ==> y > f(0.0);
    assert g(y) == t;
    assert y > 1.0 ==> g(1.0) < g(y);
    assert y < 1.0 ==> g(y) < g(1.0);
    assert g(0.0) < g(1.0);
  }

  /** That is all of it exactly when f is at most 1 at 1. */
  lemma ReachesOne(f: real -> real, g: real -> real)
    requires GrowingPair(f, g)
    ensures f(1.0) <= 1.0 <==> 1.0 <= g(1.0)
  {
    PairFlips(f, g);
    assert g(f(1.0)) == 1.0;
    assert f(1.0) < 1.0 ==> g(f(1.0)) < g(1.0);
    assert f(1.0) > 1.0 ==> g(1.0) < g(f(1.0));
  }
}
