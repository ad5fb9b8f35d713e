/**
 LINPOW and POWLIN channels that are inverse to each other but for their
 cross-over points: exactly which inputs they give back. Source:
 libweston-vendored/src/libweston/color-operations.c.
 */
module CurveThreshold {
  import opened Reals
  import opened Power
  import opened Curves
  import opened CurveInverse

  predicate MatchedUpToCross(p: Chan, q: Chan) {
    p.g * q.g == 1.0 && p.a * q.a == 1.0 && p.a * q.b == -p.b && p.c * q.c == 1.0
  }

  /** A rising LINPOW channel with both pieces, and a POWLIN channel with the inverse formulas. */
  predicate Pair(p: Chan, q: Chan) {
    MatchedUpToCross(p, q) && Upright(p) && p.d > 0.0 && Base(p, p.d) > 0.0 && q.d >= 0.0
  }

  lemma PairSigns(p: Chan, q: Chan)
    requires Pair(p, q)
    ensures q.g > 0.0 && q.c > 0.0
  {
    NonzeroFactors(p.g, q.g);
    NonzeroFactors(p.c, q.c);
  }

  lemma AffineUndone(p: Chan, q: Chan, x: real)
    requires MatchedUpToCross(p, q)
    ensures Base(q, Base(p, x)) == x && Base(p, Base(q, x)) == x
  {
    var r := q.(d := p.c * p.d);
    assert Matched(p, r);
    MatchedSymmetric(p, r);
    AffineBack(p, r, x);
    AffineBack(r, p, x);
  }

  /** The power piece, continued to z, has the value y there. */
  predicate Takes(pow: Pow, p: Chan, z: real, y: real) {
    Base(p, z) >= 0.0 && pow(Base(p, z), p.g) == y
  }

  lemma TakesGivesRoot(pow: Pow, p: Chan, q: Chan, z: real, y: real)
    requires Laws(pow) && Pair(p, q) && Takes(pow, p, z, y)
    ensures Base(q, pow(y, q.g)) == z
  {
    Root(pow, Base(p, z), p.g, q.g);
    AffineUndone(p, q, z);
  }

  lemma RootTakes(pow: Pow, p: Chan, q: Chan, y: real)
    requires Laws(pow) && Pair(p, q) && y >= 0.0
    ensures Takes(pow, p, Base(q, pow(y, q.g)), y)
  {
    PairSigns(p, q);
    Signs(pow, y, q.g);
    Root(pow, y, q.g, p.g);
    AffineUndone(p, q, pow(y, q.g));
  }

  /** The power piece of the inverse gives m exactly for the values the piece takes at m or at -m. */
  lemma PowerUndoes(pow: Pow, p: Chan, q: Chan, y: real, m: real)
    requires Laws(pow) && Pair(p, q) && y >= 0.0 && m >= 0.0
    ensures Abs(Base(q, pow(y, q.g))) == m <==> Takes(pow, p, m, y) || Takes(pow, p, -m, y)
  {
    RootTakes(pow, p, q, y);
    if Takes(pow, p, m, y) {
      TakesGivesRoot(pow, p, q, m, y);
    } else if Takes(pow, p, -m, y) {
      TakesGivesRoot(pow, p, q, -m, y);
    }
  }

  /** The linear piece. */
  function Straight(p: Chan, x: real): real {
    p.c * x
  }

  // ---- LINPOW then POWLIN

  predicate ForwardOk(pow: Pow, p: Chan, q: Chan, m: real) {
    if m < p.d then Straight(p, m) < q.d || Takes(pow, p, m, Straight(p, m)) || Takes(pow, p, -m, Straight(p, m))
    else pow(Base(p, m), p.g) >= q.d || pow(Base(p, m), p.g) == Straight(p, m)
  }

  lemma LinearUndoes(p: Chan, q: Chan, y: real, m: real)
    requires MatchedUpToCross(p, q)
    ensures Straight(q, y) == m <==> y == Straight(p, m)
  {
    ScaleBack(p.c, q.c, y);
    ScaleBack(p.c, q.c, m);
  }

  lemma ForwardLow(pow: Pow, p: Chan, q: Chan, m: real)
    requires Laws(pow) && Pair(p, q) && 0.0 <= m < p.d
    ensures PowMag(pow, q, LinMag(pow, p, m)) == m <==> ForwardOk(pow, p, q, m)
    ensures LinMag(pow, p, m) >= 0.0 && (m > 0.0 ==> LinMag(pow, p, m) > 0.0)
  {
    Scale(p.c, 0.0, m);
    LinearUndoes(p, q, Straight(p, m), m);
    PowerUndoes(pow, p, q, Straight(p, m), m);
  }

  lemma ForwardHigh(pow: Pow, p: Chan, q: Chan, m: real)
    requires Laws(pow) && Pair(p, q) && m >= p.d
    ensures PowMag(pow, q, LinMag(pow, p, m)) == m <==> ForwardOk(pow, p, q, m)
    ensures LinMag(pow, p, m) > 0.0
  {
    BaseGrows(p, m);
    Signs(pow, Base(p, m), p.g);
    var y := pow(Base(p, m), p.g);
    if y < q.d {
      LinearUndoes(p, q, y, m);
    } else {
      PowerUndoes(pow, p, q, y, m);
    }
  }

  /** The pair gives x back exactly on these magnitudes. */
  lemma ForwardIff(pow: Pow, p: Chan, q: Chan, x: real)
    requires Laws(pow) && Pair(p, q)
    ensures Powlin(pow, q, Linpow(pow, p, x)) == x <==> ForwardOk(pow, p, q, Abs(x))
  {
    var m := Abs(x);
    if m < p.d {
      ForwardLow(pow, p, q, m);
    } else {
      ForwardHigh(pow, p, q, m);
    }
    LinpowMirrors(pow, p, x);
    PowlinMirrors(pow, q, Linpow(pow, p, x));
  }

  // ---- POWLIN then LINPOW

  predicate BackOk(pow: Pow, p: Chan, q: Chan, m: real) {
    if m < q.d then Straight(q, m) < p.d || Takes(pow, p, Straight(q, m), m)
    else m >= LinpowCross(pow, p) || (Straight(q, m) < p.d && (Takes(pow, p, Straight(q, m), m) || Takes(pow, p, -(Straight(q, m)), m)))
  }

  lemma BackLow(pow: Pow, p: Chan, q: Chan, m: real)
    requires Laws(pow) && Pair(p, q) && 0.0 <= m < q.d
    ensures LinMag(pow, p, PowMag(pow, q, m)) == m <==> BackOk(pow, p, q, m)
    ensures PowMag(pow, q, m) >= 0.0 && (m > 0.0 ==> PowMag(pow, q, m) > 0.0)
  {
    PairSigns(p, q);
    Scale(q.c, 0.0, m);
    ScaleBack(p.c, q.c, m);
    if Straight(q, m) >= p.d {
      BaseGrows(p, Straight(q, m));
      Signs(pow, Base(p, Straight(q, m)), p.g);
    }
  }

  /** From the cross-over value on, the root is past the cross-over. */
  lemma BackHigh(pow: Pow, p: Chan, q: Chan, m: real, v: real)
    requires Laws(pow) && Pair(p, q) && m >= 0.0 && Takes(pow, p, v, m)
    ensures m >= LinpowCross(pow, p) <==> v >= p.d
  {
    PowOrder(pow, Base(p, p.d), Base(p, v), p.g);
    BaseOrder(p, p.d, v);
  }

  lemma MirroredMisses(pow: Pow, p: Chan, v: real, m: real)
    requires Laws(pow) && Upright(p) && p.d > 0.0 && Takes(pow, p, v, m) && v <= -p.d
    ensures LinMag(pow, p, -v) != m
  {
    BaseOrder(p, v, -v);
    PowOrder(pow, Base(p, v), Base(p, -v), p.g);
    Signs(pow, Base(p, -v), p.g);
  }

  lemma BackGap(pow: Pow, p: Chan, q: Chan, m: real, v: real)
    requires Laws(pow) && Pair(p, q) && m >= q.d && v == Base(q, pow(m, q.g)) && Takes(pow, p, v, m)
    requires m < LinpowCross(pow, p) && v < p.d
    ensures LinMag(pow, p, Abs(v)) == m <==> BackOk(pow, p, q, m)
  {
    PairSigns(p, q);
    Scale(q.c, 0.0, m);
    PowerUndoes(pow, p, q, m, Straight(q, m));
    if Abs(v) < p.d {
      LinearUndoes(p, q, m, Abs(v));
      assert LinMag(pow, p, Abs(v)) == Straight(p, Abs(v));
      assert LinMag(pow, p, Abs(v)) == m <==> Abs(v) == Straight(q, m);
    } else {
      MirroredMisses(pow, p, v, m);
    }
  }

  lemma BackPower(pow: Pow, p: Chan, q: Chan, m: real)
    requires Laws(pow) && Pair(p, q) && m >= q.d
    ensures LinMag(pow, p, PowMag(pow, q, m)) == m <==> BackOk(pow, p, q, m)
  {
    var v := Base(q, pow(m, q.g));
    RootTakes(pow, p, q, m);
    BackHigh(pow, p, q, m, v);
    if v < p.d {
      BackGap(pow, p, q, m, v);
    }
  }

  lemma BackIff(pow: Pow, p: Chan, q: Chan, y: real)
    requires Laws(pow) && Pair(p, q)
    ensures Linpow(pow, p, Powlin(pow, q, y)) == y <==> BackOk(pow, p, q, Abs(y))
  {
    var m := Abs(y);
    if m < q.d {
      BackLow(pow, p, q, m);
    } else {
      BackPower(pow, p, q, m);
    }
    PowlinMirrors(pow, q, y);
    LinpowMirrors(pow, p, Powlin(pow, q, y));
    if PowMag(pow, q, m) == 0.0 {
      assert LinMag(pow, p, 0.0) == 0.0;
    }
  }
}
