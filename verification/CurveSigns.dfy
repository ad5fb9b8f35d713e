/**
 What the inversion tests let through: the sign condition they leave out, what
 an accepted inversion guarantees, and inverting twice. Source:
 libweston-vendored/src/libweston/color-operations.c.
 */
module CurveSigns {
  import opened Bytes
  import opened Reals
  import opened Power
  import opened Curves
  import opened CurveInverse

  // ---- LINPOW with slopes and exponents of any sign

  /** The inputs on which the power piece takes a root of a number that has one. */
  predicate InDomain(p: Chan, x: real) {
    Abs(x) < p.d || InBase(Base(p, Abs(x)), p.g)
  }

  ghost predicate UndoneOnDomain(pow: Pow, p: Chan, q: Chan) {
    forall x: real :: InDomain(p, x) ==> Powlin(pow, q, Linpow(pow, p, x)) == x
  }

  /** A cross-over inside the domain where both pieces meet. */
  predicate Meets(pow: Pow, p: Chan) {
    p.c > 0.0 && p.d > 0.0 && InBase(Base(p, p.d), p.g) && LinpowCross(pow, p) == p.c * p.d
  }

  /** Slope and exponent of different signs. */
  predicate Opposed(p: Chan) {
    (p.a > 0.0 && p.g < 0.0) || (p.a < 0.0 && p.g > 0.0)
  }

  lemma BaseFalls(p: Chan, x: real, x': real)
    requires p.a < 0.0
    ensures x < x' <==> Base(p, x) > Base(p, x')
  {
    Scale(-p.a, x, x');
  }

  lemma BothNegativePiece(pow: Pow, p: Chan, q: Chan, x: real)
    requires Laws(pow) && Matched(p, q) && Meets(pow, p) && p.a < 0.0 && p.g < 0.0
    requires x >= p.d && InBase(Base(p, x), p.g)
    ensures PowMag(pow, q, LinMag(pow, p, x)) == x && LinMag(pow, p, x) > 0.0
  {
    var u := Base(p, x);
    Scale(-p.a, p.d, x);
    if u < Base(p, p.d) {
      Antitone(pow, u, Base(p, p.d), p.g);
    }
    Signs(pow, u, p.g);
    Root(pow, u, p.g, q.g);
    AffineBack(p, q, x);
  }

  lemma BothNegativeUndone(pow: Pow, p: Chan, q: Chan, x: real)
    requires Laws(pow) && Matched(p, q) && Meets(pow, p) && p.a < 0.0 && p.g < 0.0 && InDomain(p, x)
    ensures Powlin(pow, q, Linpow(pow, p, x)) == x
  {
    var m := Abs(x);
    if m < p.d {
      LinearPiece(pow, p, q, m);
    } else {
      BothNegativePiece(pow, p, q, m);
    }
    LinpowMirrors(pow, p, x);
    PowlinMirrors(pow, q, Linpow(pow, p, x));
  }

  /** An input past the cross-over whose value is below that of the cross-over. */
  lemma FallingInput(pow: Pow, p: Chan, q: Chan) returns (x: real)
    requires Laws(pow) && Matched(p, q) && Meets(pow, p) && Opposed(p)
    ensures x > p.d && InBase(Base(p, x), p.g)
    ensures 0.0 <= pow(Base(p, x), p.g) < p.c * p.d
  {
    var u := Base(p, p.d);
    Signs(pow, u, p.g);
    Scale(p.c, 0.0, p.d);
    if p.a > 0.0 {
      x := p.d + 1.0;
      BaseOrder(p, p.d, x);
      Antitone(pow, u, Base(p, x), p.g);
    } else {
      MatchedSymmetric(p, q);
      x := Base(q, u / 2.0);
      AffineBack(q, p, u / 2.0);
      BaseFalls(p, p.d, x);
      Monotone(pow, u / 2.0, u, p.g);
    }
    Signs(pow, Base(p, x), p.g);
  }

  lemma FallingNotUndone(pow: Pow, p: Chan, q: Chan)
    requires Laws(pow) && Matched(p, q) && Meets(pow, p) && Opposed(p)
    ensures !UndoneOnDomain(pow, p, q)
  {
    var x := FallingInput(pow, p, q);
    var y := pow(Base(p, x), p.g);
    assert InDomain(p, x) && Linpow(pow, p, x) == y && Powlin(pow, q, y) == q.c * y;
    ScaleBack(p.c, q.c, y);
    Scale(p.c, p.d, x);
  }

  lemma LinpowUndoneIff(pow: Pow, p: Chan, q: Chan)
    requires Laws(pow) && Matched(p, q) && Meets(pow, p)
    ensures UndoneOnDomain(pow, p, q) <==> p.a * p.g > 0.0
  {
    NonzeroFactors(p.a, q.a);
    NonzeroFactors(p.g, q.g);
    if p.a > 0.0 && p.g > 0.0 {
      LinpowThenPowlinIff(pow, p, q);
    } else if p.a < 0.0 && p.g < 0.0 {
      forall x: real | InDomain(p, x) ensures Powlin(pow, q, Linpow(pow, p, x)) == x {
        BothNegativeUndone(pow, p, q, x);
      }
    } else {
      FallingNotUndone(pow, p, q);
    }
  }

  // ---- POWLIN with slopes and exponents of any sign

  predicate PowlinMeets(pow: Pow, r: Chan) {
    r.c > 0.0 && r.d > 0.0 && PowlinCross(pow, r) == r.c * r.d
  }

  lemma PowlinBothNegativePiece(pow: Pow, r: Chan, s: Chan, x: real)
    requires Laws(pow) && Matched(r, s) && PowlinMeets(pow, r) && r.a < 0.0 && r.g < 0.0 && x >= r.d
    ensures LinMag(pow, s, PowMag(pow, r, x)) == x && PowMag(pow, r, x) > 0.0
  {
    if x > r.d {
      Antitone(pow, r.d, x, r.g);
    }
    var v := Base(r, pow(x, r.g));
    Scale(-r.a, pow(x, r.g), pow(r.d, r.g));
    Scale(r.c, 0.0, r.d);
    LinMagOfBase(pow, r, s, x, v);
  }

  lemma PowlinBothNegativeUndone(pow: Pow, r: Chan, s: Chan, x: real)
    requires Laws(pow) && Matched(r, s) && PowlinMeets(pow, r) && r.a < 0.0 && r.g < 0.0
    ensures Linpow(pow, s, Powlin(pow, r, x)) == x
  {
    var m := Abs(x);
    if m < r.d {
      PowlinLinearPiece(pow, r, s, m);
    } else {
      PowlinBothNegativePiece(pow, r, s, m);
    }
    PowlinMirrors(pow, r, x);
    LinpowMirrors(pow, s, Powlin(pow, r, x));
  }

  /** A power whose base step lies strictly between 0 and the cross-over value. */
  lemma LowerPower(pow: Pow, r: Chan, s: Chan) returns (w: real)
    requires Laws(pow) && Matched(r, s) && PowlinMeets(pow, r)
    ensures w > 0.0 && 0.0 < Base(r, w) < r.c * r.d
  {
    var top := r.c * r.d;
    Scale(r.c, 0.0, r.d);
    Signs(pow, r.d, r.g) by { NonzeroFactors(r.g, s.g); }
    var e := pow(r.d, r.g);
    MatchedSymmetric(r, s);
    w := Base(s, top / 2.0);
    AffineBack(s, r, top / 2.0);
    NonzeroFactors(r.a, s.a);
    if r.a < 0.0 {
      Scale(-r.a, e, w);
    } else if w <= 0.0 {
      BaseOrder(r, w, e / 2.0);
      BaseOrder(r, e / 2.0, e);
      w := e / 2.0;
    }
  }

  lemma PowlinFallingInput(pow: Pow, r: Chan, s: Chan) returns (x: real)
    requires Laws(pow) && Matched(r, s) && PowlinMeets(pow, r) && Opposed(r)
    ensures x > r.d && 0.0 < Base(r, pow(x, r.g)) < r.c * r.d
  {
    var w := LowerPower(pow, r, s);
    NonzeroFactors(r.g, s.g);
    MatchedSymmetric(r, s);
    x := pow(w, s.g);
    Signs(pow, w, s.g);
    Root(pow, w, s.g, r.g);
    FallingPastCross(pow, r, x);
  }

  /** With signs that disagree, a smaller value lies at a larger input. */
  lemma FallingPastCross(pow: Pow, r: Chan, x: real)
    requires Laws(pow) && Opposed(r) && r.d > 0.0 && x > 0.0
    requires Base(r, pow(x, r.g)) < PowlinCross(pow, r)
    ensures x > r.d
  {
    var w, e := pow(x, r.g), pow(r.d, r.g);
    if r.a > 0.0 {
      BaseOrder(r, w, e);
      if x < r.d { Antitone(pow, x, r.d, r.g); }
    } else {
      BaseFalls(r, w, e);
      PowOrder(pow, r.d, x, r.g);
    }
  }

  lemma PowlinFallingNotUndone(pow: Pow, r: Chan, s: Chan)
    requires Laws(pow) && Matched(r, s) && PowlinMeets(pow, r) && Opposed(r)
    ensures !PowlinThenLinpow(pow, r, s)
  {
    var x := PowlinFallingInput(pow, r, s);
    var y := Base(r, pow(x, r.g));
    assert Powlin(pow, r, x) == y && Linpow(pow, s, y) == s.c * y;
    ScaleBack(r.c, s.c, y);
    Scale(r.c, r.d, x);
  }

  lemma PowlinUndoneIff(pow: Pow, r: Chan, s: Chan)
    requires Laws(pow) && Matched(r, s) && PowlinMeets(pow, r)
    ensures PowlinThenLinpow(pow, r, s) <==> r.a * r.g > 0.0
  {
    NonzeroFactors(r.a, s.a);
    NonzeroFactors(r.g, s.g);
    Scale(r.c, 0.0, r.d);
    if r.a > 0.0 && r.g > 0.0 {
      PowlinInverseIff(pow, r, s);
    } else if r.a < 0.0 && r.g < 0.0 {
      forall x: real ensures Linpow(pow, s, Powlin(pow, r, x)) == x {
        PowlinBothNegativeUndone(pow, r, s, x);
      }
    } else {
      PowlinFallingNotUndone(pow, r, s);
    }
  }

  // ---- both orders

  /** The inverse of a LINPOW channel whose pieces meet is a POWLIN channel whose pieces meet. */
  lemma MeetsInverse(pow: Pow, p: Chan, q: Chan)
    requires Laws(pow) && Matched(p, q) && Meets(pow, p)
    ensures PowlinMeets(pow, q) && (q.a * q.g > 0.0 <==> p.a * p.g > 0.0)
  {
    NonzeroFactors(p.c, q.c);
    Scale(p.c, 0.0, p.d);
    ScaleBack(p.c, q.c, p.d);
    Root(pow, Base(p, p.d), p.g, q.g);
    AffineBack(p, q, p.d);
    SameSigns(p, q);
  }

  lemma PowlinMeetsInverse(pow: Pow, r: Chan, s: Chan)
    requires Laws(pow) && Matched(r, s) && PowlinMeets(pow, r)
    ensures Meets(pow, s) && (s.a * s.g > 0.0 <==> r.a * r.g > 0.0)
  {
    NonzeroFactors(r.c, s.c);
    NonzeroFactors(r.g, s.g);
    Scale(r.c, 0.0, r.d);
    ScaleBack(r.c, s.c, r.d);
    Signs(pow, r.d, r.g);
    Root(pow, r.d, r.g, s.g);
    AffineBack(r, s, pow(r.d, r.g));
    SameSigns(r, s);
  }

  lemma SameSigns(p: Chan, q: Chan)
    requires Matched(p, q)
    ensures q.a * q.g > 0.0 <==> p.a * p.g > 0.0
  {
    NonzeroFactors(p.a, q.a);
    NonzeroFactors(p.g, q.g);
  }

  /**
   Both inversions test only the sizes of a and g: the signs must agree as well,
   for either order to give its inputs back.
   */
  lemma LinpowSigns(pow: Pow, p: Chan, q: Chan)
    requires Laws(pow) && Matched(p, q) && Meets(pow, p)
    ensures UndoneOnDomain(pow, p, q) <==> p.a * p.g > 0.0
    ensures PowlinThenLinpow(pow, q, p) <==> p.a * p.g > 0.0
  {
    LinpowUndoneIff(pow, p, q);
    MeetsInverse(pow, p, q);
    MatchedSymmetric(p, q);
    PowlinUndoneIff(pow, q, p);
  }

  lemma PowlinSigns(pow: Pow, r: Chan, s: Chan)
    requires Laws(pow) && Matched(r, s) && PowlinMeets(pow, r)
    ensures PowlinThenLinpow(pow, r, s) <==> r.a * r.g > 0.0
    ensures UndoneOnDomain(pow, s, r) <==> r.a * r.g > 0.0
  {
    PowlinUndoneIff(pow, r, s);
    PowlinMeetsInverse(pow, r, s);
    MatchedSymmetric(r, s);
    LinpowUndoneIff(pow, s, r);
  }

  // ---- what the two inversion functions promise

  /** The tests in numbers; cross is the power piece at the cross-over. */
  predicate PassesTests(p: Chan, cross: real) {
    && p.c >= 0.000001 && Abs(p.a) >= 0.000001 && Abs(p.g) >= 0.000001
    && Abs(p.c * p.d - cross) < 0.00001
  }

  lemma PassesIffInvertible(p: Chan, cross: real)
    ensures PassesTests(p, cross) <==> Invertible(p, cross)
  {
  }

  /** Exactly the channels that pass are inverted. */
  lemma LinpowInvertedIff(pow: Pow, p: Chan, cross: real)
    requires cross == pow(p.a * p.d + p.b, p.g)
    ensures InvertLinpow(pow, p).Some? <==> PassesTests(p, cross)
  {
    PassesIffInvertible(p, cross);
    assert Base(p, p.d) == p.a * p.d + p.b;
  }

  lemma PowlinInvertedIff(pow: Pow, p: Chan, cross: real)
    requires cross == p.a * pow(p.d, p.g) + p.b
    ensures InvertPowlin(pow, p).Some? <==> PassesTests(p, cross)
  {
    PassesIffInvertible(p, cross);
    assert cross == PowlinCross(pow, p);
  }

  /**
   An inverted LINPOW channel undoes the original on every real input exactly
   when the power piece does not start below the linear piece, and is undone by
   it exactly when it does not start above; both hold only at exact continuity,
   which the tests ask for up to 1e-5.
   */
  lemma InvertLinpowCorrect(pow: Pow, p: Chan)
    requires Laws(pow) && Invertible(p, LinpowCross(pow, p))
    requires p.a > 0.0 && p.g > 0.0 && p.d >= 0.0 && Base(p, p.d) >= 0.0
    ensures InvertLinpow(pow, p).Some?
    ensures var q := InvertLinpow(pow, p).value;
            && (LinpowThenPowlin(pow, p, q) <==> LinpowCross(pow, p) >= p.c * p.d)
            && (PowlinThenLinpow(pow, q, p) <==> LinpowCross(pow, p) <= p.c * p.d)
  {
    var q := InvertLinpow(pow, p).value;
    InvertedMatches(p);
    LinpowThenPowlinIff(pow, p, q);
    PowlinThenLinpowIff(pow, p, q);
  }

  lemma InvertPowlinCorrect(pow: Pow, r: Chan)
    requires Laws(pow) && Invertible(r, PowlinCross(pow, r))
    requires r.a > 0.0 && r.g > 0.0 && r.d >= 0.0 && PowlinCross(pow, r) >= 0.0
    ensures InvertPowlin(pow, r).Some?
    ensures var s := InvertPowlin(pow, r).value;
            && (PowlinThenLinpow(pow, r, s) <==> PowlinCross(pow, r) >= r.c * r.d)
            && (LinpowThenPowlin(pow, s, r) <==> PowlinCross(pow, r) <= r.c * r.d)
  {
    var s := InvertPowlin(pow, r).value;
    InvertedMatches(r);
    PowlinInverseIff(pow, r, s);
    PowlinInverseBackIff(pow, r, s);
  }

  /** Every accepted rising channel whose power piece starts below the linear one fails at its cross-over. */
  lemma AcceptedDropNotUndone(pow: Pow, p: Chan)
    requires Laws(pow) && Invertible(p, LinpowCross(pow, p))
    requires p.a > 0.0 && p.g > 0.0 && p.d >= 0.0 && Base(p, p.d) >= 0.0 && LinpowCross(pow, p) < p.c * p.d
    ensures InvertLinpow(pow, p).Some?
    ensures Powlin(pow, InvertLinpow(pow, p).value, Linpow(pow, p, p.d)) != p.d
  {
    InvertedMatches(p);
    LinpowDrop(pow, p, Inverted(p));
  }

  /** There is one: it starts 5e-6 below. */
  lemma DroppingChannelAccepted(pow: Pow, p: Chan)
    requires Laws(pow) && p == Chan(1.0, 1.0, -0.000005, 1.0, 1.0)
    ensures Invertible(p, LinpowCross(pow, p)) && Base(p, p.d) >= 0.0 && LinpowCross(pow, p) < p.c * p.d
  {
    assert Base(p, p.d) == 0.999995;
    ExponentOne(pow, 0.999995);
  }

  /** Every channel with opposed signs that passes the tests at exact continuity is not undone. */
  lemma AcceptedButNotUndone(pow: Pow, p: Chan)
    requires Laws(pow) && Invertible(p, LinpowCross(pow, p)) && Meets(pow, p) && Opposed(p)
    ensures InvertLinpow(pow, p).Some? && !UndoneOnDomain(pow, p, InvertLinpow(pow, p).value)
  {
    InvertedMatches(p);
    FallingNotUndone(pow, p, Inverted(p));
  }

  /** One of them: 2 - x from 1 on. */
  predicate Falling(p: Chan) {
    p == Chan(1.0, -1.0, 2.0, 1.0, 1.0)
  }

  lemma FallingPower(pow: Pow, p: Chan, x: real)
    requires Laws(pow) && Falling(p) && x <= 2.0
    ensures pow(Base(p, x), p.g) == 2.0 - x
  {
    assert Base(p, x) == 2.0 - x;
    ExponentOne(pow, 2.0 - x);
  }

  lemma FallingChannelAccepted(pow: Pow, p: Chan)
    requires Laws(pow) && Falling(p)
    ensures Invertible(p, LinpowCross(pow, p)) && Meets(pow, p) && Opposed(p)
  {
    FallingPower(pow, p, p.d);
  }

  /** Its inverse sends the value at x to 2 - x. */
  lemma FallingChannelFails(pow: Pow, p: Chan, q: Chan, x: real)
    requires Laws(pow) && Falling(p) && Matched(p, q) && 1.0 < x <= 2.0
    ensures InDomain(p, x) && Powlin(pow, q, Linpow(pow, p, x)) == 2.0 - x
  {
    FallingPower(pow, p, x);
    FallingLinearPiece(pow, p, q, 2.0 - x);
    assert Linpow(pow, p, x) == 2.0 - x;
  }

  lemma FallingLinearPiece(pow: Pow, p: Chan, q: Chan, y: real)
    requires Falling(p) && Matched(p, q) && 0.0 <= y < 1.0
    ensures Powlin(pow, q, y) == y
  {
    assert q.c == 1.0 && q.d == 1.0;
  }

  // ---- inverting twice

  const HUGE: real := 1000000.0

  lemma ReciprocalSize(s: real, t: real)
    requires s * t == 1.0
    ensures Abs(t) >= TINY <==> Abs(s) <= HUGE
  {
    var m, n := Abs(s), Abs(t);
    assert m > 0.0 && m * n == 1.0;
    Scale(m, TINY, n);
    assert m * TINY <= 1.0 <==> m <= HUGE;
  }

  /** A continuous LINPOW channel comes back unchanged exactly when no parameter is too large to be inverted again. */
  lemma InvertLinpowTwice(pow: Pow, p: Chan)
    requires Laws(pow) && Invertible(p, LinpowCross(pow, p))
    requires InBase(Base(p, p.d), p.g) && LinpowCross(pow, p) == p.c * p.d
    ensures InvertLinpow(pow, p).Some?
    ensures InvertPowlin(pow, InvertLinpow(pow, p).value) ==
            if p.c <= HUGE && Abs(p.a) <= HUGE && Abs(p.g) <= HUGE then Some(p) else None
  {
    var q := InvertLinpow(pow, p).value;
    InvertedMatches(p);
    InvertedTwice(p);
    InverseSizes(p, q);
    MatchedSymmetric(p, q);
    Root(pow, Base(p, p.d), p.g, q.g);
    AffineBack(p, q, p.d);
    assert PowlinCross(pow, q) == p.d == q.c * q.d;
  }

  lemma InverseSizes(p: Chan, q: Chan)
    requires Matched(p, q) && p.c > 0.0
    ensures q.c >= TINY <==> p.c <= HUGE
    ensures Abs(q.a) >= TINY <==> Abs(p.a) <= HUGE
    ensures Abs(q.g) >= TINY <==> Abs(p.g) <= HUGE
  {
    NonzeroFactors(p.c, q.c);
    ReciprocalSize(p.c, q.c);
    ReciprocalSize(p.a, q.a);
    ReciprocalSize(p.g, q.g);
  }

  lemma InvertPowlinTwice(pow: Pow, r: Chan)
    requires Laws(pow) && Invertible(r, PowlinCross(pow, r))
    requires InBase(r.d, r.g) && PowlinCross(pow, r) == r.c * r.d
    ensures InvertPowlin(pow, r).Some?
    ensures InvertLinpow(pow, InvertPowlin(pow, r).value) ==
            if r.c <= HUGE && Abs(r.a) <= HUGE && Abs(r.g) <= HUGE then Some(r) else None
  {
    var s := InvertPowlin(pow, r).value;
    InvertedMatches(r);
    InvertedTwice(r);
    InverseSizes(r, s);
    MatchedSymmetric(r, s);
    AffineBack(r, s, pow(r.d, r.g));
    Root(pow, r.d, r.g, s.g);
    assert LinpowCross(pow, s) == r.d == s.c * s.d;
  }
}
