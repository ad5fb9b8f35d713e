/**
 When an inverted parametric channel undoes the original, on every real input.
 Source: libweston-vendored/src/libweston/color-operations.c.
 */
module CurveInverse {
  import opened Power
  import opened Curves
  import opened Reals

  // ---- mirroring: both curves are given by what they do to magnitudes

  function LinMag(pow: Pow, p: Chan, x: real): real {
    if x >= p.d then Abs(pow(Base(p, x), p.g)) else p.c * x
  }

  function PowMag(pow: Pow, q: Chan, y: real): real {
    if y >= q.d then Abs(Base(q, pow(y, q.g))) else q.c * y
  }

  function Mirror(x: real, mag: real): real {
    if x < 0.0 then -mag else mag
  }

  lemma LinpowMirrors(pow: Pow, p: Chan, x: real)
    ensures Linpow(pow, p, x) == Mirror(x, LinMag(pow, p, Abs(x)))
  {
  }

  lemma PowlinMirrors(pow: Pow, q: Chan, y: real)
    ensures Powlin(pow, q, y) == Mirror(y, PowMag(pow, q, Abs(y)))
  {
  }

  /** The slopes and exponent are positive and the cross-over is not negative. */
  predicate Upright(p: Chan) {
    p.a > 0.0 && p.g > 0.0 && p.c > 0.0 && p.d >= 0.0
  }

  // ---- arithmetic of one piece each

  lemma Scale(s: real, t: real, u: real)
    requires s > 0.0
    ensures t < u <==> s * t < s * u
    ensures t <= u <==> s * t <= s * u
  {
  }

  lemma ScaleBack(s: real, r: real, x: real)
    requires s * r == 1.0
    ensures r * (s * x) == x && s * (r * x) == x
  {
  }

  /** Undoing u = a*x + b. */
  lemma AffineBack(p: Chan, q: Chan, x: real)
    requires Matched(p, q)
    ensures Base(q, Base(p, x)) == x
  {
  }

  // ---- LINPOW then its inverse

  lemma LinearPiece(pow: Pow, p: Chan, q: Chan, x: real)
    requires Matched(p, q) && p.c > 0.0 && 0.0 <= x < p.d
    ensures PowMag(pow, q, LinMag(pow, p, x)) == x
    ensures LinMag(pow, p, x) >= 0.0 && (x > 0.0 ==> LinMag(pow, p, x) > 0.0)
  {
  }

  lemma BaseGrows(p: Chan, x: real)
    requires p.a > 0.0 && x >= p.d
    ensures Base(p, x) >= Base(p, p.d)
    ensures x > p.d ==> Base(p, x) > Base(p, p.d)
  {
  }

  /** A positive input has a positive base when the pieces meet without a drop. */
  lemma BasePositive(pow: Pow, p: Chan, x: real)
    requires Laws(pow) && Upright(p) && Base(p, p.d) >= 0.0 && x >= p.d && x > 0.0
    requires LinpowCross(pow, p) >= p.c * p.d
    ensures Base(p, x) > 0.0
  {
    BaseGrows(p, x);
    if x == p.d && Base(p, p.d) == 0.0 {
      Signs(pow, 0.0, p.g);
      Scale(p.c, 0.0, p.d);
      assert false;
    }
  }

  lemma PowMagOfPower(pow: Pow, p: Chan, q: Chan, x: real, u: real)
    requires Laws(pow) && Matched(p, q) && x >= 0.0 && p.g > 0.0
    requires u == Base(p, x) && u >= 0.0 && pow(u, p.g) >= q.d
    ensures PowMag(pow, q, pow(u, p.g)) == x
  {
    Root(pow, u, p.g, q.g);
    AffineBack(p, q, x);
  }

  /** The power piece, undone as long as its value is not below the cross-over of the inverse. */
  lemma PowerPiece(pow: Pow, p: Chan, q: Chan, x: real)
    requires Laws(pow) && Matched(p, q) && Upright(p) && Base(p, p.d) >= 0.0 && x >= p.d
    requires LinpowCross(pow, p) >= p.c * p.d
    ensures PowMag(pow, q, LinMag(pow, p, x)) == x
    ensures LinMag(pow, p, x) >= 0.0 && (x > 0.0 ==> LinMag(pow, p, x) > 0.0)
  {
    BaseGrows(p, x);
    var u := Base(p, x);
    Monotone(pow, Base(p, p.d), u, p.g);
    Signs(pow, u, p.g);
    PowMagOfPower(pow, p, q, x, u);
    if x > 0.0 {
      BasePositive(pow, p, x);
    }
  }

  lemma LinpowUndone(pow: Pow, p: Chan, q: Chan, x: real)
    requires Laws(pow) && Matched(p, q) && Upright(p) && Base(p, p.d) >= 0.0
    requires LinpowCross(pow, p) >= p.c * p.d
    ensures Powlin(pow, q, Linpow(pow, p, x)) == x
  {
    var m := Abs(x);
    if m < p.d {
      LinearPiece(pow, p, q, m);
    } else {
      PowerPiece(pow, p, q, m);
    }
    LinpowMirrors(pow, p, x);
    PowlinMirrors(pow, q, Linpow(pow, p, x));
  }

  /** Where the power piece starts below the linear one, the cross-over point itself is not undone. */
  lemma LinpowDrop(pow: Pow, p: Chan, q: Chan)
    requires Laws(pow) && Matched(p, q) && Upright(p) && Base(p, p.d) >= 0.0
    requires LinpowCross(pow, p) < p.c * p.d
    ensures Powlin(pow, q, Linpow(pow, p, p.d)) != p.d
  {
    var y := LinpowCross(pow, p);
    Signs(pow, Base(p, p.d), p.g);
    assert Linpow(pow, p, p.d) == y;
    ScaleBack(p.c, q.c, y);
  }

  ghost predicate LinpowThenPowlin(pow: Pow, p: Chan, q: Chan) {
    forall x: real :: Powlin(pow, q, Linpow(pow, p, x)) == x
  }

  ghost predicate PowlinThenLinpow(pow: Pow, q: Chan, p: Chan) {
    forall y: real :: Linpow(pow, p, Powlin(pow, q, y)) == y
  }

  lemma LinpowThenPowlinIff(pow: Pow, p: Chan, q: Chan)
    requires Laws(pow) && Matched(p, q) && Upright(p) && Base(p, p.d) >= 0.0
    ensures LinpowThenPowlin(pow, p, q) <==> LinpowCross(pow, p) >= p.c * p.d
  {
    if LinpowCross(pow, p) >= p.c * p.d {
      forall x: real ensures Powlin(pow, q, Linpow(pow, p, x)) == x {
        LinpowUndone(pow, p, q, x);
      }
    } else {
      LinpowDrop(pow, p, q);
    }
  }

  // ---- the inverse then LINPOW

  lemma UprightInverse(p: Chan, q: Chan)
    requires Matched(p, q) && Upright(p)
    ensures Upright(q) && Matched(q, p)
  {
  }

  lemma LinearPieceBack(pow: Pow, p: Chan, q: Chan, y: real)
    requires Matched(p, q) && Upright(p) && 0.0 <= y < q.d
    ensures LinMag(pow, p, PowMag(pow, q, y)) == y
    ensures PowMag(pow, q, y) >= 0.0 && (y > 0.0 ==> PowMag(pow, q, y) > 0.0)
  {
  }

  lemma BaseOrder(p: Chan, x: real, x': real)
    requires p.a > 0.0
    ensures x < x' <==> Base(p, x) < Base(p, x')
    ensures x <= x' <==> Base(p, x) <= Base(p, x')
  {
  }

  lemma PowOrder(pow: Pow, x: real, x': real, g: real)
    requires Laws(pow) && g > 0.0 && x >= 0.0 && x' >= 0.0
    ensures x < x' <==> pow(x, g) < pow(x', g)
    ensures x <= x' <==> pow(x, g) <= pow(x', g)
  {
    Monotone(pow, x, x', g);
    Monotone(pow, x', x, g);
  }

  /** The root of y, and the input whose base it is. */
  lemma RootAndInput(pow: Pow, p: Chan, q: Chan, y: real) returns (w: real, x: real)
    requires Laws(pow) && Matched(p, q) && Upright(p) && y >= 0.0
    ensures w == pow(y, q.g) && w >= 0.0 && pow(w, p.g) == y
    ensures x == Base(q, w) && Base(p, x) == w
  {
    UprightInverse(p, q);
    w := pow(y, q.g);
    Signs(pow, y, q.g);
    Root(pow, y, q.g, p.g);
    x := Base(q, w);
    AffineBack(q, p, w);
  }

  lemma PowerPieceBack(pow: Pow, p: Chan, q: Chan, y: real)
    requires Laws(pow) && Matched(p, q) && Upright(p) && Base(p, p.d) >= 0.0 && y >= q.d
    requires LinpowCross(pow, p) <= p.c * p.d
    ensures LinMag(pow, p, PowMag(pow, q, y)) == y
    ensures PowMag(pow, q, y) >= 0.0 && (y > 0.0 ==> PowMag(pow, q, y) > 0.0)
  {
    UprightInverse(p, q);
    var w, x := RootAndInput(pow, p, q, y);
    PowOrder(pow, Base(p, p.d), w, p.g);
    BaseOrder(p, p.d, x);
    assert PowMag(pow, q, y) == x;
    assert y > 0.0 && x == 0.0 ==> p.d == 0.0;
    Scale(p.c, 0.0, p.d);
  }

  lemma PowlinUndoes(pow: Pow, p: Chan, q: Chan, y: real)
    requires Laws(pow) && Matched(p, q) && Upright(p) && Base(p, p.d) >= 0.0
    requires LinpowCross(pow, p) <= p.c * p.d
    ensures Linpow(pow, p, Powlin(pow, q, y)) == y
  {
    var m := Abs(y);
    if m < q.d {
      LinearPieceBack(pow, p, q, m);
    } else {
      PowerPieceBack(pow, p, q, m);
    }
    PowlinMirrors(pow, q, y);
    LinpowMirrors(pow, p, Powlin(pow, q, y));
  }

  lemma LinMagFromCross(pow: Pow, p: Chan, x: real)
    requires Laws(pow) && Upright(p) && Base(p, p.d) >= 0.0 && x >= p.d
    ensures LinMag(pow, p, x) >= LinpowCross(pow, p)
  {
    BaseGrows(p, x);
    Monotone(pow, Base(p, p.d), Base(p, x), p.g);
  }

  /** Where the power piece starts above the linear one, the value of the linear one is never given back. */
  lemma LinpowJump(pow: Pow, p: Chan, q: Chan)
    requires Laws(pow) && Matched(p, q) && Upright(p) && Base(p, p.d) >= 0.0
    requires LinpowCross(pow, p) > p.c * p.d
    ensures Linpow(pow, p, Powlin(pow, q, q.d)) != q.d
  {
    UprightInverse(p, q);
    var y := q.d;
    var w, x := RootAndInput(pow, p, q, y);
    PowOrder(pow, w, Base(p, p.d), p.g);
    BaseOrder(p, x, p.d);
    PowlinMirrors(pow, q, y);
    var m := Abs(x);
    LinpowMirrors(pow, p, m);
    if m >= p.d {
      LinMagFromCross(pow, p, m);
    } else {
      Scale(p.c, m, p.d);
    }
  }

  lemma PowlinThenLinpowIff(pow: Pow, p: Chan, q: Chan)
    requires Laws(pow) && Matched(p, q) && Upright(p) && Base(p, p.d) >= 0.0
    ensures PowlinThenLinpow(pow, q, p) <==> LinpowCross(pow, p) <= p.c * p.d
  {
    if LinpowCross(pow, p) <= p.c * p.d {
      forall y: real ensures Linpow(pow, p, Powlin(pow, q, y)) == y {
        PowlinUndoes(pow, p, q, y);
      }
    } else {
      LinpowJump(pow, p, q);
    }
  }

  // ---- POWLIN then its inverse

  lemma PowlinLinearPiece(pow: Pow, r: Chan, s: Chan, x: real)
    requires Matched(r, s) && r.c > 0.0 && 0.0 <= x < r.d
    ensures LinMag(pow, s, PowMag(pow, r, x)) == x
    ensures PowMag(pow, r, x) >= 0.0 && (x > 0.0 ==> PowMag(pow, r, x) > 0.0)
  {
  }

  lemma LinMagOfBase(pow: Pow, r: Chan, s: Chan, x: real, v: real)
    requires Laws(pow) && Matched(r, s) && InBase(x, r.g) && x >= 0.0
    requires v == Base(r, pow(x, r.g)) && v >= s.d
    ensures LinMag(pow, s, v) == x
  {
    AffineBack(r, s, pow(x, r.g));
    Root(pow, x, r.g, s.g);
  }

  lemma PowlinPowerPiece(pow: Pow, r: Chan, s: Chan, x: real)
    requires Laws(pow) && Matched(r, s) && Upright(r) && PowlinCross(pow, r) >= 0.0 && x >= r.d
    requires PowlinCross(pow, r) >= r.c * r.d
    ensures LinMag(pow, s, PowMag(pow, r, x)) == x
    ensures PowMag(pow, r, x) >= 0.0 && (x > 0.0 ==> PowMag(pow, r, x) > 0.0)
  {
    PowOrder(pow, r.d, x, r.g);
    var v := Base(r, pow(x, r.g));
    BaseOrder(r, pow(r.d, r.g), pow(x, r.g));
    LinMagOfBase(pow, r, s, x, v);
    Scale(r.c, 0.0, r.d);
  }

  lemma PowlinUndone(pow: Pow, r: Chan, s: Chan, x: real)
    requires Laws(pow) && Matched(r, s) && Upright(r) && PowlinCross(pow, r) >= 0.0
    requires PowlinCross(pow, r) >= r.c * r.d
    ensures Linpow(pow, s, Powlin(pow, r, x)) == x
  {
    var m := Abs(x);
    if m < r.d {
      PowlinLinearPiece(pow, r, s, m);
    } else {
      PowlinPowerPiece(pow, r, s, m);
    }
    PowlinMirrors(pow, r, x);
    LinpowMirrors(pow, s, Powlin(pow, r, x));
  }

  lemma PowlinDrop(pow: Pow, r: Chan, s: Chan)
    requires Laws(pow) && Matched(r, s) && Upright(r) && PowlinCross(pow, r) >= 0.0
    requires PowlinCross(pow, r) < r.c * r.d
    ensures Linpow(pow, s, Powlin(pow, r, r.d)) != r.d
  {
  }

  lemma PowlinInverseIff(pow: Pow, r: Chan, s: Chan)
    requires Laws(pow) && Matched(r, s) && Upright(r) && PowlinCross(pow, r) >= 0.0
    ensures PowlinThenLinpow(pow, r, s) <==> PowlinCross(pow, r) >= r.c * r.d
  {
    if PowlinCross(pow, r) >= r.c * r.d {
      forall x: real ensures Linpow(pow, s, Powlin(pow, r, x)) == x {
        PowlinUndone(pow, r, s, x);
      }
    } else {
      PowlinDrop(pow, r, s);
    }
  }

  // ---- the inverse then POWLIN

  lemma PowlinLinearPieceBack(pow: Pow, r: Chan, s: Chan, y: real)
    requires Matched(r, s) && Upright(r) && 0.0 <= y < s.d
    ensures PowMag(pow, r, LinMag(pow, s, y)) == y
    ensures LinMag(pow, s, y) >= 0.0 && (y > 0.0 ==> LinMag(pow, s, y) > 0.0)
  {
  }

  /** A base not below that of the cross-over has a root not below the cross-over. */
  lemma RootFromCross(pow: Pow, r: Chan, s: Chan, u: real)
    requires Laws(pow) && Matched(r, s) && Upright(r) && u >= pow(r.d, r.g)
    ensures u >= 0.0 && pow(pow(u, s.g), r.g) == u && pow(u, s.g) >= r.d
    ensures u > 0.0 ==> pow(u, s.g) > 0.0
  {
    UprightInverse(r, s);
    Signs(pow, r.d, r.g);
    Signs(pow, u, s.g);
    Root(pow, u, s.g, r.g);
    PowOrder(pow, r.d, pow(u, s.g), r.g);
  }

  lemma PowlinPowerPieceBack(pow: Pow, r: Chan, s: Chan, y: real)
    requires Laws(pow) && Matched(r, s) && Upright(r) && PowlinCross(pow, r) >= 0.0 && y >= s.d
    requires PowlinCross(pow, r) <= r.c * r.d
    ensures PowMag(pow, r, LinMag(pow, s, y)) == y
    ensures LinMag(pow, s, y) >= 0.0 && (y > 0.0 ==> LinMag(pow, s, y) > 0.0)
  {
    UprightInverse(r, s);
    var u := Base(s, y);
    AffineBack(s, r, y);
    BaseOrder(r, pow(r.d, r.g), u);
    RootFromCross(pow, r, s, u);
    if u == 0.0 && y > 0.0 {
      Signs(pow, r.d, r.g);
      Scale(r.c, 0.0, r.d);
      assert false;
    }
  }

  lemma LinpowUndoes(pow: Pow, r: Chan, s: Chan, y: real)
    requires Laws(pow) && Matched(r, s) && Upright(r) && PowlinCross(pow, r) >= 0.0
    requires PowlinCross(pow, r) <= r.c * r.d
    ensures Powlin(pow, r, Linpow(pow, s, y)) == y
  {
    var m := Abs(y);
    if m < s.d {
      PowlinLinearPieceBack(pow, r, s, m);
    } else {
      PowlinPowerPieceBack(pow, r, s, m);
    }
    LinpowMirrors(pow, s, y);
    PowlinMirrors(pow, r, Linpow(pow, s, y));
  }

  lemma PowlinJump(pow: Pow, r: Chan, s: Chan)
    requires Laws(pow) && Matched(r, s) && Upright(r) && PowlinCross(pow, r) >= 0.0
    requires PowlinCross(pow, r) > r.c * r.d
    ensures Powlin(pow, r, Linpow(pow, s, s.d)) != s.d
  {
    UprightInverse(r, s);
    LinpowMirrors(pow, s, s.d);
    var m := LinMag(pow, s, s.d);
    assert m >= 0.0;
    PowlinMirrors(pow, r, m);
    if m >= r.d {
      PowOrder(pow, r.d, m, r.g);
      BaseOrder(r, pow(r.d, r.g), pow(m, r.g));
    } else {
      Scale(r.c, m, r.d);
    }
  }

  lemma PowlinInverseBackIff(pow: Pow, r: Chan, s: Chan)
    requires Laws(pow) && Matched(r, s) && Upright(r) && PowlinCross(pow, r) >= 0.0
    ensures LinpowThenPowlin(pow, s, r) <==> PowlinCross(pow, r) <= r.c * r.d
  {
    if PowlinCross(pow, r) <= r.c * r.d {
      forall y: real ensures Powlin(pow, r, Linpow(pow, s, y)) == y {
        LinpowUndoes(pow, r, s, y);
      }
    } else {
      PowlinJump(pow, r, s);
    }
  }
}
