/**
 One-dimensional look-up tables: evaluation of the inverse by binary search and
 linear interpolation. Source: libweston-vendored/src/libweston/color.c.
 */
module Lut {
  import opened Reals

  /** Values of a curve at 0, 1/(n-1), ..., 1. At least two are required. */
  type Table = seq<real>

  const EPS: real := 0.00001

  /** linear_interpolation */
  function Interpolate(x: real, x0: real, y0: real, x1: real, y1: real): real {
    var delta := x1 - x0;
    if Abs(delta) < EPS then (y0 + y1) / 2.0
    else y0 * ((x1 - x) / delta) + y1 * ((x - x0) / delta)
  }

  predicate Ascendent(lut: Table)
    requires |lut| >= 2
  {
    lut[0] <= lut[|lut| - 1]
  }

  /** The binary search moves right past an element. */
  predicate Before(lut: Table, i: nat, val: real)
    requires |lut| >= 2 && i < |lut|
  {
    if Ascendent(lut) then lut[i] < val else lut[i] > val
  }

  /** Where the binary search between left and right ends. */
  function Search(lut: Table, val: real, left: nat, right: nat): (a: nat)
    requires |lut| >= 2 && left < right < |lut|
    ensures left <= a < right
    ensures a == left || Before(lut, a, val)
    ensures a + 1 == right || !Before(lut, a + 1, val)
    decreases right - left
  {
    if right - left <= 1 then left
    else
      var mid := left + (right - left) / 2;
      if Before(lut, mid, val) then Search(lut, val, mid, right) else Search(lut, val, left, mid)
  }

  /** The left one of the two neighbours. */
  function Neighbor(lut: Table, val: real): (a: nat)
    requires |lut| >= 2
    ensures a + 1 < |lut|
    ensures a == 0 || Before(lut, a, val)
    ensures a + 2 == |lut| || !Before(lut, a + 1, val)
  {
    Search(lut, val, 0, |lut| - 1)
  }

  /** find_neighbors */
  method FindNeighbors(lut: Table, val: real) returns (a: nat, b: nat)
    requires |lut| >= 2
    ensures a == Neighbor(lut, val) && b == a + 1
  {
    var ascendent := lut[0] <= lut[|lut| - 1];
    var left, right := 0, |lut| - 1;
    while right - left > 1
      invariant 0 <= left < right < |lut|
      invariant Search(lut, val, left, right) == Neighbor(lut, val)
      decreases right - left
    {
      var mid := left + (right - left) / 2;
      if (ascendent && lut[mid] < val) || (!ascendent && lut[mid] > val) {
        left := mid;
      } else {
        right := mid;
      }
    }
    return left, right;
  }

  /** A value within the range of the ends lies between the two neighbours; the table need not be monotone. */
  lemma NeighborsBracket(lut: Table, val: real)
    requires |lut| >= 2
    requires lut[0] <= val <= lut[|lut| - 1] || lut[0] >= val >= lut[|lut| - 1]
    ensures var a := Neighbor(lut, val);
            lut[a] <= val <= lut[a + 1] || lut[a] >= val >= lut[a + 1]
  {
  }

  /** The last place on the axis 0 .. n-1. */
  function Last(lut: Table): (n: real)
    requires |lut| >= 2
    ensures n >= 1.0
  {
    (|lut| - 1) as real
  }

  function Position(lut: Table, i: nat): real
    requires |lut| >= 2
  {
    i as real / Last(lut)
  }

  /** weston_inverse_evaluate_lut1d */
  function Inverse(lut: Table, y: real): real
    requires |lut| >= 2
  {
    var a := Neighbor(lut, y);
    Interpolate(y, lut[a], Position(lut, a), lut[a + 1], Position(lut, a + 1))
  }

  // ---- the curve the table stands for

  /** The table segment used at a place x on the axis 0 .. n-1; the end segments extend outwards. */
  function Segment(lut: Table, x: real): (k: nat)
    requires |lut| >= 2
    ensures k + 1 < |lut|
    ensures k > 0 ==> k as real <= x
    ensures k + 2 < |lut| ==> x < (k + 1) as real
  {
    var f := x.Floor;
    if f < 0 then 0 else if f > |lut| - 2 then |lut| - 2 else f
  }

  function Line(c: real, s: real, x: real): real {
    c + x * s
  }

  /** On the axis 0 .. n-1: straight lines between the table values, extended past both ends. */
  function At(lut: Table, x: real): real
    requires |lut| >= 2
  {
    var k := Segment(lut, x);
    Line(lut[k], lut[k + 1] - lut[k], x - k as real)
  }

  /** From the axis 0 .. 1 to the axis 0 .. n-1. */
  function Place(lut: Table, t: real): real
    requires |lut| >= 2
  {
    t * Last(lut)
  }

  /** The curve on the axis 0 .. 1. */
  function Forward(lut: Table, t: real): real
    requires |lut| >= 2
  {
    At(lut, Place(lut, t))
  }

  /** Neighbouring values far enough apart to interpolate between. */
  predicate Spaced(lut: Table) {
    forall i :: 0 <= i < |lut| - 1 ==> Abs(lut[i + 1] - lut[i]) >= 0.00001
  }

  predicate Ascending(lut: Table) {
    forall i, j :: 0 <= i < j < |lut| ==> lut[i] < lut[j]
  }

  predicate Descending(lut: Table) {
    forall i, j :: 0 <= i < j < |lut| ==> lut[i] > lut[j]
  }

  // ---- one segment

  lemma SameProduct(s: real, t: real, u: real, x: real)
    requires s != 0.0 && t * s == x && u * s == x
    ensures t == u
  {
  }

  /** The two weights and the two grid places that make up an interpolation. */
  lemma InterpolateParts(a: nat, n: real, x: real, x0: real, x1: real) returns (l: real, r: real, p: real, q: real)
    requires n > 0.0 && Abs(x1 - x0) >= EPS
    ensures Interpolate(x, x0, a as real / n, x1, (a + 1) as real / n) == l * p + r * q
    ensures l * n == a as real && r * n == a as real + 1.0
    ensures p * (x1 - x0) == x1 - x && q * (x1 - x0) == x - x0
  {
    l := Divide(a as real, n);
    r := Divide((a + 1) as real, n);
    p := Divide(x1 - x, x1 - x0);
    q := Divide(x - x0, x1 - x0);
  }

  lemma WeightedMean(p: real, q: real, l: real, r: real, n: real, a: real, x: real, x0: real, x1: real)
    requires x0 != x1 && l * n == a && r * n == a + 1.0
    requires p * (x1 - x0) == x1 - x && q * (x1 - x0) == x - x0
    ensures (l * p + r * q) * n == a + q
  {
  }

  /** Interpolating between grid places a and a+1, in units of the grid. */
  lemma InterpolatePlace(a: nat, n: real, x: real, x0: real, x1: real) returns (q: real)
    requires n > 0.0 && Abs(x1 - x0) >= EPS
    ensures Interpolate(x, x0, a as real / n, x1, (a + 1) as real / n) * n == a as real + q
    ensures q * (x1 - x0) == x - x0
  {
    var l, r, p, w := InterpolateParts(a, n, x, x0, x1);
    q := w;
    WeightedMean(p, q, l, r, n, a as real, x, x0, x1);
  }

  /** The place on the axis 0 .. n-1 that the inverse gives, seen from its left neighbour. */
  lemma InversePlace(lut: Table, y: real) returns (v: real, q: real)
    requires |lut| >= 2
    requires var a := Neighbor(lut, y); Abs(lut[a + 1] - lut[a]) >= EPS
    ensures v == Inverse(lut, y)
    ensures var a := Neighbor(lut, y);
            && v * Last(lut) == a as real + q
            && q * (lut[a + 1] - lut[a]) == y - lut[a]
  {
    var a := Neighbor(lut, y);
    v := Inverse(lut, y);
    q := InterpolatePlace(a, Last(lut), y, lut[a], lut[a + 1]);
  }

  lemma SegmentIs(lut: Table, x: real, k: nat)
    requires |lut| >= 2 && k + 1 < |lut|
    requires k > 0 ==> k as real <= x
    requires k + 2 < |lut| ==> x < (k + 1) as real
    ensures Segment(lut, x) == k
  {
  }

  /** At a grid place the neighbouring segments meet. */
  lemma AtPlace(lut: Table, x: real, a: nat, q: real, y: real)
    requires |lut| >= 2 && a + 1 < |lut| && x == a as real + q
    requires a > 0 ==> q >= 0.0
    requires a + 2 < |lut| ==> q <= 1.0
    requires q * (lut[a + 1] - lut[a]) == y - lut[a]
    ensures At(lut, x) == y
  {
    if a + 2 < |lut| && q == 1.0 {
      assert x == (a + 1) as real;
      SegmentIs(lut, x, a + 1);
    } else {
      SegmentIs(lut, x, a);
      assert x - a as real == q;
      assert Line(lut[a], lut[a + 1] - lut[a], q) == y;
    }
  }

  lemma ForwardPlace(lut: Table, v: real, a: nat, q: real, y: real)
    requires |lut| >= 2 && a + 1 < |lut| && v * Last(lut) == a as real + q
    requires a > 0 ==> q >= 0.0
    requires a + 2 < |lut| ==> q <= 1.0
    requires q * (lut[a + 1] - lut[a]) == y - lut[a]
    ensures Forward(lut, v) == y
  {
    AtPlace(lut, Place(lut, v), a, q, y);
  }

  // ---- ascending tables

  lemma Product(a: real, b: real)
    requires a >= 0.0 && b >= 0.0
    ensures a * b >= 0.0
    ensures a > 0.0 && b > 0.0 ==> a * b > 0.0
  {
  }

  /** Evaluating the table at the inverse of y gives y, for every real y. */
  lemma ForwardInverseAscending(lut: Table, y: real)
    requires |lut| >= 2 && Ascending(lut) && Spaced(lut)
    ensures Forward(lut, Inverse(lut, y)) == y
  {
    var a := Neighbor(lut, y);
    NeighborsOrdered(lut, y);
    assert Abs(lut[a + 1] - lut[a]) >= EPS;
    var v, q := InversePlace(lut, y);
    PlaceRange(lut, y, a, q);
    ForwardPlace(lut, v, a, q, y);
  }

  lemma PlaceRange(lut: Table, y: real, a: nat, q: real)
    requires a + 1 < |lut| && lut[a] < lut[a + 1] && q * (lut[a + 1] - lut[a]) == y - lut[a]
    ensures lut[a] < y ==> q >= 0.0
    ensures y <= lut[a + 1] ==> q <= 1.0
  {
  }

  lemma NeighborsOrdered(lut: Table, y: real)
    requires |lut| >= 2 && Ascending(lut)
    ensures var a := Neighbor(lut, y);
            lut[a] < lut[a + 1] && (a > 0 ==> lut[a] < y) && (a + 2 < |lut| ==> y <= lut[a + 1])
  {
  }

  lemma SegmentOrder(lut: Table, x: real, x': real)
    requires |lut| >= 2 && x < x'
    ensures Segment(lut, x) <= Segment(lut, x')
  {
  }

  lemma LineIncreasing(c: real, s: real, x: real, x': real)
    requires s > 0.0 && x < x'
    ensures Line(c, s, x) < Line(c, s, x')
  {
  }

  lemma BelowNext(lut: Table, x: real)
    requires |lut| >= 2 && Ascending(lut) && Segment(lut, x) + 2 < |lut|
    ensures At(lut, x) < lut[Segment(lut, x) + 1]
  {
    var k := Segment(lut, x);
    var d := lut[k + 1] - lut[k];
    LineIncreasing(lut[k], d, x - k as real, 1.0);
    assert Line(lut[k], d, 1.0) == lut[k + 1];
  }

  lemma AboveOwn(lut: Table, x: real)
    requires |lut| >= 2 && Ascending(lut) && Segment(lut, x) > 0
    ensures At(lut, x) >= lut[Segment(lut, x)]
  {
    var k := Segment(lut, x);
    Product(x - k as real, lut[k + 1] - lut[k]);
  }

  /** The curve of an ascending table is strictly increasing on the whole axis. */
  lemma AtIncreasing(lut: Table, x: real, x': real)
    requires |lut| >= 2 && Ascending(lut) && x < x'
    ensures At(lut, x) < At(lut, x')
  {
    var k, k' := Segment(lut, x), Segment(lut, x');
    SegmentOrder(lut, x, x');
    var d := lut[k + 1] - lut[k];
    if k == k' {
      LineIncreasing(lut[k], d, x - k as real, x' - k as real);
    } else {
      BelowNext(lut, x);
      AboveOwn(lut, x');
      assert lut[k + 1] <= lut[k'];
    }
  }

  lemma ForwardInjectiveAscending(lut: Table, t: real, t': real)
    requires |lut| >= 2 && Ascending(lut) && Forward(lut, t) == Forward(lut, t')
    ensures t == t'
  {
    var x, x' := Place(lut, t), Place(lut, t');
    AtInjective(lut, x, x');
    SameProduct(Last(lut), t, t', x);
  }

  lemma AtInjective(lut: Table, x: real, x': real)
    requires |lut| >= 2 && Ascending(lut) && At(lut, x) == At(lut, x')
    ensures x == x'
  {
    if x < x' {
      AtIncreasing(lut, x, x');
    } else if x' < x {
      AtIncreasing(lut, x', x);
    }
  }

  /** The inverse of the value at t gives t, for every real t. */
  lemma InverseForwardAscending(lut: Table, t: real)
    requires |lut| >= 2 && Ascending(lut) && Spaced(lut)
    ensures Inverse(lut, Forward(lut, t)) == t
  {
    var y := Forward(lut, t);
    ForwardInverseAscending(lut, y);
    ForwardInjectiveAscending(lut, Inverse(lut, y), t);
  }

  // ---- a gap too small to interpolate in

  lemma NeighborIs(lut: Table, y: real, k: nat)
    requires k + 1 < |lut| && Ascending(lut) && lut[k] < y < lut[k + 1]
    ensures Neighbor(lut, y) == k
  {
  }

  lemma Midpoint(k: nat, n: real) returns (m: real)
    requires n > 0.0
    ensures m == (k as real / n + (k + 1) as real / n) / 2.0 && m * n == k as real + 0.5
  {
    var l := Divide(k as real, n);
    var r := Divide((k + 1) as real, n);
    m := (l + r) / 2.0;
    assert (l + r) * n == l * n + r * n;
  }

  /** Inside a small gap the inverse is the middle of the gap, whatever the value. */
  lemma InverseInSmallGap(lut: Table, k: nat, y: real) returns (v: real)
    requires k + 1 < |lut| && Ascending(lut) && lut[k] < y < lut[k + 1]
    requires lut[k + 1] - lut[k] < 0.00001
    ensures v == Inverse(lut, y) && v * Last(lut) == k as real + 0.5
  {
    NeighborIs(lut, y, k);
    v := Midpoint(k, Last(lut));
  }

  lemma SmallGapForward(lut: Table, k: nat) returns (y: real)
    requires k + 1 < |lut| && Ascending(lut) && lut[k + 1] - lut[k] < EPS
    ensures Forward(lut, Inverse(lut, y)) != y
  {
    var d := lut[k + 1] - lut[k];
    y := lut[k] + d / 4.0;
    var v := InverseInSmallGap(lut, k, y);
    ForwardPlace(lut, v, k, 0.5, lut[k] + d / 2.0);
  }

  lemma QuarterPlace(k: nat, n: real) returns (t: real)
    requires n > 0.0
    ensures t * n == k as real + 0.25
  {
    t := Divide(k as real + 0.25, n);
  }

  lemma ForwardQuarter(lut: Table, k: nat) returns (t: real, y: real)
    requires k + 1 < |lut| && Ascending(lut)
    ensures Forward(lut, t) == y && lut[k] < y < lut[k + 1] && t * Last(lut) == k as real + 0.25
  {
    y := lut[k] + (lut[k + 1] - lut[k]) / 4.0;
    t := QuarterPlace(k, Last(lut));
    ForwardPlace(lut, t, k, 0.25, y);
  }

  lemma MiddleIsNotQuarter(lut: Table, k: nat, y: real, t: real)
    requires k + 1 < |lut| && Ascending(lut) && lut[k] < y < lut[k + 1] && lut[k + 1] - lut[k] < EPS
    requires t * Last(lut) == k as real + 0.25
    ensures Inverse(lut, y) != t
  {
  }

  lemma SmallGapInverse(lut: Table, k: nat) returns (t: real)
    requires k + 1 < |lut| && Ascending(lut) && lut[k + 1] - lut[k] < EPS
    ensures Inverse(lut, Forward(lut, t)) != t
  {
    var y;
    t, y := ForwardQuarter(lut, k);
    MiddleIsNotQuarter(lut, k, y, t);
  }

  lemma FindSmallGap(lut: Table) returns (k: nat)
    requires |lut| >= 2 && Ascending(lut) && !Spaced(lut)
    ensures k + 1 < |lut| && lut[k + 1] - lut[k] < EPS
  {
    k :| 0 <= k < |lut| - 1 && Abs(lut[k + 1] - lut[k]) < EPS;
  }

  ghost predicate InverseThenForward(lut: Table)
    requires |lut| >= 2
  {
    forall y: real :: Forward(lut, Inverse(lut, y)) == y
  }

  ghost predicate ForwardThenInverse(lut: Table)
    requires |lut| >= 2
  {
    forall t: real :: Inverse(lut, Forward(lut, t)) == t
  }

  lemma RoundTripAscending(lut: Table)
    requires |lut| >= 2 && Ascending(lut)
    ensures InverseThenForward(lut) <==> Spaced(lut)
    ensures ForwardThenInverse(lut) <==> Spaced(lut)
  {
    if Spaced(lut) {
      forall y: real ensures Forward(lut, Inverse(lut, y)) == y {
        ForwardInverseAscending(lut, y);
      }
      forall t: real ensures Inverse(lut, Forward(lut, t)) == t {
        InverseForwardAscending(lut, t);
      }
    } else {
      var k := FindSmallGap(lut);
      var y := SmallGapForward(lut, k);
      var t := SmallGapInverse(lut, k);
    }
  }

  // ---- descending tables are ascending ones upside down

  function Negated(lut: Table): (r: Table)
    ensures Opposite(r, lut)
  {
    seq(|lut|, i requires 0 <= i < |lut| => -lut[i])
  }

  predicate Opposite(neg: Table, lut: Table) {
    && |neg| == |lut|
    && forall i :: 0 <= i < |neg| ==> neg[i] == -lut[i]
  }

  lemma {:induction false} SearchOpposite(neg: Table, lut: Table, y: real, left: nat, right: nat)
    requires |neg| == |lut| >= 2 && left < right < |lut|
    requires forall i: nat :: i < |lut| ==> Before(neg, i, -y) == Before(lut, i, y)
    ensures Search(neg, -y, left, right) == Search(lut, y, left, right)
    decreases right - left
  {
    if right - left > 1 {
      var mid := left + (right - left) / 2;
      if Before(lut, mid, y) {
        SearchOpposite(neg, lut, y, mid, right);
      } else {
        SearchOpposite(neg, lut, y, left, mid);
      }
    }
  }

  lemma BeforeOpposite(neg: Table, lut: Table, y: real, i: nat)
    requires |lut| >= 2 && Opposite(neg, lut) && lut[0] > lut[|lut| - 1] && i < |lut|
    ensures Before(neg, i, -y) == Before(lut, i, y)
  {
  }

  lemma NeighborOpposite(neg: Table, lut: Table, y: real)
    requires |lut| >= 2 && Opposite(neg, lut) && lut[0] > lut[|lut| - 1]
    ensures Neighbor(neg, -y) == Neighbor(lut, y)
  {
    forall i: nat | i < |lut| ensures Before(neg, i, -y) == Before(lut, i, y) {
      BeforeOpposite(neg, lut, y, i);
    }
    SearchOpposite(neg, lut, y, 0, |lut| - 1);
  }

  lemma InterpolateOpposite(neg: Table, lut: Table, y: real, a: nat)
    requires |lut| >= 2 && Opposite(neg, lut) && a + 1 < |lut|
    ensures Interpolate(-y, neg[a], Position(neg, a), neg[a + 1], Position(neg, a + 1)) ==
            Interpolate(y, lut[a], Position(lut, a), lut[a + 1], Position(lut, a + 1))
  {
  }

  lemma InverseOpposite(neg: Table, lut: Table, y: real)
    requires |lut| >= 2 && Opposite(neg, lut) && lut[0] > lut[|lut| - 1]
    ensures Inverse(neg, -y) == Inverse(lut, y)
  {
    NeighborOpposite(neg, lut, y);
    InterpolateOpposite(neg, lut, y, Neighbor(lut, y));
  }

  lemma AtOpposite(neg: Table, lut: Table, x: real)
    requires |lut| >= 2 && Opposite(neg, lut)
    ensures At(neg, x) == -At(lut, x)
  {
  }

  lemma PlaceOpposite(neg: Table, lut: Table, t: real)
    requires |lut| >= 2 && |neg| == |lut|
    ensures Place(neg, t) == Place(lut, t)
  {
  }

  lemma ForwardOpposite(neg: Table, lut: Table, t: real)
    requires |lut| >= 2 && Opposite(neg, lut)
    ensures Forward(neg, t) == -Forward(lut, t)
  {
    PlaceOpposite(neg, lut, t);
    AtOpposite(neg, lut, Place(lut, t));
  }

  lemma SpacedOpposite(neg: Table, lut: Table)
    requires Opposite(neg, lut)
    ensures Spaced(neg) <==> Spaced(lut)
  {
  }

  lemma InverseThenForwardOpposite(neg: Table, lut: Table)
    requires |lut| >= 2 && Opposite(neg, lut) && lut[0] > lut[|lut| - 1]
    ensures InverseThenForward(neg) <==> InverseThenForward(lut)
  {
    forall y: real ensures Forward(neg, Inverse(neg, -y)) == -Forward(lut, Inverse(lut, y)) {
      InverseOpposite(neg, lut, y);
      ForwardOpposite(neg, lut, Inverse(lut, y));
    }
    if InverseThenForward(lut) {
      forall y: real ensures Forward(neg, Inverse(neg, y)) == y {
        assert Forward(neg, Inverse(neg, -(-y))) == -Forward(lut, Inverse(lut, -y));
      }
    }
    if InverseThenForward(neg) {
      forall y: real ensures Forward(lut, Inverse(lut, y)) == y {
        assert Forward(neg, Inverse(neg, -y)) == -y;
      }
    }
  }

  lemma ForwardThenInverseOpposite(neg: Table, lut: Table)
    requires |lut| >= 2 && Opposite(neg, lut) && lut[0] > lut[|lut| - 1]
    ensures ForwardThenInverse(neg) <==> ForwardThenInverse(lut)
  {
    forall t: real ensures Inverse(neg, Forward(neg, t)) == Inverse(lut, Forward(lut, t)) {
      ForwardOpposite(neg, lut, t);
      InverseOpposite(neg, lut, Forward(lut, t));
    }
  }

  /**
   For a strictly monotone table, ascending or descending: inverse evaluation
   and the curve undo each other on all reals, in either order, exactly when no
   two neighbouring values are closer than the interpolation's threshold.
   */
  lemma RoundTripIffSpaced(lut: Table)
    requires |lut| >= 2 && (Ascending(lut) || Descending(lut))
    ensures InverseThenForward(lut) <==> Spaced(lut)
    ensures ForwardThenInverse(lut) <==> Spaced(lut)
  {
    if Ascending(lut) {
      RoundTripAscending(lut);
    } else {
      var neg := Negated(lut);
      RoundTripAscending(neg);
      SpacedOpposite(neg, lut);
      InverseThenForwardOpposite(neg, lut);
      ForwardThenInverseOpposite(neg, lut);
    }
  }

  /** weston_inverse_evaluate_lut1d */
  method InverseEvaluate(lut: Table, y: real) returns (v: real)
    requires |lut| >= 2
    ensures v == Inverse(lut, y)
    ensures (Ascending(lut) || Descending(lut)) && Spaced(lut) ==> Forward(lut, v) == y
  {
    var a, b := FindNeighbors(lut, y);
    v := Interpolate(y, lut[a], Position(lut, a), lut[b], Position(lut, b));
    if (Ascending(lut) || Descending(lut)) && Spaced(lut) {
      RoundTripIffSpaced(lut);
    }
  }
}
