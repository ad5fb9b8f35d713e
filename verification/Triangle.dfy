/**
 The white-point test: a point is inside a triangle if the three triangles it
 forms with the corners have the same total area, within a tolerance.
 Source: libweston-vendored/src/libweston/color-profile-param-builder.c.
 */
module Triangle {
  import opened Reals

  datatype Point = Point(x: real, y: real)

  const PRECISION: real := 0.00001

  /** Twice the area of a triangle, negative if its corners run the other way round. */
  function Signed(p: Point, q: Point, r: Point): real {
    (p.x - r.x) * (q.y - p.y) - (p.x - q.x) * (r.y - p.y)
  }

  /** triangle_area */
  function Area(p: Point, q: Point, r: Point): real {
    Abs(Signed(p, q, r)) / 2.0
  }

  /** The shoelace formula. */
  lemma AreaIsShoelace(p: Point, q: Point, r: Point)
    ensures 2.0 * Area(p, q, r) == Abs(p.x * (q.y - r.y) + q.x * (r.y - p.y) + r.x * (p.y - q.y))
  {
  }

  /** is_point_inside_triangle */
  predicate Accepts(p: Point, a: Point, b: Point, c: Point) {
    var whole := Area(a, b, c);
    whole > PRECISION && Abs(whole - (Area(p, a, b) + Area(p, a, c) + Area(p, b, c))) <= PRECISION
  }

  // ---- the parts of the triangle, signed

  /** The parts seen from p, each opposite to one corner. */
  function PartC(p: Point, a: Point, b: Point, c: Point): real { Signed(p, a, b) }

  function PartA(p: Point, a: Point, b: Point, c: Point): real { Signed(p, b, c) }

  function PartB(p: Point, a: Point, b: Point, c: Point): real { -Signed(p, a, c) }

  lemma PartsAddUp(p: Point, a: Point, b: Point, c: Point)
    ensures PartA(p, a, b, c) + PartB(p, a, b, c) + PartC(p, a, b, c) == Signed(a, b, c)
  {
  }

  /** How much of a part counts against the whole: its size if it has the opposite sign, else nothing. */
  function Against(part: real, whole: real): real {
    if (whole > 0.0 && part < 0.0) || (whole < 0.0 && part > 0.0) then Abs(part) else 0.0
  }

  /** The total opposite-sign area. */
  function Outside(p: Point, a: Point, b: Point, c: Point): real {
    var w := Signed(a, b, c);
    (Against(PartA(p, a, b, c), w) + Against(PartB(p, a, b, c), w) + Against(PartC(p, a, b, c), w)) / 2.0
  }

  /** The three areas exceed the whole by exactly twice the opposite-sign area. */
  lemma ExcessIsOutside(p: Point, a: Point, b: Point, c: Point)
    requires Signed(a, b, c) != 0.0
    ensures Area(p, a, b) + Area(p, a, c) + Area(p, b, c) == Area(a, b, c) + 2.0 * Outside(p, a, b, c)
  {
  }

  /** The parts never add up to less than the whole. */
  lemma AreasCover(p: Point, a: Point, b: Point, c: Point)
    ensures Area(p, a, b) + Area(p, a, c) + Area(p, b, c) >= Area(a, b, c)
  {
  }

  // ---- inside, independently of areas

  /** p is the weighted mean of the corners. */
  ghost predicate Mean(p: Point, a: Point, b: Point, c: Point, wa: real, wb: real, wc: real) {
    && wa >= 0.0 && wb >= 0.0 && wc >= 0.0 && wa + wb + wc == 1.0
    && p.x == wa * a.x + wb * b.x + wc * c.x
    && p.y == wa * a.y + wb * b.y + wc * c.y
  }

  /** p is in the closed triangle. */
  ghost predicate Inside(p: Point, a: Point, b: Point, c: Point) {
    exists wa: real, wb: real, wc: real :: Mean(p, a, b, c, wa, wb, wc)
  }

  lemma MeanParts(p: Point, a: Point, b: Point, c: Point, wa: real, wb: real, wc: real)
    requires Mean(p, a, b, c, wa, wb, wc)
    ensures PartA(p, a, b, c) == wa * Signed(a, b, c)
    ensures PartB(p, a, b, c) == wb * Signed(a, b, c)
    ensures PartC(p, a, b, c) == wc * Signed(a, b, c)
  {
  }

  /** The corners weighted with the parts opposite to them balance at p. */
  lemma PartsBalance(p: Point, a: Point, b: Point, c: Point)
    ensures var u, v, w := PartA(p, a, b, c), PartB(p, a, b, c), PartC(p, a, b, c);
            && u * a.x + v * b.x + w * c.x == Signed(a, b, c) * p.x
            && u * a.y + v * b.y + w * c.y == Signed(a, b, c) * p.y
  {
  }

  /** A point with no area on the wrong side is the mean of the corners, weighted with the parts. */
  lemma WeightsFromParts(p: Point, a: Point, b: Point, c: Point) returns (wa: real, wb: real, wc: real)
    requires Signed(a, b, c) != 0.0 && Outside(p, a, b, c) == 0.0
    ensures Mean(p, a, b, c, wa, wb, wc)
  {
    var s := Signed(a, b, c);
    var u, v, w := PartA(p, a, b, c), PartB(p, a, b, c), PartC(p, a, b, c);
    wa := Weight(u, s);
    wb := Weight(v, s);
    wc := Weight(w, s);
    PartsAddUp(p, a, b, c);
    PartsBalance(p, a, b, c);
    ScaledMean(s, wa, wb, wc, u, v, w, a.x, b.x, c.x, p.x);
    ScaledMean(s, wa, wb, wc, u, v, w, a.y, b.y, c.y, p.y);
  }

  lemma Weight(u: real, s: real) returns (q: real)
    requires s != 0.0
    ensures q * s == u
    ensures Against(u, s) == 0.0 ==> q >= 0.0
  {
    q := u / s;
  }

  lemma ScaledMean(s: real, i: real, j: real, k: real, u: real, v: real, w: real, x: real, y: real, z: real, p: real)
    requires s != 0.0 && i * s == u && j * s == v && k * s == w
    requires u + v + w == s && u * x + v * y + w * z == s * p
    ensures i + j + k == 1.0 && i * x + j * y + k * z == p
  {
  }

  /** For a real triangle, the areas add up exactly if and only if the point is inside or on it. */
  lemma AreasAddUpIffInside(p: Point, a: Point, b: Point, c: Point)
    requires Signed(a, b, c) != 0.0
    ensures Area(p, a, b) + Area(p, a, c) + Area(p, b, c) == Area(a, b, c) <==> Inside(p, a, b, c)
  {
    ExcessIsOutside(p, a, b, c);
    if Outside(p, a, b, c) == 0.0 {
      var wa, wb, wc := WeightsFromParts(p, a, b, c);
    }
    if Inside(p, a, b, c) {
      var wa, wb, wc :| Mean(p, a, b, c, wa, wb, wc);
      MeanParts(p, a, b, c, wa, wb, wc);
      NotAgainst(wa, Signed(a, b, c));
      NotAgainst(wb, Signed(a, b, c));
      NotAgainst(wc, Signed(a, b, c));
    }
  }

  lemma NotAgainst(w: real, s: real)
    requires w >= 0.0
    ensures Against(w * s, s) == 0.0
  {
  }

  /** What the code accepts, exactly: a triangle that is not too small, and little area on the wrong side. */
  lemma AcceptsIff(p: Point, a: Point, b: Point, c: Point)
    ensures Accepts(p, a, b, c) <==> Area(a, b, c) > 0.00001 && Outside(p, a, b, c) <= 0.000005
  {
  }

  /** No point of a triangle of sufficient size is rejected. */
  lemma InsideIsAccepted(p: Point, a: Point, b: Point, c: Point)
    requires Area(a, b, c) > 0.00001 && Inside(p, a, b, c)
    ensures Accepts(p, a, b, c)
  {
    AreasAddUpIffInside(p, a, b, c);
  }
}
