/**
 Normalised primary matrices (SMPTE RP 177-1993) and Bradford adaptation
 (annex E of ICC.1:2022). Source: libweston-vendored/src/libweston/color.c.
 */
module WhitePoint {
  import opened Triangle
  import opened ProfileSpec
  import opened Vectors
  import opened Lu
  import opened MatrixAlgebra

  /** A matrix, a refusal, or elements that are not finite because a divisor is zero. */
  datatype Outcome = Matrix(m: Mat3) | Refused | NotFinite

  function Z(c: Point): real {
    1.0 - (c.x + c.y)
  }

  /** weston_CIExy_to_XYZ: the colour of this chromaticity with Y = 1. */
  function ToXYZ(c: Point): (v: Vec3)
    requires c.y != 0.0
    ensures v.y == 1.0
    ensures c.y * v.x == c.x && c.y * v.z == Z(c)
  {
    Vec3(c.x / c.y, 1.0, Z(c) / c.y)
  }

  /** The primaries as columns. */
  function PrimaryMatrix(g: Gamut): Mat3 {
    Mat3(Vec3(g.red.x, g.green.x, g.blue.x),
         Vec3(g.red.y, g.green.y, g.blue.y),
         Vec3(Z(g.red), Z(g.green), Z(g.blue)))
  }

  datatype Direction = FORWARD | INVERSE

  /** Scaling the primaries by c adds them up to the white point. */
  predicate ScalesTo(g: Gamut, c: Vec3)
    requires g.white.y != 0.0
  {
    MulVec(PrimaryMatrix(g), c) == ToXYZ(g.white)
  }

  ghost predicate ForwardNpm(g: Gamut, m: Mat3)
    requires g.white.y != 0.0
  {
    exists c: Vec3 :: ScalesTo(g, c) && m == Mul(PrimaryMatrix(g), Diag(c))
  }

  ghost predicate InverseNpm(g: Gamut, m: Mat3)
    requires g.white.y != 0.0
  {
    exists c: Vec3, d: Vec3, n: Mat3 ::
      ScalesTo(g, c) && Times(d, c) == ONES && Inverses(PrimaryMatrix(g), n) && m == Mul(Diag(d), n)
  }

  // ---- when a scale factor is zero

  function Xyz(c: Point): Vec3 {
    Vec3(c.x, c.y, Z(c))
  }

  /** Cramer's rule for the three weights of v. */
  lemma Cramer(p: Mat3, k: Vec3, v: Vec3)
    requires MulVec(p, k) == v
    ensures Det(v, Col(p, 1), Col(p, 2)) == k.x * Det(Col(p, 0), Col(p, 1), Col(p, 2))
    ensures Det(Col(p, 0), v, Col(p, 2)) == k.y * Det(Col(p, 0), Col(p, 1), Col(p, 2))
    ensures Det(Col(p, 0), Col(p, 1), v) == k.z * Det(Col(p, 0), Col(p, 1), Col(p, 2))
  {
  }

  lemma KernelOfInverted(p: Mat3, n: Mat3, u: Vec3)
    requires Inverses(p, n) && MulVec(p, u) == ZERO
    ensures u == ZERO
  {
    SolutionIs(p, n, u, ZERO);
    SolutionIs(p, n, ZERO, ZERO);
  }

  predicate Parallel(b: Vec3, c: Vec3) {
    b.y * c.z == c.y * b.z && b.x * c.z == c.x * b.z && b.x * c.y == c.x * b.y
  }

  /** Parallel columns, weighted so that they cancel, would be sent to zero. */
  lemma ColumnsNotParallel(p: Mat3, n: Mat3)
    requires Inverses(p, n)
    ensures !Parallel(Col(p, 1), Col(p, 2))
  {
    var b, c := Col(p, 1), Col(p, 2);
    if Parallel(b, c) {
      KernelOfInverted(p, n, Vec3(0.0, c.x, -b.x));
      KernelOfInverted(p, n, Vec3(0.0, c.y, -b.y));
      KernelOfInverted(p, n, Vec3(0.0, c.z, -b.z));
      KernelOfInverted(p, n, Vec3(0.0, 1.0, 0.0));
      assert false;
    }
  }

  lemma UnitDeterminants(b: Vec3, c: Vec3)
    ensures Det(Vec3(1.0, 0.0, 0.0), b, c) == b.y * c.z - c.y * b.z
    ensures Det(Vec3(0.0, 1.0, 0.0), b, c) == c.x * b.z - b.x * c.z
    ensures Det(Vec3(0.0, 0.0, 1.0), b, c) == b.x * c.y - c.x * b.y
  {
  }

  /** An invertible matrix has a nonzero determinant. */
  lemma InvertedDetNonzero(p: Mat3, n: Mat3)
    requires Inverses(p, n)
    ensures Det(Col(p, 0), Col(p, 1), Col(p, 2)) != 0.0
  {
    ColumnsNotParallel(p, n);
    UnitDeterminants(Col(p, 1), Col(p, 2));
    if Det(Col(p, 0), Col(p, 1), Col(p, 2)) == 0.0 {
      SolvedCramer(p, n, Vec3(1.0, 0.0, 0.0));
      SolvedCramer(p, n, Vec3(0.0, 1.0, 0.0));
      SolvedCramer(p, n, Vec3(0.0, 0.0, 1.0));
      assert false;
    }
  }

  lemma SolvedCramer(p: Mat3, n: Mat3, v: Vec3)
    requires Inverses(p, n) && Det(Col(p, 0), Col(p, 1), Col(p, 2)) == 0.0
    ensures Det(v, Col(p, 1), Col(p, 2)) == 0.0
  {
    SolutionIs(p, n, MulVec(n, v), v);
    Cramer(p, MulVec(n, v), v);
  }

  /** The white point is in line with two of the primaries. */
  predicate InLine(g: Gamut) {
    || Triangle.Signed(g.white, g.green, g.blue) == 0.0
    || Triangle.Signed(g.red, g.white, g.blue) == 0.0
    || Triangle.Signed(g.red, g.green, g.white) == 0.0
  }

  predicate IsScaled(v: Point, f: real, w: Vec3) {
    Xyz(v) == Vec3(f * w.x, f * w.y, f * w.z)
  }

  lemma FirstScaled(v: Point, f: real, w: Vec3, a: Point, b: Point)
    requires IsScaled(v, f, w)
    ensures f * Det(w, Xyz(a), Xyz(b)) == Triangle.Signed(v, a, b)
  {
  }

  lemma SecondScaled(v: Point, f: real, w: Vec3, a: Point, b: Point)
    requires IsScaled(v, f, w)
    ensures f * Det(Xyz(a), w, Xyz(b)) == Triangle.Signed(a, v, b)
  {
  }

  lemma ThirdScaled(v: Point, f: real, w: Vec3, a: Point, b: Point)
    requires IsScaled(v, f, w)
    ensures f * Det(Xyz(a), Xyz(b), w) == Triangle.Signed(a, b, v)
  {
  }

  lemma ProductZero(s: real, t: real)
    requires s != 0.0
    ensures s * t == 0.0 <==> t == 0.0
  {
  }

  /** A scale factor is zero exactly when the white point is in line with the other two primaries. */
  lemma ZeroScaleIffInLine(g: Gamut, n: Mat3, c: Vec3)
    requires g.white.y != 0.0 && Inverses(PrimaryMatrix(g), n) && ScalesTo(g, c)
    ensures c.x == 0.0 || c.y == 0.0 || c.z == 0.0 <==> InLine(g)
  {
    var p, w, y := PrimaryMatrix(g), ToXYZ(g.white), g.white.y;
    var d := Det(Col(p, 0), Col(p, 1), Col(p, 2));
    InvertedDetNonzero(p, n);
    Cramer(p, c, w);
    FirstScaled(g.white, y, w, g.green, g.blue);
    SecondScaled(g.white, y, w, g.red, g.blue);
    ThirdScaled(g.white, y, w, g.red, g.green);
    ProductZero(d, c.x);
    ProductZero(d, c.y);
    ProductZero(d, c.z);
    ProductZero(y, Det(w, Xyz(g.green), Xyz(g.blue)));
    ProductZero(y, Det(Xyz(g.red), w, Xyz(g.blue)));
    ProductZero(y, Det(Xyz(g.red), Xyz(g.green), w));
  }

  /** The sRGB primaries with a white point halfway between red and green. */
  predicate HalfwayWhite(g: Gamut) {
    && g.red == Point(0.64, 0.33) && g.green == Point(0.3, 0.6) && g.blue == Point(0.15, 0.06)
    && g.white == Point(0.47, 0.465)
  }

  lemma HalfwayPivots(g: Gamut, m: Mat3)
    requires HalfwayWhite(g) && m == PrimaryMatrix(g)
    ensures PivotsSuffice(m)
  {
    assert m == Mat3(Vec3(0.64, 0.3, 0.15), Vec3(0.33, 0.6, 0.06), Vec3(0.03, 0.1, 0.79));
    assert FirstLargest(m) == 0;
    assert Largest(m) == 0.64;
    assert LargestMinor(m) == 0.285;
  }

  /** A gamut that the profile builder accepts can have its white point in line with two primaries, and pass the inversion. */
  lemma HalfwayWhiteInLine(g: Gamut)
    requires HalfwayWhite(g)
    ensures GamutValid(g) && g.white.y >= 0.01 && InLine(g) && PivotsSuffice(PrimaryMatrix(g))
  {
    HalfwayPivots(g, PrimaryMatrix(g));
  }

  /** weston_normalized_primary_matrix_init */
  method NormalizedPrimaryMatrix(g: Gamut, dir: Direction) returns (r: Outcome)
    ensures r == Refused <==> g.white.y < 0.01 || !PivotsSuffice(PrimaryMatrix(g))
    ensures r == Refused && g.white.y >= 0.01 ==> NearlySingular(PrimaryMatrix(g))
    ensures r.Matrix? ==> if dir == FORWARD then ForwardNpm(g, r.m) else InverseNpm(g, r.m)
    ensures r != Refused ==> (r == NotFinite <==> dir == INVERSE && InLine(g))
  {
    var p := PrimaryMatrix(g);
    if g.white.y < 0.01 {
      return Refused;
    }
    var inv := Invert(p);
    if inv.None? {
      return Refused;
    }
    var n := inv.value;
    var white := ToXYZ(g.white);
    var c := MulVec(n, white);
    SolutionIs(p, n, c, white);
    assert ScalesTo(g, c);
    ZeroScaleIffInLine(g, n, c);
    match dir {
      case FORWARD => return Matrix(Mul(p, Diag(c)));
      case INVERSE =>
        if c.x == 0.0 || c.y == 0.0 || c.z == 0.0 {
          return NotFinite;
        }
        var d := Reciprocal(c);
        return Matrix(Mul(Diag(d), n));
    }
  }

  method Reciprocal(c: Vec3) returns (d: Vec3)
    requires c.x != 0.0 && c.y != 0.0 && c.z != 0.0
    ensures Times(d, c) == ONES
  {
    d := Vec3(1.0 / c.x, 1.0 / c.y, 1.0 / c.z);
  }

  /** Full drive on all channels is the white point. */
  lemma NpmSendsWhite(g: Gamut, m: Mat3)
    requires g.white.y != 0.0 && ForwardNpm(g, m)
    ensures MulVec(m, ONES) == ToXYZ(g.white)
  {
    var p := PrimaryMatrix(g);
    var c: Vec3 :| ScalesTo(g, c) && m == Mul(p, Diag(c));
    MulVecMul(p, Diag(c), ONES);
    DiagVec(c, ONES);
  }

  function Scaled(f: real, c: Point): Vec3 {
    Vec3(f * c.x, f * c.y, f * Z(c))
  }

  lemma ScaledColumns(g: Gamut, c: Vec3)
    ensures var m := Mul(PrimaryMatrix(g), Diag(c));
            Col(m, 0) == Scaled(c.x, g.red) && Col(m, 1) == Scaled(c.y, g.green) && Col(m, 2) == Scaled(c.z, g.blue)
  {
  }

  /** Each channel alone has the chromaticity of its primary. */
  lemma NpmKeepsPrimaries(g: Gamut, m: Mat3) returns (c: Vec3)
    requires g.white.y != 0.0 && ForwardNpm(g, m)
    ensures Col(m, 0) == Scaled(c.x, g.red) && Col(m, 1) == Scaled(c.y, g.green) && Col(m, 2) == Scaled(c.z, g.blue)
  {
    c :| ScalesTo(g, c) && m == Mul(PrimaryMatrix(g), Diag(c));
    ScaledColumns(g, c);
  }

  /** The two directions are inverse matrices of each other. */
  lemma NpmDirectionsInvert(g: Gamut, f: Mat3, b: Mat3)
    requires g.white.y != 0.0 && ForwardNpm(g, f) && InverseNpm(g, b)
    ensures Inverses(f, b)
  {
    var p := PrimaryMatrix(g);
    var white := ToXYZ(g.white);
    var c: Vec3, d: Vec3, n: Mat3 :|
      ScalesTo(g, c) && Times(d, c) == ONES && Inverses(p, n) && b == Mul(Diag(d), n);
    var e: Vec3 :| ScalesTo(g, e) && f == Mul(p, Diag(e));
    SolutionIs(p, n, c, white);
    SolutionIs(p, n, e, white);
    DiagonalInverse(d, c);
    ProductInverse(p, n, Diag(c), Diag(d));
    ProductInverse(Diag(d), Diag(c), n, p);
  }

  // ---- Bradford

  const BRADFORD: Mat3 := Mat3(
    Vec3(0.8951, 0.2664, -0.1614),
    Vec3(-0.7502, 1.7135, 0.0367),
    Vec3(0.0389, -0.0685, 1.0296))

  /** The result of inverting this constant matrix, which the source does not look at, is always a success. */
  lemma BradfordNotNearlySingular()
    ensures !NearlySingular(BRADFORD)
  {
  }

  /** The cone response to a white point. */
  function Cone(c: Point): Vec3
    requires c.y != 0.0
  {
    MulVec(BRADFORD, ToXYZ(c))
  }

  predicate Adaptable(c: Point) {
    c.y != 0.0 && Cone(c).x != 0.0 && Cone(c).y != 0.0 && Cone(c).z != 0.0
  }

  ghost predicate Adapts(src: Point, dst: Point, m: Mat3)
    requires src.y != 0.0 && dst.y != 0.0
  {
    exists n: Mat3, r: Vec3 ::
      Inverses(BRADFORD, n) && Times(r, Cone(src)) == Cone(dst) && m == Mul(n, Mul(Diag(r), BRADFORD))
  }

  /** weston_bradford_adaptation */
  method BradfordAdaptation(src: Point, dst: Point) returns (r: Outcome)
    ensures r == NotFinite <==> !Adaptable(src) || dst.y == 0.0
    ensures r != Refused
    ensures r.Matrix? ==> Adapts(src, dst, r.m)
  {
    if src.y == 0.0 || dst.y == 0.0 {
      return NotFinite;
    }
    var inv := Invert(BRADFORD);
    BradfordNotNearlySingular();
    var n := inv.value;
    var s, d := Cone(src), Cone(dst);
    if s.x == 0.0 || s.y == 0.0 || s.z == 0.0 {
      return NotFinite;
    }
    var q := Ratio(d, s);
    return Matrix(Mul(n, Mul(Diag(q), BRADFORD)));
  }

  method Ratio(d: Vec3, s: Vec3) returns (r: Vec3)
    requires s.x != 0.0 && s.y != 0.0 && s.z != 0.0
    ensures Times(r, s) == d
  {
    r := Vec3(d.x / s.x, d.y / s.y, d.z / s.z);
  }

  /** The three cone responses of the Bradford transform. */
  function Rho(v: Vec3): real { 0.8951 * v.x + 0.2664 * v.y - 0.1614 * v.z }

  function Gamma(v: Vec3): real { -0.7502 * v.x + 1.7135 * v.y + 0.0367 * v.z }

  function Beta(v: Vec3): real { 0.0389 * v.x - 0.0685 * v.y + 1.0296 * v.z }

  lemma ConesAre(v: Vec3)
    ensures MulVec(BRADFORD, v) == Responses(v)
  {
  }

  lemma ScaledResponse(r: real, s: real, d: real, a: real, b: real)
    requires r * s == d && b == r * a
    ensures b * s == a * d
  {
  }

  lemma ConesScaled(src: Point, dst: Point, m: Mat3, v: Vec3) returns (r: Vec3)
    requires src.y != 0.0 && dst.y != 0.0 && Adapts(src, dst, m)
    ensures Times(r, Cone(src)) == Cone(dst)
    ensures MulVec(BRADFORD, MulVec(m, v)) == Times(r, MulVec(BRADFORD, v))
  {
    var n: Mat3, q: Vec3 :|
      Inverses(BRADFORD, n) && Times(q, Cone(src)) == Cone(dst) && m == Mul(n, Mul(Diag(q), BRADFORD));
    r := q;
    MulVecMul(n, Mul(Diag(q), BRADFORD), v);
    MulVecMul(Diag(q), BRADFORD, v);
    DiagVec(q, MulVec(BRADFORD, v));
    SolutionIs(BRADFORD, n, MulVec(m, v), Times(q, MulVec(BRADFORD, v)));
  }

  lemma ScaledResponses(r: Vec3, s: Vec3, d: Vec3, a: Vec3, b: Vec3)
    requires Times(r, s) == d && b == Times(r, a)
    ensures Times(b, s) == Times(a, d)
  {
    ScaledResponse(r.x, s.x, d.x, a.x, b.x);
    ScaledResponse(r.y, s.y, d.y, a.y, b.y);
    ScaledResponse(r.z, s.z, d.z, a.z, b.z);
  }

  function Responses(v: Vec3): Vec3 {
    Vec3(Rho(v), Gamma(v), Beta(v))
  }

  /** Of every colour, each cone response is scaled by the ratio of the responses to the two whites. */
  lemma AdaptationScalesCones(src: Point, dst: Point, m: Mat3, v: Vec3)
    requires src.y != 0.0 && dst.y != 0.0 && Adapts(src, dst, m)
    ensures Times(Responses(MulVec(m, v)), Responses(ToXYZ(src))) == Times(Responses(v), Responses(ToXYZ(dst)))
  {
    var r := ConesScaled(src, dst, m, v);
    ConesAre(v);
    ConesAre(MulVec(m, v));
    ConesAre(ToXYZ(src));
    ConesAre(ToXYZ(dst));
    ScaledResponses(r, Cone(src), Cone(dst), Responses(v), Responses(MulVec(m, v)));
  }

  /** The source white becomes the destination white. */
  lemma AdaptationSendsWhite(src: Point, dst: Point, m: Mat3)
    requires src.y != 0.0 && dst.y != 0.0 && Adapts(src, dst, m)
    ensures MulVec(m, ToXYZ(src)) == ToXYZ(dst)
  {
    var n: Mat3, r: Vec3 :|
      Inverses(BRADFORD, n) && Times(r, Cone(src)) == Cone(dst) && m == Mul(n, Mul(Diag(r), BRADFORD));
    MulVecMul(n, Mul(Diag(r), BRADFORD), ToXYZ(src));
    MulVecMul(Diag(r), BRADFORD, ToXYZ(src));
    DiagVec(r, Cone(src));
    SolutionIs(BRADFORD, n, ToXYZ(dst), Cone(dst));
  }

  /** Two white points determine the matrix. */
  lemma AdaptationUnique(src: Point, dst: Point, m: Mat3, m': Mat3)
    requires Adaptable(src) && dst.y != 0.0 && Adapts(src, dst, m) && Adapts(src, dst, m')
    ensures m == m'
  {
    var n: Mat3, r: Vec3 :|
      Inverses(BRADFORD, n) && Times(r, Cone(src)) == Cone(dst) && m == Mul(n, Mul(Diag(r), BRADFORD));
    var n': Mat3, r': Vec3 :|
      Inverses(BRADFORD, n') && Times(r', Cone(src)) == Cone(dst) && m' == Mul(n', Mul(Diag(r'), BRADFORD));
    InverseUnique(BRADFORD, n, n');
    RatioUnique(r, r', Cone(src));
  }

  lemma RatioUnique(r: Vec3, r': Vec3, s: Vec3)
    requires s.x != 0.0 && s.y != 0.0 && s.z != 0.0 && Times(r, s) == Times(r', s)
    ensures r == r'
  {
  }

  /** Adapting from a to b and then from b to c is adapting from a to c. */
  lemma AdaptationsCompose(a: Point, b: Point, c: Point, m: Mat3, k: Mat3)
    requires a.y != 0.0 && b.y != 0.0 && c.y != 0.0 && Adapts(a, b, m) && Adapts(b, c, k)
    ensures Adapts(a, c, Mul(k, m))
  {
    var n: Mat3, r: Vec3 :|
      Inverses(BRADFORD, n) && Times(r, Cone(a)) == Cone(b) && m == Mul(n, Mul(Diag(r), BRADFORD));
    var n': Mat3, q: Vec3 :|
      Inverses(BRADFORD, n') && Times(q, Cone(b)) == Cone(c) && k == Mul(n', Mul(Diag(q), BRADFORD));
    InverseUnique(BRADFORD, n, n');
    SandwichProduct(BRADFORD, n, q, r);
    TimesAssociative(q, r, Cone(a));
  }

  lemma TimesAssociative(q: Vec3, r: Vec3, s: Vec3)
    ensures Times(Times(q, r), s) == Times(q, Times(r, s))
  {
  }

  lemma SandwichProduct(b: Mat3, n: Mat3, q: Vec3, r: Vec3)
    requires Inverses(b, n)
    ensures Mul(Mul(n, Mul(Diag(q), b)), Mul(n, Mul(Diag(r), b))) == Mul(n, Mul(Diag(Times(q, r)), b))
  {
    var dq, dr := Diag(q), Diag(r);
    calc {
      Mul(Mul(n, Mul(dq, b)), Mul(n, Mul(dr, b)));
      { MulAssociative(n, Mul(dq, b), Mul(n, Mul(dr, b))); }
      Mul(n, Mul(Mul(dq, b), Mul(n, Mul(dr, b))));
      { MulAssociative(dq, b, Mul(n, Mul(dr, b))); MulAssociative(b, n, Mul(dr, b)); MulIdentity(Mul(dr, b)); }
      Mul(n, Mul(dq, Mul(dr, b)));
      { MulAssociative(dq, dr, b); DiagProduct(q, r); }
      Mul(n, Mul(Diag(Times(q, r)), b));
    }
  }

  /** Adapting to the same white point changes nothing. */
  lemma AdaptationToItself(a: Point, m: Mat3)
    requires Adaptable(a) && Adapts(a, a, m)
    ensures m == IDENTITY
  {
    var n: Mat3, r: Vec3 :|
      Inverses(BRADFORD, n) && Times(r, Cone(a)) == Cone(a) && m == Mul(n, Mul(Diag(r), BRADFORD));
    assert Times(ONES, Cone(a)) == Cone(a);
    RatioUnique(r, ONES, Cone(a));
    MulIdentity(BRADFORD);
  }

  /** Adapting back is the inverse matrix. */
  lemma AdaptationBack(a: Point, b: Point, m: Mat3, k: Mat3)
    requires Adaptable(a) && Adaptable(b) && Adapts(a, b, m) && Adapts(b, a, k)
    ensures Inverses(m, k)
  {
    AdaptationsCompose(a, b, a, m, k);
    AdaptationToItself(a, Mul(k, m));
    AdaptationsCompose(b, a, b, k, m);
    AdaptationToItself(b, Mul(m, k));
  }
}
