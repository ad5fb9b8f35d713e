/**
 Inversion of a 3x3 matrix by LU decomposition with partial pivoting. Source:
 libweston-vendored/src/shared/matrix.c.
 */
module Lu {
  import opened Vectors
  import opened Bytes
  import opened Reals

  const TINY: real := 0.000000001

  /** Nine elements, one column after another. */
  predicate Cells(lu: seq<real>) { |lu| == 9 }

  function At(lu: seq<real>, i: nat, j: nat): real
    requires Cells(lu) && i < 3 && j < 3
  {
    lu[i + 3 * j]
  }

  function RowOf(m: Mat3, i: nat): Vec3
    requires i < 3
  {
    if i == 0 then m.r0 else if i == 1 then m.r1 else m.r2
  }

  /** The three rows are named in some order. */
  predicate Permutes(p: seq<nat>) {
    && |p| == 3 && p[0] < 3 && p[1] < 3 && p[2] < 3
    && p[0] != p[1] && p[0] != p[2] && p[1] != p[2]
  }

  // ---- what a partly decomposed matrix stands for

  /**
   Row i of the matrix after k columns are done: below the diagonal the done
   columns hold multipliers of the rows above, the rest is still to be reduced.
   */
  function RebuiltRow(lu: seq<real>, k: nat, i: nat): Vec3
    requires Cells(lu) && i < 3
  {
    var a, b, c := At(lu, i, 0), At(lu, i, 1), At(lu, i, 2);
    if k == 0 || i == 0 then Vec3(a, b, c)
    else if k == 1 || i == 1 then
      Vec3(a * At(lu, 0, 0), a * At(lu, 0, 1) + b, a * At(lu, 0, 2) + c)
    else
      Vec3(a * At(lu, 0, 0), a * At(lu, 0, 1) + b * At(lu, 1, 1), a * At(lu, 0, 2) + b * At(lu, 1, 2) + c)
  }

  /** The first k columns of lu are a decomposition of the rows of m in the order p. */
  predicate Decomposed(lu: seq<real>, p: seq<nat>, m: Mat3, k: nat) {
    && Cells(lu) && Permutes(p)
    && RebuiltRow(lu, k, 0) == RowOf(m, p[0])
    && RebuiltRow(lu, k, 1) == RowOf(m, p[1])
    && RebuiltRow(lu, k, 2) == RowOf(m, p[2])
  }

  // ---- pivoting

  method FindPivot(lu: array<real>, k: nat) returns (p: nat)
    requires lu.Length == 9 && k < 3
    ensures k <= p < 3
    ensures forall i: nat :: k <= i < 3 ==> Abs(At(lu[..], i, k)) <= Abs(At(lu[..], p, k))
    ensures forall i: nat :: k <= i < p ==> Abs(At(lu[..], i, k)) < Abs(At(lu[..], p, k))
  {
    p := k;
    for i := k + 1 to 3
      invariant k <= p < i
      invariant forall r: nat :: k <= r < i ==> Abs(At(lu[..], r, k)) <= Abs(At(lu[..], p, k))
      invariant forall r: nat :: k <= r < p ==> Abs(At(lu[..], r, k)) < Abs(At(lu[..], p, k))
    {
      assert At(lu[..], i, k) == lu[i + 3 * k] && At(lu[..], p, k) == lu[p + 3 * k];
      if Abs(lu[p + 3 * k]) < Abs(lu[i + 3 * k]) {
        p := i;
      }
    }
  }

  /** Row i of lu' is row e of lu. */
  predicate RowIs(lu': seq<real>, i: nat, lu: seq<real>, e: nat)
    requires Cells(lu) && Cells(lu') && i < 3 && e < 3
  {
    At(lu', i, 0) == At(lu, e, 0) && At(lu', i, 1) == At(lu, e, 1) && At(lu', i, 2) == At(lu, e, 2)
  }

  predicate RowsSwapped(lu: seq<real>, lu': seq<real>, a: nat, b: nat)
    requires a < 3 && b < 3
  {
    && Cells(lu) && Cells(lu')
    && RowIs(lu', a, lu, b) && RowIs(lu', b, lu, a)
    && forall i: nat :: i < 3 && i != a && i != b ==> RowIs(lu', i, lu, i)
  }

  method SwapRows(lu: array<real>, a: nat, b: nat)
    requires lu.Length == 9 && a < 3 && b < 3 && a != b
    modifies lu
    ensures RowsSwapped(old(lu[..]), lu[..], a, b)
  {
    for c := 0 to 3
      invariant forall i: nat, j: nat :: i < 3 && c <= j < 3 ==> At(lu[..], i, j) == old(At(lu[..], i, j))
      invariant forall j: nat :: j < c ==> At(lu[..], a, j) == old(At(lu[..], b, j)) && At(lu[..], b, j) == old(At(lu[..], a, j))
      invariant forall i: nat, j: nat :: i < 3 && i != a && i != b && j < c ==> At(lu[..], i, j) == old(At(lu[..], i, j))
    {
      var tmp := At(lu[..], a, c);
      SetCell(lu, a, c, At(lu[..], b, c));
      SetCell(lu, b, c, tmp);
    }
  }

  function Exchanged(i: nat, a: nat, b: nat): nat {
    if i == a then b else if i == b then a else i
  }

  lemma SwapKeeps(lu: seq<real>, lu': seq<real>, p: seq<nat>, m: Mat3, k: nat, a: nat)
    requires k < a < 3 && Decomposed(lu, p, m, k) && RowsSwapped(lu, lu', k, a)
    ensures Decomposed(lu', p[k := p[a]][a := p[k]], m, k)
  {
    var q := p[k := p[a]][a := p[k]];
    if k == 0 {
      assert RowIs(lu', 0, lu, a) && RowIs(lu', a, lu, 0);
      var c := 3 - a;
      assert RowIs(lu', c, lu, c) && q[c] == p[c];
    } else {
      assert RowIs(lu', 0, lu, 0);
      SameRebuilt(lu, lu', 1, 2);
      SameRebuilt(lu, lu', 2, 1);
    }
  }

  lemma SameRebuilt(lu: seq<real>, lu': seq<real>, i: nat, e: nat)
    requires Cells(lu) && Cells(lu') && 0 < i < 3 && 0 < e < 3 && RowIs(lu', 0, lu, 0) && RowIs(lu', i, lu, e)
    ensures RebuiltRow(lu', 1, i) == RebuiltRow(lu, 1, e)
  {
  }

  // ---- elimination

  /** Row i after column k has been eliminated from it. */
  predicate RowReduced(lu: seq<real>, lu': seq<real>, k: nat, i: nat)
    requires Cells(lu) && Cells(lu') && k < 3 && i < 3
  {
    && (forall j: nat :: j < k ==> At(lu', i, j) == At(lu, i, j))
    && At(lu', i, k) * At(lu, k, k) == At(lu, i, k)
    && (forall j: nat :: k < j < 3 ==> At(lu', i, j) == Less(At(lu, i, j), At(lu', i, k), At(lu, k, j)))
  }

  predicate Eliminated(lu: seq<real>, lu': seq<real>, k: nat)
    requires k < 3
  {
    && Cells(lu) && Cells(lu')
    && (forall i: nat :: i <= k ==> RowIs(lu', i, lu, i))
    && (forall i: nat :: k < i < 3 ==> RowReduced(lu, lu', k, i))
  }

  lemma EliminateFirst(lu: seq<real>, lu': seq<real>, p: seq<nat>, m: Mat3)
    requires Decomposed(lu, p, m, 0) && Eliminated(lu, lu', 0)
    ensures Decomposed(lu', p, m, 1)
  {
    assert RowIs(lu', 0, lu, 0) && RowReduced(lu, lu', 0, 1) && RowReduced(lu, lu', 0, 2);
  }

  lemma EliminateSecond(lu: seq<real>, lu': seq<real>, p: seq<nat>, m: Mat3)
    requires Decomposed(lu, p, m, 1) && Eliminated(lu, lu', 1)
    ensures Decomposed(lu', p, m, 2)
  {
    assert RowIs(lu', 0, lu, 0) && RowIs(lu', 1, lu, 1) && RowReduced(lu, lu', 1, 2);
    SameRebuilt(lu, lu', 1, 1);
    ReducedThirdRow(lu, lu');
  }

  lemma ReducedThirdRow(lu: seq<real>, lu': seq<real>)
    requires Cells(lu) && Cells(lu') && RowIs(lu', 0, lu, 0) && RowIs(lu', 1, lu, 1) && RowReduced(lu, lu', 1, 2)
    ensures RebuiltRow(lu', 2, 2) == RebuiltRow(lu, 1, 2)
  {
  }

  lemma EliminateThird(lu: seq<real>, lu': seq<real>, p: seq<nat>, m: Mat3)
    requires Decomposed(lu, p, m, 2) && Eliminated(lu, lu', 2)
    ensures Decomposed(lu', p, m, 3)
  {
    assert RowIs(lu', 0, lu, 0) && RowIs(lu', 1, lu, 1) && RowIs(lu', 2, lu, 2);
    assert lu' == lu;
  }

  method SetCell(lu: array<real>, i: nat, j: nat, v: real)
    requires lu.Length == 9 && i < 3 && j < 3
    modifies lu
    ensures At(lu[..], i, j) == v
    ensures forall r: nat, c: nat :: r < 3 && c < 3 && !(r == i && c == j) ==> At(lu[..], r, c) == old(At(lu[..], r, c))
  {
    lu[i + 3 * j] := v;
  }

  method ReduceRow(lu: array<real>, k: nat, i: nat)
    requires lu.Length == 9 && k < i < 3 && At(lu[..], k, k) != 0.0
    modifies lu
    ensures RowReduced(old(lu[..]), lu[..], k, i)
    ensures forall r: nat :: r < 3 && r != i ==> RowIs(lu[..], r, old(lu[..]), r)
  {
    ghost var was := lu[..];
    var l := Quotient(At(lu[..], i, k), At(lu[..], k, k));
    SetCell(lu, i, k, l);
    for j := k + 1 to 3
      invariant At(lu[..], i, k) == l
      invariant forall c: nat :: k < c < j ==> At(lu[..], i, c) == Less(At(was, i, c), l, At(was, k, c))
      invariant forall c: nat :: c < 3 && (c < k || j <= c) ==> At(lu[..], i, c) == At(was, i, c)
      invariant forall r: nat, c: nat :: r < 3 && c < 3 && r != i ==> At(lu[..], r, c) == At(was, r, c)
    {
      SetCell(lu, i, j, Less(At(lu[..], i, j), l, At(lu[..], k, j)));
    }
  }

  function Less(u: real, l: real, w: real): real {
    u - l * w
  }

  method Eliminate(lu: array<real>, k: nat)
    requires lu.Length == 9 && k < 3 && At(lu[..], k, k) != 0.0
    modifies lu
    ensures Eliminated(old(lu[..]), lu[..], k)
  {
    ghost var was := lu[..];
    for i := k + 1 to 3
      invariant forall r: nat :: r <= k ==> RowIs(lu[..], r, was, r)
      invariant forall r: nat :: k < r < i ==> RowReduced(was, lu[..], k, r)
      invariant forall r: nat :: i <= r < 3 ==> RowIs(lu[..], r, was, r)
    {
      ghost var prev := lu[..];
      PivotRowKept(was, prev, k);
      ReduceRow(lu, k, i);
      ReducedFrom(was, prev, lu[..], k, i);
      forall r: nat | r < 3 && r != i && RowIs(prev, r, was, r) ensures RowIs(lu[..], r, was, r) {
        assert RowIs(lu[..], r, prev, r);
      }
      forall r: nat | k < r < i ensures RowReduced(was, lu[..], k, r) {
        ReducedKept(was, prev, lu[..], k, r);
      }
    }
  }

  lemma PivotRowKept(was: seq<real>, prev: seq<real>, k: nat)
    requires Cells(was) && Cells(prev) && k < 3 && RowIs(prev, k, was, k)
    ensures At(prev, k, k) == At(was, k, k)
  {
  }

  lemma ReducedFrom(was: seq<real>, prev: seq<real>, now: seq<real>, k: nat, i: nat)
    requires Cells(was) && Cells(prev) && Cells(now) && k < i < 3
    requires RowIs(prev, k, was, k) && RowIs(prev, i, was, i) && RowReduced(prev, now, k, i)
    ensures RowReduced(was, now, k, i)
  {
  }

  lemma ReducedKept(was: seq<real>, prev: seq<real>, now: seq<real>, k: nat, r: nat)
    requires Cells(was) && Cells(prev) && Cells(now) && k < r < 3
    requires RowIs(now, r, prev, r) && RowReduced(was, prev, k, r)
    ensures RowReduced(was, now, k, r)
  {
  }

  /** Some vector with a component 1 is sent to within the threshold of zero. */
  ghost predicate NearlySingular(m: Mat3) {
    exists x: Vec3 :: Witnesses(m, x)
  }

  predicate Witnesses(m: Mat3, x: Vec3) {
    && (x.x == 1.0 || x.y == 1.0 || x.z == 1.0)
    && Abs(Dot(m.r0, x)) < TINY && Abs(Dot(m.r1, x)) < TINY && Abs(Dot(m.r2, x)) < TINY
  }

  predicate SmallColumn(lu: seq<real>, k: nat)
    requires k < 3
  {
    Cells(lu) && forall i: nat :: k <= i < 3 ==> Abs(At(lu, i, k)) < TINY
  }

  lemma SmallRows(m: Mat3, p: seq<nat>, x: Vec3)
    requires Permutes(p) && (x.x == 1.0 || x.y == 1.0 || x.z == 1.0)
    requires Abs(Dot(RowOf(m, p[0]), x)) < TINY && Abs(Dot(RowOf(m, p[1]), x)) < TINY && Abs(Dot(RowOf(m, p[2]), x)) < TINY
    ensures NearlySingular(m)
  {
    assert Witnesses(m, x);
  }

  lemma SmallFirst(lu: seq<real>, p: seq<nat>, m: Mat3)
    requires Decomposed(lu, p, m, 0) && SmallColumn(lu, 0)
    ensures NearlySingular(m)
  {
    var x := Vec3(1.0, 0.0, 0.0);
    assert Abs(At(lu, 0, 0)) < TINY && Abs(At(lu, 1, 0)) < TINY && Abs(At(lu, 2, 0)) < TINY;
    SmallRows(m, p, x);
  }

  lemma SmallSecond(lu: seq<real>, p: seq<nat>, m: Mat3)
    requires Decomposed(lu, p, m, 1) && SmallColumn(lu, 1) && At(lu, 0, 0) != 0.0
    ensures NearlySingular(m)
  {
    var q := Divide(-At(lu, 0, 1), At(lu, 0, 0));
    var x := Vec3(q, 1.0, 0.0);
    var r0 := RebuiltRow(lu, 1, 0);
    assert Dot(r0, x) == 0.0;
    BelowFirst(lu, 1, x, Dot(r0, x));
    BelowFirst(lu, 2, x, Dot(r0, x));
    assert Abs(At(lu, 1, 1)) < TINY && Abs(At(lu, 2, 1)) < TINY;
    SmallRows(m, p, x);
  }

  /** A row with one multiplier: the first row scaled plus what is left. */
  lemma BelowFirst(lu: seq<real>, i: nat, x: Vec3, first: real)
    requires Cells(lu) && 0 < i < 3 && first == Dot(RebuiltRow(lu, 1, 0), x)
    ensures Dot(RebuiltRow(lu, 1, i), x) == At(lu, i, 0) * first + At(lu, i, 1) * x.y + At(lu, i, 2) * x.z
  {
  }

  /** A row with two multipliers. */
  lemma BelowSecond(lu: seq<real>, k: nat, x: Vec3, first: real, rest: real)
    requires Cells(lu) && k >= 2 && first == Dot(RebuiltRow(lu, k, 0), x)
    requires rest == At(lu, 1, 1) * x.y + At(lu, 1, 2) * x.z
    ensures Dot(RebuiltRow(lu, k, 1), x) == At(lu, 1, 0) * first + rest
    ensures Dot(RebuiltRow(lu, k, 2), x) == At(lu, 2, 0) * first + At(lu, 2, 1) * rest + At(lu, 2, 2) * x.z
  {
  }

  lemma SmallThird(lu: seq<real>, p: seq<nat>, m: Mat3)
    requires Decomposed(lu, p, m, 2) && SmallColumn(lu, 2) && At(lu, 0, 0) != 0.0 && At(lu, 1, 1) != 0.0
    ensures NearlySingular(m)
  {
    var y := Divide(-At(lu, 1, 2), At(lu, 1, 1));
    var z := Divide(-(At(lu, 0, 1) * y + At(lu, 0, 2)), At(lu, 0, 0));
    var x := Vec3(z, y, 1.0);
    assert Dot(RebuiltRow(lu, 2, 0), x) == 0.0;
    BelowSecond(lu, 2, x, 0.0, 0.0);
    assert Abs(At(lu, 2, 2)) < TINY;
    SmallRows(m, p, x);
  }

  lemma SmallPivot(lu: seq<real>, p: seq<nat>, m: Mat3, k: nat)
    requires k < 3 && Decomposed(lu, p, m, k) && SmallColumn(lu, k)
    requires forall t: nat :: t < k ==> At(lu, t, t) != 0.0
    ensures NearlySingular(m)
  {
    if k == 0 {
      SmallFirst(lu, p, m);
    } else if k == 1 {
      SmallSecond(lu, p, m);
    } else {
      SmallThird(lu, p, m);
    }
  }

  lemma EliminateKeeps(lu: seq<real>, lu': seq<real>, p: seq<nat>, m: Mat3, k: nat)
    requires k < 3 && Decomposed(lu, p, m, k) && Eliminated(lu, lu', k)
    ensures Decomposed(lu', p, m, k + 1)
  {
    if k == 0 {
      EliminateFirst(lu, lu', p, m);
    } else if k == 1 {
      EliminateSecond(lu, lu', p, m);
    } else {
      EliminateThird(lu, lu', p, m);
    }
  }

  predicate PivotsAbove(lu: seq<real>, k: nat)
    requires Cells(lu) && k <= 3
  {
    forall t: nat :: t < k ==> Abs(At(lu, t, t)) >= TINY
  }

  // ---- the pivots as functions of the matrix

  /** The first row whose first element is largest in magnitude. */
  function FirstLargest(m: Mat3): (r: nat)
    ensures r < 3
  {
    if Abs(m.r0.x) >= Abs(m.r1.x) && Abs(m.r0.x) >= Abs(m.r2.x) then 0
    else if Abs(m.r1.x) >= Abs(m.r2.x) then 1
    else 2
  }

  function Minor(r: Vec3, s: Vec3): real {
    r.x * s.y - s.x * r.y
  }

  /** The magnitude of the first pivot. */
  function Largest(m: Mat3): real {
    Abs(RowOf(m, FirstLargest(m)).x)
  }

  /** The largest 2x2 minor of the first two columns that uses the pivot row. */
  function LargestMinor(m: Mat3): real {
    var r := RowOf(m, FirstLargest(m));
    Max(Abs(Minor(r, m.r0)), Max(Abs(Minor(r, m.r1)), Abs(Minor(r, m.r2))))
  }

  function Determinant(m: Mat3): real {
    Det(m.r0, m.r1, m.r2)
  }

  /**
   All three pivots, which are Largest, LargestMinor over Largest, and the
   determinant over LargestMinor, reach the threshold.
   */
  predicate PivotsSuffice(m: Mat3) {
    && Largest(m) >= TINY
    && LargestMinor(m) >= TINY * Largest(m)
    && Abs(Determinant(m)) >= TINY * LargestMinor(m)
  }

  lemma FirstPivotIs(lu: seq<real>, p: seq<nat>, m: Mat3, k: nat)
    requires Decomposed(lu, p, m, k)
    ensures At(lu, 0, 0) == RowOf(m, p[0]).x
  {
  }

  predicate ProductIs(x: real, y: real, z: real) {
    x * y == z
  }

  lemma ReducedIsMinor(lu: seq<real>, p: seq<nat>, m: Mat3, i: nat)
    requires Decomposed(lu, p, m, 1) && 0 < i < 3
    ensures ProductIs(At(lu, i, 1), At(lu, 0, 0), Minor(RowOf(m, p[0]), RowOf(m, p[i])))
  {
    assert RebuiltRow(lu, 1, i) == RowOf(m, p[i]);
  }

  lemma AbsProduct(x: real, y: real)
    ensures Abs(x * y) == Abs(x) * Abs(y)
  {
  }

  lemma LargerFactor(s: real, x: real, y: real, u: real, v: real)
    requires s >= 0.0 && x <= y && ProductIs(x, s, u) && ProductIs(y, s, v)
    ensures u <= v
  {
  }

  lemma LargerProduct(a: real, b: real, u: real, x: real, y: real)
    requires ProductIs(a, u, x) && ProductIs(b, u, y) && Abs(b) <= Abs(a)
    ensures ProductIs(Abs(a), Abs(u), Max(Abs(x), Abs(y)))
  {
    AbsProductIs(a, u, x);
    AbsProductIs(b, u, y);
    LargerFactor(Abs(u), Abs(b), Abs(a), Abs(y), Abs(x));
  }

  lemma AbsProductIs(x: real, y: real, z: real)
    requires ProductIs(x, y, z)
    ensures ProductIs(Abs(x), Abs(y), Abs(z))
  {
  }

  lemma MinorsOf(m: Mat3, p: seq<nat>)
    requires Permutes(p) && p[0] == FirstLargest(m)
    ensures var r := RowOf(m, p[0]);
            LargestMinor(m) == Max(Abs(Minor(r, RowOf(m, p[1]))), Abs(Minor(r, RowOf(m, p[2]))))
  {
    assert Minor(RowOf(m, p[0]), RowOf(m, p[0])) == 0.0;
  }

  lemma SecondPivotIs(lu: seq<real>, p: seq<nat>, m: Mat3)
    requires Decomposed(lu, p, m, 1) && p[0] == FirstLargest(m)
    requires Abs(At(lu, 2, 1)) <= Abs(At(lu, 1, 1))
    ensures ProductIs(Abs(At(lu, 1, 1)), Largest(m), LargestMinor(m))
  {
    var r := RowOf(m, p[0]);
    FirstPivotIs(lu, p, m, 1);
    ReducedIsMinor(lu, p, m, 1);
    ReducedIsMinor(lu, p, m, 2);
    MinorsOf(m, p);
    LargerProduct(At(lu, 1, 1), At(lu, 2, 1), At(lu, 0, 0), Minor(r, RowOf(m, p[1])), Minor(r, RowOf(m, p[2])));
  }

  predicate TripleIs(x: real, y: real, z: real, d: real) {
    (x * y) * z == d
  }

  lemma DetOfDecomposed(lu: seq<real>, p: seq<nat>, m: Mat3)
    requires Decomposed(lu, p, m, 2)
    ensures TripleIs(At(lu, 0, 0), At(lu, 1, 1), At(lu, 2, 2), Det(RowOf(m, p[0]), RowOf(m, p[1]), RowOf(m, p[2])))
  {
    assert Det(RebuiltRow(lu, 2, 0), RebuiltRow(lu, 2, 1), RebuiltRow(lu, 2, 2))
        == (At(lu, 0, 0) * At(lu, 1, 1)) * At(lu, 2, 2);
  }

  lemma DetOfRows(m: Mat3, p: seq<nat>)
    requires Permutes(p)
    ensures Abs(Det(RowOf(m, p[0]), RowOf(m, p[1]), RowOf(m, p[2]))) == Abs(Determinant(m))
  {
  }

  lemma ThirdProduct(u: real, a: real, c: real, d: real, minor: real)
    requires TripleIs(u, a, c, d) && ProductIs(Abs(a), Abs(u), minor)
    ensures ProductIs(Abs(c), minor, Abs(d))
  {
    AbsProduct(u, a);
    AbsProduct(u * a, c);
  }

  lemma ThirdPivotIs(lu: seq<real>, p: seq<nat>, m: Mat3)
    requires Decomposed(lu, p, m, 2) && p[0] == FirstLargest(m)
    requires ProductIs(Abs(At(lu, 1, 1)), Largest(m), LargestMinor(m))
    ensures ProductIs(Abs(At(lu, 2, 2)), LargestMinor(m), Abs(Determinant(m)))
  {
    FirstPivotIs(lu, p, m, 2);
    DetOfDecomposed(lu, p, m);
    DetOfRows(m, p);
    ThirdProduct(At(lu, 0, 0), At(lu, 1, 1), At(lu, 2, 2), Det(RowOf(m, p[0]), RowOf(m, p[1]), RowOf(m, p[2])),
                 LargestMinor(m));
  }

  // ---- the decomposition

  predicate Dominates(lu: seq<real>, k: nat)
    requires Cells(lu) && k < 3
  {
    forall i: nat :: k <= i < 3 ==> Abs(At(lu, i, k)) <= Abs(At(lu, k, k))
  }

  predicate RowsKept(lu: seq<real>, lu': seq<real>, k: nat)
    requires Cells(lu) && Cells(lu') && k <= 3
  {
    forall t: nat :: t < k ==> RowIs(lu', t, lu, t)
  }

  /** Bring the first largest remaining element of column k to the diagonal. */
  method Pivot(lu: array<real>, perm: array<nat>, k: nat, ghost m: Mat3)
    requires lu.Length == 9 && perm.Length == 3 && k < 3
    requires Decomposed(lu[..], perm[..], m, k)
    modifies lu, perm
    ensures Decomposed(lu[..], perm[..], m, k) && Dominates(lu[..], k) && RowsKept(old(lu[..]), lu[..], k)
    ensures k > 0 ==> perm[0] == old(perm[0])
    ensures k == 0 && old(perm[..]) == [0, 1, 2] ==> perm[0] == FirstLargest(m)
  {
    ghost var was, p := lu[..], perm[..];
    var pivot := FindPivot(lu, k);
    if k == 0 && p == [0, 1, 2] {
      FirstLargestIs(was, m, pivot);
    }
    if pivot != k {
      perm[k], perm[pivot] := perm[pivot], perm[k];
      SwapRows(lu, k, pivot);
      assert perm[..] == p[k := p[pivot]][pivot := p[k]];
      SwapKeeps(was, lu[..], p, m, k, pivot);
      SwapKeepsLargest(was, lu[..], k, pivot);
    }
  }

  lemma FirstLargestIs(lu: seq<real>, m: Mat3, pivot: nat)
    requires Decomposed(lu, [0, 1, 2], m, 0) && pivot < 3
    requires forall i: nat :: i < 3 ==> Abs(At(lu, i, 0)) <= Abs(At(lu, pivot, 0))
    requires forall i: nat :: i < pivot ==> Abs(At(lu, i, 0)) < Abs(At(lu, pivot, 0))
    ensures pivot == FirstLargest(m)
  {
    assert At(lu, 0, 0) == m.r0.x && At(lu, 1, 0) == m.r1.x && At(lu, 2, 0) == m.r2.x;
  }

  lemma SwapKeepsLargest(lu: seq<real>, lu': seq<real>, k: nat, a: nat)
    requires k < a < 3 && RowsSwapped(lu, lu', k, a)
    requires forall i: nat :: k <= i < 3 ==> Abs(At(lu, i, k)) <= Abs(At(lu, a, k))
    ensures Dominates(lu', k)
  {
    forall i: nat | k <= i < 3 ensures Abs(At(lu', i, k)) <= Abs(At(lu', k, k)) {
      var e := Exchanged(i, k, a);
      assert RowIs(lu', i, lu, e) && RowIs(lu', k, lu, a);
      assert Abs(At(lu, e, k)) <= Abs(At(lu, a, k));
    }
  }

  /** What the first k pivots, all large enough, are as functions of the matrix. */
  ghost predicate Passed(lu: seq<real>, p: seq<nat>, m: Mat3, k: nat) {
    && Cells(lu) && k <= 3
    && PivotsAbove(lu, k)
    && (k == 0 ==> p == [0, 1, 2])
    && (k > 0 ==> |p| == 3 && p[0] == FirstLargest(m) && Largest(m) >= TINY)
    && (k > 1 ==> ProductIs(Abs(At(lu, 1, 1)), Largest(m), LargestMinor(m)) && LargestMinor(m) >= TINY * Largest(m))
    && (k > 2 ==> Abs(Determinant(m)) >= TINY * LargestMinor(m))
  }

  lemma PassedKept(lu: seq<real>, lu': seq<real>, p: seq<nat>, m: Mat3, k: nat)
    requires 0 < k && Passed(lu, p, m, k) && Cells(lu') && RowsKept(lu, lu', k)
    ensures Passed(lu', p, m, k)
  {
    forall t: nat | t < k ensures At(lu', t, t) == At(lu, t, t) {
      assert RowIs(lu', t, lu, t);
    }
  }

  lemma ThresholdOfProduct(x: real, s: real, z: real)
    requires ProductIs(x, s, z) && s > 0.0
    ensures x >= TINY <==> z >= TINY * s
  {
  }

  lemma PositiveMinor(m: Mat3)
    requires Largest(m) >= TINY && LargestMinor(m) >= TINY * Largest(m)
    ensures LargestMinor(m) > 0.0
  {
  }

  /** Once the pivot is in place, its size decides whether one more stage is passed. */
  lemma PassedOneMore(lu: seq<real>, p: seq<nat>, m: Mat3, k: nat)
    requires k < 3 && Decomposed(lu, p, m, k) && Dominates(lu, k) && p[0] == FirstLargest(m)
    requires k > 0 ==> Passed(lu, p, m, k)
    ensures Abs(At(lu, k, k)) >= TINY ==> Passed(lu, p, m, k + 1)
    ensures Abs(At(lu, k, k)) < TINY ==> !PivotsSuffice(m)
  {
    if k == 0 {
      FirstPivotIs(lu, p, m, 0);
    } else if k == 1 {
      SecondPassed(lu, p, m);
    } else {
      ThirdPassed(lu, p, m);
    }
  }

  lemma SecondPassed(lu: seq<real>, p: seq<nat>, m: Mat3)
    requires Decomposed(lu, p, m, 1) && Dominates(lu, 1) && Passed(lu, p, m, 1)
    ensures Abs(At(lu, 1, 1)) >= TINY ==> Passed(lu, p, m, 2)
    ensures Abs(At(lu, 1, 1)) < TINY ==> !PivotsSuffice(m)
  {
    assert Abs(At(lu, 2, 1)) <= Abs(At(lu, 1, 1));
    SecondPivotIs(lu, p, m);
    ThresholdOfProduct(Abs(At(lu, 1, 1)), Largest(m), LargestMinor(m));
  }

  lemma ThirdPassed(lu: seq<real>, p: seq<nat>, m: Mat3)
    requires Decomposed(lu, p, m, 2) && Passed(lu, p, m, 2)
    ensures Abs(At(lu, 2, 2)) >= TINY ==> Passed(lu, p, m, 3)
    ensures Abs(At(lu, 2, 2)) < TINY ==> !PivotsSuffice(m)
  {
    ThirdPivotIs(lu, p, m);
    PositiveMinor(m);
    ThresholdOfProduct(Abs(At(lu, 2, 2)), LargestMinor(m), Abs(Determinant(m)));
  }

  /** Bring the pivot up and compare it with the threshold. */
  method PivotAndTest(lu: array<real>, perm: array<nat>, k: nat, ghost m: Mat3) returns (small: bool)
    requires lu.Length == 9 && perm.Length == 3 && k < 3
    requires Decomposed(lu[..], perm[..], m, k) && Passed(lu[..], perm[..], m, k)
    modifies lu, perm
    ensures small ==> !PivotsSuffice(m) && NearlySingular(m)
    ensures !small ==> Decomposed(lu[..], perm[..], m, k) && Passed(lu[..], perm[..], m, k + 1)
  {
    ghost var was, p := lu[..], perm[..];
    Pivot(lu, perm, k, m);
    if k > 0 {
      PassedKept(was, lu[..], p, m, k);
    }
    PassedOneMore(lu[..], perm[..], m, k);
    var pv := lu[k + 3 * k];
    assert pv == At(lu[..], k, k);
    small := Abs(pv) < TINY;
    if small {
      assert SmallColumn(lu[..], k);
      SmallPivot(lu[..], perm[..], m, k);
    }
  }

  /** m3f_LU_decompose, from rows already stored: refused exactly when one of the three pivots is too small. */
  method Decompose(lu: array<real>, perm: array<nat>, ghost m: Mat3) returns (ok: bool)
    requires lu.Length == 9 && perm.Length == 3 && perm[..] == [0, 1, 2] && Decomposed(lu[..], perm[..], m, 0)
    modifies lu, perm
    ensures ok <==> PivotsSuffice(m)
    ensures ok ==> Decomposed(lu[..], perm[..], m, 3) && PivotsAbove(lu[..], 3)
    ensures !ok ==> NearlySingular(m)
  {
    for k := 0 to 3
      invariant Decomposed(lu[..], perm[..], m, k) && Passed(lu[..], perm[..], m, k)
    {
      var small := PivotAndTest(lu, perm, k, m);
      if small {
        return false;
      }
      ghost var was := lu[..];
      Eliminate(lu, k);
      EliminateKeeps(was, lu[..], perm[..], m, k);
      PassedKept(was, lu[..], perm[..], m, k + 1);
    }
    return true;
  }

  // ---- solving

  function El(v: Vec3, i: nat): real
    requires i < 3
  {
    if i == 0 then v.x else if i == 1 then v.y else v.z
  }

  /** b solves the lower triangular system, whose diagonal is all ones. */
  predicate LowerSolved(lu: seq<real>, p: seq<nat>, v: Vec3, b: Vec3) {
    && Cells(lu) && Permutes(p)
    && b.x == El(v, p[0])
    && At(lu, 1, 0) * b.x + b.y == El(v, p[1])
    && At(lu, 2, 0) * b.x + At(lu, 2, 1) * b.y + b.z == El(v, p[2])
  }

  /** x solves the upper triangular system. */
  predicate UpperSolved(lu: seq<real>, b: Vec3, x: Vec3) {
    && Cells(lu)
    && At(lu, 0, 0) * x.x + At(lu, 0, 1) * x.y + At(lu, 0, 2) * x.z == b.x
    && At(lu, 1, 1) * x.y + At(lu, 1, 2) * x.z == b.y
    && At(lu, 2, 2) * x.z == b.z
  }

  lemma SolvedRows(lu: seq<real>, p: seq<nat>, v: Vec3, b: Vec3, x: Vec3)
    requires LowerSolved(lu, p, v, b) && UpperSolved(lu, b, x)
    ensures Dot(RebuiltRow(lu, 3, 0), x) == El(v, p[0])
    ensures Dot(RebuiltRow(lu, 3, 1), x) == El(v, p[1])
    ensures Dot(RebuiltRow(lu, 3, 2), x) == El(v, p[2])
  {
  }

  lemma Solved(lu: seq<real>, p: seq<nat>, m: Mat3, v: Vec3, b: Vec3, x: Vec3)
    requires Decomposed(lu, p, m, 3) && LowerSolved(lu, p, v, b) && UpperSolved(lu, b, x)
    ensures MulVec(m, x) == v
  {
    SolvedRows(lu, p, v, b, x);
    RowsDetermine(m, p, x, v);
  }

  lemma RowsDetermine(m: Mat3, p: seq<nat>, x: Vec3, v: Vec3)
    requires Permutes(p)
    requires Dot(RowOf(m, p[0]), x) == El(v, p[0])
    requires Dot(RowOf(m, p[1]), x) == El(v, p[1])
    requires Dot(RowOf(m, p[2]), x) == El(v, p[2])
    ensures MulVec(m, x) == v
  {
  }

  lemma UpperEquations(lu: seq<real>, b: Vec3, x: Vec3)
    requires Cells(lu)
    requires lu[8] * x.z == b.z
    requires lu[4] * x.y == b.y - x.z * lu[7]
    requires lu[0] * x.x == b.x - x.z * lu[6] - x.y * lu[3]
    ensures UpperSolved(lu, b, x)
  {
  }

  lemma PivotsNonzero(lu: seq<real>)
    requires Cells(lu) && PivotsAbove(lu, 3)
    ensures lu[0] != 0.0 && lu[4] != 0.0 && lu[8] != 0.0
  {
    assert Abs(At(lu, 0, 0)) >= TINY && Abs(At(lu, 1, 1)) >= TINY && Abs(At(lu, 2, 2)) >= TINY;
  }

  /** Back substitution; the source's two rounds are written out. */
  method BackSubstitute(lu: array<real>, b: array<real>)
    requires lu.Length == 9 && b.Length == 3 && PivotsAbove(lu[..], 3) && b != lu
    modifies b
    ensures UpperSolved(lu[..], old(Vec3(b[0], b[1], b[2])), Vec3(b[0], b[1], b[2]))
  {
    ghost var before := Vec3(b[0], b[1], b[2]);
    PivotsNonzero(lu[..]);
    b[2] := Quotient(b[2], lu[8]);
    b[0] := b[0] - b[2] * lu[6];
    b[1] := b[1] - b[2] * lu[7];
    b[1] := Quotient(b[1], lu[4]);
    b[0] := b[0] - b[1] * lu[3];
    b[0] := Quotient(b[0], lu[0]);
    UpperEquations(lu[..], before, Vec3(b[0], b[1], b[2]));
  }

  method Quotient(u: real, s: real) returns (q: real)
    requires s != 0.0
    ensures s * q == u
  {
    q := u / s;
  }

  /** m3f_LU_inverse_transform: the vector that the decomposed matrix sends to v. */
  method InverseTransform(lu: array<real>, perm: array<nat>, ghost m: Mat3, v: Vec3) returns (x: Vec3)
    requires lu.Length == 9 && perm.Length == 3
    requires Decomposed(lu[..], perm[..], m, 3) && PivotsAbove(lu[..], 3)
    ensures MulVec(m, x) == v
  {
    var b := new real[3];
    b[0] := El(v, perm[0]);
    b[1] := El(v, perm[1]) - b[0] * lu[1];
    b[2] := El(v, perm[2]) - b[0] * lu[2] - b[1] * lu[5];
    ghost var lower := Vec3(b[0], b[1], b[2]);
    assert LowerSolved(lu[..], perm[..], v, lower);
    BackSubstitute(lu, b);
    x := Vec3(b[0], b[1], b[2]);
    Solved(lu[..], perm[..], m, v, lower, x);
  }

  // ---- a decomposed matrix is injective

  const ZERO: Vec3 := Vec3(0.0, 0.0, 0.0)

  lemma KernelIsZero(lu: seq<real>, p: seq<nat>, m: Mat3, x: Vec3)
    requires Decomposed(lu, p, m, 3) && PivotsAbove(lu, 3) && MulVec(m, x) == ZERO
    ensures x == ZERO
  {
    PivotsNonzero(lu);
    var rest := At(lu, 1, 1) * x.y + At(lu, 1, 2) * x.z;
    assert Dot(RebuiltRow(lu, 3, 0), x) == 0.0;
    BelowSecond(lu, 3, x, 0.0, rest);
    Factor(At(lu, 2, 2), x.z);
    Factor(At(lu, 1, 1), x.y);
    Factor(At(lu, 0, 0), x.x);
  }

  lemma Factor(s: real, t: real)
    requires s != 0.0
    ensures s * t == 0.0 ==> t == 0.0
  {
  }

  lemma Injective(lu: seq<real>, p: seq<nat>, m: Mat3, u: Vec3, w: Vec3)
    requires Decomposed(lu, p, m, 3) && PivotsAbove(lu, 3) && MulVec(m, u) == MulVec(m, w)
    ensures u == w
  {
    var d := Vec3(u.x - w.x, u.y - w.y, u.z - w.z);
    DotDifference(m.r0, u, w, d);
    DotDifference(m.r1, u, w, d);
    DotDifference(m.r2, u, w, d);
    KernelIsZero(lu, p, m, d);
  }

  lemma DotDifference(r: Vec3, u: Vec3, w: Vec3, d: Vec3)
    requires d == Vec3(u.x - w.x, u.y - w.y, u.z - w.z)
    ensures Dot(r, d) == Dot(r, u) - Dot(r, w)
  {
  }

  predicate Inverses(m: Mat3, n: Mat3) {
    Mul(m, n) == IDENTITY && Mul(n, m) == IDENTITY
  }

  lemma MulVecMul(m: Mat3, n: Mat3, v: Vec3)
    ensures MulVec(m, MulVec(n, v)) == MulVec(Mul(m, n), v)
  {
  }

  /** A right inverse of a decomposed matrix is a left inverse. */
  lemma RightIsLeft(lu: seq<real>, p: seq<nat>, m: Mat3, n: Mat3)
    requires Decomposed(lu, p, m, 3) && PivotsAbove(lu, 3) && Mul(m, n) == IDENTITY
    ensures Mul(n, m) == IDENTITY
  {
    LeftColumn(lu, p, m, n, 0);
    LeftColumn(lu, p, m, n, 1);
    LeftColumn(lu, p, m, n, 2);
  }

  lemma LeftColumn(lu: seq<real>, p: seq<nat>, m: Mat3, n: Mat3, c: nat)
    requires c < 3 && Decomposed(lu, p, m, 3) && PivotsAbove(lu, 3) && Mul(m, n) == IDENTITY
    ensures MulVec(n, Col(m, c)) == Col(IDENTITY, c)
  {
    var v := Col(m, c);
    MulVecMul(m, n, v);
    assert MulVec(IDENTITY, v) == v;
    assert MulVec(m, Col(IDENTITY, c)) == v;
    Injective(lu, p, m, MulVec(n, v), Col(IDENTITY, c));
  }

  /** weston_m3f_invert */
  method Invert(m: Mat3) returns (r: Option<Mat3>)
    ensures r.Some? <==> PivotsSuffice(m)
    ensures r.Some? ==> Inverses(m, r.value)
    ensures r.None? ==> NearlySingular(m)
  {
    var lu := new real[9];
    var perm := new nat[3];
    perm[0], perm[1], perm[2] := 0, 1, 2;
    lu[0], lu[1], lu[2] := m.r0.x, m.r1.x, m.r2.x;
    lu[3], lu[4], lu[5] := m.r0.y, m.r1.y, m.r2.y;
    lu[6], lu[7], lu[8] := m.r0.z, m.r1.z, m.r2.z;
    assert perm[..] == [0, 1, 2] && Decomposed(lu[..], perm[..], m, 0);
    var ok := Decompose(lu, perm, m);
    if !ok {
      return None;
    }
    var a := InverseTransform(lu, perm, m, Col(IDENTITY, 0));
    var b := InverseTransform(lu, perm, m, Col(IDENTITY, 1));
    var c := InverseTransform(lu, perm, m, Col(IDENTITY, 2));
    var n := FromCols(a, b, c);
    assert Col(n, 0) == a && Col(n, 1) == b && Col(n, 2) == c;
    RightIsLeft(lu[..], perm[..], m, n);
    return Some(n);
  }

  // ---- what the threshold leaves out and lets through

  lemma DiagonalParts(d: Vec3, m: Mat3)
    requires m == Diag(d)
    ensures FirstLargest(m) == 0 && Largest(m) == Abs(d.x)
    ensures LargestMinor(m) == Abs(d.x * d.y)
    ensures TripleIs(d.x, d.y, d.z, Determinant(m))
  {
    DiagonalMinors(d, m);
    assert Det(m.r0, m.r1, m.r2) == d.x * (d.y * d.z - 0.0 * 0.0) - 0.0 * (0.0 * d.z - 0.0 * 0.0) + 0.0 * (0.0 * 0.0 - d.y * 0.0);
  }

  lemma DiagonalMinors(d: Vec3, m: Mat3)
    requires m == Diag(d)
    ensures Minor(m.r0, m.r0) == 0.0 && Minor(m.r0, m.r1) == d.x * d.y && Minor(m.r0, m.r2) == 0.0
  {
  }

  lemma SizesOfProducts(x: real, y: real, z: real, xy: real, xyz: real)
    requires xy == Abs(x * y) && xyz == Abs((x * y) * z) && Abs(x) >= TINY
    ensures xy >= TINY * Abs(x) <==> Abs(y) >= TINY
    ensures Abs(y) >= TINY ==> (xyz >= TINY * xy <==> Abs(z) >= TINY)
  {
    AbsProduct(x, y);
    AbsProduct(x * y, z);
    ThresholdOfProduct(Abs(y), Abs(x), xy);
    if Abs(y) >= TINY {
      assert xy > 0.0;
      ThresholdOfProduct(Abs(z), xy, xyz);
    }
  }

  /** A diagonal matrix is accepted exactly when each element reaches the threshold. */
  lemma DiagonalPivots(d: Vec3)
    ensures PivotsSuffice(Diag(d)) <==>
              Abs(d.x) >= 0.000000001 && Abs(d.y) >= 0.000000001 && Abs(d.z) >= 0.000000001
  {
    var m := Diag(d);
    DiagonalParts(d, m);
    if Abs(d.x) >= TINY {
      SizesOfProducts(d.x, d.y, d.z, LargestMinor(m), Abs(Determinant(m)));
    }
  }

  lemma DiagonalInverse(d: Vec3, e: Vec3)
    requires d.x * e.x == 1.0 && d.y * e.y == 1.0 && d.z * e.z == 1.0
    ensures Inverses(Diag(d), Diag(e))
  {
  }

  /** A matrix can have an inverse and still be refused, whatever the other elements are. */
  lemma InvertibleButRefused(d: Vec3, e: Vec3)
    requires d.x * e.x == 1.0 && d.y * e.y == 1.0 && d.z * e.z == 1.0 && Abs(d.z) < TINY
    ensures Inverses(Diag(d), Diag(e)) && !PivotsSuffice(Diag(d))
  {
    DiagonalInverse(d, e);
    DiagonalPivots(d);
  }

  function Slanted(t: real): Mat3 {
    Mat3(Vec3(1.0, 0.0, 0.0), Vec3(-1.0, 1.0, 0.0), Vec3(-1.0, -1.0, t))
  }

  lemma SlantedWitness(t: real)
    requires 0.0 < t < 4.0 * TINY
    ensures NearlySingular(Slanted(t))
  {
    assert Witnesses(Slanted(t), Vec3(t / 4.0, t / 2.0, 1.0));
  }

  lemma SlantedLargest(t: real, m: Mat3)
    requires m == Slanted(t)
    ensures FirstLargest(m) == 0 && Largest(m) == 1.0
  {
  }

  lemma MinorOfUnit(r: Vec3, s: Vec3)
    requires r == Vec3(1.0, 0.0, 0.0)
    ensures Minor(r, s) == s.y
  {
  }

  lemma SlantedMinor(t: real, m: Mat3)
    requires m == Slanted(t)
    ensures LargestMinor(m) == 1.0
  {
    SlantedLargest(t, m);
    MinorOfUnit(m.r0, m.r0);
    MinorOfUnit(m.r0, m.r1);
    MinorOfUnit(m.r0, m.r2);
  }

  lemma SlantedDet(t: real, m: Mat3)
    requires m == Slanted(t)
    ensures Determinant(m) == t
  {
  }

  lemma UnitPivots(m: Mat3)
    requires Largest(m) == 1.0 && LargestMinor(m) == 1.0 && Determinant(m) >= TINY
    ensures PivotsSuffice(m)
  {
  }

  /** Nor is every nearly singular matrix refused. */
  lemma NearlySingularButAccepted(t: real)
    requires TINY <= t < 4.0 * TINY
    ensures NearlySingular(Slanted(t)) && PivotsSuffice(Slanted(t))
  {
    SlantedWitness(t);
    SlantedLargest(t, Slanted(t));
    SlantedMinor(t, Slanted(t));
    SlantedDet(t, Slanted(t));
    UnitPivots(Slanted(t));
  }
}
