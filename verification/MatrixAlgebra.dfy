/** Algebra of 3x3 matrices. */
module MatrixAlgebra {
  import opened Vectors
  import opened Lu

  lemma ColOfMul(m: Mat3, n: Mat3, c: nat)
    requires c < 3
    ensures Col(Mul(m, n), c) == MulVec(m, Col(n, c))
  {
  }

  lemma SameCols(m: Mat3, n: Mat3)
    requires Col(m, 0) == Col(n, 0) && Col(m, 1) == Col(n, 1) && Col(m, 2) == Col(n, 2)
    ensures m == n
  {
  }

  lemma MulAssociative(m: Mat3, n: Mat3, k: Mat3)
    ensures Mul(Mul(m, n), k) == Mul(m, Mul(n, k))
  {
    AssociativeCol(m, n, k, 0);
    AssociativeCol(m, n, k, 1);
    AssociativeCol(m, n, k, 2);
    SameCols(Mul(Mul(m, n), k), Mul(m, Mul(n, k)));
  }

  lemma AssociativeCol(m: Mat3, n: Mat3, k: Mat3, c: nat)
    requires c < 3
    ensures Col(Mul(Mul(m, n), k), c) == Col(Mul(m, Mul(n, k)), c)
  {
    ColOfMul(Mul(m, n), k, c);
    ColOfMul(n, k, c);
    ColOfMul(m, Mul(n, k), c);
    MulVecMul(m, n, Col(k, c));
  }

  lemma MulIdentity(m: Mat3)
    ensures Mul(m, IDENTITY) == m && Mul(IDENTITY, m) == m
  {
  }

  lemma VecIdentity(v: Vec3)
    ensures MulVec(IDENTITY, v) == v
  {
  }

  lemma InverseUnique(m: Mat3, n: Mat3, n': Mat3)
    requires Inverses(m, n) && Inverses(m, n')
    ensures n == n'
  {
    MulAssociative(n, m, n');
    MulIdentity(n);
    MulIdentity(n');
  }

  /** (A B)(B' A') is the identity. */
  lemma ProductInverse(a: Mat3, a': Mat3, b: Mat3, b': Mat3)
    requires Mul(a, a') == IDENTITY && Mul(b, b') == IDENTITY
    ensures Mul(Mul(a, b), Mul(b', a')) == IDENTITY
  {
    MulAssociative(a, b, Mul(b', a'));
    MulAssociative(b, b', a');
    MulIdentity(a');
  }

  function Times(a: Vec3, b: Vec3): Vec3 {
    Vec3(a.x * b.x, a.y * b.y, a.z * b.z)
  }

  lemma DiagProduct(a: Vec3, b: Vec3)
    ensures Mul(Diag(a), Diag(b)) == Diag(Times(a, b))
  {
  }

  lemma DiagVec(a: Vec3, v: Vec3)
    ensures MulVec(Diag(a), v) == Times(a, v)
  {
  }

  /** The unique solution of m x = v. */
  lemma SolutionIs(m: Mat3, n: Mat3, x: Vec3, v: Vec3)
    requires Inverses(m, n)
    ensures MulVec(m, x) == v <==> x == MulVec(n, v)
  {
    MulVecMul(n, m, x);
    VecIdentity(x);
    MulVecMul(m, n, v);
    VecIdentity(v);
  }
}
