/**
 Parametric curve channels and their inversion. Source:
 libweston-vendored/src/libweston/color-operations.c.
 */
module Curves {
  import opened Power
  import opened Bytes
  import opened Reals

  const TINY: real := 0.000001
  const CONTINUOUS: real := 0.00001

  datatype Chan = Chan(g: real, a: real, b: real, c: real, d: real)

  function CopySign(m: real, s: real): real {
    if s < 0.0 then -Abs(m) else Abs(m)
  }

  /** The linear step of a power piece. */
  function Base(p: Chan, x: real): real {
    p.a * x + p.b
  }

  function Linpow(pow: Pow, p: Chan, x: real): real {
    if Abs(x) >= p.d then CopySign(pow(Base(p, Abs(x)), p.g), x) else p.c * x
  }

  function Powlin(pow: Pow, p: Chan, x: real): real {
    if Abs(x) >= p.d then CopySign(Base(p, pow(Abs(x), p.g)), x) else p.c * x
  }

  /** The two pieces of a LINPOW curve at the cross-over point. */
  function LinpowCross(pow: Pow, p: Chan): real { pow(Base(p, p.d), p.g) }

  /** The two pieces of a POWLIN curve at the cross-over point. */
  function PowlinCross(pow: Pow, p: Chan): real { Base(p, pow(p.d, p.g)) }

  function Inverted(p: Chan): Chan
    requires p.a != 0.0 && p.c != 0.0 && p.g != 0.0
  {
    Chan(1.0 / p.g, 1.0 / p.a, -p.b / p.a, 1.0 / p.c, p.c * p.d)
  }

  /** The tests both inversions make; cross is the power piece at the cross-over. */
  predicate Invertible(p: Chan, cross: real) {
    && p.c >= TINY && Abs(p.a) >= TINY && Abs(p.g) >= TINY
    && Abs(p.c * p.d - cross) < CONTINUOUS
  }

  /** invert_linpow: gives a POWLIN channel. */
  function InvertLinpow(pow: Pow, p: Chan): Option<Chan> {
    if Invertible(p, LinpowCross(pow, p)) then Some(Inverted(p)) else None
  }

  /** invert_powlin: gives a LINPOW channel. */
  function InvertPowlin(pow: Pow, p: Chan): Option<Chan> {
    if Invertible(p, PowlinCross(pow, p)) then Some(Inverted(p)) else None
  }

  // ---- the relation between a channel and its inverse, free of quotients

  predicate Matched(p: Chan, q: Chan) {
    && p.g * q.g == 1.0
    && p.a * q.a == 1.0
    && p.a * q.b == -p.b
    && p.c * q.c == 1.0
    && q.d == p.c * p.d
  }

  lemma InvertedMatches(p: Chan)
    requires p.a != 0.0 && p.c != 0.0 && p.g != 0.0
    ensures Matched(p, Inverted(p))
  {
  }

  lemma MatchedSymmetric(p: Chan, q: Chan)
    requires Matched(p, q)
    ensures Matched(q, p)
  {
  }

  lemma NonzeroFactors(s: real, t: real)
    requires s * t == 1.0
    ensures s != 0.0 && t != 0.0
    ensures s > 0.0 <==> t > 0.0
  {
  }

  /** Inverting the inverted parameters gives the parameters back. */
  lemma InvertedTwice(p: Chan)
    requires p.a != 0.0 && p.c != 0.0 && p.g != 0.0
    ensures var q := Inverted(p);
            q.a != 0.0 && q.c != 0.0 && q.g != 0.0 && Inverted(q) == p
  {
  }
}
