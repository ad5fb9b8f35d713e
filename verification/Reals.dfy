/** Real arithmetic used throughout: magnitudes, quotients and cancelling. */
module Reals {

  function Abs(x: real): real {
    if x < 0.0 then -x else x
  }

  function Max(x: real, y: real): real {
    if x < y then y else x
  }

  /** A quotient by the product it completes. */
  lemma Divide(u: real, s: real) returns (q: real)
    requires s != 0.0
    ensures q == u / s && q * s == u
  {
    q := u / s;
  }

  lemma Cancel(s: real, t: real, u: real)
    requires s != 0.0 && t * s == u * s
    ensures t == u
  {
  }
}
