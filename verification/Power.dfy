/**
 The power function the colour curves are built on. It is a parameter of every
 curve; Laws says what is relied on. Source of the uses:
 libweston-vendored/src/libweston/color-operations.c.
 */
module Power {

  type Pow = (real, real) -> real

  /** What a power function does with bases x < y and exponent g. */
  predicate LawfulAt(pow: Pow, x: real, y: real, g: real) {
    && pow(1.0, g) == 1.0
    && (g > 0.0 ==> pow(0.0, g) == 0.0)
    && (g > 0.0 && 0.0 <= x < y ==> pow(x, g) < pow(y, g))
    && (g < 0.0 && 0.0 < x < y ==> pow(x, g) > pow(y, g))
    && (x > 0.0 ==> pow(x, g) > 0.0)
    && (InBase(x, g) ==> pow(pow(x, g), 1.0 / g) == x)
  }

  /** The bases on which x to the g is a real number that determines x. */
  predicate InBase(x: real, g: real) {
    (g > 0.0 && x >= 0.0) || (g < 0.0 && x > 0.0)
  }

  ghost predicate Laws(pow: Pow) {
    forall x: real, y: real, g: real :: LawfulAt(pow, x, y, g)
  }

  /** The laws are those of at least one function. */
  function Example(x: real, g: real): real {
    if g > 0.0 then x else if g < 0.0 && x > 0.0 then 1.0 / x else 1.0
  }

  lemma LawsHoldOfExample()
    ensures Laws(Example)
  {
    forall x: real, y: real, g: real ensures LawfulAt(Example, x, y, g) {
      if g < 0.0 && x > 0.0 {
        ReciprocalFlips(x, y);
      }
      if g != 0.0 {
        SignOfReciprocal(g);
      }
    }
  }

  lemma SignOfReciprocal(g: real)
    requires g != 0.0
    ensures g > 0.0 <==> 1.0 / g > 0.0
    ensures 1.0 / g != 0.0
  {
  }

  lemma ReciprocalFlips(x: real, y: real)
    requires x > 0.0
    ensures 1.0 / x > 0.0 && 1.0 / (1.0 / x) == x
    ensures x < y ==> 1.0 / x > 1.0 / y
  {
  }

  lemma Reciprocals(h: real, k: real, x: real)
    requires k * h == 1.0 && h * x == 1.0
    ensures k == x
  {
  }

  // ---- instances of the laws

  lemma Monotone(pow: Pow, x: real, y: real, g: real)
    requires Laws(pow) && g > 0.0 && 0.0 <= x
    ensures x < y ==> pow(x, g) < pow(y, g)
    ensures x <= y ==> pow(x, g) <= pow(y, g)
  {
    assert LawfulAt(pow, x, y, g);
  }

  lemma Antitone(pow: Pow, x: real, y: real, g: real)
    requires Laws(pow) && g < 0.0 && 0.0 < x < y
    ensures pow(x, g) > pow(y, g)
  {
    assert LawfulAt(pow, x, y, g);
  }

  lemma Signs(pow: Pow, x: real, g: real)
    requires Laws(pow) && InBase(x, g)
    ensures x > 0.0 ==> pow(x, g) > 0.0
    ensures x == 0.0 ==> pow(x, g) == 0.0
  {
    assert LawfulAt(pow, x, x, g);
  }

  lemma AtOne(pow: Pow, g: real)
    requires Laws(pow)
    ensures pow(1.0, g) == 1.0
  {
    assert LawfulAt(pow, 1.0, 1.0, g);
  }

  /** Raising to reciprocal exponents in turn gives the base back. */
  lemma Root(pow: Pow, x: real, g: real, h: real)
    requires Laws(pow) && InBase(x, g) && g * h == 1.0
    ensures pow(pow(x, g), h) == x
  {
    assert LawfulAt(pow, x, x, g);
    var r := 1.0 / g;
    assert r * g == 1.0;
    Reciprocals(g, r, h);
  }

  lemma ExponentOne(pow: Pow, x: real)
    requires Laws(pow) && x >= 0.0
    ensures pow(x, 1.0) == x
  {
    var y := pow(x, 1.0);
    Root(pow, x, 1.0, 1.0);
    Signs(pow, x, 1.0);
    Monotone(pow, x, y, 1.0);
    Monotone(pow, y, x, 1.0);
  }
}
