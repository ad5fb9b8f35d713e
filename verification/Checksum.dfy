/**
 Checksums as a shift register: every word is XORed into the register, which is
 then advanced by a fixed step. What follows from the step being linear, from it
 sending only zero to zero, and from it keeping parity, for words of any kind.
 */
module Checksum {

  /** The words, their XOR and their zero. */
  datatype Words<!T> = Words(xor: (T, T) -> T, zero: T)

  ghost predicate Laws<T(!new)>(w: Words<T>) {
    && (forall a: T :: w.xor(w.zero, a) == a)
    && (forall a: T :: w.xor(a, w.zero) == a)
    && (forall a: T, b: T :: w.xor(a, b) == w.zero <==> a == b)
    && (forall a: T, b: T, c: T, d: T :: w.xor(w.xor(a, b), w.xor(c, d)) == w.xor(w.xor(a, c), w.xor(b, d)))
  }

  function Iterate<T>(f: T -> T, c: T, n: nat): T {
    if n == 0 then c else f(Iterate(f, c, n - 1))
  }

  /** Feed a message into the register. */
  function Fold<T>(w: Words<T>, step: T -> T, reg: T, data: seq<T>): T
    decreases |data|
  {
    if data == [] then reg else Fold(w, step, step(w.xor(reg, data[0])), data[1..])
  }

  function Xor<T>(w: Words<T>, a: seq<T>, b: seq<T>): seq<T>
    requires |a| == |b|
  {
    seq(|a|, i requires 0 <= i < |a| => w.xor(a[i], b[i]))
  }

  function Zeros<T>(w: Words<T>, n: nat): seq<T> {
    seq(n, _ => w.zero)
  }

  ghost predicate Linear<T(!new)>(w: Words<T>, f: T -> T) {
    forall a: T, b: T {:trigger f(w.xor(a, b))} :: f(w.xor(a, b)) == w.xor(f(a), f(b))
  }

  ghost predicate ZeroOnlyAtZero<T(!new)>(w: Words<T>, f: T -> T) {
    forall c: T :: f(c) == w.zero <==> c == w.zero
  }

  /** A parity: XOR of words gives exclusive-or of parities. */
  ghost predicate Parity<T(!new)>(w: Words<T>, odd: T -> bool) {
    && !odd(w.zero)
    && forall a: T, b: T {:trigger odd(w.xor(a, b))} :: odd(w.xor(a, b)) == (odd(a) != odd(b))
  }

  ghost predicate KeepsParity<T(!new)>(f: T -> T, odd: T -> bool) {
    forall c: T :: odd(f(c)) == odd(c)
  }

  function CountOdd<T>(odd: T -> bool, data: seq<T>): bool {
    if data == [] then false else odd(data[0]) != CountOdd(odd, data[1..])
  }

  // ---- iterating a step

  lemma {:induction false} IterateLinear<T(!new)>(w: Words<T>, f: T -> T, a: T, b: T, n: nat)
    requires Linear(w, f)
    ensures Iterate(f, w.xor(a, b), n) == w.xor(Iterate(f, a, n), Iterate(f, b, n))
  {
    if n > 0 { IterateLinear(w, f, a, b, n - 1); }
  }

  lemma {:induction false} IterateZero<T(!new)>(w: Words<T>, f: T -> T, c: T, n: nat)
    requires ZeroOnlyAtZero(w, f)
    ensures Iterate(f, c, n) == w.zero <==> c == w.zero
  {
    if n > 0 { IterateZero(w, f, c, n - 1); }
  }

  lemma {:induction false} IterateParity<T(!new)>(f: T -> T, odd: T -> bool, c: T, n: nat)
    requires KeepsParity(f, odd)
    ensures odd(Iterate(f, c, n)) == odd(c)
  {
    if n > 0 { IterateParity(f, odd, c, n - 1); }
  }

  // ---- messages

  lemma {:induction false} FoldAppend<T>(w: Words<T>, step: T -> T, reg: T, data: seq<T>, b: T)
    ensures Fold(w, step, reg, data + [b]) == step(w.xor(Fold(w, step, reg, data), b))
    decreases |data|
  {
    if data == [] {
      assert (data + [b])[1..] == [];
    } else {
      FoldAppend(w, step, step(w.xor(reg, data[0])), data[1..], b);
      assert (data + [b])[1..] == data[1..] + [b];
    }
  }

  lemma {:induction false} FoldLinear<T(!new)>(w: Words<T>, step: T -> T, x: T, y: T, a: seq<T>, b: seq<T>)
    requires |a| == |b| && Laws(w) && Linear(w, step)
    ensures Fold(w, step, w.xor(x, y), Xor(w, a, b)) == w.xor(Fold(w, step, x, a), Fold(w, step, y, b))
    decreases |a|
  {
    if a != [] {
      assert w.xor(w.xor(x, y), w.xor(a[0], b[0])) == w.xor(w.xor(x, a[0]), w.xor(y, b[0]));
      FoldLinear(w, step, step(w.xor(x, a[0])), step(w.xor(y, b[0])), a[1..], b[1..]);
      assert Xor(w, a, b)[1..] == Xor(w, a[1..], b[1..]);
    }
  }

  /** Only one last word brings the register to zero: the one equal to the register. */
  lemma FoldResidue<T(!new)>(w: Words<T>, step: T -> T, data: seq<T>, b: T)
    requires Laws(w) && ZeroOnlyAtZero(w, step)
    ensures Fold(w, step, w.zero, data + [b]) == w.zero <==> b == Fold(w, step, w.zero, data)
  {
    FoldAppend(w, step, w.zero, data, b);
  }

  lemma {:induction false} FoldParity<T(!new)>(w: Words<T>, step: T -> T, odd: T -> bool, reg: T, data: seq<T>)
    requires KeepsParity(step, odd) && Parity(w, odd)
    ensures odd(Fold(w, step, reg, data)) == (odd(reg) != CountOdd(odd, data))
    decreases |data|
  {
    if data != [] { FoldParity(w, step, odd, step(w.xor(reg, data[0])), data[1..]); }
  }

  lemma {:induction false} CountOddAppend<T>(odd: T -> bool, data: seq<T>, b: T)
    ensures CountOdd(odd, data + [b]) == (CountOdd(odd, data) != odd(b))
  {
    if data == [] {
      assert (data + [b])[1..] == [];
    } else {
      CountOddAppend(odd, data[1..], b);
      assert (data + [b])[1..] == data[1..] + [b];
    }
  }

  lemma {:induction false} FoldZeros<T(!new)>(w: Words<T>, step: T -> T, reg: T, n: nat)
    requires Laws(w) && ZeroOnlyAtZero(w, step)
    ensures Fold(w, step, reg, Zeros(w, n)) == w.zero <==> reg == w.zero
    decreases n
  {
    if n > 0 {
      assert Zeros(w, n)[1..] == Zeros(w, n - 1);
      assert w.xor(reg, w.zero) == reg;
      FoldZeros(w, step, step(reg), n - 1);
    }
  }

  lemma {:induction false} FoldLeadingZeros<T(!new)>(w: Words<T>, step: T -> T, n: nat, data: seq<T>)
    requires Laws(w) && ZeroOnlyAtZero(w, step)
    ensures Fold(w, step, w.zero, Zeros(w, n) + data) == Fold(w, step, w.zero, data)
  {
    if n == 0 {
      assert Zeros(w, 0) + data == data;
    } else {
      assert (Zeros(w, n) + data)[1..] == Zeros(w, n - 1) + data;
      assert w.xor(w.zero, w.zero) == w.zero && step(w.zero) == w.zero;
      FoldLeadingZeros(w, step, n - 1, data);
    }
  }

  /** A message that is zero except for one word. */
  lemma FoldOneWord<T(!new)>(w: Words<T>, step: T -> T, before: nat, e: T, after: nat)
    requires Laws(w) && ZeroOnlyAtZero(w, step)
    ensures Fold(w, step, w.zero, Zeros(w, before) + [e] + Zeros(w, after)) == w.zero <==> e == w.zero
  {
    var tail := [e] + Zeros(w, after);
    assert Zeros(w, before) + [e] + Zeros(w, after) == Zeros(w, before) + tail;
    FoldLeadingZeros(w, step, before, tail);
    assert tail[1..] == Zeros(w, after);
    FoldZeros(w, step, step(e), after);
  }

  /** A message that is zero except for two neighbouring words. */
  lemma FoldTwoWords<T(!new)>(w: Words<T>, step: T -> T, before: nat, e1: T, e2: T, after: nat)
    requires Laws(w) && ZeroOnlyAtZero(w, step)
    ensures Fold(w, step, w.zero, Zeros(w, before) + [e1, e2] + Zeros(w, after)) == w.zero <==> step(e1) == e2
  {
    var tail := [e1, e2] + Zeros(w, after);
    assert Zeros(w, before) + [e1, e2] + Zeros(w, after) == Zeros(w, before) + tail;
    FoldLeadingZeros(w, step, before, tail);
    assert tail[1..] == [e2] + Zeros(w, after) && tail[1..][1..] == Zeros(w, after);
    FoldZeros(w, step, step(w.xor(step(e1), e2)), after);
  }
}
