/**
 Errors of two bits, and exchanged bytes, under the CRC-8 of the marker payload:
 what the choice of the polynomial decides. Source:
 test-client/qdwin-marker-client.c.
 */
module CrcErrors {
  import opened Checksum
  import opened Crc8

  // ---- the order of a bit step

  lemma {:induction false} IterateAdd<T>(f: T -> T, c: T, m: nat, n: nat)
    ensures Iterate(f, c, m + n) == Iterate(f, Iterate(f, c, n), m)
  {
    if m > 0 {
      IterateAdd(f, c, m - 1, n);
    }
  }

  lemma RoundsInjective(a: bv8, b: bv8, n: nat)
    ensures Iterate(Round, a, n) == Iterate(Round, b, n) <==> a == b
  {
    assert Linear(BYTES, Round) by {
      forall a, b ensures Round(XorByte(a, b)) == XorByte(Round(a), Round(b)) { RoundXor(a, b); }
    }
    assert ZeroOnlyAtZero(BYTES, Round) by {
      forall c ensures Round(c) == 0 <==> c == 0 { RoundZero(c); }
    }
    IterateLinear(BYTES, Round, a, b, n);
    IterateZero(BYTES, Round, XorByte(a, b), n);
    ZeroXor(a, b);
    ZeroXor(Iterate(Round, a, n), Iterate(Round, b, n));
  }

  lemma ZeroXor(a: bv8, b: bv8)
    ensures XorByte(a, b) == 0 <==> a == b
  {
  }

  /** The first bit of a byte is back where it was after n bit steps. */
  predicate Returns(n: nat) {
    Iterate(Round, 0x80, n) == 0x80
  }

  lemma EightMore(c: bv8, n: nat, v: bv8)
    requires Iterate(Round, 0x80, n) == c && Byte8(c) == v
    ensures Iterate(Round, 0x80, 8 + n) == v
  {
    IterateAdd(Round, 0x80, 8, n);
    ByteIsByte8(c);
  }

  /** After 127 steps it is. */
  lemma ReturnsAfter127()
    ensures Returns(127)
  {
    EightMore(0x80, 0, 0x89);
    EightMore(0x89, 8, 0xB6);
    EightMore(0xB6, 16, 0x0B);
    EightMore(0x0B, 24, 0x31);
    EightMore(0x31, 32, 0x97);
    EightMore(0x97, 40, 0xEC);
    EightMore(0xEC, 48, 0x8A);
    EightMore(0x8A, 56, 0xBF);
    EightMore(0xBF, 64, 0x34);
    EightMore(0x34, 72, 0x8C);
    EightMore(0x8C, 80, 0xAD);
    EightMore(0xAD, 88, 0x4A);
    EightMore(0x4A, 96, 0xF1);
    EightMore(0xF1, 104, 0xD9);
    EightMore(0xD9, 112, 0x01);
    IterateAdd(Round, 0x80, 7, 120);
    SevenRounds(0x01);
  }

  lemma SevenRounds(c: bv8)
    requires c == 0x01
    ensures Iterate(Round, c, 7) == 0x80
  {
    assert Iterate(Round, c, 7) == Round(Round(Round(Round(Round(Round(Round(c)))))));
  }

  lemma {:induction false} ReturnsMultiple(n: nat, k: nat)
    requires Returns(n)
    ensures Returns(k * n)
  {
    if k > 0 {
      ReturnsMultiple(n, k - 1);
      assert k * n == n + (k - 1) * n;
      IterateAdd(Round, 0x80, n, (k - 1) * n);
    }
  }

  /** What is left over returns too. */
  lemma ReturnsRest(n: nat, r: nat)
    requires Returns(n) && Returns(n + r)
    ensures Returns(r)
  {
    IterateAdd(Round, 0x80, r, n);
  }

  /** 127 is a prime. */
  lemma NoDivisor(r: nat)
    requires 1 < r < 127
    ensures 127 % r != 0
  {
    var q := 127 / r;
    if 127 % r == 0 {
      assert q * r == 127;
      if r > 11 && q > 11 {
        assert false;
      }
      SmallDivisor(if r <= 11 then r else q, if r <= 11 then q else r);
    }
  }

  lemma SmallDivisor(a: nat, b: nat)
    requires 1 < a <= 11
    ensures a * b != 127
  {
    match a {
      case 2 => assert 2 * b != 127;
      case 3 => assert 3 * b != 127;
      case 4 => assert 4 * b != 127;
      case 5 => assert 5 * b != 127;
      case 6 => assert 6 * b != 127;
      case 7 => assert 7 * b != 127;
      case 8 => assert 8 * b != 127;
      case 9 => assert 9 * b != 127;
      case 10 => assert 10 * b != 127;
      case 11 => assert 11 * b != 127;
    }
  }

  /** And not before: a smaller number of steps that returns would leave a smaller rest of 127 that does. */
  lemma {:induction false} NotBefore(r: nat)
    requires 0 < r < 127
    ensures !Returns(r)
    decreases r
  {
    if Returns(r) {
      if r == 1 {
        assert false;
      } else {
        NoDivisor(r);
        var q, s := 127 / r, 127 % r;
        ReturnsMultiple(r, q);
        ReturnsAfter127();
        assert q * r + s == 127;
        ReturnsRest(q * r, s);
        NotBefore(s);
      }
    }
  }

  /** The order of a bit step is 127. */
  lemma ReturnsIff(n: nat)
    ensures Returns(n) <==> n % 127 == 0
  {
    var k, r := n / 127, n % 127;
    assert n == k * 127 + r;
    ReturnsAfter127();
    ReturnsMultiple(127, k);
    if r == 0 {
      assert n == k * 127;
    } else if Returns(n) {
      ReturnsRest(k * 127, r);
      NotBefore(r);
    }
  }

  // ---- one flipped bit

  /** The bit s places from the front of a byte. */
  function Mask(s: nat): bv8
    requires s < 8
  {
    match s
    case 0 => 0x80
    case 1 => 0x40
    case 2 => 0x20
    case 3 => 0x10
    case 4 => 0x08
    case 5 => 0x04
    case 6 => 0x02
    case 7 => 0x01
  }

  lemma {:induction false} MaskMovesUp(s: nat)
    requires s < 8
    ensures Iterate(Round, Mask(s), s) == 0x80
  {
    if s > 0 {
      MaskMovesUp(s - 1);
      assert Round(Mask(s)) == Mask(s - 1);
      IterateAdd(Round, Mask(s), s - 1, 1);
      assert Iterate(Round, Mask(s), 1) == Round(Mask(s));
    }
  }

  /** n bytes with just bit p set, counted from the front. */
  function BitAt(n: nat, p: nat): (e: seq<bv8>)
    requires p < 8 * n
    ensures |e| == n
  {
    Zeros(BYTES, p / 8) + [Mask(p % 8)] + Zeros(BYTES, n - 1 - p / 8)
  }

  lemma BitAtIs(n: nat, p: nat, k: nat)
    requires p < 8 * n && k < n
    ensures BitAt(n, p)[k] == if k == p / 8 then Mask(p % 8) else 0
  {
  }

  lemma {:induction false} FoldZerosIs(reg: bv8, n: nat)
    ensures Fold(BYTES, Byte, reg, Zeros(BYTES, n)) == Iterate(Round, reg, 8 * n)
    decreases n
  {
    if n > 0 {
      assert Zeros(BYTES, n)[1..] == Zeros(BYTES, n - 1);
      assert XorByte(reg, 0) == reg;
      FoldZerosIs(Byte(reg), n - 1);
      IterateAdd(Round, reg, 8 * (n - 1), 8);
    }
  }

  lemma CrcOfBit(n: nat, p: nat)
    requires p < 8 * n
    ensures Crc(BitAt(n, p)) == Iterate(Round, 0x80, 8 * n - p)
  {
    var b, s := p / 8, p % 8;
    var after := n - 1 - b;
    var tail := [Mask(s)] + Zeros(BYTES, after);
    BytesLaws();
    ByteZero();
    assert BitAt(n, p) == Zeros(BYTES, b) + tail;
    FoldLeadingZeros(BYTES, Byte, b, tail);
    assert tail[1..] == Zeros(BYTES, after);
    assert XorByte(0, Mask(s)) == Mask(s);
    FoldZerosIs(Byte(Mask(s)), after);
    IterateAdd(Round, Mask(s), 8 * after, 8);
    MaskMovesUp(s);
    assert 8 * after + 8 == (8 * n - p) + s;
    IterateAdd(Round, Mask(s), 8 * n - p, s);
  }

  // ---- two flipped bits

  function TwoBits(n: nat, i: nat, j: nat): seq<bv8>
    requires i < j < 8 * n
  {
    Xor(BYTES, BitAt(n, i), BitAt(n, j))
  }

  /** Two flipped bits are detected exactly when their distance is no multiple of 127, in codewords of any length. */
  lemma TwoBitsDetectedIff(codeword: seq<bv8>, i: nat, j: nat)
    requires i < j < 8 * |codeword| && Crc(codeword) == 0
    ensures Detected(codeword, TwoBits(|codeword|, i, j)) <==> (j - i) % 127 != 0
  {
    var n := |codeword|;
    DetectedIff(codeword, TwoBits(n, i, j));
    CrcLinear(BitAt(n, i), BitAt(n, j));
    CrcOfBit(n, i);
    CrcOfBit(n, j);
    ZeroXor(Crc(BitAt(n, i)), Crc(BitAt(n, j)));
    IterateAdd(Round, 0x80, 8 * n - j, j - i);
    RoundsInjective(Iterate(Round, 0x80, j - i), 0x80, 8 * n - j);
    ReturnsIff(j - i);
  }

  // ---- exchanged bytes

  lemma FixedByByte(x: bv8)
    ensures Byte8(x) == x <==> x == 0 || x == 0xFD
  {
  }

  /**
   Two neighbouring bytes exchanged are detected exactly when they differ and
   their difference is not 0xFD, the one pattern that a bit step leaves alone.
   */
  lemma ExchangeDetectedIff(codeword: seq<bv8>, k: nat)
    requires k + 1 < |codeword| && Crc(codeword) == 0
    ensures var x := codeword[k] ^ codeword[k + 1];
            Crc(codeword[k := codeword[k + 1]][k + 1 := codeword[k]]) != 0 <==> x != 0 && x != 0xFD
  {
    var x, after := codeword[k] ^ codeword[k + 1], |codeword| - k - 2;
    var e := Zeros(BYTES, k) + [x, x] + Zeros(BYTES, after);
    ExchangeIsXor(codeword, k, x, after);
    BytesLaws();
    ByteZero();
    DetectedIff(codeword, e);
    FoldTwoWords(BYTES, Byte, k, x, x, after);
    ByteIsByte8(x);
    FixedByByte(x);
  }

  lemma ExchangeIsXor(data: seq<bv8>, k: nat, x: bv8, after: nat)
    requires |data| == k + 2 + after && x == data[k] ^ data[k + 1]
    ensures Xor(BYTES, data, Zeros(BYTES, k) + [x, x] + Zeros(BYTES, after)) == data[k := data[k + 1]][k + 1 := data[k]]
  {
    var e := Zeros(BYTES, k) + [x, x] + Zeros(BYTES, after);
    var swapped := data[k := data[k + 1]][k + 1 := data[k]];
    XorBack(data[k], data[k + 1]);
    forall m | 0 <= m < |data| ensures Xor(BYTES, data, e)[m] == swapped[m] {
      PatternAt(k, x, after, m);
      XorWithZero(data[m]);
      assert Xor(BYTES, data, e)[m] == XorByte(data[m], e[m]);
    }
  }

  lemma PatternAt(k: nat, x: bv8, after: nat, m: nat)
    requires m < k + 2 + after
    ensures (Zeros(BYTES, k) + [x, x] + Zeros(BYTES, after))[m] == if m == k || m == k + 1 then x else 0
  {
  }

  lemma XorWithZero(a: bv8)
    ensures XorByte(a, 0) == a
  {
  }

  lemma XorBack(a: bv8, b: bv8)
    ensures XorByte(a, a ^ b) == b && XorByte(b, a ^ b) == a
  {
  }

  lemma CrcStep(data: seq<bv8>, b: bv8, c: bv8, v: bv8)
    requires Crc(data) == c && Byte8(XorByte(c, b)) == v
    ensures Crc(data + [b]) == v
  {
    FoldAppend(BYTES, Byte, 0, data, b);
    ByteIsByte8(XorByte(c, b));
  }

  /** One exchange that is not detected. */
  lemma ExchangeMissed()
    ensures Crc([0x00, 0xFD, 0xFD]) == 0 && Crc([0xFD, 0x00, 0xFD]) == 0
  {
    CrcStep([], 0x00, 0x00, 0x00);
    CrcStep([0x00], 0xFD, 0x00, 0xFD);
    CrcStep([0x00, 0xFD], 0xFD, 0xFD, 0x00);
    assert [] + [0x00] == [0x00] && [0x00] + [0xFD] == [0x00, 0xFD] && [0x00, 0xFD] + [0xFD] == [0x00, 0xFD, 0xFD];
    ExchangeDetectedIff([0x00, 0xFD, 0xFD], 0);
    assert [0x00, 0xFD, 0xFD][0 := 0xFD][1 := 0x00] == [0xFD, 0x00, 0xFD];
  }

  /** The CRC in numbers: 1 and 2 give 0x1B. */
  lemma CheckValue()
    ensures Crc([0x01, 0x02]) == 0x1B
  {
    CrcStep([], 0x01, 0x00, 0x07);
    CrcStep([0x01], 0x02, 0x07, 0x1B);
    assert [] + [0x01] == [0x01] && [0x01] + [0x02] == [0x01, 0x02];
  }
}
