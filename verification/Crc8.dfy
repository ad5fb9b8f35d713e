/**
 The CRC-8 of the marker payload (polynomial x^8 + x^2 + x + 1, initial value 0)
 and the errors it detects. Source: test-client/qdwin-marker-client.c.
 */
module Crc8 {
  import opened Checksum

  function XorByte(a: bv8, b: bv8): bv8 {
    a ^ b
  }

  const BYTES: Words<bv8> := Words(XorByte, 0)

  /** One bit step. */
  function Round(c: bv8): bv8 {
    if c & 0x80 != 0 then (c << 1) ^ 0x07 else c << 1
  }

  /** The eight bit steps taken for every byte. */
  function Byte(c: bv8): bv8 {
    Iterate(Round, c, 8)
  }

  function Crc(data: seq<bv8>): bv8 {
    Fold(BYTES, Byte, 0, data)
  }

  /** crc8 */
  method Compute(data: array<bv8>, n: nat) returns (crc: bv8)
    requires n <= data.Length
    ensures crc == Crc(data[..n])
  {
    crc := 0;
    for i := 0 to n
      invariant crc == Crc(data[..i])
    {
      FoldAppend(BYTES, Byte, 0, data[..i], data[i]);
      assert data[..i + 1] == data[..i] + [data[i]];
      crc := AdvanceByte(crc, data[i]);
    }
  }

  /** The body of the outer loop: XOR a byte in, then eight bit steps. */
  method AdvanceByte(crc: bv8, b: bv8) returns (r: bv8)
    ensures r == Byte(XorByte(crc, b))
  {
    r := XorByte(crc, b);
    for i := 0 to 8
      invariant r == Iterate(Round, XorByte(crc, b), i)
    {
      r := Round(r);
    }
  }

  // ---- the step is linear, injective at zero, and keeps parity

  lemma BytesLaws()
    ensures Laws(BYTES)
  {
  }

  /** What is XORed in when the bit shifted out is t. */
  function Feedback(t: bool): bv8 {
    if t then 0x07 else 0
  }

  lemma RoundBranchless(c: bv8)
    ensures Round(c) == (c << 1) ^ Feedback(c & 0x80 != 0)
  {
  }

  lemma BranchlessXor(a: bv8, b: bv8)
    ensures ((a ^ b) << 1) ^ Feedback((a ^ b) & 0x80 != 0)
            == ((a << 1) ^ Feedback(a & 0x80 != 0)) ^ ((b << 1) ^ Feedback(b & 0x80 != 0))
  {
  }

  lemma RoundXor(a: bv8, b: bv8)
    ensures Round(a ^ b) == Round(a) ^ Round(b)
  {
    RoundBranchless(a ^ b);
    RoundBranchless(a);
    RoundBranchless(b);
    BranchlessXor(a, b);
  }

  /** True if an odd number of bits is set: XOR the bits together by halves. */
  function Odd(c: bv8): bool {
    Low(Halve1(Halve2(Halve4(c))))
  }

  function Halve4(c: bv8): bv8 { c ^ (c >> 4) }

  function Halve2(c: bv8): bv8 { c ^ (c >> 2) }

  function Halve1(c: bv8): bv8 { c ^ (c >> 1) }

  function Low(c: bv8): bool { c & 1 == 1 }

  lemma HalveXor(a: bv8, b: bv8)
    ensures (a ^ b) ^ ((a ^ b) >> 4) == (a ^ (a >> 4)) ^ (b ^ (b >> 4))
    ensures (a ^ b) ^ ((a ^ b) >> 2) == (a ^ (a >> 2)) ^ (b ^ (b >> 2))
    ensures (a ^ b) ^ ((a ^ b) >> 1) == (a ^ (a >> 1)) ^ (b ^ (b >> 1))
  {
  }

  lemma LowXor(a: bv8, b: bv8)
    ensures ((a ^ b) & 1 == 1) == ((a & 1 == 1) != (b & 1 == 1))
  {
  }

  lemma OddXor(a: bv8, b: bv8)
    ensures Odd(a ^ b) == (Odd(a) != Odd(b))
  {
    var a4, b4 := Halve4(a), Halve4(b);
    var a2, b2 := Halve2(a4), Halve2(b4);
    HalveXor(a, b);
    HalveXor(a4, b4);
    HalveXor(a2, b2);
    LowXor(Halve1(a2), Halve1(b2));
  }

  function BitCount(c: bv8): nat {
    if c == 0 then 0 else BitCount(c >> 1) + (if c & 1 == 1 then 1 else 0)
  }

  lemma OddShift(c: bv8)
    ensures Odd(c) == (Odd(c >> 1) != (c & 1 == 1))
  {
  }

  /** Odd is what its name says. */
  lemma {:induction false} OddIsBitCount(c: bv8)
    ensures Odd(c) <==> BitCount(c) % 2 == 1
    decreases c
  {
    if c != 0 {
      OddIsBitCount(c >> 1);
      OddShift(c);
    }
  }

  /** The bits set in a message. */
  function Bits(data: seq<bv8>): nat {
    if data == [] then 0 else BitCount(data[0]) + Bits(data[1..])
  }

  lemma {:induction false} CountOddIsBits(data: seq<bv8>)
    ensures CountOdd(Odd, data) <==> Bits(data) % 2 == 1
  {
    if data != [] {
      OddIsBitCount(data[0]);
      CountOddIsBits(data[1..]);
    }
  }

  lemma RoundParity(c: bv8)
    ensures Odd(Round(c)) == Odd(c)
  {
  }

  lemma ByteLinear()
    ensures Linear(BYTES, Byte)
  {
    assert Linear(BYTES, Round) by {
      forall a, b ensures Round(XorByte(a, b)) == XorByte(Round(a), Round(b)) { RoundXor(a, b); }
    }
    forall a, b ensures Byte(XorByte(a, b)) == XorByte(Byte(a), Byte(b)) { IterateLinear(BYTES, Round, a, b, 8); }
  }

  lemma RoundZero(c: bv8)
    ensures Round(c) == 0 <==> c == 0
  {
  }

  lemma ByteZero()
    ensures ZeroOnlyAtZero(BYTES, Byte)
  {
    assert ZeroOnlyAtZero(BYTES, Round) by {
      forall c ensures Round(c) == 0 <==> c == 0 { RoundZero(c); }
    }
    forall c ensures Byte(c) == 0 <==> c == 0 { IterateZero(BYTES, Round, c, 8); }
  }

  lemma ByteParity()
    ensures KeepsParity(Byte, Odd) && Parity(BYTES, Odd)
  {
    forall a, b ensures Odd(XorByte(a, b)) == (Odd(a) != Odd(b)) { OddXor(a, b); }
    assert KeepsParity(Round, Odd) by {
      forall c ensures Odd(Round(c)) == Odd(c) { RoundParity(c); }
    }
    forall c ensures Odd(Byte(c)) == Odd(c) { IterateParity(Round, Odd, c, 8); }
  }

  // ---- messages of every length

  /** XOR of messages gives XOR of checksums. */
  lemma CrcLinear(a: seq<bv8>, b: seq<bv8>)
    requires |a| == |b|
    ensures Crc(Xor(BYTES, a, b)) == Crc(a) ^ Crc(b)
  {
    BytesLaws();
    ByteLinear();
    FoldLinear(BYTES, Byte, 0, 0, a, b);
  }

  /** A message followed by its checksum has checksum 0, and no other last byte does that. */
  lemma ResidueZeroIff(data: seq<bv8>, b: bv8)
    ensures Crc(data + [b]) == 0 <==> b == Crc(data)
  {
    BytesLaws();
    ByteZero();
    FoldResidue(BYTES, Byte, data, b);
  }

  /** The checksum has the parity of the message, so message and checksum together are always even. */
  lemma CodewordParityEven(data: seq<bv8>)
    ensures Bits(data + [Crc(data)]) % 2 == 0
  {
    CountOddIsBits(data + [Crc(data)]);
    ByteParity();
    FoldParity(BYTES, Byte, Odd, 0, data);
    CountOddAppend(Odd, data, Crc(data));
  }

  // ---- detection: a codeword is received with the error pattern e

  /** The corrupted codeword fails the residue test. */
  predicate Detected(codeword: seq<bv8>, e: seq<bv8>)
    requires |e| == |codeword|
  {
    Crc(Xor(BYTES, codeword, e)) != 0
  }

  lemma DetectedIff(codeword: seq<bv8>, e: seq<bv8>)
    requires |e| == |codeword| && Crc(codeword) == 0
    ensures Detected(codeword, e) <==> Crc(e) != 0
  {
    CrcLinear(codeword, e);
    assert 0 as bv8 ^ Crc(e) == Crc(e);
  }

  /** Any odd number of flipped bits is detected. */
  lemma OddErrorsDetected(codeword: seq<bv8>, e: seq<bv8>)
    requires |e| == |codeword| && Crc(codeword) == 0 && Bits(e) % 2 == 1
    ensures Detected(codeword, e)
  {
    CountOddIsBits(e);
    DetectedIff(codeword, e);
    ByteParity();
    FoldParity(BYTES, Byte, Odd, 0, e);
  }

  /** Any change confined to one byte, wherever it is, is detected. */
  lemma ByteErrorDetected(codeword: seq<bv8>, before: nat, e: bv8, after: nat)
    requires e != 0 && |codeword| == before + 1 + after && Crc(codeword) == 0
    ensures Detected(codeword, Zeros(BYTES, before) + [e] + Zeros(BYTES, after))
  {
    BytesLaws();
    ByteZero();
    DetectedIff(codeword, Zeros(BYTES, before) + [e] + Zeros(BYTES, after));
    FoldOneWord(BYTES, Byte, before, e, after);
  }

  /** The two bytes that a burst p of at most 8 bits occupies when it starts s bits into the first. */
  function BurstHigh(p: bv8, s: bv8): bv8
    requires s <= 8
  {
    p >> s
  }

  function BurstLow(p: bv8, s: bv8): bv8
    requires s <= 8
  {
    p << (8 - s)
  }

  function Byte8(c: bv8): bv8 {
    Round(Round(Round(Round(Round(Round(Round(Round(c))))))))
  }

  lemma ByteIsByte8(c: bv8)
    ensures Byte(c) == Byte8(c)
  {
  }

  lemma BurstNotCancelled(p: bv8, s: bv8)
    requires p != 0 && s <= 8
    ensures Byte8(BurstHigh(p, s)) != BurstLow(p, s)
  {
  }

  /** Any burst of at most 8 bits, even one that straddles a byte boundary, is detected. */
  lemma BurstDetected(codeword: seq<bv8>, before: nat, p: bv8, s: bv8, after: nat)
    requires p != 0 && s <= 8 && |codeword| == before + 2 + after && Crc(codeword) == 0
    ensures Detected(codeword, Zeros(BYTES, before) + [BurstHigh(p, s), BurstLow(p, s)] + Zeros(BYTES, after))
  {
    var hi, lo := BurstHigh(p, s), BurstLow(p, s);
    BytesLaws();
    ByteZero();
    DetectedIff(codeword, Zeros(BYTES, before) + [hi, lo] + Zeros(BYTES, after));
    FoldTwoWords(BYTES, Byte, before, hi, lo, after);
    BurstNotCancelled(p, s);
    ByteIsByte8(hi);
  }
}
