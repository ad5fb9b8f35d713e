/**
 The machine-readable corner marker: packing of the payload fields and the
 14 x 14 cell grid that carries them. Source: test-client/qdwin-marker-client.c.
 */
module Marker {
  import opened Bytes
  import opened Crc8
  import opened CrcErrors
  import Checksum

  const ROWS: nat := 14
  const COLS: nat := 14
  const PAYLOAD_LEN: nat := 20
  const PAYLOAD_BITS: nat := 160
  /** DATA_CAPACITY_BITS */
  const CAPACITY: nat := 169
  const PAD: bv8 := 0xA5
  const MARKER_VERSION: bv8 := 1

  /** Coordinates and sizes are int16_t; they are kept as their 16 bits. */
  datatype Fields = Fields(outputId: bv8, generation: bv16, frame: bv32, x: bv16, y: bv16, w: bv16, h: bv16, scale: bv8)

  // ---- fields and bytes

  function Lo(n: bv16): bv8 {
    (n & 0xFF) as bv8
  }

  function Hi(n: bv16): bv8 {
    (n >> 8) as bv8
  }

  function Word16(lo: bv8, hi: bv8): bv16 {
    (lo as bv16) | ((hi as bv16) << 8)
  }

  function Byte32(n: bv32, shift: bv8): bv8
    requires shift <= 24
  {
    ((n >> shift) & 0xFF) as bv8
  }

  function Word32(b0: bv8, b1: bv8, b2: bv8, b3: bv8): bv32 {
    (b0 as bv32) | ((b1 as bv32) << 8) | ((b2 as bv32) << 16) | ((b3 as bv32) << 24)
  }

  function Tag(f: Fields): (b: seq<bv8>)
    ensures |b| == 4
  {
    [0x4D, 0x4D, MARKER_VERSION, f.outputId]
  }

  function Bytes16(n: bv16): (b: seq<bv8>)
    ensures |b| == 2
  {
    [Lo(n), Hi(n)]
  }

  function Bytes32(n: bv32): (b: seq<bv8>)
    ensures |b| == 4
  {
    [Byte32(n, 0), Byte32(n, 8), Byte32(n, 16), Byte32(n, 24)]
  }

  /** The 19 bytes before the checksum. */
  function Body(f: Fields): (b: seq<bv8>)
    ensures |b| == PAYLOAD_LEN - 1
  {
    Tag(f) + Bytes16(f.generation) + Bytes32(f.frame)
    + Bytes16(f.x) + Bytes16(f.y) + Bytes16(f.w) + Bytes16(f.h) + [f.scale]
  }

  function Payload(f: Fields): (p: seq<bv8>)
    ensures |p| == PAYLOAD_LEN
  {
    Body(f) + [Crc(Body(f))]
  }

  /** Write bytes behind what is there and advance: a run of `*p++ = byte`. */
  method Put(out: array<bv8>, at: nat, bytes: seq<bv8>) returns (next: nat)
    requires at + |bytes| <= out.Length
    modifies out
    ensures next == at + |bytes| && out[..next] == old(out[..at]) + bytes
  {
    for i := 0 to |bytes|
      invariant out[..at + i] == old(out[..at]) + bytes[..i]
    {
      out[at + i] := bytes[i];
    }
    next := at + |bytes|;
    assert bytes[..|bytes|] == bytes;
  }

  /** pack_payload */
  method PackPayload(out: array<bv8>, f: Fields)
    requires out.Length == PAYLOAD_LEN
    modifies out
    ensures out[..] == Payload(f)
  {
    PackBody(out, f);
    var crc := Compute(out, 19);
    out[19] := crc;
    assert out[..] == out[..19] + [crc];
  }

  method PackBody(out: array<bv8>, f: Fields)
    requires out.Length == PAYLOAD_LEN
    modifies out
    ensures out[..19] == Body(f)
  {
    var p := Put(out, 0, Tag(f));
    assert out[..p] == Tag(f);
    p := Put(out, p, Bytes16(f.generation));
    p := Put(out, p, Bytes32(f.frame));
    p := Put(out, p, Bytes16(f.x));
    p := Put(out, p, Bytes16(f.y));
    p := Put(out, p, Bytes16(f.w));
    p := Put(out, p, Bytes16(f.h));
    p := Put(out, p, [f.scale]);
  }

  /** What a reader of the marker checks first. */
  predicate Accepts(p: seq<bv8>)
    requires |p| == PAYLOAD_LEN
  {
    p[0] == 0x4D && p[1] == 0x4D && p[2] == MARKER_VERSION && Crc(p) == 0
  }

  /** The fields in the bytes before the checksum. */
  function FieldsIn(b: seq<bv8>): Fields
    requires |b| == PAYLOAD_LEN - 1
  {
    Fields(b[3], Word16(b[4], b[5]), Word32(b[6], b[7], b[8], b[9]),
           Word16(b[10], b[11]), Word16(b[12], b[13]), Word16(b[14], b[15]), Word16(b[16], b[17]), b[18])
  }

  function Unpack(p: seq<bv8>): Option<Fields>
    requires |p| == PAYLOAD_LEN
  {
    if Accepts(p) then Some(FieldsIn(p[..PAYLOAD_LEN - 1])) else None
  }

  lemma FieldsInBody(f: Fields)
    ensures FieldsIn(Body(f)) == f
  {
  }

  lemma AcceptsPayload(f: Fields)
    ensures Accepts(Payload(f))
  {
    ResidueZeroIff(Body(f), Crc(Body(f)));
    assert Body(f)[..4] == Tag(f);
    assert Payload(f)[..4] == Tag(f);
    assert Tag(f)[0] == Payload(f)[0] && Tag(f)[1] == Payload(f)[1] && Tag(f)[2] == Payload(f)[2];
  }

  /** Every field survives, for all 2^8 * 2^16 * 2^32 * 2^64 * 2^8 field values. */
  lemma UnpackPayload(f: Fields)
    ensures Unpack(Payload(f)) == Some(f)
  {
    AcceptsPayload(f);
    FieldsInBody(f);
    assert Payload(f)[..PAYLOAD_LEN - 1] == Body(f);
  }

  lemma Slices(tag: seq<bv8>, gen: seq<bv8>, frame: seq<bv8>, x: seq<bv8>, y: seq<bv8>, w: seq<bv8>, h: seq<bv8>,
               scale: seq<bv8>, crc: seq<bv8>, p: seq<bv8>)
    requires |tag| == 4 && |gen| == 2 && |frame| == 4 && |x| == |y| == |w| == |h| == 2 && |scale| == |crc| == 1
    requires p == tag + gen + frame + x + y + w + h + scale + crc
    ensures p[..4] == tag && p[4..6] == gen && p[6..10] == frame && p[10..12] == x && p[12..14] == y
    ensures p[14..16] == w && p[16..18] == h && p[18..19] == scale && p[19..20] == crc
  {
  }

  function LowByte(n: bv32): bv8 {
    (n & 0xFF) as bv8
  }

  function TwoLow(n: bv16): seq<bv8> {
    [LowByte(n as bv32), LowByte(n as bv32 >> 8)]
  }

  lemma Bytes16Are(n: bv16)
    ensures Bytes16(n) == TwoLow(n)
  {
  }

  lemma Bytes32Are(n: bv32)
    ensures Bytes32(n) == [LowByte(n), LowByte(n >> 8), LowByte(n >> 16), LowByte(n >> 24)]
  {
  }

  /** Where every byte is, least significant byte first. */
  lemma PayloadLayout(f: Fields)
    ensures var p := Payload(f);
            && p[..4] == [0x4D, 0x4D, 0x01, f.outputId] && p[4..6] == TwoLow(f.generation)
            && p[6..10] == [LowByte(f.frame), LowByte(f.frame >> 8), LowByte(f.frame >> 16), LowByte(f.frame >> 24)]
            && p[10..12] == TwoLow(f.x) && p[12..14] == TwoLow(f.y)
            && p[14..16] == TwoLow(f.w) && p[16..18] == TwoLow(f.h)
            && p[18..19] == [f.scale] && p[19..20] == [Crc(p[..19])]
  {
    assert Payload(f)[..19] == Body(f);
    Slices(Tag(f), Bytes16(f.generation), Bytes32(f.frame), Bytes16(f.x), Bytes16(f.y), Bytes16(f.w), Bytes16(f.h),
           [f.scale], [Crc(Body(f))], Payload(f));
    Bytes16Are(f.generation);
    Bytes32Are(f.frame);
    Bytes16Are(f.x);
    Bytes16Are(f.y);
    Bytes16Are(f.w);
    Bytes16Are(f.h);
  }

  // ---- bytes and cells

  /** Bit b of a byte, 0 or 1. */
  function Bit(p: bv8, b: nat): bv8
    requires b < 8
  {
    match b
    case 0 => p & 1
    case 1 => (p >> 1) & 1
    case 2 => (p >> 2) & 1
    case 3 => (p >> 3) & 1
    case 4 => (p >> 4) & 1
    case 5 => (p >> 5) & 1
    case 6 => (p >> 6) & 1
    case 7 => (p >> 7) & 1
  }

  function Assemble(b7: bv8, b6: bv8, b5: bv8, b4: bv8, b3: bv8, b2: bv8, b1: bv8, b0: bv8): bv8 {
    (b7 << 7) | (b6 << 6) | (b5 << 5) | (b4 << 4) | (b3 << 3) | (b2 << 2) | (b1 << 1) | b0
  }

  lemma AssembleBits(p: bv8)
    ensures Assemble(Bit(p, 7), Bit(p, 6), Bit(p, 5), Bit(p, 4), Bit(p, 3), Bit(p, 2), Bit(p, 1), Bit(p, 0)) == p
  {
  }

  /** Bit k of the stream laid out in the grid: the payload, most significant bit first, then padding. */
  function DataBit(payload: seq<bv8>, k: nat): bv8
    requires |payload| == PAYLOAD_LEN && k < CAPACITY
  {
    if k < PAYLOAD_BITS then Bit(payload[k / 8], 7 - k % 8) else Bit(PAD, 7 - k % 8)
  }

  /** The colour of a cell: timing row and column, and data everywhere else. */
  function Cell(payload: seq<bv8>, r: nat, c: nat): bv8
    requires |payload| == PAYLOAD_LEN && r < ROWS && c < COLS
  {
    if r == 0 && c == 0 then 0
    else if r == 0 then (if c % 2 == 1 then 1 else 0)
    else if c == 0 then (if r % 2 == 1 then 1 else 0)
    else DataBit(payload, (r - 1) * (COLS - 1) + (c - 1))
  }

  /** The timing row and column start dark in the corner and alternate, whatever the payload. */
  lemma TimingAlternates(payload: seq<bv8>, k: nat)
    requires |payload| == 20 && k < 14
    ensures Cell(payload, 0, 0) == 0
    ensures Cell(payload, 0, k) == Cell(payload, k, 0)
    ensures k > 0 ==> Cell(payload, 0, k) == 1 - Cell(payload, 0, k - 1)
  {
  }

  lemma BitIsMasked(b: bv8, s: nat)
    requires s < 8
    ensures Bit(b, 7 - s) == if b & Mask(s) != 0 then 1 else 0
  {
  }

  /** Data cell k, counted row by row without the timing cells: a payload bit, or one of the padding 101001011. */
  lemma DataCellIs(payload: seq<bv8>, r: nat, c: nat)
    requires |payload| == 20 && 0 < r < 14 && 0 < c < 14
    ensures var k := 13 * (r - 1) + (c - 1);
            k < 169 &&
            Cell(payload, r, c) == if k < 160 then (if payload[k / 8] & Mask(k % 8) != 0 then 1 else 0)
                                   else [1, 0, 1, 0, 0, 1, 0, 1, 1][k - 160]
  {
    var k := 13 * (r - 1) + (c - 1);
    if k < 160 {
      BitIsMasked(payload[k / 8], k % 8);
    } else {
      PaddingBit(k);
    }
  }

  lemma PaddingBit(k: nat)
    requires 160 <= k < 169
    ensures Bit(PAD, 7 - k % 8) == [1, 0, 1, 0, 0, 1, 0, 1, 1][k - 160]
  {
  }

  /** The first two loops of build_cells: one bit per array element. */
  method ExpandBits(payload: array<bv8>, bits: array<bv8>)
    requires payload.Length == PAYLOAD_LEN && bits.Length == CAPACITY && bits != payload
    modifies bits
    ensures forall k :: 0 <= k < CAPACITY ==> bits[k] == DataBit(payload[..], k)
  {
    ghost var p := payload[..];
    var nbits := 0;
    for i := 0 to PAYLOAD_LEN
      invariant nbits == 8 * i && payload[..] == p
      invariant forall k :: 0 <= k < nbits ==> bits[k] == DataBit(p, k)
    {
      for b := 8 downto 0
        invariant nbits == 8 * i + (8 - b) && payload[..] == p
        invariant forall k :: 0 <= k < nbits ==> bits[k] == DataBit(p, k)
      {
        assert nbits / 8 == i && nbits % 8 == 7 - b;
        bits[nbits] := Bit(payload[i], b);
        nbits := nbits + 1;
      }
    }
    while nbits < CAPACITY
      invariant PAYLOAD_BITS <= nbits <= CAPACITY && (nbits < CAPACITY ==> nbits % 8 == 0) && payload[..] == p
      invariant forall k :: 0 <= k < nbits ==> bits[k] == DataBit(p, k)
      decreases CAPACITY - nbits
    {
      ghost var start := nbits;
      var b := 7;
      while b >= 0 && nbits < CAPACITY
        invariant -1 <= b <= 7 && nbits == start + (7 - b) && nbits <= CAPACITY && payload[..] == p
        invariant forall k :: 0 <= k < nbits ==> bits[k] == DataBit(p, k)
      {
        assert nbits % 8 == 7 - b;
        bits[nbits] := Bit(PAD, b);
        nbits := nbits + 1;
        b := b - 1;
      }
    }
  }

  /** The timing row and column of build_cells. */
  method PaintTiming(grid: array2<bv8>, ghost p: seq<bv8>)
    requires grid.Length0 == ROWS && grid.Length1 == COLS && |p| == PAYLOAD_LEN
    modifies grid
    ensures forall k :: 0 <= k < COLS ==> grid[0, k] == Cell(p, 0, k)
    ensures forall k :: 0 <= k < ROWS ==> grid[k, 0] == Cell(p, k, 0)
  {
    grid[0, 0] := 0;
    for c := 1 to COLS
      invariant forall k :: 0 <= k < c ==> grid[0, k] == Cell(p, 0, k)
    {
      grid[0, c] := if c % 2 == 1 then 1 else 0;
    }
    for r := 1 to ROWS
      invariant forall k :: 0 <= k < COLS ==> grid[0, k] == Cell(p, 0, k)
      invariant forall k :: 0 <= k < r ==> grid[k, 0] == Cell(p, k, 0)
    {
      grid[r, 0] := if r % 2 == 1 then 1 else 0;
    }
  }

  /** One data row of build_cells. */
  method PaintRow(grid: array2<bv8>, r: nat, bits: array<bv8>, idx: nat) returns (next: nat)
    requires grid.Length0 == ROWS && grid.Length1 == COLS && bits.Length == CAPACITY && 0 < r < ROWS
    requires idx == (r - 1) * 13
    modifies grid
    ensures next == r * 13
    ensures forall i, j :: 0 <= i < ROWS && 0 <= j < COLS ==>
              grid[i, j] == if i == r && j > 0 then bits[(r - 1) * 13 + (j - 1)] else old(grid[i, j])
  {
    next := idx;
    for c := 1 to COLS
      invariant next == (r - 1) * 13 + (c - 1)
      invariant forall i, j :: 0 <= i < ROWS && 0 <= j < COLS ==>
                  grid[i, j] == if i == r && 0 < j < c then bits[(r - 1) * 13 + (j - 1)] else old(grid[i, j])
    {
      grid[r, c] := bits[next];
      next := next + 1;
    }
  }

  /** build_cells */
  method BuildCells(grid: array2<bv8>, payload: array<bv8>)
    requires grid.Length0 == ROWS && grid.Length1 == COLS && payload.Length == PAYLOAD_LEN
    modifies grid
    ensures forall r, c :: 0 <= r < ROWS && 0 <= c < COLS ==> grid[r, c] == Cell(payload[..], r, c)
  {
    ghost var p := payload[..];
    PaintTiming(grid, p);
    var bits := new bv8[CAPACITY];
    ExpandBits(payload, bits);
    var idx := 0;
    for r := 1 to ROWS
      invariant idx == (r - 1) * 13
      invariant forall k :: 0 <= k < CAPACITY ==> bits[k] == DataBit(p, k)
      invariant forall k :: 0 <= k < ROWS ==> grid[k, 0] == Cell(p, k, 0)
      invariant forall i, j :: 0 <= i < r && 0 <= j < COLS ==> grid[i, j] == Cell(p, i, j)
    {
      idx := PaintRow(grid, r, bits, idx);
    }
    assert payload[..] == p;
  }

  // ---- reading the grid back

  type Grid = (nat, nat) -> bv8

  /** The data cells, row by row. */
  function ReadBits(g: Grid): seq<bv8> {
    seq(CAPACITY, k requires 0 <= k < CAPACITY => g(1 + k / (COLS - 1), 1 + k % (COLS - 1)))
  }

  /** Bytes from bits, most significant first. */
  function BytesFromBits(bits: seq<bv8>): seq<bv8> {
    if |bits| < 8 then []
    else [Assemble(bits[0], bits[1], bits[2], bits[3], bits[4], bits[5], bits[6], bits[7])] + BytesFromBits(bits[8..])
  }

  function ReadPayload(g: Grid): seq<bv8> {
    BytesFromBits(ReadBits(g)[..PAYLOAD_BITS])
  }

  function ByteBits(p: bv8): (bits: seq<bv8>)
    ensures |bits| == 8
  {
    [Bit(p, 7), Bit(p, 6), Bit(p, 5), Bit(p, 4), Bit(p, 3), Bit(p, 2), Bit(p, 1), Bit(p, 0)]
  }

  function BitsOf(bytes: seq<bv8>): (bits: seq<bv8>)
    ensures |bits| == 8 * |bytes|
  {
    if bytes == [] then [] else ByteBits(bytes[0]) + BitsOf(bytes[1..])
  }

  lemma {:induction false} BytesFromBitsOf(bytes: seq<bv8>)
    ensures BytesFromBits(BitsOf(bytes)) == bytes
  {
    if bytes != [] {
      var bits := BitsOf(bytes);
      BytesFromBitsOf(bytes[1..]);
      assert bits[8..] == BitsOf(bytes[1..]);
      AssembleBits(bytes[0]);
    }
  }

  lemma ByteBitsAt(p: bv8, j: nat)
    requires j < 8
    ensures ByteBits(p)[j] == Bit(p, 7 - j)
  {
  }

  lemma {:induction false} BitsOfAt(bytes: seq<bv8>, i: nat, j: nat)
    requires i < |bytes| && j < 8
    ensures BitsOf(bytes)[8 * i + j] == Bit(bytes[i], 7 - j)
  {
    ByteBitsAt(bytes[i], j);
    if i > 0 { BitsOfAt(bytes[1..], i - 1, j); }
  }

  /** The grid shows a payload. */
  ghost predicate Shows(g: Grid, payload: seq<bv8>)
    requires |payload| == PAYLOAD_LEN
  {
    forall r: nat, c: nat :: r < ROWS && c < COLS ==> g(r, c) == Cell(payload, r, c)
  }

  lemma ReadBitIs(g: Grid, payload: seq<bv8>, k: nat)
    requires |payload| == PAYLOAD_LEN && Shows(g, payload) && k < CAPACITY
    ensures ReadBits(g)[k] == DataBit(payload, k)
  {
  }

  /** Reading the cells back gives all 20 payload bytes. */
  lemma ReadPayloadIs(g: Grid, payload: seq<bv8>)
    requires |payload| == PAYLOAD_LEN && Shows(g, payload)
    ensures ReadPayload(g) == payload
  {
    var bits := ReadBits(g)[..PAYLOAD_BITS];
    forall k | 0 <= k < PAYLOAD_BITS ensures bits[k] == BitsOf(payload)[k] {
      ReadBitIs(g, payload, k);
      BitsOfAt(payload, k / 8, k % 8);
    }
    assert bits == BitsOf(payload);
    BytesFromBitsOf(payload);
  }

  /** From the painted cells back to the fields: nothing is lost, so different fields give different grids. */
  lemma GridDeterminesFields(g: Grid, f: Fields)
    requires Shows(g, Payload(f))
    ensures |ReadPayload(g)| == PAYLOAD_LEN && Unpack(ReadPayload(g)) == Some(f)
  {
    ReadPayloadIs(g, Payload(f));
    UnpackPayload(f);
  }

  /** A byte read wrongly is always noticed: the reader rejects rather than returns other fields. */
  lemma WrongByteRejected(p: seq<bv8>, i: nat, b: bv8)
    requires |p| == PAYLOAD_LEN && Accepts(p) && i < PAYLOAD_LEN && b != p[i]
    ensures !Accepts(p[i := b])
  {
    var e := FlippedBits(p[i], b);
    ByteErrorDetected(p, i, e, PAYLOAD_LEN - 1 - i);
    XorOneWord(p, i, e, b, PAYLOAD_LEN - 1 - i);
  }

  lemma FlippedBits(a: bv8, b: bv8) returns (e: bv8)
    requires a != b
    ensures e != 0 && a ^ e == b
  {
    e := a ^ b;
  }

  lemma XorOneWord(p: seq<bv8>, before: nat, e: bv8, b: bv8, after: nat)
    requires |p| == before + 1 + after && p[before] ^ e == b
    ensures Checksum.Xor(BYTES, p, Checksum.Zeros(BYTES, before) + [e] + Checksum.Zeros(BYTES, after)) == p[before := b]
  {
    var pattern := Checksum.Zeros(BYTES, before) + [e] + Checksum.Zeros(BYTES, after);
    forall k | 0 <= k < |p| ensures Checksum.Xor(BYTES, p, pattern)[k] == p[before := b][k] {
      assert pattern[k] == if k == before then e else 0;
      assert BYTES.xor(p[k], pattern[k]) == p[k] ^ pattern[k];
    }
  }

  /** Two bits read wrongly are noticed unless they are 127 apart and behind the tag. */
  lemma TwoWrongBitsAcceptedIff(p: seq<bv8>, i: nat, j: nat)
    requires |p| == PAYLOAD_LEN && Accepts(p) && i < j < 160
    ensures Accepts(Checksum.Xor(BYTES, p, TwoBits(PAYLOAD_LEN, i, j))) <==> j - i == 127 && i >= 24
  {
    TwoBitsDetectedIff(p, i, j);
    TagKeptIff(p, i, j);
  }

  lemma TagKeptIff(p: seq<bv8>, i: nat, j: nat)
    requires |p| == PAYLOAD_LEN && i < j < 160
    ensures (forall k :: 0 <= k < 3 ==> Checksum.Xor(BYTES, p, TwoBits(PAYLOAD_LEN, i, j))[k] == p[k]) <==> i >= 24
  {
    var q := Checksum.Xor(BYTES, p, TwoBits(PAYLOAD_LEN, i, j));
    forall k | 0 <= k < 3 ensures i >= 24 ==> q[k] == p[k] {
      FlippedByte(p, i, j, k);
    }
    if i < 24 {
      FlippedByte(p, i, j, i / 8);
    }
  }

  lemma FlippedByte(p: seq<bv8>, i: nat, j: nat, k: nat)
    requires |p| == PAYLOAD_LEN && i < j < 160 && k < PAYLOAD_LEN
    ensures var q := Checksum.Xor(BYTES, p, TwoBits(PAYLOAD_LEN, i, j));
            q[k] == p[k] <==> k != i / 8 && k != j / 8
  {
    BitAtIs(PAYLOAD_LEN, i, k);
    BitAtIs(PAYLOAD_LEN, j, k);
    var a, b := BitAt(PAYLOAD_LEN, i)[k], BitAt(PAYLOAD_LEN, j)[k];
    assert TwoBits(PAYLOAD_LEN, i, j)[k] == XorByte(a, b);
    assert Checksum.Xor(BYTES, p, TwoBits(PAYLOAD_LEN, i, j))[k] == XorByte(p[k], XorByte(a, b));
    XorKeeps(p[k], a, b);
    if i / 8 == j / 8 {
      MasksDiffer(i % 8, j % 8);
    }
    MaskNonzero(i % 8);
    MaskNonzero(j % 8);
  }

  lemma XorKeeps(c: bv8, a: bv8, b: bv8)
    ensures XorByte(c, XorByte(a, b)) == c <==> a == b
  {
  }

  lemma MaskNonzero(s: nat)
    requires s < 8
    ensures Mask(s) != 0
  {
  }

  lemma MasksDiffer(s: nat, t: nat)
    requires s < 8 && t < 8 && s != t
    ensures Mask(s) != Mask(t)
  {
  }
}
