/**
 The typed input events carried in QDNI payloads: the send_* wrappers on the
 outer side and the payload casts of the dispatch switch on the nested side.
 */
module QdniEvents {
  import opened Bytes
  import opened QdniPacket
  import opened QdniRun

  type i32 = n: int | -I32_MAX - 1 <= n <= I32_MAX

  datatype Input =
    | Ping
    | Motion(time: u32, x: i32, y: i32)
    | Button(time: u32, button: u32, state: u32)
    | Key(time: u32, key: u32, state: u32)
    | Axis(time: u32, axis: u32, value: i32)
    | Focus(focused: u32)

  const PING: byte := 1
  const MOTION: byte := 2
  const BUTTON: byte := 3
  const KEY: byte := 4
  const AXIS: byte := 5
  const FOCUS: byte := 6

  function ToPacket(e: Input): (p: Packet)
    ensures Fits(p, MAX_PAYLOAD)
  {
    match e
    case Ping => Packet(VERSION, PING, [])
    case Motion(t, x, y) => Packet(VERSION, MOTION, Le32(t) + Le32(Unsigned(x)) + Le32(Unsigned(y)))
    case Button(t, b, s) => Packet(VERSION, BUTTON, Le32(t) + Le32(b) + Le32(s))
    case Key(t, k, s) => Packet(VERSION, KEY, Le32(t) + Le32(k) + Le32(s))
    case Axis(t, a, v) => Packet(VERSION, AXIS, Le32(t) + Le32(a) + Le32(Unsigned(v)))
    case Focus(f) => Packet(VERSION, FOCUS, Le32(f))
  }

  /** The n-th uint32_t of a payload struct. */
  function Word(payload: seq<byte>, n: nat): u32
    requires 4 * n + 4 <= |payload|
  {
    FromLe32(payload[4 * n..4 * n + 4])
  }

  /** The dispatch switch: a payload shorter than its struct, or an unknown type, is skipped. */
  function Dispatch(p: Packet): Option<Input> {
    var d := p.payload;
    if p.kind == PING then Some(Ping)
    else if p.kind == FOCUS then
      if |d| < 4 then None else Some(Focus(Word(d, 0)))
    else if |d| < 12 then None
    else if p.kind == MOTION then Some(Motion(Word(d, 0), Signed(Word(d, 1)), Signed(Word(d, 2))))
    else if p.kind == BUTTON then Some(Button(Word(d, 0), Word(d, 1), Word(d, 2)))
    else if p.kind == KEY then Some(Key(Word(d, 0), Word(d, 1), Word(d, 2)))
    else if p.kind == AXIS then Some(Axis(Word(d, 0), Word(d, 1), Signed(Word(d, 2))))
    else None
  }

  lemma Words3(a: u32, b: u32, c: u32)
    ensures var d := Le32(a) + Le32(b) + Le32(c);
            |d| == 12 && Word(d, 0) == a && Word(d, 1) == b && Word(d, 2) == c
  {
  }

  /** What the three-word structs are read as. */
  lemma DispatchWords(p: Packet, a: u32, b: u32, c: u32)
    requires |p.payload| >= 12 && Word(p.payload, 0) == a && Word(p.payload, 1) == b && Word(p.payload, 2) == c
    ensures p.kind == MOTION ==> Dispatch(p) == Some(Motion(a, Signed(b), Signed(c)))
    ensures p.kind == BUTTON ==> Dispatch(p) == Some(Button(a, b, c))
    ensures p.kind == KEY ==> Dispatch(p) == Some(Key(a, b, c))
    ensures p.kind == AXIS ==> Dispatch(p) == Some(Axis(a, b, Signed(c)))
  {
  }

  lemma DispatchStruct(p: Packet, a: u32, b: u32, c: u32)
    requires p.payload == Le32(a) + Le32(b) + Le32(c)
    ensures p.kind == MOTION ==> Dispatch(p) == Some(Motion(a, Signed(b), Signed(c)))
    ensures p.kind == BUTTON ==> Dispatch(p) == Some(Button(a, b, c))
    ensures p.kind == KEY ==> Dispatch(p) == Some(Key(a, b, c))
    ensures p.kind == AXIS ==> Dispatch(p) == Some(Axis(a, b, Signed(c)))
  {
    Words3(a, b, c);
    DispatchWords(p, a, b, c);
  }

  lemma DispatchToPacket(e: Input)
    ensures Dispatch(ToPacket(e)) == Some(e)
  {
    match e
    case Ping =>
    case Motion(t, x, y) => DispatchStruct(ToPacket(e), t, Unsigned(x), Unsigned(y));
    case Button(t, b, s) => DispatchStruct(ToPacket(e), t, b, s);
    case Key(t, k, s) => DispatchStruct(ToPacket(e), t, k, s);
    case Axis(t, a, v) => DispatchStruct(ToPacket(e), t, a, Unsigned(v));
    case Focus(f) =>
      assert Le32(f)[0..4] == Le32(f);
  }

  /** Four bytes as a little-endian number. */
  function NumberAt(bs: seq<byte>, i: nat): nat
    requires i + 4 <= |bs|
  {
    var b0: nat, b1: nat, b2: nat, b3: nat := bs[i], bs[i + 1], bs[i + 2], bs[i + 3];
    b0 + 0x100 * b1 + 0x1_0000 * b2 + 0x100_0000 * b3
  }

  /** Two's complement in 32 bits. */
  function Wrapped(n: i32): nat {
    if n < 0 then n + 0x1_0000_0000 else n
  }

  lemma Le32At(bs: seq<byte>, i: nat, n: u32)
    requires i + 4 <= |bs| && bs[i..i + 4] == Le32(n)
    ensures NumberAt(bs, i) == n
  {
    assert bs[i] == Le32(n)[0] && bs[i + 1] == Le32(n)[1] && bs[i + 2] == Le32(n)[2] && bs[i + 3] == Le32(n)[3];
  }

  predicate HeaderIs(bs: seq<byte>, kind: byte, len: nat) {
    |bs| == 8 + len && bs[..4] == [0x51, 0x4E, 0x44, 0x49] && bs[4] == 1 && bs[5] == kind && bs[6] == len && bs[7] == 0
  }

  predicate WordsAre(bs: seq<byte>, a: nat, b: nat, c: nat) {
    |bs| == 20 && NumberAt(bs, 8) == a && NumberAt(bs, 12) == b && NumberAt(bs, 16) == c
  }

  lemma EncodeWords3(kind: byte, a: u32, b: u32, c: u32)
    ensures var bs := Encode(Packet(VERSION, kind, Le32(a) + Le32(b) + Le32(c)));
            HeaderIs(bs, kind, 12) && WordsAre(bs, a, b, c)
  {
    var bs := Encode(Packet(VERSION, kind, Le32(a) + Le32(b) + Le32(c)));
    assert bs[8..12] == Le32(a) && bs[12..16] == Le32(b) && bs[16..20] == Le32(c);
    Le32At(bs, 8, a);
    Le32At(bs, 12, b);
    Le32At(bs, 16, c);
  }

  /** The bytes on the wire, for every event. */
  lemma WireBytes(e: Input)
    ensures var bs := Encode(ToPacket(e));
            match e
            case Ping => bs == [0x51, 0x4E, 0x44, 0x49, 1, 1, 0, 0]
            case Motion(t, x, y) => HeaderIs(bs, 2, 12) && WordsAre(bs, t, Wrapped(x), Wrapped(y))
            case Button(t, b, s) => HeaderIs(bs, 3, 12) && WordsAre(bs, t, b, s)
            case Key(t, k, s) => HeaderIs(bs, 4, 12) && WordsAre(bs, t, k, s)
            case Axis(t, a, v) => HeaderIs(bs, 5, 12) && WordsAre(bs, t, a, Wrapped(v))
            case Focus(f) => HeaderIs(bs, 6, 4) && NumberAt(bs, 8) == f
  {
    match e
    case Ping =>
    case Motion(t, x, y) => EncodeWords3(MOTION, t, Unsigned(x), Unsigned(y));
    case Button(t, b, s) => EncodeWords3(BUTTON, t, b, s);
    case Key(t, k, s) => EncodeWords3(KEY, t, k, s);
    case Axis(t, a, v) => EncodeWords3(AXIS, t, a, Unsigned(v));
    case Focus(f) => EncodeWord(FOCUS, f);
  }

  lemma EncodeWord(kind: byte, a: u32)
    ensures var bs := Encode(Packet(VERSION, kind, Le32(a))); HeaderIs(bs, kind, 4) && NumberAt(bs, 8) == a
  {
    var bs := Encode(Packet(VERSION, kind, Le32(a)));
    assert bs[8..12] == Le32(a);
    Le32At(bs, 8, a);
  }

  lemma SignedBack(u: u32)
    ensures Unsigned(Signed(u)) == u
  {
  }

  /** The struct read off the front of a payload is the one that would be sent again. */
  lemma StructAgain(p: Packet, a: u32, b: u32, c: u32)
    requires |p.payload| >= 12 && Word(p.payload, 0) == a && Word(p.payload, 1) == b && Word(p.payload, 2) == c
    requires 2 <= p.kind <= 5
    ensures Dispatch(p).Some?
    ensures var q := ToPacket(Dispatch(p).value); q.kind == p.kind && q.payload == Le32(a) + Le32(b) + Le32(c)
  {
    DispatchWords(p, a, b, c);
    SignedBack(b);
    SignedBack(c);
  }

  lemma FrontIs(d: seq<byte>)
    requires |d| >= 12
    ensures Le32(Word(d, 0)) + Le32(Word(d, 1)) + Le32(Word(d, 2)) <= d
  {
    Le32Back(d[0..4]);
    Le32Back(d[4..8]);
    Le32Back(d[8..12]);
    assert d[0..4] + d[4..8] + d[8..12] == d[..12];
  }

  /** A packet is dispatched exactly when its type is known and its struct is complete; more bytes are ignored. */
  lemma DispatchedIff(p: Packet)
    ensures Dispatch(p).Some? <==>
              p.kind == 1 || (2 <= p.kind <= 5 && |p.payload| >= 12) || (p.kind == 6 && |p.payload| >= 4)
    ensures Dispatch(p).Some? ==>
              var q := ToPacket(Dispatch(p).value); q.kind == p.kind && q.payload <= p.payload
  {
    var d := p.payload;
    if 2 <= p.kind <= 5 && |d| >= 12 {
      StructAgain(p, Word(d, 0), Word(d, 1), Word(d, 2));
      FrontIs(d);
    } else if p.kind == 6 && |d| >= 4 {
      Le32Back(d[0..4]);
    }
  }

  function ToPackets(es: seq<Input>): (ps: seq<Packet>)
    ensures AllFit(ps, MAX_PAYLOAD)
  {
    seq(|es|, i requires 0 <= i < |es| => ToPacket(es[i]))
  }

  /**
   End to end: in every run, under every fragmentation, if a peer has written a
   list of input events, then the events dispatched from its connection are the
   first of that list, with every field intact.
   */
  lemma DispatchedIsPrefixOfInput(run: seq<Event>, id: nat, inputs: seq<Input>, t: seq<byte>)
    requires !Decode(t, MAX_PAYLOAD).Got?
    requires id in Run(EMPTY, run).conns
    requires Run(EMPTY, run).conns[id].sent == EncodeAll(ToPackets(inputs)) + t
    ensures var gs := Delivered(Run(EMPTY, run), id);
            |gs| <= |inputs| && forall i :: 0 <= i < |gs| ==> Dispatch(gs[i]) == Some(inputs[i])
  {
    DeliveredIsPrefixOfSent(run, id, ToPackets(inputs), t);
    var gs := Delivered(Run(EMPTY, run), id);
    forall i | 0 <= i < |gs| ensures Dispatch(gs[i]) == Some(inputs[i]) {
      assert gs[i] == ToPackets(inputs)[i];
      DispatchToPacket(inputs[i]);
    }
  }
}
