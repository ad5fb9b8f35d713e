/**
 The QDNI packet format of the nested input sink: an 8-byte header (magic,
 version, event type, payload length) followed by the payload.
 Source: qdwin/qdwin-nested-client.c and qdwin/qdwin-nested-client.h.
 */
module QdniPacket {
  import opened Bytes

  const HEADER: nat := 8
  const MAX_PAYLOAD: nat := 256
  /** sizeof rbuf */
  const CAPACITY: nat := HEADER + MAX_PAYLOAD
  const VERSION: byte := 1
  /** 0x49444E51 in memory order */
  const MAGIC: seq<byte> := [0x51, 0x4E, 0x44, 0x49]

  datatype Packet = Packet(version: byte, kind: byte, payload: seq<byte>)

  /** Packets a receiver with a payload buffer of cap bytes can take. */
  predicate Fits(p: Packet, cap: nat) {
    |p.payload| <= cap && |p.payload| <= MAX_PAYLOAD
  }

  predicate AllFit(ps: seq<Packet>, cap: nat) {
    forall i :: 0 <= i < |ps| ==> Fits(ps[i], cap)
  }

  function HeaderBytes(version: byte, kind: byte, len: nat): (bs: seq<byte>)
    requires len < U16
    ensures |bs| == HEADER
  {
    MAGIC + [version, kind] + Le16(len)
  }

  function Encode(p: Packet): seq<byte>
    requires |p.payload| < U16
  {
    HeaderBytes(p.version, p.kind, |p.payload|) + p.payload
  }

  function EncodeAll(ps: seq<Packet>): seq<byte>
    requires AllFit(ps, MAX_PAYLOAD)
  {
    if ps == [] then [] else Encode(ps[0]) + EncodeAll(ps[1..])
  }

  /** What read_one concludes from the bytes it holds. */
  datatype Outcome = Again | Error | Got(packet: Packet)

  function Decode(buf: seq<byte>, cap: nat): Outcome {
    if |buf| < HEADER then Again
    else if buf[..4] != MAGIC then Error
    else
      var plen := FromLe16(buf[6], buf[7]);
      if plen > cap || plen > MAX_PAYLOAD then Error
      else if |buf| < HEADER + plen then Again
      else Got(Packet(buf[4], buf[5], buf[HEADER..HEADER + plen]))
  }

  /** A call of send, with what its two send(2) calls return. */
  datatype Call = Call(fd: int, kind: byte, payload: Option<seq<byte>>, len: nat, hdrSent: int, bodySent: int)

  predicate Proper(c: Call) {
    && c.len < U16 && (c.payload.Some? ==> |c.payload.value| == c.len)
    && -1 <= c.hdrSent <= HEADER && -1 <= c.bodySent <= c.len
  }

  /** The bytes a send(2) of all of bs puts on the stream when it returns n. */
  function Taken(bs: seq<byte>, n: int): seq<byte>
    requires -1 <= n <= |bs|
  {
    if n < 0 then [] else bs[..n]
  }

  /** What reaches the stream. */
  function Written(c: Call): seq<byte>
    requires Proper(c)
  {
    if c.fd < 0 then []
    else
      var hdr := Taken(HeaderBytes(VERSION, c.kind, c.len), c.hdrSent);
      if c.hdrSent != HEADER || c.len == 0 || c.payload.None? then hdr else hdr + Taken(c.payload.value, c.bodySent)
  }

  predicate Succeeds(c: Call) {
    c.fd >= 0 && c.hdrSent == HEADER && (c.len > 0 && c.payload.Some? ==> c.bodySent == c.len)
  }

  /** qdwin_nested_input_sink_send */
  method Send(c: Call) returns (rc: int, written: seq<byte>)
    requires Proper(c)
    ensures written == Written(c) && (Succeeds(c) <==> rc == 0)
    ensures rc == if c.fd >= 0 && c.hdrSent == 8 && (c.len == 0 || c.payload.None? || c.bodySent == c.len) then 0 else -1
    ensures |written| == if c.fd < 0 || c.hdrSent < 0 then 0
                         else if c.hdrSent < 8 || c.payload.None? || c.bodySent < 0 then c.hdrSent
                         else 8 + c.bodySent
    ensures c.payload.Some? ==> written <= Encode(Packet(VERSION, c.kind, c.payload.value))
    ensures c.payload.Some? ==> (rc == 0 <==> c.fd >= 0 && written == Encode(Packet(VERSION, c.kind, c.payload.value)))
    ensures c.payload.None? && rc == 0 && c.len > 0 ==> forall cap :: !Decode(written, cap).Got?
    ensures c.payload.None? && rc == 0 && c.len == 0 ==> written == Encode(Packet(VERSION, c.kind, []))
  {
    if c.fd < 0 { return -1, []; }
    var hdr := HeaderBytes(VERSION, c.kind, c.len);
    written := Taken(hdr, c.hdrSent);
    if c.hdrSent != HEADER { return -1, written; }
    assert written == hdr;
    if c.len > 0 && c.payload.Some? {
      written := written + Taken(c.payload.value, c.bodySent);
      if c.bodySent != c.len { return -1, written; }
      assert c.payload.value[..c.len] == c.payload.value;
    }
    return 0, written;
  }

  /** The decoder undoes the encoder, whatever bytes follow, exactly for the packets that fit; others are an error. */
  lemma DecodeEncode(p: Packet, tail: seq<byte>, cap: nat)
    requires |p.payload| < U16
    ensures Decode(Encode(p) + tail, cap) == if |p.payload| <= cap && |p.payload| <= 256 then Got(p) else Error
  {
    var buf := Encode(p) + tail;
    assert buf[..4] == MAGIC && buf[6..8] == Le16(|p.payload|);
    assert buf[6] == Le16(|p.payload|)[0] && buf[7] == Le16(|p.payload|)[1];
  }

  lemma FirstPacket(p: Packet, tail: seq<byte>)
    requires Fits(p, MAX_PAYLOAD)
    ensures Decode(Encode(p) + tail, MAX_PAYLOAD) == Got(p)
  {
    DecodeEncode(p, tail, MAX_PAYLOAD);
  }

  /** The encoder undoes the decoder: a decoded packet is exactly the bytes it was cut from. */
  lemma EncodeDecode(buf: seq<byte>, cap: nat)
    requires Decode(buf, cap).Got?
    ensures var p := Decode(buf, cap).packet;
            Fits(p, cap) && HEADER + |p.payload| <= |buf| && buf == Encode(p) + buf[HEADER + |p.payload|..]
  {
  }

  /** A proper prefix of a packet is never mistaken for an error or for a packet. */
  lemma DecodeStrictPrefix(p: Packet, s: seq<byte>, cap: nat)
    requires Fits(p, cap)
    requires s < Encode(p)
    ensures Decode(s, cap) == Again
  {
  }

  /** Bytes at the end of a stream that are the start of a packet still to be completed. */
  ghost predicate Partial(t: seq<byte>) {
    t == [] || exists p :: Fits(p, MAX_PAYLOAD) && t < Encode(p)
  }

  lemma DecodePartial(t: seq<byte>, s: seq<byte>, cap: nat)
    requires Partial(t) && s <= t
    ensures cap >= MAX_PAYLOAD ==> Decode(s, cap) == Again
    ensures !Decode(s, cap).Got?
  {
  }

  lemma EncodeAllHead(ps: seq<Packet>, tail: seq<byte>)
    requires AllFit(ps, MAX_PAYLOAD) && ps != []
    ensures EncodeAll(ps) + tail == Encode(ps[0]) + (EncodeAll(ps[1..]) + tail)
  {
  }

  /** Packets already read, then one more, then whatever follows. */
  lemma {:induction false} EncodeAllAppend(ps: seq<Packet>, p: Packet, rest: seq<byte>)
    requires AllFit(ps, MAX_PAYLOAD) && Fits(p, MAX_PAYLOAD)
    ensures EncodeAll(ps + [p]) + rest == EncodeAll(ps) + (Encode(p) + rest)
  {
    if ps == [] {
      assert (ps + [p])[1..] == [];
    } else {
      EncodeAllAppend(ps[1..], p, rest);
      assert (ps + [p])[1..] == ps[1..] + [p];
      EncodeAllHead(ps + [p], rest);
      EncodeAllHead(ps, Encode(p) + rest);
    }
  }

  /** Two streams that agree start with the same packet. */
  lemma SameFirst(p: Packet, q: Packet, a: seq<byte>, b: seq<byte>)
    requires Fits(p, MAX_PAYLOAD) && Fits(q, MAX_PAYLOAD) && Encode(p) + a == Encode(q) + b
    ensures p == q && a == b
  {
    FirstPacket(p, a);
    FirstPacket(q, b);
    assert a == (Encode(p) + a)[|Encode(p)|..];
  }

  /**
   The format is self-delimiting: packets read off the front of a stream are the
   packets put there, when what follows them does not start with a packet.
   */
  lemma {:induction false} EncodeAllPrefix(gs: seq<Packet>, ps: seq<Packet>, t: seq<byte>)
    requires AllFit(gs, MAX_PAYLOAD) && AllFit(ps, MAX_PAYLOAD) && !Decode(t, MAX_PAYLOAD).Got?
    requires EncodeAll(gs) <= EncodeAll(ps) + t
    ensures gs <= ps
  {
    if gs != [] {
      var rest := (EncodeAll(ps) + t)[|EncodeAll(gs)|..];
      var more := EncodeAll(gs[1..]) + rest;
      EncodeAllHead(gs, rest);
      if ps == [] {
        FirstPacket(gs[0], more);
        assert false;
      } else {
        EncodeAllHead(ps, t);
        SameFirst(gs[0], ps[0], more, EncodeAll(ps[1..]) + t);
        EncodeAllPrefix(gs[1..], ps[1..], t);
      }
    }
  }
}
