/**
 Sequences of send calls and what arrives of them. Source:
 qdwin/qdwin-nested-client.c.
 */
module QdniSend {
  import opened Bytes
  import opened QdniPacket
  import opened QdniRun

  predicate AllProper(calls: seq<Call>) {
    forall i :: 0 <= i < |calls| ==> Proper(calls[i])
  }

  function PacketOf(c: Call): Packet {
    Packet(VERSION, c.kind, if c.payload.Some? then c.payload.value else [])
  }

  /** A call that reports success and passes the payload it announces; without one the length is 0. */
  predicate Whole(c: Call) {
    Succeeds(c) && (c.payload.None? ==> c.len == 0)
  }

  /** A call that fails inside its header. */
  predicate HeaderTorn(c: Call) {
    c.fd >= 0 && 0 < c.hdrSent < HEADER
  }

  /** A call that writes its header and then less payload than the header announces. */
  predicate BodyTorn(c: Call) {
    c.fd >= 0 && c.hdrSent == HEADER && !Whole(c)
  }

  /** A call whose header announces more than the receiver takes. */
  predicate Oversized(c: Call) {
    c.fd >= 0 && c.hdrSent == HEADER && c.len > MAX_PAYLOAD
  }

  /** A call after which the stream does not go on with the next packet. */
  predicate Breaks(c: Call) {
    HeaderTorn(c) || BodyTorn(c) || Oversized(c)
  }

  lemma WrittenIs(c: Call)
    requires Proper(c)
    ensures Whole(c) ==> Written(c) == Encode(PacketOf(c))
    ensures !Whole(c) && (c.payload.None? ==> c.len == 0) ==> Written(c) < Encode(PacketOf(c))
    ensures HeaderTorn(c) || BodyTorn(c) <==> !Whole(c) && Written(c) != []
    ensures BodyTorn(c) ==> HEADER <= |Written(c)| < HEADER + c.len
  {
    var hdr := HeaderBytes(VERSION, c.kind, c.len);
    assert hdr[..HEADER] == hdr;
    assert c.payload.Some? ==> c.payload.value[..c.len] == c.payload.value;
  }

  // ---- the stream of a sequence of calls

  /** All bytes the calls put on the stream. */
  function Stream(calls: seq<Call>): seq<byte>
    requires AllProper(calls)
  {
    if calls == [] then [] else Written(calls[0]) + Stream(calls[1..])
  }

  /** The packets of the calls that succeed. */
  function Sent(calls: seq<Call>): seq<Packet> {
    if calls == [] then []
    else if Whole(calls[0]) then [PacketOf(calls[0])] + Sent(calls[1..])
    else Sent(calls[1..])
  }

  /** The packets of the calls that succeed before one breaks the stream. */
  function Intact(calls: seq<Call>): (ps: seq<Packet>)
    requires AllProper(calls)
    ensures AllFit(ps, MAX_PAYLOAD) && ps <= Sent(calls)
  {
    if calls == [] || Breaks(calls[0]) then []
    else if Whole(calls[0]) then [PacketOf(calls[0])] + Intact(calls[1..])
    else Intact(calls[1..])
  }

  /** The bytes from the first call on that breaks the stream. */
  function Rest(calls: seq<Call>): seq<byte>
    requires AllProper(calls)
  {
    if calls == [] then [] else if Breaks(calls[0]) then Stream(calls) else Rest(calls[1..])
  }

  lemma AfterSuccess(c: Call, ps: seq<Packet>, t: seq<byte>)
    requires Fits(PacketOf(c), MAX_PAYLOAD) && AllFit(ps, MAX_PAYLOAD)
    ensures EncodeAll([PacketOf(c)] + ps) + t == Encode(PacketOf(c)) + (EncodeAll(ps) + t)
  {
    assert ([PacketOf(c)] + ps)[1..] == ps;
    EncodeAllHead([PacketOf(c)] + ps, t);
  }

  /** Every stream is the encodings of the calls that succeed before the first break, and then what is left. */
  lemma {:induction false} StreamIsEncoding(calls: seq<Call>)
    requires AllProper(calls)
    ensures Stream(calls) == EncodeAll(Intact(calls)) + Rest(calls)
  {
    if calls != [] {
      WrittenIs(calls[0]);
      var more := calls[1..];
      if !Breaks(calls[0]) {
        StreamIsEncoding(more);
        if Whole(calls[0]) {
          AfterSuccess(calls[0], Intact(more), Rest(more));
        } else {
          assert Written(calls[0]) == [];
        }
      }
    }
  }

  /** While no call before the last breaks it, the stream is the packets sent and at most the start of one more. */
  lemma {:induction false} OneTornAtMost(calls: seq<Call>)
    requires AllProper(calls) && (forall i :: 0 <= i < |calls| - 1 ==> !Breaks(calls[i]))
    requires calls != [] ==> var c := calls[|calls| - 1]; c.len <= MAX_PAYLOAD && (c.payload.None? ==> c.len == 0)
    ensures Intact(calls) == Sent(calls) && Partial(Rest(calls))
  {
    if calls != [] {
      WrittenIs(calls[0]);
      OneTornAtMost(calls[1..]);
      if Breaks(calls[0]) {
        assert calls[1..] == [] && Stream(calls) == Written(calls[0]);
      }
    }
  }

  // ---- what the receiver makes of the bytes from a break on

  /** The first break is a payload the receiver waits for, and later calls write as many bytes as were missing. */
  predicate Swallows(calls: seq<Call>)
    requires AllProper(calls)
  {
    if calls == [] || HeaderTorn(calls[0]) || Oversized(calls[0]) then false
    else if BodyTorn(calls[0]) then |Stream(calls)| >= HEADER + calls[0].len
    else Swallows(calls[1..])
  }

  /** The packet that takes the place of the torn one: later calls fill it up. */
  function Intruder(calls: seq<Call>): (p: Packet)
    requires AllProper(calls) && Swallows(calls)
    ensures Fits(p, MAX_PAYLOAD)
  {
    var c := calls[0];
    if BodyTorn(c) then Packet(VERSION, c.kind, Stream(calls)[HEADER..HEADER + c.len]) else Intruder(calls[1..])
  }

  /** The stream of any calls starts with bytes of the magic number. */
  lemma {:induction false} StartsWithMagic(calls: seq<Call>, i: nat)
    requires AllProper(calls) && i < 4 && i < |Stream(calls)|
    ensures Stream(calls)[i] in MAGIC
    ensures Stream(calls)[0] == MAGIC[0]
  {
    var wr := Written(calls[0]);
    if i >= |wr| {
      StartsWithMagic(calls[1..], i - |wr|);
    }
  }

  /** A header cut short makes whatever follows unreadable. */
  lemma CutHeader(calls: seq<Call>)
    requires AllProper(calls) && calls != [] && HeaderTorn(calls[0])
    ensures !Decode(Stream(calls), MAX_PAYLOAD).Got?
  {
    var s, j, more := Stream(calls), calls[0].hdrSent, calls[1..];
    if |s| >= HEADER {
      if j < 4 {
        StartsWithMagic(more, 0);
        assert s[..4][j] == s[j] == Stream(more)[0];
        assert MAGIC[j] != MAGIC[0];
      } else {
        StartsWithMagic(more, 7 - j);
        assert s[7] == Stream(more)[7 - j];
      }
    }
  }

  /** After a whole header the length in it decides. */
  lemma CutBody(calls: seq<Call>)
    requires AllProper(calls) && calls != [] && (BodyTorn(calls[0]) || Oversized(calls[0]))
    ensures Decode(Stream(calls), MAX_PAYLOAD) ==
            if Swallows(calls) then Got(Intruder(calls)) else if Oversized(calls[0]) then Error else Again
  {
    var c, s := calls[0], Stream(calls);
    var hdr := HeaderBytes(VERSION, c.kind, c.len);
    assert hdr[..HEADER] == hdr;
    assert s[..HEADER] == hdr;
    assert s[..4] == hdr[..4] == MAGIC && s[4] == hdr[4] && s[5] == hdr[5] && s[6] == hdr[6] && s[7] == hdr[7];
    assert hdr[6..8] == Le16(c.len);
  }

  lemma {:induction false} RestDecodes(calls: seq<Call>)
    requires AllProper(calls)
    ensures Swallows(calls) ==> Decode(Rest(calls), MAX_PAYLOAD) == Got(Intruder(calls))
    ensures !Swallows(calls) ==> !Decode(Rest(calls), MAX_PAYLOAD).Got?
  {
    if calls != [] {
      if HeaderTorn(calls[0]) {
        CutHeader(calls);
      } else if Breaks(calls[0]) {
        CutBody(calls);
      } else {
        RestDecodes(calls[1..]);
      }
    }
  }

  // ---- what is delivered

  /** In every run that carries these calls, what is delivered are the first packets of the successful ones. */
  ghost predicate AlwaysPrefix(calls: seq<Call>)
    requires AllProper(calls)
  {
    forall es: seq<Event>, id: nat :: Carries(es, id, calls) ==> Delivered(Run(EMPTY, es), id) <= Sent(calls)
  }

  ghost predicate Carries(es: seq<Event>, id: nat, calls: seq<Call>)
    requires AllProper(calls)
  {
    id in Run(EMPTY, es).conns && Run(EMPTY, es).conns[id].sent == Stream(calls)
  }

  /** Whatever the chunking, what is delivered on a connection are the first packets of its successful calls. */
  lemma DeliveredIsPrefixOfCalls(es: seq<Event>, id: nat, calls: seq<Call>)
    requires AllProper(calls) && !Swallows(calls) && Carries(es, id, calls)
    ensures Delivered(Run(EMPTY, es), id) <= Intact(calls) <= Sent(calls)
  {
    StreamIsEncoding(calls);
    RestDecodes(calls);
    DeliveredIsPrefixOfSent(es, id, Intact(calls), Rest(calls));
  }

  /** Otherwise some run delivers a packet put together from the torn call and the calls after it. */
  lemma IntruderIsDelivered(calls: seq<Call>) returns (es: seq<Event>)
    requires AllProper(calls) && Swallows(calls)
    ensures Carries(es, 0, calls) && Delivered(Run(EMPTY, es), 0) == Intact(calls) + [Intruder(calls)]
  {
    StreamIsEncoding(calls);
    RestDecodes(calls);
    var p := Intruder(calls);
    EncodeDecode(Rest(calls), MAX_PAYLOAD);
    var tail := Rest(calls)[HEADER + |p.payload|..];
    EncodeAllAppend(Intact(calls), p, tail);
    es := SomeRunDelivers(Intact(calls) + [p], tail);
  }

  /** Calls that differ in the contents of their payloads only. */
  predicate SameCounts(a: seq<Call>, b: seq<Call>) {
    |a| == |b| && forall i :: 0 <= i < |a| ==> SameCount(a[i], b[i])
  }

  predicate SameCount(c: Call, d: Call) {
    d == c.(payload := d.payload) && (c.payload.Some? <==> d.payload.Some?)
  }

  lemma {:induction false} SwallowsByCounts(a: seq<Call>, b: seq<Call>)
    requires AllProper(a) && AllProper(b) && SameCounts(a, b)
    ensures |Stream(a)| == |Stream(b)| && (Swallows(a) <==> Swallows(b))
  {
    if a != [] {
      assert SameCount(a[0], b[0]);
      SwallowsByCounts(a[1..], b[1..]);
    }
  }

  function Zeros(c: Call): (d: Call)
    requires Proper(c)
    ensures Proper(d) && SameCount(c, d)
  {
    c.(payload := if c.payload.Some? then Some(seq(c.len, i => 0)) else None)
  }

  function AllZeros(calls: seq<Call>): (r: seq<Call>)
    requires AllProper(calls)
    ensures AllProper(r) && SameCounts(calls, r)
  {
    seq(|calls|, i requires 0 <= i < |calls| => Zeros(calls[i]))
  }

  predicate AllZero(bs: seq<byte>) {
    forall i :: 0 <= i < |bs| ==> bs[i] == 0
  }

  lemma {:induction false} SentZeros(calls: seq<Call>, k: nat)
    requires AllProper(calls) && (forall i :: 0 <= i < |calls| ==> calls[i] == Zeros(calls[i])) && k < |Sent(calls)|
    ensures AllZero(Sent(calls)[k].payload)
  {
    if Whole(calls[0]) {
      if k > 0 {
        SentZeros(calls[1..], k - 1);
      } else {
        assert calls[0] == Zeros(calls[0]);
      }
    } else {
      SentZeros(calls[1..], k);
    }
  }

  /** The packet in the place of the torn one holds the header of a later call. */
  lemma {:induction false} IntruderHoldsHeader(calls: seq<Call>)
    requires AllProper(calls) && Swallows(calls)
    ensures !AllZero(Intruder(calls).payload)
  {
    var c, s := calls[0], Stream(calls);
    if BodyTorn(c) {
      var n := |Written(c)|;
      WrittenIs(c);
      StartsWithMagic(calls[1..], 0);
      assert s[n] == Stream(calls[1..])[0];
      assert Intruder(calls).payload[n - HEADER] == s[n];
    } else {
      IntruderHoldsHeader(calls[1..]);
    }
  }

  lemma ZerosNotPrefix(calls: seq<Call>)
    requires AllProper(calls) && Swallows(calls) && forall i :: 0 <= i < |calls| ==> calls[i] == Zeros(calls[i])
    ensures !AlwaysPrefix(calls)
  {
    var es := IntruderIsDelivered(calls);
    var k := |Intact(calls)|;
    IntruderHoldsHeader(calls);
    if Delivered(Run(EMPTY, es), 0) <= Sent(calls) {
      assert Delivered(Run(EMPTY, es), 0)[k] == Sent(calls)[k];
      SentZeros(calls, k);
      assert false;
    }
  }

  /** What the send calls return decides: whatever the payloads hold, deliveries are a prefix, or for some they are not. */
  lemma PrefixIffNotSwallowed(calls: seq<Call>)
    requires AllProper(calls)
    ensures (forall other: seq<Call> :: AllProper(other) && SameCounts(calls, other) ==> AlwaysPrefix(other))
            <==> !Swallows(calls)
  {
    if Swallows(calls) {
      var z := AllZeros(calls);
      SwallowsByCounts(calls, z);
      ZerosNotPrefix(z);
    } else {
      forall other: seq<Call> | AllProper(other) && SameCounts(calls, other) ensures AlwaysPrefix(other) {
        SwallowsByCounts(calls, other);
        forall es: seq<Event>, id: nat | Carries(es, id, other) ensures Delivered(Run(EMPTY, es), id) <= Sent(other) {
          DeliveredIsPrefixOfCalls(es, id, other);
        }
      }
    }
  }

  lemma StreamOfTwo(c: Call, d: Call)
    requires Proper(c) && Proper(d) && !Whole(c) && Whole(d)
    ensures Stream([c, d]) == Written(c) + Encode(PacketOf(d)) && Sent([c, d]) == [PacketOf(d)]
  {
    var calls, more := [c, d], [d];
    assert calls[1..] == more && more[1..] == [];
    WrittenIs(d);
    assert Stream(more) == Written(d) && Sent(more) == [PacketOf(d)];
  }

  /** Two calls: a payload cut short, and then one that succeeds and is at least as long as what is missing. */
  lemma NextCallIsSwallowed(c: Call, d: Call)
    requires Proper(c) && Proper(d) && BodyTorn(c) && c.len <= MAX_PAYLOAD && c.len <= HEADER + d.len && Whole(d)
    ensures var calls, had := [c, d], Written(c)[HEADER..];
            && Sent(calls) == [PacketOf(d)] && Intact(calls) == [] && Swallows(calls)
            && Intruder(calls).payload == had + Encode(PacketOf(d))[..c.len - |had|]
  {
    StreamOfTwo(c, d);
    WrittenIs(c);
    MiddleOf(Written(c), Encode(PacketOf(d)), HEADER, HEADER + c.len);
  }

  lemma MiddleOf(a: seq<byte>, b: seq<byte>, i: nat, j: nat)
    requires i <= |a| <= j <= |a| + |b|
    ensures (a + b)[i..j] == a[i..] + b[..j - |a|]
  {
  }

  /** A call with a larger payload may report success too, but what it writes is refused, whatever follows. */
  lemma OversizedIsRefused(c: Call, tail: seq<byte>, cap: nat)
    requires Proper(c) && c.payload.Some? && c.len > MAX_PAYLOAD && Succeeds(c)
    ensures Decode(Written(c) + tail, cap) == Error
  {
    var p := Packet(VERSION, c.kind, c.payload.value);
    var hdr := HeaderBytes(VERSION, c.kind, c.len);
    assert hdr[..HEADER] == hdr && c.payload.value[..c.len] == c.payload.value;
    assert Written(c) == Encode(p);
    DecodeEncode(p, tail, cap);
  }
}
