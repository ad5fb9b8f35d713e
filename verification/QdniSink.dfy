/**
 The receiving end of a QDNI stream: the accumulation buffer of
 struct qdwin_nested_input_sink, read_one, accept, and the drain loop of the
 compositor's readable callback.
 */
module QdniSink {
  import opened Bytes
  import opened QdniPacket

  /** What recv(2) gives back. */
  datatype Recv = Data(bytes: seq<byte>) | Eof | WouldBlock | Failed

  const RC_ERROR: int := -1
  const RC_AGAIN: int := -2

  /** Parse at most one packet off the front of the buffer and shift the rest down. */
  function TakeOne(buf: seq<byte>, cap: nat): (r: (Outcome, seq<byte>))
    ensures r.0.Got? ==> Fits(r.0.packet, cap) && buf == Encode(r.0.packet) + r.1
    ensures !r.0.Got? ==> r.1 == buf
  {
    var o := Decode(buf, cap);
    if o.Got? then
      EncodeDecode(buf, cap);
      (o, buf[HEADER + |o.packet.payload|..])
    else
      (o, buf)
  }

  /** read_one as a function of the buffered bytes and of what recv returns. */
  function ReadStep(buf: seq<byte>, r: Recv, cap: nat): (Outcome, seq<byte>) {
    if |buf| < CAPACITY && r.Failed? then (Error, buf)
    else if |buf| < CAPACITY && r.Eof? && buf == [] then (Error, buf)
    else if |buf| < CAPACITY && r.Data? then TakeOne(buf + r.bytes, cap)
    else TakeOne(buf, cap)
  }

  /** What recv may return on a stream with these bytes in flight, and what is in flight afterwards. */
  predicate RecvFits(r: Recv, max: nat, wire: seq<byte>, closed: bool, wire': seq<byte>) {
    if r.Data? then 0 < |r.bytes| <= max && wire == r.bytes + wire'
    else wire' == wire && (r.Eof? ==> wire == [] && closed)
  }

  /** recv with room for max bytes, when the kernel is willing to give want. */
  function RecvFrom(wire: seq<byte>, closed: bool, want: nat, max: nat, broken: bool): (r: Recv)
    ensures RecvFits(r, max, wire, closed, Unread(wire, r))
  {
    var k := if want <= max then want else max;
    var k := if k <= |wire| then k else |wire|;
    if broken then Failed
    else if k > 0 then Data(wire[..k])
    else if wire == [] && closed then Eof
    else WouldBlock
  }

  /** What is in flight afterwards. */
  function Unread(wire: seq<byte>, r: Recv): seq<byte> {
    if r.Data? && |r.bytes| <= |wire| then wire[|r.bytes|..] else wire
  }

  /** One read neither loses, invents nor reorders a byte. */
  lemma ReadStepConserves(buf: seq<byte>, r: Recv, cap: nat, wire: seq<byte>, closed: bool, wire': seq<byte>)
    requires if |buf| < CAPACITY then RecvFits(r, CAPACITY - |buf|, wire, closed, wire') else wire' == wire
    ensures var (o, rest) := ReadStep(buf, r, cap);
            && (o.Got? ==> Fits(o.packet, cap) && buf + wire == Encode(o.packet) + (rest + wire'))
            && (!o.Got? ==> buf + wire == rest + wire')
            && (o.Again? ==> Decode(rest, cap) == Again)
  {
    var seen := if |buf| < CAPACITY && r.Data? then buf + r.bytes else buf;
    assert seen + wire' == buf + wire;
    TakeOneConserves(seen, cap, wire');
  }

  lemma TakeOneConserves(seen: seq<byte>, cap: nat, wire: seq<byte>)
    ensures var (o, rest) := TakeOne(seen, cap);
            && (o.Got? ==> Fits(o.packet, cap) && seen + wire == Encode(o.packet) + (rest + wire))
            && (o.Again? ==> Decode(rest, cap) == Again)
  {
    var (o, rest) := TakeOne(seen, cap);
    if o.Got? {
      assert Encode(o.packet) + rest + wire == Encode(o.packet) + (rest + wire);
    }
  }

  function ReturnCode(o: Outcome): (rc: int)
    ensures o.Again? ==> rc == -2
    ensures o.Error? ==> rc == -1
  {
    match o
    case Again => RC_AGAIN
    case Error => RC_ERROR
    case Got(p) => p.kind
  }

  /** qdwin_nested_input_peer_event_current: the guard in front of the drain loop. */
  predicate EventCurrent(eventFd: int, currentFd: int) {
    eventFd >= 0 && currentFd >= 0 && eventFd == currentFd
  }

  /** A connected peer as the kernel sees it: bytes in flight and whether the peer has closed. */
  class Peer {
    const fd: int
    var wire: seq<byte>
    var closed: bool
    /** Whether recv has ever failed. */
    ghost var faulted: bool

    constructor (fd: int)
      ensures this.fd == fd && wire == [] && !closed && !faulted
    {
      this.fd, wire, closed, faulted := fd, [], false, false;
    }

    /** The peer writes to its end. */
    method Put(bytes: seq<byte>)
      modifies this`wire
      ensures wire == old(wire) + bytes
    {
      wire := wire + bytes;
    }

    method Shut()
      modifies this`closed
      ensures closed
    {
      closed := true;
    }

    /** recv(2) on a stream socket: any non-empty amount up to max, or an interruption, or an error. */
    method Recv(max: nat) returns (r: Recv)
      requires max > 0
      modifies this`wire, this`faulted
      ensures RecvFits(r, max, old(wire), closed, wire)
      ensures faulted == (old(faulted) || r.Failed?)
    {
      var broken: bool := *;
      var want: nat := *;
      r := Give(max, want, broken);
    }

    method Give(max: nat, want: nat, broken: bool) returns (r: Recv)
      modifies this`wire, this`faulted
      ensures r == RecvFrom(old(wire), closed, want, max, broken) && wire == Unread(old(wire), r)
      ensures faulted == (old(faulted) || r.Failed?)
    {
      if broken {
        faulted := true;
        return Failed;
      }
      var k := if want <= max then want else max;
      k := if k <= |wire| then k else |wire|;
      if k > 0 {
        r := Data(wire[..k]);
        wire := wire[k..];
      } else if wire == [] && closed {
        r := Eof;
      } else {
        r := WouldBlock;
      }
    }
  }

  class Sink {
    var peerFd: int
    const rbuf: array<byte>
    var used: nat

    ghost predicate Valid()
      reads this
    {
      rbuf.Length == CAPACITY && used <= CAPACITY
    }

    ghost function Buffered(): (s: seq<byte>)
      reads this, rbuf
      requires Valid()
    {
      rbuf[..used]
    }

    constructor ()
      ensures Valid() && fresh(rbuf) && rbuf.Length == 264 && peerFd == -1 && Buffered() == []
    {
      rbuf := new byte[CAPACITY];
      peerFd, used := -1, 0;
    }

    /** qdwin_nested_input_sink_accept; fd is what accept4(2) returned. */
    method Accept(listenFd: int, fd: int) returns (rc: int)
      requires Valid()
      modifies this
      ensures Valid()
      ensures rc == if listenFd >= 0 && fd >= 0 then 0 else -1
      ensures rc == 0 ==> peerFd == fd && Buffered() == []
      ensures rc != 0 ==> peerFd == old(peerFd) && Buffered() == old(Buffered())
    {
      if listenFd < 0 { return -1; }
      if fd < 0 { return -1; }
      peerFd := fd;
      used := 0;
      return 0;
    }

    /** The hangup branch of the readable callback: the descriptor is closed and forgotten. */
    method Hangup()
      requires Valid()
      modifies this`peerFd
      ensures Valid() && peerFd == -1
    {
      peerFd := -1;
    }

    /** Append what recv delivered, in place behind the bytes already held. */
    method Append(bytes: seq<byte>)
      requires Valid() && used + |bytes| <= CAPACITY
      modifies this`used, rbuf
      ensures Valid() && Buffered() == old(Buffered()) + bytes
    {
      for i := 0 to |bytes|
        invariant used == old(used)
        invariant rbuf[..used + i] == old(rbuf[..used]) + bytes[..i]
      {
        rbuf[used + i] := bytes[i];
      }
      used := used + |bytes|;
      assert bytes[..|bytes|] == bytes;
    }

    /** Drop n bytes from the front; the memmove shifts the remainder down in place. */
    method Consume(n: nat)
      requires Valid() && n <= used
      modifies this`used, rbuf
      ensures Valid() && Buffered() == old(Buffered())[n..]
    {
      for i := 0 to used - n
        invariant used == old(used)
        invariant forall k :: 0 <= k < i ==> rbuf[k] == old(rbuf[n + k])
        invariant forall k :: i <= k < CAPACITY ==> rbuf[k] == old(rbuf[k])
      {
        rbuf[i] := rbuf[n + i];
      }
      used := used - n;
    }

    /** The parsing half of read_one: one packet out of the bytes held, or the reason why not. */
    method TakePacket(payload: array<byte>) returns (rc: int, version: byte, plen: nat)
      requires Valid() && payload != rbuf
      modifies this`used, rbuf, payload
      ensures Valid()
      ensures var (o, rest) := TakeOne(old(Buffered()), payload.Length);
              && rc == ReturnCode(o)
              && Buffered() == rest
              && (o.Got? ==> Delivers(payload, version, plen, o.packet))
    {
      ghost var held := Buffered();
      if used < HEADER { return RC_AGAIN, 0, 0; }
      assert held[..4] == rbuf[..4];
      if rbuf[..4] != MAGIC { return RC_ERROR, 0, 0; }
      version := rbuf[4];
      var kind := rbuf[5];
      var n := FromLe16(rbuf[6], rbuf[7]);
      assert n == FromLe16(held[6], held[7]);
      if n > payload.Length || n > CAPACITY - HEADER { return RC_ERROR, version, 0; }
      if used < HEADER + n { return RC_AGAIN, version, 0; }
      plen := n;
      CopyPayload(payload, n);
      Consume(HEADER + n);
      rc := kind;
    }

    ghost predicate Delivers(payload: array<byte>, version: byte, plen: nat, p: Packet)
      reads payload
    {
      version == p.version && plen == |p.payload| <= payload.Length && payload[..plen] == p.payload
    }

    method CopyPayload(payload: array<byte>, n: nat)
      requires Valid() && payload != rbuf && HEADER + n <= used && n <= payload.Length
      modifies payload
      ensures payload[..n] == Buffered()[HEADER..HEADER + n]
    {
      for i := 0 to n
        invariant payload[..i] == rbuf[HEADER..HEADER + i]
      {
        payload[i] := rbuf[HEADER + i];
      }
    }

    /** qdwin_nested_input_sink_read_one. got is what recv returned when it was called. */
    method ReadOne(got: Recv, payload: array<byte>) returns (rc: int, version: byte, plen: nat)
      requires Valid() && payload != rbuf
      requires got.Data? && used < CAPACITY ==> 0 < |got.bytes| <= CAPACITY - used
      modifies this`used, rbuf, payload
      ensures Valid()
      ensures old(peerFd) < 0 ==> rc == RC_ERROR && Buffered() == old(Buffered())
      ensures old(peerFd) >= 0 ==>
                var (o, rest) := ReadStep(old(Buffered()), got, payload.Length);
                && rc == ReturnCode(o)
                && Buffered() == rest
                && (o.Got? ==> Delivers(payload, version, plen, o.packet))
    {
      if peerFd < 0 { return RC_ERROR, 0, 0; }
      if used < CAPACITY {
        match got
        case Data(bytes) => Append(bytes);
        case Eof => if used == 0 { return RC_ERROR, 0, 0; }
        case Failed => return RC_ERROR, 0, 0;
        case WouldBlock =>
      }
      rc, version, plen := TakePacket(payload);
    }

    /** The reasons to give up: recv failed, the peer closed with nothing left, or a bad header. */
    ghost predicate Broken(peer: Peer)
      reads this, rbuf, peer
      requires Valid()
    {
      peer.faulted || (peer.closed && peer.wire == [] && Buffered() == []) || Decode(Buffered(), MAX_PAYLOAD) == Error
    }

    /** One turn of the drain loop: let recv deliver what it will, then read one packet. */
    method Pull(peer: Peer, payload: array<byte>) returns (kind: int, p: Packet)
      requires Valid() && peerFd >= 0 && payload != rbuf && payload.Length == MAX_PAYLOAD
      modifies this`used, rbuf, payload, peer`wire, peer`faulted
      ensures Valid()
      ensures kind >= 0 ==> Fits(p, MAX_PAYLOAD)
      ensures kind >= 0 ==> old(Buffered() + peer.wire) == Encode(p) + (Buffered() + peer.wire)
      ensures kind < 0 ==> old(Buffered() + peer.wire) == Buffered() + peer.wire
      ensures kind == RC_ERROR || kind == RC_AGAIN || kind >= 0
      ensures kind == RC_AGAIN ==> Decode(Buffered(), MAX_PAYLOAD) == Again
      ensures kind == RC_ERROR ==> Broken(peer)
    {
      ghost var held, unread := Buffered(), peer.wire;
      var got := WouldBlock;
      if used < CAPACITY { got := peer.Recv(CAPACITY - used); }
      ReadStepConserves(held, got, MAX_PAYLOAD, unread, peer.closed, peer.wire);
      var version, plen;
      kind, version, plen := ReadOne(got, payload);
      p := if kind >= 0 then Packet(version, kind, payload[..plen]) else Packet(0, 0, []);
    }

    /**
     The drain loop of the readable callback (qdwin/qdwin.c): read packets until
     the parser wants more bytes or reports an error. Packets go to the caller.
     */
    method Drain(eventFd: int, peer: Peer) returns (packets: seq<Packet>, rc: int)
      requires Valid() && peer.fd == peerFd
      modifies this`used, rbuf, peer`wire, peer`faulted
      ensures Valid()
      ensures AllFit(packets, MAX_PAYLOAD)
      ensures old(Buffered() + peer.wire) == EncodeAll(packets) + (Buffered() + peer.wire)
      ensures !EventCurrent(eventFd, peerFd) ==> packets == [] && peer.wire == old(peer.wire)
      ensures EventCurrent(eventFd, peerFd) ==> rc == RC_AGAIN || rc == RC_ERROR
      ensures EventCurrent(eventFd, peerFd) && rc == RC_AGAIN ==> Decode(Buffered(), MAX_PAYLOAD) == Again
      ensures EventCurrent(eventFd, peerFd) && rc == RC_ERROR ==> Broken(peer)
    {
      packets := [];
      if !EventCurrent(eventFd, peerFd) { return [], 0; }
      var payload := new byte[MAX_PAYLOAD];
      while true
        invariant Valid() && fresh(payload)
        invariant AllFit(packets, MAX_PAYLOAD)
        invariant old(Buffered() + peer.wire) == EncodeAll(packets) + (Buffered() + peer.wire)
        decreases |Buffered() + peer.wire|
      {
        var kind, p := Pull(peer, payload);
        if kind < 0 { return packets, kind; }
        EncodeAllAppend(packets, p, Buffered() + peer.wire);
        packets := packets + [p];
      }
    }
  }
}
