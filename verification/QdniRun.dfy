/**
 Whole runs of the QDNI transport: several peers connect, write, close and are
 replaced, while the receiver reads in chunks of any size. Every statement here
 is about every sequence of events, so about every fragmentation.
 */
module QdniRun {
  import opened Bytes
  import opened QdniPacket
  import opened QdniSink

  /**
   One peer connection: every byte it ever wrote, the suffix not yet received,
   whether the peer has closed its end, and whether accept has handed it out.
   */
  datatype Conn = Conn(sent: seq<byte>, wire: seq<byte>, closed: bool, accepted: bool)

  /** got records the packets handed to the compositor, per connection they arrived on. */
  datatype World = World(conns: map<nat, Conn>, current: Option<nat>, buf: seq<byte>, got: map<nat, seq<Packet>>)

  datatype Event =
    | Connect(id: nat)
    | Write(id: nat, bytes: seq<byte>)
    | Close(id: nat)
    | Accept(id: nat)
    | Read(id: nat, want: nat, broken: bool)
    | Hangup(id: nat)

  const EMPTY := World(map[], None, [], map[])

  function RecvOf(c: Conn, want: nat, max: nat, broken: bool): Recv {
    RecvFrom(c.wire, c.closed, want, max, broken)
  }

  function WireAfter(c: Conn, r: Recv): seq<byte> {
    Unread(c.wire, r)
  }

  /** A read on one connection: the outcome, the buffer and the connection afterwards. */
  function ReadConn(buf: seq<byte>, c: Conn, want: nat, broken: bool): (Outcome, seq<byte>, Conn) {
    if |buf| < CAPACITY then
      var r := RecvOf(c, want, CAPACITY - |buf|, broken);
      var (o, rest) := ReadStep(buf, r, MAX_PAYLOAD);
      (o, rest, c.(wire := WireAfter(c, r)))
    else
      var (o, rest) := ReadStep(buf, WouldBlock, MAX_PAYLOAD);
      (o, rest, c)
  }

  function Step(w: World, e: Event): World {
    match e
    case Connect(id) =>
      if id in w.conns then w
      else w.(conns := w.conns[id := Conn([], [], false, false)], got := w.got[id := []])
    case Write(id, bytes) =>
      if id !in w.conns || w.conns[id].closed then w
      else var c := w.conns[id]; w.(conns := w.conns[id := c.(sent := c.sent + bytes, wire := c.wire + bytes)])
    case Close(id) =>
      if id !in w.conns then w else w.(conns := w.conns[id := w.conns[id].(closed := true)])
    case Accept(id) =>
      // accept4 hands out each pending connection once; the previous peer is dropped
      if id !in w.conns || w.conns[id].accepted then w
      else w.(conns := w.conns[id := w.conns[id].(accepted := true)], current := Some(id), buf := [])
    case Read(id, want, broken) =>
      // an event for a connection that is no longer the peer is ignored
      if w.current != Some(id) || id !in w.conns then w
      else
        var (o, rest, c) := ReadConn(w.buf, w.conns[id], want, broken);
        var w' := w.(conns := w.conns[id := c], buf := rest);
        if o.Got? then w'.(got := w.got[id := Delivered(w, id) + [o.packet]]) else w'
    case Hangup(id) =>
      if w.current != Some(id) then w else w.(current := None)
  }

  function Delivered(w: World, id: nat): seq<Packet> {
    if id in w.got then w.got[id] else []
  }

  function Run(w: World, es: seq<Event>): World
    decreases |es|
  {
    if es == [] then w else Run(Step(w, es[0]), es[1..])
  }

  /** Delivered, buffered and unread bytes add up to what the peer wrote, in order. */
  ghost predicate ConnInv(w: World, id: nat)
    requires id in w.conns
  {
    var c := w.conns[id];
    && AllFit(Delivered(w, id), MAX_PAYLOAD)
    && (!c.accepted ==> Delivered(w, id) == [] && c.wire == c.sent)
    && (if w.current == Some(id) then c.sent == EncodeAll(Delivered(w, id)) + (w.buf + c.wire)
        else EncodeAll(Delivered(w, id)) <= c.sent)
  }

  ghost predicate Inv(w: World) {
    && (w.current.Some? ==> w.current.value in w.conns && w.conns[w.current.value].accepted)
    && (forall id :: id in w.conns ==> ConnInv(w, id))
    && (forall id :: id in w.got ==> id in w.conns)
    && |w.buf| <= CAPACITY
  }

  lemma ReadConnConserves(buf: seq<byte>, c: Conn, want: nat, broken: bool)
    requires |buf| <= CAPACITY
    ensures var (o, rest, c') := ReadConn(buf, c, want, broken);
            && c' == c.(wire := c'.wire)
            && |rest| <= CAPACITY
            && (o.Got? ==> Fits(o.packet, MAX_PAYLOAD) && buf + c.wire == Encode(o.packet) + (rest + c'.wire))
            && (!o.Got? ==> buf + c.wire == rest + c'.wire)
  {
    var (_, _, c') := ReadConn(buf, c, want, broken);
    var r := if |buf| < CAPACITY then RecvOf(c, want, CAPACITY - |buf|, broken) else WouldBlock;
    ReadStepConserves(buf, r, MAX_PAYLOAD, c.wire, c.closed, c'.wire);
  }

  /** The connection read from. */
  lemma ReadKeepsConn(w: World, id: nat, want: nat, broken: bool)
    requires Inv(w) && w.current == Some(id)
    ensures var w' := Step(w, Read(id, want, broken));
            id in w'.conns && w'.conns[id].accepted && ConnInv(w', id) && |w'.buf| <= CAPACITY
  {
    assert ConnInv(w, id);
    var c := w.conns[id];
    var (o, rest, c') := ReadConn(w.buf, c, want, broken);
    ReadConnConserves(w.buf, c, want, broken);
    if o.Got? {
      EncodeAllAppend(Delivered(w, id), o.packet, rest + c'.wire);
    }
  }

  lemma ReadKeepsInv(w: World, id: nat, want: nat, broken: bool)
    requires Inv(w)
    ensures Inv(Step(w, Read(id, want, broken)))
  {
    if w.current == Some(id) {
      ReadKeepsConn(w, id, want, broken);
      var w' := Step(w, Read(id, want, broken));
      forall other | other in w'.conns && other != id ensures ConnInv(w', other) {
        assert ConnInv(w, other);
      }
    }
  }

  lemma WriteKeepsInv(w: World, id: nat, bytes: seq<byte>)
    requires Inv(w)
    ensures Inv(Step(w, Write(id, bytes)))
  {
    var w' := Step(w, Write(id, bytes));
    if w' != w {
      var c, gs := w.conns[id], Delivered(w, id);
      assert ConnInv(w, id);
      assert w'.conns[id].sent == c.sent + bytes && w'.conns[id].wire == c.wire + bytes && Delivered(w', id) == gs;
      if w.current == Some(id) {
        assert EncodeAll(gs) + (w.buf + (c.wire + bytes)) == (EncodeAll(gs) + (w.buf + c.wire)) + bytes;
      }
      assert ConnInv(w', id);
      forall k | k in w'.conns && k != id ensures ConnInv(w', k) {
        assert ConnInv(w, k);
      }
    }
  }

  lemma AcceptKeepsInv(w: World, id: nat)
    requires Inv(w)
    ensures Inv(Step(w, Accept(id)))
  {
  }

  lemma ConnectKeepsInv(w: World, id: nat)
    requires Inv(w)
    ensures Inv(Step(w, Connect(id)))
  {
    var w' := Step(w, Connect(id));
    forall k | k in w'.conns ensures ConnInv(w', k) {
      if k in w.conns { assert ConnInv(w, k); }
    }
  }

  lemma CloseKeepsInv(w: World, id: nat)
    requires Inv(w)
    ensures Inv(Step(w, Close(id)))
  {
    var w' := Step(w, Close(id));
    forall k | k in w'.conns ensures ConnInv(w', k) {
      assert ConnInv(w, k);
    }
  }

  lemma HangupKeepsInv(w: World, id: nat)
    requires Inv(w)
    ensures Inv(Step(w, Hangup(id)))
  {
  }

  lemma StepKeepsInv(w: World, e: Event)
    requires Inv(w)
    ensures Inv(Step(w, e))
  {
    match e
    case Connect(id) => ConnectKeepsInv(w, id);
    case Write(id, bytes) => WriteKeepsInv(w, id, bytes);
    case Close(id) => CloseKeepsInv(w, id);
    case Accept(id) => AcceptKeepsInv(w, id);
    case Read(id, want, broken) => ReadKeepsInv(w, id, want, broken);
    case Hangup(id) => HangupKeepsInv(w, id);
  }

  /** Conservation over every run: at all times, on every connection. */
  lemma {:induction false} RunKeepsInv(w: World, es: seq<Event>)
    requires Inv(w)
    ensures Inv(Run(w, es))
    decreases |es|
  {
    if es != [] {
      StepKeepsInv(w, es[0]);
      RunKeepsInv(Step(w, es[0]), es[1..]);
    }
  }

  /**
   In every run, whatever the chunking and however often peers are replaced, the
   packets delivered on a connection are the first packets that its peer wrote:
   none lost, reordered, altered, or assembled from another peer's bytes. What
   the peer wrote behind them may be anything that does not start with a packet.
   */
  lemma DeliveredIsPrefixOfSent(es: seq<Event>, id: nat, ps: seq<Packet>, t: seq<byte>)
    requires AllFit(ps, MAX_PAYLOAD) && !Decode(t, MAX_PAYLOAD).Got?
    requires id in Run(EMPTY, es).conns && Run(EMPTY, es).conns[id].sent == EncodeAll(ps) + t
    ensures Delivered(Run(EMPTY, es), id) <= ps
  {
    RunKeepsInv(EMPTY, es);
    var w := Run(EMPTY, es);
    assert ConnInv(w, id);
    EncodeAllPrefix(Delivered(w, id), ps, t);
  }

  /** The calls on which read_one fails before it looks at the buffer. */
  predicate ReadFails(buf: seq<byte>, c: Conn, broken: bool) {
    (|buf| < CAPACITY && broken) || (buf == [] && c.wire == [] && c.closed)
  }

  /** The bytes in the buffer when a read starts to parse. */
  function Seen(buf: seq<byte>, c: Conn, want: nat): seq<byte> {
    if |buf| < CAPACITY then
      var r := RecvOf(c, want, CAPACITY - |buf|, false);
      if r.Data? then buf + r.bytes else buf
    else buf
  }

  lemma ReadParsesSeen(buf: seq<byte>, c: Conn, want: nat, broken: bool)
    requires |buf| <= CAPACITY
    ensures var (o, buf', c') := ReadConn(buf, c, want, broken);
            && (ReadFails(buf, c, broken) ==> o == Error)
            && (!ReadFails(buf, c, broken) ==>
                  && o == Decode(Seen(buf, c, want), MAX_PAYLOAD)
                  && (!o.Got? ==> buf' == Seen(buf, c, want))
                  && Seen(buf, c, want) + c'.wire == buf + c.wire)
  {
    if |buf| < CAPACITY && !ReadFails(buf, c, broken) {
      RoomParsesSeen(buf, c, want);
    }
  }

  lemma RoomParsesSeen(buf: seq<byte>, c: Conn, want: nat)
    requires |buf| < CAPACITY && !ReadFails(buf, c, false)
    ensures var r := RecvOf(c, want, CAPACITY - |buf|, false);
            && ReadStep(buf, r, MAX_PAYLOAD) == TakeOne(Seen(buf, c, want), MAX_PAYLOAD)
            && Seen(buf, c, want) + WireAfter(c, r) == buf + c.wire
  {
    var r := RecvOf(c, want, CAPACITY - |buf|, false);
    if r.Data? {
      assert c.wire == r.bytes + WireAfter(c, r);
    }
  }

  /**
   One read on a stream of packets. What is still to come is `rest`, then
   possibly the start `t` of a packet not yet fully written.
   */
  lemma ReadOutcome(buf: seq<byte>, c: Conn, want: nat, broken: bool, rest: seq<Packet>, t: seq<byte>)
    requires |buf| <= CAPACITY && AllFit(rest, MAX_PAYLOAD) && Partial(t)
    requires buf + c.wire == EncodeAll(rest) + t
    ensures var (o, buf', c') := ReadConn(buf, c, want, broken);
            // an error is a failed recv, or end of file with nothing buffered; never a parse error
            && (o.Error? <==> ReadFails(buf, c, broken))
            // a packet is the next one
            && (o.Got? ==> rest != [] && o.packet == rest[0] && buf' + c'.wire == EncodeAll(rest[1..]) + t)
            // "again" is exactly: a proper prefix of the next packet is buffered
            && (!o.Error? ==> (o.Again? <==> if rest == [] then Seen(buf, c, want) <= t
                                             else Seen(buf, c, want) < Encode(rest[0])))
            && (o.Again? ==> buf' == Seen(buf, c, want))
            && (!o.Got? ==> buf' + c'.wire == EncodeAll(rest) + t)
            // a full buffer cannot stall
            && (|buf| == CAPACITY ==> o.Got?)
  {
    var (o, buf', c') := ReadConn(buf, c, want, broken);
    ReadParsesSeen(buf, c, want, broken);
    ReadConnConserves(buf, c, want, broken);
    if !ReadFails(buf, c, broken) {
      SeenOutcome(Seen(buf, c, want), c'.wire, rest, t);
      if o.Got? {
        GotIsNext(o.packet, buf' + c'.wire, rest, t);
      }
    }
  }

  lemma GotIsNext(p: Packet, tail: seq<byte>, rest: seq<Packet>, t: seq<byte>)
    requires Fits(p, MAX_PAYLOAD) && AllFit(rest, MAX_PAYLOAD) && Partial(t)
    requires Encode(p) + tail == EncodeAll(rest) + t
    ensures rest != [] && p == rest[0] && tail == EncodeAll(rest[1..]) + t
  {
    FirstPacket(p, tail);
    if rest == [] {
      DecodePartial(t, t, MAX_PAYLOAD);
      assert false;
    } else {
      EncodeAllHead(rest, t);
      FirstPacket(rest[0], EncodeAll(rest[1..]) + t);
      assert (Encode(p) + tail)[|Encode(p)|..] == tail;
    }
  }

  /** How the parser judges any prefix of a well-formed stream. */
  lemma SeenOutcome(seen: seq<byte>, tail: seq<byte>, rest: seq<Packet>, t: seq<byte>)
    requires AllFit(rest, MAX_PAYLOAD) && Partial(t)
    requires seen + tail == EncodeAll(rest) + t
    ensures var o := Decode(seen, MAX_PAYLOAD);
            && !o.Error?
            && (o.Again? <==> if rest == [] then seen <= t else seen < Encode(rest[0]))
            && (|seen| >= CAPACITY ==> o.Got?)
  {
    var all := EncodeAll(rest) + t;
    assert seen == all[..|seen|];
    if rest == [] {
      DecodePartial(t, seen, MAX_PAYLOAD);
      if t != [] {
        var p :| Fits(p, MAX_PAYLOAD) && t < Encode(p);
      }
    } else {
      EncodeAllHead(rest, t);
      var e := Encode(rest[0]);
      if |seen| < |e| {
        assert seen == e[..|seen|];
        DecodeStrictPrefix(rest[0], seen, MAX_PAYLOAD);
      } else {
        assert seen == e + seen[|e|..];
        FirstPacket(rest[0], seen[|e|..]);
      }
    }
  }

  /** Reading a connection again and again, with no socket error, giving the packets in order. */
  function ReadAll(buf: seq<byte>, c: Conn, wants: seq<nat>): (r: (seq<Packet>, seq<byte>, Conn))
    decreases |wants|
  {
    if wants == [] then ([], buf, c)
    else
      var (o, buf', c') := ReadConn(buf, c, wants[0], false);
      var (gs, buf'', c'') := ReadAll(buf', c', wants[1..]);
      (if o.Got? then [o.packet] + gs else gs, buf'', c'')
  }

  /** A read that gets at least one byte when there is one delivers the next packet or takes bytes in. */
  lemma ReadProgress(buf: seq<byte>, c: Conn, want: nat, rest: seq<Packet>, t: seq<byte>)
    requires |buf| <= CAPACITY && AllFit(rest, MAX_PAYLOAD) && Partial(t)
    requires buf + c.wire == EncodeAll(rest) + t && want > 0
    ensures var (o, buf', c') := ReadConn(buf, c, want, false);
            && |buf'| <= CAPACITY && c' == c.(wire := c'.wire) && |c'.wire| <= |c.wire|
            && (o.Got? ==> rest != [] && o.packet == rest[0] && buf' + c'.wire == EncodeAll(rest[1..]) + t)
            && (!o.Got? ==> buf' + c'.wire == EncodeAll(rest) + t)
            && (!o.Got? && c.wire != [] ==> |c'.wire| < |c.wire|)
            && (!o.Got? && c.wire == [] ==> rest == [])
  {
    ReadOutcome(buf, c, want, false, rest, t);
    ReadConnConserves(buf, c, want, false);
    if c.wire == [] && rest != [] && !ReadConn(buf, c, want, false).0.Got? {
      EncodeAllHead(rest, t);
      assert false;
    }
  }

  /**
   No stall: if recv makes any progress at all on each call, then after as many
   reads as there are bytes and packets outstanding, every complete packet has
   been delivered, in order, and only the unfinished tail is buffered.
   */
  lemma {:induction false} ReadsDeliverEverything(buf: seq<byte>, c: Conn, wants: seq<nat>, rest: seq<Packet>, t: seq<byte>)
    requires |buf| <= CAPACITY && AllFit(rest, MAX_PAYLOAD) && Partial(t)
    requires buf + c.wire == EncodeAll(rest) + t
    requires forall i :: 0 <= i < |wants| ==> wants[i] > 0
    requires |wants| >= |c.wire| + |rest|
    ensures ReadAll(buf, c, wants) == (rest, t, c.(wire := []))
    decreases |wants|
  {
    if wants == [] {
      assert buf == buf + c.wire && EncodeAll(rest) + t == t;
    } else {
      ReadProgress(buf, c, wants[0], rest, t);
      var (o, buf', c') := ReadConn(buf, c, wants[0], false);
      var rest' := if o.Got? then rest[1..] else rest;
      ReadsDeliverEverything(buf', c', wants[1..], rest', t);
      assert o.Got? ==> [o.packet] + rest' == rest;
    }
  }

  /**
   End of file. Once the peer has closed, and everything it sent has been read,
   read_one reports the closure if and only if the peer stopped on a packet
   boundary. A stream cut inside a packet yields "again" on every later call.
   */
  lemma EofReportedIffOnBoundary(buf: seq<byte>, c: Conn, wants: seq<nat>, rest: seq<Packet>, t: seq<byte>, want: nat)
    requires |buf| <= CAPACITY && AllFit(rest, MAX_PAYLOAD) && Partial(t)
    requires buf + c.wire == EncodeAll(rest) + t && c.closed
    requires forall i :: 0 <= i < |wants| ==> wants[i] > 0
    requires |wants| >= |c.wire| + |rest|
    ensures var (gs, buf', c') := ReadAll(buf, c, wants);
            && gs == rest
            && ReadConn(buf', c', want, false).0 == (if t == [] then Error else Again)
  {
    ReadsDeliverEverything(buf, c, wants, rest, t);
    assert [] + t == t;
    assert EncodeAll([]) + t == t;
    assert t + [] == t;
    ReadOutcome(t, c.(wire := []), want, false, [], t);
  }

  /** A bad header is final for its connection: no later run delivers another packet on it. */
  lemma {:induction false} NothingAfterBadHeader(w: World, es: seq<Event>, id: nat)
    requires id in w.conns && w.conns[id].accepted
    requires w.current == Some(id) ==> Decode(w.buf, MAX_PAYLOAD) == Error
    ensures Delivered(Run(w, es), id) == Delivered(w, id)
    decreases |es|
  {
    if es != [] {
      var w' := Step(w, es[0]);
      if es[0].Read? && w.current == Some(id) == Some(es[0].id) {
        var c := w.conns[id];
        if |w.buf| < CAPACITY {
          BadHeaderStays(w.buf, RecvOf(c, es[0].want, CAPACITY - |w.buf|, es[0].broken));
        } else {
          BadHeaderStays(w.buf, WouldBlock);
        }
      }
      NothingAfterBadHeader(w', es[1..], id);
    }
  }

  lemma BadHeaderStays(buf: seq<byte>, r: Recv)
    requires Decode(buf, MAX_PAYLOAD) == Error
    ensures var (o, buf') := ReadStep(buf, r, MAX_PAYLOAD);
            o == Error && Decode(buf', MAX_PAYLOAD) == Error
  {
  }

  // ---- runs that deliver

  function Reads(id: nat, wants: seq<nat>): seq<Event> {
    if wants == [] then [] else [Read(id, wants[0], false)] + Reads(id, wants[1..])
  }

  lemma {:induction false} RunConcat(w: World, a: seq<Event>, b: seq<Event>)
    ensures Run(w, a + b) == Run(Run(w, a), b)
    decreases |a|
  {
    if a == [] {
      assert a + b == b;
    } else {
      assert (a + b)[1..] == a[1..] + b;
      RunConcat(Step(w, a[0]), a[1..], b);
    }
  }

  function Extracted(o: Outcome): seq<Packet> {
    if o.Got? then [o.packet] else []
  }

  /** What came from the current peer so far, the buffer and the connection. */
  function Reader(w: World, id: nat): Option<(seq<Packet>, seq<byte>, Conn)> {
    if w.current == Some(id) && id in w.conns then Some((Delivered(w, id), w.buf, w.conns[id])) else None
  }

  lemma ReadStepReader(w: World, id: nat, want: nat, gs: seq<Packet>, buf: seq<byte>, c: Conn)
    requires Reader(w, id) == Some((gs, buf, c))
    ensures var (o, buf', c') := ReadConn(buf, c, want, false);
            Reader(Step(w, Read(id, want, false)), id) == Some((gs + Extracted(o), buf', c'))
  {
    assert gs + [] == gs;
  }

  lemma RunHead(w: World, e: Event, es: seq<Event>)
    ensures Run(w, [e] + es) == Run(Step(w, e), es)
  {
    assert ([e] + es)[1..] == es;
  }

  function AfterReads(w: World, id: nat, wants: seq<nat>): World
    decreases |wants|
  {
    if wants == [] then w else AfterReads(Step(w, Read(id, wants[0], false)), id, wants[1..])
  }

  lemma {:induction false} AfterReadsIsRun(w: World, id: nat, wants: seq<nat>)
    ensures Run(w, Reads(id, wants)) == AfterReads(w, id, wants)
    decreases |wants|
  {
    if wants != [] {
      var e := Read(id, wants[0], false);
      RunHead(w, e, Reads(id, wants[1..]));
      AfterReadsIsRun(Step(w, e), id, wants[1..]);
    }
  }

  lemma ReadAllHead(buf: seq<byte>, c: Conn, wants: seq<nat>, o: Outcome, buf': seq<byte>, c': Conn)
    requires wants != [] && (o, buf', c') == ReadConn(buf, c, wants[0], false)
    ensures var (more, last, c'') := ReadAll(buf', c', wants[1..]);
            ReadAll(buf, c, wants) == (Extracted(o) + more, last, c'')
  {
    var more := ReadAll(buf', c', wants[1..]).0;
    assert [] + more == more;
  }

  lemma Assoc(a: seq<Packet>, b: seq<Packet>, c: seq<Packet>)
    ensures a + b + c == a + (b + c)
  {
  }

  /** Reads of the current peer, as events. */
  lemma {:induction false} ReadsRun(w: World, id: nat, wants: seq<nat>, gs: seq<Packet>, buf: seq<byte>, c: Conn)
    requires Reader(w, id) == Some((gs, buf, c))
    ensures var (more, buf', c') := ReadAll(buf, c, wants);
            Reader(AfterReads(w, id, wants), id) == Some((gs + more, buf', c'))
    decreases |wants|
  {
    if wants == [] {
      assert gs + [] == gs;
    } else {
      var (o, buf', c') := ReadConn(buf, c, wants[0], false);
      ReadStepReader(w, id, wants[0], gs, buf, c);
      ReadsRun(Step(w, Read(id, wants[0], false)), id, wants[1..], gs + Extracted(o), buf', c');
      ReadAllHead(buf, c, wants, o, buf', c');
      Assoc(gs, Extracted(o), ReadAll(buf', c', wants[1..]).0);
    }
  }

  /** For any packets, whatever follows them, some run delivers exactly these. */
  lemma SomeRunDelivers(ps: seq<Packet>, tail: seq<byte>) returns (es: seq<Event>)
    requires AllFit(ps, MAX_PAYLOAD)
    ensures var w := Run(EMPTY, es);
            0 in w.conns && w.conns[0].sent == EncodeAll(ps) + tail && Delivered(w, 0) == ps
  {
    var bytes := EncodeAll(ps);
    var start := [Connect(0), Write(0, bytes), Accept(0)];
    var w := Started(bytes, start);
    var wants := seq(|bytes| + |ps|, i => 1);
    assert [] + bytes == EncodeAll(ps) + [];
    ReadsDeliverEverything([], w.conns[0], wants, ps, []);
    ReadsRun(w, 0, wants, [], [], w.conns[0]);
    AfterReadsIsRun(w, 0, wants);
    RunConcat(EMPTY, start, Reads(0, wants));
    RunConcat(EMPTY, start + Reads(0, wants), [Write(0, tail)]);
    es := start + Reads(0, wants) + [Write(0, tail)];
  }

  lemma Started(bytes: seq<byte>, start: seq<Event>) returns (w: World)
    requires start == [Connect(0), Write(0, bytes), Accept(0)]
    ensures w == Run(EMPTY, start) && w.current == Some(0) && w.buf == [] && Delivered(w, 0) == []
    ensures 0 in w.conns && w.conns[0] == Conn(bytes, bytes, false, true)
  {
    w := Run(EMPTY, start);
    var more, last := start[1..], [start[2]];
    assert more[1..] == last && last[1..] == [];
    var w1 := Step(EMPTY, start[0]);
    var w2 := Step(w1, more[0]);
    assert w == Run(w1, more) == Run(w2, last) == Run(Step(w2, last[0]), []);
    assert [] + bytes == bytes;
  }

  // ---- peers replace one another

  /** Whoever is current, a pending connection becomes the peer, and starts with an empty buffer. */
  lemma AcceptReplaces(w: World, id: nat)
    requires id in w.conns && !w.conns[id].accepted
    ensures var w' := Run(w, [Accept(id)]);
            && w'.current == Some(id) && w'.buf == [] && id in w'.conns && w'.conns[id].accepted
            && forall k :: Delivered(w', k) == Delivered(w, k)
  {
    RunHead(w, Accept(id), []);
  }

  /** Enough reads that make progress then deliver exactly what the new peer wrote. */
  lemma {:induction false} AcceptedIsRead(w: World, id: nat, wants: seq<nat>, ps: seq<Packet>, t: seq<byte>)
    requires Inv(w) && id in w.conns && !w.conns[id].accepted
    requires AllFit(ps, MAX_PAYLOAD) && Partial(t) && w.conns[id].sent == EncodeAll(ps) + t
    requires (forall i :: 0 <= i < |wants| ==> wants[i] > 0) && |wants| >= |w.conns[id].sent| + |ps|
    ensures Delivered(Run(w, [Accept(id)] + Reads(id, wants)), id) == ps
  {
    assert ConnInv(w, id);
    var w', c := Step(w, Accept(id)), w.conns[id].(accepted := true);
    RunHead(w, Accept(id), Reads(id, wants));
    assert [] + c.wire == c.wire;
    ReadsDeliverEverything([], c, wants, ps, t);
    ReadsRun(w', id, wants, [], [], c);
    AfterReadsIsRun(w', id, wants);
    assert [] + ps == ps;
  }

  /** Some run delivers everything the new peer wrote, whoever was the peer before. */
  lemma SomeRunReadsAccepted(w: World, id: nat, ps: seq<Packet>, t: seq<byte>) returns (es: seq<Event>)
    requires Inv(w) && id in w.conns && !w.conns[id].accepted
    requires AllFit(ps, MAX_PAYLOAD) && Partial(t) && w.conns[id].sent == EncodeAll(ps) + t
    ensures Delivered(Run(w, [Accept(id)] + es), id) == ps
  {
    var wants := seq(|w.conns[id].sent| + |ps|, i => 1);
    AcceptedIsRead(w, id, wants, ps, t);
    es := Reads(id, wants);
  }

  /** A connection that was the peer and is not any more never delivers again. */
  lemma FormerPeerIsSilent(w: World, es: seq<Event>, id: nat)
    requires id in w.conns && w.conns[id].accepted && w.current != Some(id)
    ensures Delivered(Run(w, es), id) == Delivered(w, id)
  {
    NothingAfterBadHeader(w, es, id);
  }

  lemma ReplacedIsSilent(w: World, id: nat, former: nat, es: seq<Event>)
    requires Inv(w) && id in w.conns && !w.conns[id].accepted && w.current == Some(former)
    ensures Delivered(Run(w, [Accept(id)] + es), former) == Delivered(w, former)
  {
    AcceptReplaces(w, id);
    RunHead(w, Accept(id), []);
    RunHead(w, Accept(id), es);
    FormerPeerIsSilent(Step(w, Accept(id)), es, former);
  }

  /** The hangup of the peer ends it too; that of any other connection changes nothing. */
  lemma HungUpIsSilent(w: World, id: nat, es: seq<Event>)
    requires Inv(w) && w.current.Some?
    ensures w.current == Some(id) ==> Delivered(Run(w, [Hangup(id)] + es), id) == Delivered(w, id)
    ensures w.current != Some(id) ==> Run(w, [Hangup(id)] + es) == Run(w, es)
  {
    RunHead(w, Hangup(id), es);
    if w.current == Some(id) {
      FormerPeerIsSilent(Step(w, Hangup(id)), es, id);
    }
  }

  /** A peer that has closed its end writes nothing more. */
  lemma {:induction false} ClosedStaysClosed(w: World, es: seq<Event>, id: nat)
    requires id in w.conns && w.conns[id].closed
    ensures var w' := Run(w, es);
            id in w'.conns && w'.conns[id].closed && w'.conns[id].sent == w.conns[id].sent
    decreases |es|
  {
    if es != [] {
      ClosedStep(w, es[0], id);
      ClosedStaysClosed(Step(w, es[0]), es[1..], id);
    }
  }

  lemma ClosedStep(w: World, e: Event, id: nat)
    requires id in w.conns && w.conns[id].closed
    ensures var w' := Step(w, e);
            id in w'.conns && w'.conns[id].closed && w'.conns[id].sent == w.conns[id].sent
  {
  }

  lemma CloseEndsWriting(w: World, id: nat, es: seq<Event>)
    requires id in w.conns
    ensures var w' := Run(w, [Close(id)] + es);
            id in w'.conns && w'.conns[id].closed && w'.conns[id].sent == w.conns[id].sent
  {
    RunHead(w, Close(id), es);
    ClosedStaysClosed(Step(w, Close(id)), es, id);
  }
}
