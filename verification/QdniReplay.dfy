/**
 Runs carried out on the receiver's own objects: a sink, and peers as the kernel
 sees them. Source: qdwin/qdwin-nested-client.c and qdwin/qdwin.c.
 */
module QdniReplay {
  import opened Bytes
  import opened QdniPacket
  import opened QdniSink
  import opened QdniRun

  /** Each connection is a peer of its own, in the state the run has it in. */
  ghost predicate Shows(peers: map<nat, Peer>, accepted: set<nat>, conns: map<nat, Conn>)
    reads peers.Values
  {
    && conns.Keys == peers.Keys
    && (forall i, j :: i in peers && j in peers && i != j ==> peers[i] != peers[j])
    && (forall i :: i in peers ==> ShowsPeer(i, peers[i], i in accepted, conns[i]))
  }

  ghost predicate ShowsPeer(id: nat, p: Peer, accepted: bool, c: Conn)
    reads p
  {
    p.fd == id && p.wire == c.wire && p.closed == c.closed && accepted == c.accepted
  }

  /** recv and then read_one. */
  method ReadFrom(sink: Sink, peer: Peer, payload: array<byte>, want: nat, broken: bool, ghost c: Conn) returns (o: Outcome)
    requires sink.Valid() && sink.peerFd >= 0 && payload.Length == MAX_PAYLOAD && payload != sink.rbuf
    requires peer.wire == c.wire && peer.closed == c.closed
    modifies sink`used, sink.rbuf, payload, peer`wire, peer`faulted
    ensures sink.Valid()
    ensures ReadConn(old(sink.Buffered()), c, want, broken) == (o, sink.Buffered(), c.(wire := peer.wire))
  {
    var r := WouldBlock;
    if sink.used < CAPACITY {
      r := peer.Give(CAPACITY - sink.used, want, broken);
    }
    var kind, version, plen := sink.ReadOne(r, payload);
    o := if kind == RC_AGAIN then Again else if kind < 0 then Error else Got(Packet(version, kind, payload[..plen]));
  }

  class Transport {
    const sink: Sink
    const payload: array<byte>
    var peers: map<nat, Peer>
    var accepted: set<nat>
    var got: map<nat, seq<Packet>>
    ghost var world: World

    ghost predicate Valid()
      reads this, sink, sink.rbuf, peers.Values
    {
      && sink.Valid() && payload.Length == MAX_PAYLOAD && payload != sink.rbuf
      && Shows(peers, accepted, world.conns)
      && world.got == got && world.buf == sink.Buffered()
      && (if sink.peerFd >= 0 then world.current == Some(sink.peerFd) && sink.peerFd in peers else world.current == None)
    }

    constructor ()
      ensures Valid() && world == EMPTY && peers == map[]
      ensures fresh(sink) && fresh(sink.rbuf) && fresh(payload)
    {
      sink := new Sink();
      payload := new byte[MAX_PAYLOAD];
      peers, accepted, got := map[], {}, map[];
      world := EMPTY;
    }

    method Connect(id: nat)
      requires Valid() && id !in peers
      modifies this
      ensures Valid() && world == Step(old(world), Event.Connect(id))
      ensures peers.Keys == old(peers).Keys + {id} && fresh(peers[id])
      ensures forall k :: k in old(peers) ==> peers[k] == old(peers)[k]
    {
      var p := new Peer(id);
      peers, accepted, got := peers[id := p], accepted - {id}, got[id := []];
      world := Step(world, Event.Connect(id));
    }

    method Write(id: nat, bytes: seq<byte>)
      requires Valid() && id in peers && !peers[id].closed
      modifies this`world, peers[id]
      ensures Valid() && world == Step(old(world), Event.Write(id, bytes))
    {
      peers[id].Put(bytes);
      world := Step(world, Event.Write(id, bytes));
    }

    method Close(id: nat)
      requires Valid() && id in peers
      modifies this`world, peers[id]
      ensures Valid() && world == Step(old(world), Event.Close(id))
    {
      peers[id].Shut();
      world := Step(world, Event.Close(id));
    }

    method Accept(id: nat)
      requires Valid() && id in peers && id !in accepted
      modifies this`world, this`accepted, sink
      ensures Valid() && world == Step(old(world), Event.Accept(id))
    {
      var rc := sink.Accept(0, peers[id].fd);
      accepted := accepted + {id};
      world := Step(world, Event.Accept(id));
    }

    method Hangup(id: nat)
      requires Valid() && sink.peerFd == id
      modifies this`world, sink`peerFd
      ensures Valid() && world == Step(old(world), Event.Hangup(id))
    {
      sink.Hangup();
      world := Step(world, Event.Hangup(id));
    }

    /** One call of read_one in the readable callback of the current peer. */
    method Read(id: nat, want: nat, broken: bool)
      requires Valid() && sink.peerFd == id
      modifies this`world, this`got, sink, sink.rbuf, payload, peers[id]
      ensures Valid() && world == Step(old(world), Event.Read(id, want, broken))
    {
      ghost var w, c := world, world.conns[id];
      var o := ReadFrom(sink, peers[id], payload, want, broken, c);
      ReadIs(w, id, want, broken, o, sink.Buffered(), c.(wire := peers[id].wire));
      Record(id, o, c.(wire := peers[id].wire));
    }

    /** What the read left behind is noted. */
    method Record(id: nat, o: Outcome, ghost c: Conn)
      requires sink.Valid() && payload.Length == MAX_PAYLOAD && payload != sink.rbuf
      requires sink.peerFd == id && id in peers && world.current == Some(id) && world.got == got
      requires Shows(peers, accepted, world.conns[id := c])
      modifies this`world, this`got
      ensures Valid() && world == AfterRead(old(world), id, o, sink.Buffered(), c)
    {
      if o.Got? {
        got := got[id := (if id in got then got[id] else []) + [o.packet]];
      }
      world := AfterRead(world, id, o, sink.Buffered(), c);
    }
  }

  function AfterRead(w: World, id: nat, o: Outcome, buf: seq<byte>, c: Conn): World {
    var w' := w.(conns := w.conns[id := c], buf := buf);
    if o.Got? then w'.(got := w.got[id := Delivered(w, id) + [o.packet]]) else w'
  }

  lemma ReadIs(w: World, id: nat, want: nat, broken: bool, o: Outcome, buf: seq<byte>, c: Conn)
    requires w.current == Some(id) && id in w.conns && ReadConn(w.buf, w.conns[id], want, broken) == (o, buf, c)
    ensures Step(w, Read(id, want, broken)) == AfterRead(w, id, o, buf, c)
  {
  }

  /** One event; events about connections that are not there, or no longer current, are passed over. */
  method Carry(t: Transport, e: Event)
    requires t.Valid()
    modifies t, t.sink, t.sink.rbuf, t.payload, t.peers.Values
    ensures t.Valid() && t.world == Step(old(t.world), e)
    ensures forall k :: k in t.peers ==> t.peers[k] in old(t.peers.Values) || fresh(t.peers[k])
  {
    match e {
      case Connect(id) => if id !in t.peers { t.Connect(id); }
      case Write(id, bytes) => if id in t.peers && !t.peers[id].closed { t.Write(id, bytes); }
      case Close(id) => if id in t.peers { t.Close(id); }
      case Accept(id) => if id in t.peers && id !in t.accepted { t.Accept(id); }
      case Read(id, want, broken) => if EventCurrent(id, t.sink.peerFd) { t.Read(id, want, broken); }
      case Hangup(id) => if EventCurrent(id, t.sink.peerFd) { t.Hangup(id); }
    }
  }

  /** Whole runs: what is proved of them holds of the sink's buffer and of the packets it hands out. */
  method Replay(es: seq<Event>) returns (t: Transport)
    ensures fresh(t) && t.Valid() && t.world == Run(EMPTY, es)
  {
    t := new Transport();
    for n := 0 to |es|
      invariant fresh(t) && fresh(t.sink) && fresh(t.sink.rbuf) && fresh(t.payload)
      invariant forall k :: k in t.peers ==> fresh(t.peers[k])
      invariant t.Valid() && Run(t.world, es[n..]) == Run(EMPTY, es)
    {
      assert es[n..][1..] == es[n + 1..];
      Carry(t, es[n]);
    }
  }
}
