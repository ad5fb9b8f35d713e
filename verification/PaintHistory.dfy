/**
 The states cached in the paint nodes, told from the history of a run: however
 many nodes there are, they behave as one cache per surface and output. Source:
 libweston-vendored/src/libweston/color.c and compositor.c.
 */
module PaintHistory {
  import opened Bytes
  import opened PaintNodes

  // ---- a profile change

  lemma {:induction false} SurfaceProfileClears(nodes: seq<Node>, s: nat)
    ensures var after := Step(nodes, ProfileChanged(OfSurface(s)));
            |after| == |nodes| && forall i :: 0 <= i < |nodes| ==>
              after[i] == if nodes[i].surface == s then Node(s, nodes[i].output, Xform(false, None, false)) else nodes[i]
  {
  }

  lemma {:induction false} OutputProfileClears(nodes: seq<Node>, o: nat)
    ensures var after := Step(nodes, ProfileChanged(OfOutput(o)));
            |after| == |nodes| && forall i :: 0 <= i < |nodes| ==>
              after[i] == if nodes[i].output == o then Node(nodes[i].surface, o, Xform(false, None, false)) else nodes[i]
  {
  }

  // ---- the reference: which nodes exist, and one state for each pair

  type Pair = (nat, nat)

  function Front(events: seq<Event>): seq<Event>
    requires events != []
  {
    events[..|events| - 1]
  }

  function Last(events: seq<Event>): Event
    requires events != []
  {
    events[|events| - 1]
  }

  /** The surface and output of every node, newest first. */
  function Pairs(events: seq<Event>): seq<Pair>
    decreases |events|
  {
    if events == [] then [] else
      var was := Pairs(Front(events));
      match Last(events)
      case Create(s, o) => [(s, o)] + was
      case Destroy(i) => if i < |was| then was[..i] + was[i + 1..] else was
      case _ => was
  }

  /** What is cached for a pair: the first answer since a profile of it changed or since it had no node. */
  function Cached(events: seq<Event>, p: Pair): Xform
    decreases |events|
  {
    if events == [] then EMPTY else
      var was := Cached(Front(events), p);
      match Last(events)
      case Create(_, _) => was
      case Destroy(_) => if p in Pairs(events) then was else EMPTY
      case Ensure(i, x) =>
        if i < |Pairs(Front(events))| && Pairs(Front(events))[i] == p && !was.valid then x else was
      case ProfileChanged(OfSurface(s)) => if s == p.0 then EMPTY else was
      case ProfileChanged(OfOutput(o)) => if o == p.1 then EMPTY else was
  }

  /** The colour manager is asked for p when node i is painted. */
  predicate Asks(events: seq<Event>, i: nat, p: Pair) {
    i < |Pairs(events)| && Pairs(events)[i] == p && !Cached(events, p).valid
  }

  lemma {:induction false} RunAppend(nodes: seq<Node>, events: seq<Event>, e: Event)
    ensures Run(nodes, events + [e]) == Step(Run(nodes, events), e)
    decreases |events|
  {
    if events == [] {
      assert (events + [e])[1..] == [];
    } else {
      assert (events + [e])[1..] == events[1..] + [e];
      RunAppend(Step(nodes, events[0]), events[1..], e);
    }
  }

  /** The nodes are those of the history, and each holds what is cached for its pair. */
  predicate Agrees(nodes: seq<Node>, events: seq<Event>) {
    |nodes| == |Pairs(events)| && forall k :: 0 <= k < |nodes| ==> Holding(nodes[k], events, Pairs(events)[k])
  }

  predicate Holding(n: Node, events: seq<Event>, p: Pair) {
    n == Node(p.0, p.1, Cached(events, p))
  }

  lemma {:induction false} NoNodeNoState(events: seq<Event>, p: Pair)
    requires p !in Pairs(events)
    ensures Cached(events, p) == EMPTY
    decreases |events|
  {
    if events != [] && p !in Pairs(Front(events)) {
      NoNodeNoState(Front(events), p);
    }
  }

  lemma {:induction false} StateOfPair(nodes: seq<Node>, events: seq<Event>, p: Pair)
    requires Agrees(nodes, events)
    ensures StateOf(nodes, p.0, p.1) == Cached(events, p)
  {
    StateOfIs(nodes, p.0, p.1);
    if p in Pairs(events) {
      var k :| 0 <= k < |nodes| && Pairs(events)[k] == p;
      assert Holding(nodes[k], events, p);
    } else {
      NoNodeNoState(events, p);
    }
  }

  lemma {:induction false} CreateAgrees(nodes: seq<Node>, events: seq<Event>, e: Event)
    requires Agrees(nodes, events) && e.Create?
    ensures Agrees(Step(nodes, e), events + [e])
  {
    assert Front(events + [e]) == events;
    StateOfPair(nodes, events, (e.s, e.o));
    var after, ps := Step(nodes, e), Pairs(events + [e]);
    forall k | 0 <= k < |after| ensures Holding(after[k], events + [e], ps[k]) {
      if k > 0 { assert Holding(nodes[k - 1], events, Pairs(events)[k - 1]); }
    }
  }

  lemma {:induction false} DestroyAgrees(nodes: seq<Node>, events: seq<Event>, e: Event)
    requires Agrees(nodes, events) && e.Destroy?
    ensures Agrees(Step(nodes, e), events + [e])
  {
    assert Front(events + [e]) == events;
    var after, ps := Step(nodes, e), Pairs(events + [e]);
    forall k | 0 <= k < |after| ensures Holding(after[k], events + [e], ps[k]) {
      var j := if e.i < |nodes| && k >= e.i then k + 1 else k;
      assert after[k] == nodes[j] && ps[k] == Pairs(events)[j];
      assert Holding(nodes[j], events, ps[k]);
    }
  }

  lemma {:induction false} EnsureAgrees(nodes: seq<Node>, events: seq<Event>, e: Event)
    requires Agrees(nodes, events) && e.Ensure?
    ensures Agrees(Step(nodes, e), events + [e])
  {
    assert Front(events + [e]) == events;
    var after := Step(nodes, e);
    if e.i < |nodes| { assert Holding(nodes[e.i], events, Pairs(events)[e.i]); }
    forall k | 0 <= k < |after| ensures Holding(after[k], events + [e], Pairs(events)[k]) {
      assert Holding(nodes[k], events, Pairs(events)[k]);
    }
  }

  lemma {:induction false} ProfileAgrees(nodes: seq<Node>, events: seq<Event>, e: Event)
    requires Agrees(nodes, events) && e.ProfileChanged?
    ensures Agrees(Step(nodes, e), events + [e])
  {
    assert Front(events + [e]) == events;
    var after := Step(nodes, e);
    match e.scope {
      case OfSurface(s) => SurfaceProfileClears(nodes, s);
      case OfOutput(o) => OutputProfileClears(nodes, o);
    }
    forall k | 0 <= k < |after| ensures Holding(after[k], events + [e], Pairs(events)[k]) {
      assert Holding(nodes[k], events, Pairs(events)[k]);
    }
  }

  /** Every run: the states copied from node to node are those of one cache per pair. */
  lemma {:induction false} RunIsCached(events: seq<Event>)
    ensures Agrees(Run([], events), events)
    decreases |events|
  {
    if events != [] {
      var front, e := Front(events), Last(events);
      assert events == front + [e];
      RunIsCached(front);
      RunAppend([], front, e);
      var nodes := Run([], front);
      match e {
        case Create(_, _) => CreateAgrees(nodes, front, e);
        case Destroy(_) => DestroyAgrees(nodes, front, e);
        case Ensure(_, _) => EnsureAgrees(nodes, front, e);
        case ProfileChanged(_) => ProfileAgrees(nodes, front, e);
      }
    }
  }

  // ---- when a valid state is cached

  predicate Touches(e: Event, p: Pair) {
    e == ProfileChanged(OfSurface(p.0)) || e == ProfileChanged(OfOutput(p.1))
  }

  /** Event j leaves the pair with a node and changes no profile of it. */
  predicate Keeps(events: seq<Event>, p: Pair, j: nat) {
    j < |events| && !Touches(events[j], p) && p in Pairs(events[..j + 1])
  }

  /** The answer x to event i for the pair still stands. */
  ghost predicate Answered(events: seq<Event>, p: Pair, x: Xform, i: nat) {
    && i < |events| && events[i].Ensure? && events[i].x == x && Asks(events[..i], events[i].i, p)
    && forall j :: i < j < |events| ==> Keeps(events, p, j)
  }

  lemma {:induction false} KeepsBefore(events: seq<Event>, p: Pair, j: nat)
    requires events != [] && j < |events|
    ensures j < |events| - 1 ==> (Keeps(events, p, j) <==> Keeps(Front(events), p, j))
    ensures j == |events| - 1 ==> (Keeps(events, p, j) <==> !Touches(Last(events), p) && p in Pairs(events))
  {
    if j < |events| - 1 {
      assert events[..j + 1] == Front(events)[..j + 1];
    } else {
      assert events[..j + 1] == events;
    }
  }

  lemma {:induction false} AnsweredBefore(events: seq<Event>, p: Pair, x: Xform, i: nat)
    requires events != [] && i < |events| - 1
    ensures Answered(events, p, x, i) <==>
              Answered(Front(events), p, x, i) && !Touches(Last(events), p) && p in Pairs(events)
  {
    var n, front := |events| - 1, Front(events);
    assert events[..i] == front[..i] && events[i] == front[i];
    KeepsBefore(events, p, n);
    forall j | i < j < n ensures Keeps(events, p, j) <==> Keeps(front, p, j) {
      KeepsBefore(events, p, j);
    }
  }

  lemma {:induction false} ValidHasNode(events: seq<Event>, p: Pair)
    requires Cached(events, p).valid
    ensures p in Pairs(events)
  {
    if p !in Pairs(events) { NoNodeNoState(events, p); }
  }

  /** One more event that does not answer for the pair. */
  lemma {:induction false} StaysCached(events: seq<Event>, p: Pair, x: Xform)
    requires events != [] && x.valid
    requires !(Last(events).Ensure? && Asks(Front(events), Last(events).i, p))
    ensures Cached(events, p) == x <==>
              Cached(Front(events), p) == x && !Touches(Last(events), p) && p in Pairs(events)
  {
    var front := Front(events);
    if Cached(front, p) == x {
      ValidHasNode(front, p);
    }
    match Last(events) {
      case Create(_, _) => assert Cached(events, p) == Cached(front, p);
      case Destroy(_) => assert Cached(events, p) == if p in Pairs(events) then Cached(front, p) else EMPTY;
      case Ensure(_, _) => assert Cached(events, p) == Cached(front, p) && Pairs(events) == Pairs(front);
      case ProfileChanged(_) =>
        assert Pairs(events) == Pairs(front);
        assert Cached(events, p) == if Touches(Last(events), p) then EMPTY else Cached(front, p);
    }
  }

  /**
   A valid state x is cached for a pair if and only if the colour manager, asked
   for the pair, answered x, and since then the pair has always had a node and no
   profile of its surface or output has changed.
   */
  lemma {:induction false} CachedIffAnswered(events: seq<Event>, p: Pair, x: Xform)
    requires x.valid
    ensures Cached(events, p) == x <==> exists i: nat :: Answered(events, p, x, i)
    decreases |events|
  {
    if events != [] {
      var n, front, e := |events| - 1, Front(events), Last(events);
      CachedIffAnswered(front, p, x);
      forall i: nat | i < n
        ensures Answered(events, p, x, i) <==> Answered(front, p, x, i) && !Touches(e, p) && p in Pairs(events)
      {
        AnsweredBefore(events, p, x, i);
      }
      if e.Ensure? && Asks(front, e.i, p) {
        assert Answered(events, p, x, n) <==> e.x == x;
        assert forall i: nat :: i < n ==> !Answered(front, p, x, i);
      } else {
        assert !Answered(events, p, x, n);
        StaysCached(events, p, x);
      }
    }
  }

  /** The same of the nodes themselves. */
  lemma {:induction false} HeldIffAnswered(events: seq<Event>, k: nat, x: Xform)
    requires k < |Run([], events)| && x.valid
    ensures var n := Run([], events)[k];
            n.x == x <==> exists i: nat :: Answered(events, (n.surface, n.output), x, i)
  {
    RunIsCached(events);
    var p := Pairs(events)[k];
    assert Holding(Run([], events)[k], events, p);
    CachedIffAnswered(events, p, x);
  }
}
