/**
 Cached surface colour transforms in paint nodes. Source:
 libweston-vendored/src/libweston/color.c and compositor.c.
 */
module PaintNodes {
  import opened Bytes

  /** The cached state: whether it is valid, the transform (NULL is the identity) and a flag. */
  datatype Xform = Xform(valid: bool, transform: Option<nat>, identity: bool)

  const EMPTY: Xform := Xform(false, None, false)

  datatype Node = Node(surface: nat, output: nat, x: Xform)

  // ---- reference counts of transforms, by handle; a destroyed transform has none

  type Counts = map<nat, nat>

  function Get(c: Counts, t: nat): nat {
    if t in c then c[t] else 0
  }

  function Added(c: Counts, t: Option<nat>): Counts {
    match t
    case None => c
    case Some(h) => c[h := Get(c, h) + 1]
  }

  function Dropped(c: Counts, t: Option<nat>): Counts {
    match t
    case None => c
    case Some(h) => if Get(c, h) <= 1 then c - {h} else c[h := Get(c, h) - 1]
  }

  /** 1 when t is the handle u, else 0. */
  function Is(t: Option<nat>, u: nat): nat {
    if t == Some(u) then 1 else 0
  }

  /** How many nodes hold a reference to u. */
  function Holds(nodes: seq<Node>, u: nat): nat {
    if nodes == [] then 0 else Is(nodes[0].x.transform, u) + Holds(nodes[1..], u)
  }

  lemma {:induction false} HoldsConcat(a: seq<Node>, b: seq<Node>, u: nat)
    ensures Holds(a + b, u) == Holds(a, u) + Holds(b, u)
  {
    if a == [] {
      assert a + b == b;
    } else {
      assert (a + b)[1..] == a[1..] + b;
      HoldsConcat(a[1..], b, u);
    }
  }

  lemma HoldsUpdate(nodes: seq<Node>, i: nat, n: Node, u: nat)
    requires i < |nodes|
    ensures Holds(nodes[i := n], u) + Is(nodes[i].x.transform, u) == Holds(nodes, u) + Is(n.x.transform, u)
  {
    assert nodes == nodes[..i] + ([nodes[i]] + nodes[i + 1..]);
    assert nodes[i := n] == nodes[..i] + ([n] + nodes[i + 1..]);
    HoldsConcat(nodes[..i], [nodes[i]] + nodes[i + 1..], u);
    HoldsConcat(nodes[..i], [n] + nodes[i + 1..], u);
  }

  lemma HoldsAt(nodes: seq<Node>, i: nat, u: nat)
    requires i < |nodes| && nodes[i].x.transform == Some(u)
    ensures Holds(nodes, u) >= 1
  {
    assert nodes == nodes[..i] + ([nodes[i]] + nodes[i + 1..]);
    HoldsConcat(nodes[..i], [nodes[i]] + nodes[i + 1..], u);
  }

  // ---- what every operation keeps

  predicate Same(n: Node, s: nat, o: nat) {
    n.surface == s && n.output == o
  }

  /** Nodes of the same surface and output have the same state. */
  predicate Shared(nodes: seq<Node>) {
    forall i, j :: 0 <= i < |nodes| && 0 <= j < |nodes| && Same(nodes[i], nodes[j].surface, nodes[j].output) ==>
      nodes[i].x == nodes[j].x
  }

  /** A state that is not valid holds no transform. */
  predicate InvalidIsBare(nodes: seq<Node>) {
    forall i :: 0 <= i < |nodes| && !nodes[i].x.valid ==> nodes[i].x.transform.None?
  }

  predicate Sound(nodes: seq<Node>) {
    Shared(nodes) && InvalidIsBare(nodes)
  }

  // ---- the operations on the list of nodes

  /** The state a new node takes over. */
  function StateOf(nodes: seq<Node>, s: nat, o: nat): Xform {
    if nodes == [] then EMPTY
    else if Same(nodes[0], s, o) then nodes[0].x
    else StateOf(nodes[1..], s, o)
  }

  function Put(n: Node, s: nat, o: nat, x: Xform): Node {
    if Same(n, s, o) then n.(x := x) else n
  }

  function Assigned(nodes: seq<Node>, s: nat, o: nat, x: Xform): (r: seq<Node>)
    ensures |r| == |nodes|
    ensures forall i :: 0 <= i < |r| ==> r[i] == Put(nodes[i], s, o, x)
  {
    seq(|nodes|, i requires 0 <= i < |nodes| => Put(nodes[i], s, o, x))
  }

  datatype Scope = OfSurface(s: nat) | OfOutput(o: nat)

  predicate Within(n: Node, scope: Scope) {
    match scope
    case OfSurface(s) => n.surface == s
    case OfOutput(o) => n.output == o
  }

  function Wiped(n: Node, scope: Scope): Node {
    if Within(n, scope) then n.(x := EMPTY) else n
  }

  function Cleared(nodes: seq<Node>, scope: Scope): (r: seq<Node>)
    ensures |r| == |nodes|
    ensures forall i :: 0 <= i < |r| ==> r[i] == Wiped(nodes[i], scope)
  {
    seq(|nodes|, i requires 0 <= i < |nodes| => Wiped(nodes[i], scope))
  }

  datatype Event =
    | Create(s: nat, o: nat)
    | Destroy(i: nat)
    | Ensure(i: nat, x: Xform)
    | ProfileChanged(scope: Scope)

  /** What the colour manager leaves behind when it fails holds no transform. */
  predicate Honest(e: Event) {
    e.Ensure? && !e.x.valid ==> e.x.transform.None?
  }

  function Step(nodes: seq<Node>, e: Event): seq<Node> {
    match e
    case Create(s, o) => [Node(s, o, StateOf(nodes, s, o))] + nodes
    case Destroy(i) => if i < |nodes| then nodes[..i] + nodes[i + 1..] else nodes
    case Ensure(i, x) =>
      if i < |nodes| && !nodes[i].x.valid then Assigned(nodes, nodes[i].surface, nodes[i].output, x) else nodes
    case ProfileChanged(scope) => Cleared(nodes, scope)
  }

  function Run(nodes: seq<Node>, events: seq<Event>): seq<Node>
    decreases |events|
  {
    if events == [] then nodes else Run(Step(nodes, events[0]), events[1..])
  }

  // ---- every run keeps the states shared

  lemma {:induction false} StateOfIs(nodes: seq<Node>, s: nat, o: nat)
    ensures (exists i :: 0 <= i < |nodes| && Same(nodes[i], s, o) && StateOf(nodes, s, o) == nodes[i].x)
         || (StateOf(nodes, s, o) == EMPTY && forall i :: 0 <= i < |nodes| ==> !Same(nodes[i], s, o))
  {
    if nodes != [] {
      if Same(nodes[0], s, o) {
      } else {
        StateOfIs(nodes[1..], s, o);
        if i :| 0 <= i < |nodes[1..]| && Same(nodes[1..][i], s, o) && StateOf(nodes[1..], s, o) == nodes[1..][i].x {
          assert nodes[i + 1] == nodes[1..][i];
        } else {
          forall i | 0 <= i < |nodes| ensures !Same(nodes[i], s, o) {
            if i > 0 { assert nodes[i] == nodes[1..][i - 1]; }
          }
        }
      }
    }
  }

  lemma CreateKeepsSound(nodes: seq<Node>, s: nat, o: nat)
    requires Sound(nodes)
    ensures Sound([Node(s, o, StateOf(nodes, s, o))] + nodes)
  {
    StateOfIs(nodes, s, o);
    var made := [Node(s, o, StateOf(nodes, s, o))] + nodes;
    forall j | 0 <= j < |nodes| && Same(nodes[j], s, o) ensures nodes[j].x == StateOf(nodes, s, o) {
    }
    assert forall j :: 0 < j < |made| ==> made[j] == nodes[j - 1];
  }

  lemma DestroyKeepsSound(nodes: seq<Node>, i: nat)
    requires Sound(nodes) && i < |nodes|
    ensures Sound(nodes[..i] + nodes[i + 1..])
  {
  }

  lemma AssignKeepsSound(nodes: seq<Node>, s: nat, o: nat, x: Xform)
    requires Sound(nodes) && (!x.valid ==> x.transform.None?)
    ensures Sound(Assigned(nodes, s, o, x))
  {
  }

  lemma ClearKeepsSound(nodes: seq<Node>, scope: Scope)
    requires Sound(nodes)
    ensures Sound(Cleared(nodes, scope))
  {
  }

  lemma StepKeepsSound(nodes: seq<Node>, e: Event)
    requires Sound(nodes) && Honest(e)
    ensures Sound(Step(nodes, e))
  {
    match e {
      case Create(s, o) => CreateKeepsSound(nodes, s, o);
      case Destroy(i) => if i < |nodes| { DestroyKeepsSound(nodes, i); }
      case Ensure(i, x) =>
        if i < |nodes| && !nodes[i].x.valid {
          AssignKeepsSound(nodes, nodes[i].surface, nodes[i].output, x);
        }
      case ProfileChanged(scope) => ClearKeepsSound(nodes, scope);
    }
  }

  /** From no nodes at all, whatever is created, destroyed, ensured and invalidated. */
  lemma {:induction false} RunKeepsSound(nodes: seq<Node>, events: seq<Event>)
    requires Sound(nodes) && forall i :: 0 <= i < |events| ==> Honest(events[i])
    ensures Sound(Run(nodes, events))
    decreases |events|
  {
    if events != [] {
      StepKeepsSound(nodes, events[0]);
      RunKeepsSound(Step(nodes, events[0]), events[1..]);
    }
  }

  // ---- a valid state stays until a profile changes

  predicate HasNode(nodes: seq<Node>, s: nat, o: nat) {
    exists i :: 0 <= i < |nodes| && Same(nodes[i], s, o)
  }

  /** Some node of this surface and output exists and all of them hold the valid state x. */
  predicate Settled(nodes: seq<Node>, s: nat, o: nat, x: Xform) {
    x.valid && HasNode(nodes, s, o) && forall i :: 0 <= i < |nodes| && Same(nodes[i], s, o) ==> nodes[i].x == x
  }

  predicate Leaves(e: Event, s: nat, o: nat) {
    e.ProfileChanged? ==> e.scope != OfSurface(s) && e.scope != OfOutput(o)
  }

  lemma StepStaysSettled(nodes: seq<Node>, e: Event, s: nat, o: nat, x: Xform)
    requires Settled(nodes, s, o, x) && Leaves(e, s, o) && HasNode(Step(nodes, e), s, o)
    ensures Settled(Step(nodes, e), s, o, x)
  {
    var after := Step(nodes, e);
    match e {
      case Create(s', o') =>
        StateOfIs(nodes, s', o');
        assert forall j :: 0 < j < |after| ==> after[j] == nodes[j - 1];
      case Destroy(i) =>
        if i < |nodes| {
          assert forall j :: 0 <= j < |after| ==> after[j] == nodes[if j < i then j else j + 1];
        }
      case Ensure(i, x') =>
      case ProfileChanged(scope) =>
        assert forall j :: 0 <= j < |nodes| && Same(nodes[j], s, o) ==> !Within(nodes[j], scope);
    }
  }

  /** The pair has a node after every step of the run. */
  predicate Inhabited(nodes: seq<Node>, events: seq<Event>, s: nat, o: nat)
    decreases |events|
  {
    HasNode(nodes, s, o) && (events != [] ==> Inhabited(Step(nodes, events[0]), events[1..], s, o))
  }

  lemma {:induction false} RunStaysSettled(nodes: seq<Node>, events: seq<Event>, s: nat, o: nat, x: Xform)
    requires Settled(nodes, s, o, x) && Inhabited(nodes, events, s, o)
    requires forall i :: 0 <= i < |events| ==> Leaves(events[i], s, o)
    ensures Settled(Run(nodes, events), s, o, x)
    decreases |events|
  {
    if events != [] {
      assert Leaves(events[0], s, o);
      StepStaysSettled(nodes, events[0], s, o, x);
      RunStaysSettled(Step(nodes, events[0]), events[1..], s, o, x);
    }
  }

  // ---- the references

  lemma AddedGet(c: Counts, t: Option<nat>, u: nat)
    ensures Get(Added(c, t), u) == Get(c, u) + Is(t, u)
  {
  }

  lemma DroppedGet(c: Counts, t: Option<nat>, u: nat)
    requires t.Some? ==> Get(c, t.value) > 0
    ensures Get(Dropped(c, t), u) == Get(c, u) - Is(t, u)
  {
  }

  /** Every reference counted is held by a node or by someone else. */
  ghost predicate Balanced(nodes: seq<Node>, refs: Counts, others: Counts) {
    forall u: nat :: Get(refs, u) == Holds(nodes, u) + Get(others, u)
  }

  lemma HeldIsAlive(nodes: seq<Node>, refs: Counts, others: Counts, i: nat)
    requires Balanced(nodes, refs, others) && i < |nodes| && nodes[i].x.transform.Some?
    ensures Get(refs, nodes[i].x.transform.value) > 0
  {
    HoldsAt(nodes, i, nodes[i].x.transform.value);
  }

  /** Copying a state into a node that holds nothing. */
  lemma CopyBalances(nodes: seq<Node>, refs: Counts, others: Counts, i: nat, x: Xform)
    requires Balanced(nodes, refs, others) && i < |nodes| && nodes[i].x.transform.None?
    ensures Balanced(nodes[i := nodes[i].(x := x)], Added(refs, x.transform), others)
  {
    var n := nodes[i].(x := x);
    forall u: nat ensures Get(Added(refs, x.transform), u) == Holds(nodes[i := n], u) + Get(others, u) {
      AddedGet(refs, x.transform, u);
      HoldsUpdate(nodes, i, n, u);
    }
  }

  /** Emptying the state of a node. */
  lemma FiniBalances(nodes: seq<Node>, refs: Counts, others: Counts, i: nat)
    requires Balanced(nodes, refs, others) && i < |nodes|
    ensures Balanced(nodes[i := nodes[i].(x := EMPTY)], Dropped(refs, nodes[i].x.transform), others)
  {
    var t := nodes[i].x.transform;
    var n := nodes[i].(x := EMPTY);
    if t.Some? {
      HeldIsAlive(nodes, refs, others, i);
    }
    forall u: nat ensures Get(Dropped(refs, t), u) == Holds(nodes[i := n], u) + Get(others, u) {
      DroppedGet(refs, t, u);
      HoldsUpdate(nodes, i, n, u);
    }
  }

  function Matching(nodes: seq<Node>, s: nat, o: nat): nat {
    if nodes == [] then 0 else (if Same(nodes[0], s, o) then 1 else 0) + Matching(nodes[1..], s, o)
  }

  /** The new state is held once more by each node it goes to. */
  lemma {:induction false} AssignedHolds(nodes: seq<Node>, s: nat, o: nat, x: Xform, u: nat)
    requires forall k :: 0 <= k < |nodes| && Same(nodes[k], s, o) ==> nodes[k].x.transform.None?
    ensures Holds(Assigned(nodes, s, o, x), u) ==
            Holds(nodes, u) + (if x.transform == Some(u) then Matching(nodes, s, o) else 0)
  {
    if nodes != [] {
      assert Assigned(nodes, s, o, x)[1..] == Assigned(nodes[1..], s, o, x);
      AssignedHolds(nodes[1..], s, o, x, u);
    }
  }

  class Scene {
    var nodes: seq<Node>
    var refs: Counts
    /** References to transforms held outside the paint nodes. */
    ghost var others: Counts

    ghost predicate Valid()
      reads this
    {
      Sound(nodes) && Balanced(nodes, refs, others)
    }

    constructor ()
      ensures Valid() && nodes == [] && refs == map[] && others == map[]
    {
      nodes, refs, others := [], map[], map[];
    }

    /** The colour manager hands out a reference, to a new transform or to one it already has. */
    method Acquire(t: Option<nat>)
      requires Valid()
      modifies this`refs, this`others
      ensures Valid() && refs == Added(old(refs), t) && others == Added(old(others), t)
    {
      forall u: nat ensures Get(Added(refs, t), u) == Holds(nodes, u) + Get(Added(others, t), u) {
        AddedGet(refs, t, u);
        AddedGet(others, t, u);
      }
      refs := Added(refs, t);
      others := Added(others, t);
    }

    /** A reference held elsewhere is dropped. */
    method Release(t: Option<nat>)
      requires Valid() && (t.Some? ==> Get(others, t.value) > 0)
      modifies this`refs, this`others
      ensures Valid() && refs == Dropped(old(refs), t) && others == Dropped(old(others), t)
    {
      DropOther(nodes, refs, others, t);
      Unref(t);
      others := Dropped(others, t);
    }

    method Ref(t: Option<nat>)
      requires t.Some? ==> Get(refs, t.value) > 0
      modifies this`refs
      ensures refs == Added(old(refs), t)
    {
      match t {
        case None =>
        case Some(h) => refs := refs[h := refs[h] + 1];
      }
    }

    /** The last reference destroys the transform. */
    method Unref(t: Option<nat>)
      requires t.Some? ==> Get(refs, t.value) > 0
      modifies this`refs
      ensures refs == Dropped(old(refs), t)
    {
      match t {
        case None =>
        case Some(h) =>
          refs := refs[h := refs[h] - 1];
          if refs[h] == 0 {
            refs := refs - {h};
          }
      }
    }

    /** weston_surface_color_transform_copy, into a node that holds nothing. */
    method Copy(k: nat, x: Xform)
      requires k < |nodes| && nodes[k].x.transform.None? && Balanced(nodes, refs, others)
      requires x.transform.Some? ==> Get(refs, x.transform.value) > 0
      modifies this`nodes, this`refs
      ensures Balanced(nodes, refs, others)
      ensures nodes == old(nodes)[k := old(nodes)[k].(x := x)]
    {
      CopyBalances(nodes, refs, others, k, x);
      Ref(x.transform);
      nodes := nodes[k := nodes[k].(x := x)];
    }

    /** weston_surface_color_transform_fini, and the state is no longer valid. */
    method Fini(k: nat)
      requires k < |nodes| && Balanced(nodes, refs, others)
      modifies this`nodes, this`refs
      ensures Balanced(nodes, refs, others)
      ensures nodes == old(nodes)[k := old(nodes)[k].(x := EMPTY)]
    {
      if nodes[k].x.transform.Some? {
        HeldIsAlive(nodes, refs, others, k);
      }
      FiniBalances(nodes, refs, others, k);
      Unref(nodes[k].x.transform);
      nodes := nodes[k := nodes[k].(x := EMPTY)];
    }

    /** Give the state x to every node of the surface and output. */
    method CopyToAll(s: nat, o: nat, x: Xform)
      requires Balanced(nodes, refs, others)
      requires forall k :: 0 <= k < |nodes| && Same(nodes[k], s, o) ==> nodes[k].x.transform.None?
      requires x.transform.Some? ==> Get(others, x.transform.value) > 0
      modifies this`nodes, this`refs
      ensures Balanced(nodes, refs, others)
      ensures nodes == Assigned(old(nodes), s, o, x)
    {
      ghost var was := nodes;
      for k := 0 to |nodes|
        invariant |nodes| == |was|
        invariant forall j :: 0 <= j < k ==> nodes[j] == Put(was[j], s, o, x)
        invariant forall j :: k <= j < |was| ==> nodes[j] == was[j]
        invariant Balanced(nodes, refs, others)
      {
        if nodes[k].output == o && nodes[k].surface == s {
          TakesReference(nodes, refs, others, x);
          Copy(k, x);
        }
      }
    }

    /**
     weston_paint_node_ensure_color_transform; x is what the colour manager
     answered, including one reference to its transform.
     */
    method EnsureColorTransform(i: nat, x: Xform)
      requires Valid() && i < |nodes| && Honest(Ensure(i, x))
      requires x.transform.Some? ==> Get(others, x.transform.value) > 0
      modifies this
      ensures Valid()
      ensures nodes == Step(old(nodes), Ensure(i, x))
      ensures others == if old(nodes)[i].x.valid then old(others) else Dropped(old(others), x.transform)
      ensures var n := old(nodes)[i];
              !n.x.valid && x.transform.Some? ==>
              Get(refs, x.transform.value) + 1 == Get(old(refs), x.transform.value) + Matching(old(nodes), n.surface, n.output)
    {
      var s, o := nodes[i].surface, nodes[i].output;
      if nodes[i].x.valid {
        return;
      }
      AssignKeepsSound(nodes, s, o, x);
      if x.transform.Some? {
        AssignedHolds(nodes, s, o, x, x.transform.value);
        DroppedGet(others, x.transform, x.transform.value);
      }
      CopyToAll(s, o, x);
      TakesReference(nodes, refs, others, x);
      DropOther(nodes, refs, others, x.transform);
      Unref(x.transform);
      others := Dropped(others, x.transform);
    }

    /** weston_paint_node_create */
    method CreateNode(s: nat, o: nat)
      requires Valid()
      modifies this
      ensures Valid() && others == old(others)
      ensures nodes == Step(old(nodes), Create(s, o))
    {
      var made := Node(s, o, EMPTY);
      var k := 0;
      while k < |nodes|
        invariant 0 <= k <= |nodes| && made.x == EMPTY && made == Node(s, o, EMPTY)
        invariant StateOf(nodes, s, o) == StateOf(nodes[k..], s, o)
        decreases |nodes| - k
      {
        if Same(nodes[k], s, o) {
          made := made.(x := nodes[k].x);
          break;
        }
        assert nodes[k..][1..] == nodes[k + 1..];
        k := k + 1;
      }
      assert made == Node(s, o, StateOf(nodes, s, o));
      if k < |nodes| && made.x.transform.Some? {
        HeldIsAlive(nodes, refs, others, k);
      }
      CreateKeepsSound(nodes, s, o);
      MakeBalances(nodes, refs, others, made);
      Ref(made.x.transform);
      nodes := [made] + nodes;
    }

    /** weston_paint_node_destroy */
    method DestroyNode(i: nat)
      requires Valid() && i < |nodes|
      modifies this
      ensures Valid() && others == old(others)
      ensures nodes == Step(old(nodes), Destroy(i))
    {
      var t := nodes[i].x.transform;
      if t.Some? {
        HeldIsAlive(nodes, refs, others, i);
      }
      DestroyKeepsSound(nodes, i);
      RemoveBalances(nodes, refs, others, i);
      Unref(t);
      nodes := nodes[..i] + nodes[i + 1..];
    }

    /** The loops that drop outdated transforms when a surface or an output changes its profile. */
    method ClearTransforms(scope: Scope)
      requires Valid()
      modifies this
      ensures Valid() && others == old(others)
      ensures nodes == Step(old(nodes), ProfileChanged(scope))
    {
      ghost var was := nodes;
      ClearKeepsSound(was, scope);
      for k := 0 to |nodes|
        invariant |nodes| == |was| && others == old(others)
        invariant forall j :: 0 <= j < k ==> nodes[j] == Wiped(was[j], scope)
        invariant forall j :: k <= j < |was| ==> nodes[j] == was[j]
        invariant Balanced(nodes, refs, others)
      {
        if Within(nodes[k], scope) {
          Fini(k);
        }
      }
      assert nodes == Cleared(was, scope);
    }
  }

  /** One event carried out; the colour manager answers only when it is asked. */
  method Carry(scene: Scene, e: Event)
    requires scene.Valid() && Honest(e)
    modifies scene
    ensures scene.Valid() && scene.nodes == Step(old(scene.nodes), e)
  {
    match e {
      case Create(s, o) => scene.CreateNode(s, o);
      case Destroy(i) => if i < |scene.nodes| { scene.DestroyNode(i); }
      case Ensure(i, x) =>
        if i < |scene.nodes| && !scene.nodes[i].x.valid {
          scene.Acquire(x.transform);
          AskedReference(scene.others, x.transform);
          scene.EnsureColorTransform(i, x);
        }
      case ProfileChanged(scope) => scene.ClearTransforms(scope);
    }
  }

  lemma AskedReference(c: Counts, t: Option<nat>)
    requires exists before :: c == Added(before, t)
    ensures t.Some? ==> Get(c, t.value) > 0
  {
  }

  /** A whole run from nothing: its states are those of the run and all references are accounted for. */
  method Replay(events: seq<Event>) returns (scene: Scene)
    requires forall i :: 0 <= i < |events| ==> Honest(events[i])
    ensures fresh(scene) && scene.Valid() && scene.nodes == Run([], events)
  {
    scene := new Scene();
    for i := 0 to |events|
      invariant fresh(scene) && scene.Valid() && Run(scene.nodes, events[i..]) == Run([], events)
    {
      assert events[i..][1..] == events[i + 1..];
      Carry(scene, events[i]);
    }
  }

  lemma TakesReference(nodes: seq<Node>, refs: Counts, others: Counts, x: Xform)
    requires Balanced(nodes, refs, others) && (x.transform.Some? ==> Get(others, x.transform.value) > 0)
    ensures x.transform.Some? ==> Get(refs, x.transform.value) > 0
  {
  }

  lemma DropOther(nodes: seq<Node>, refs: Counts, others: Counts, t: Option<nat>)
    requires Balanced(nodes, refs, others) && (t.Some? ==> Get(others, t.value) > 0 && Get(refs, t.value) > 0)
    ensures Balanced(nodes, Dropped(refs, t), Dropped(others, t))
  {
  }

  lemma MakeBalances(nodes: seq<Node>, refs: Counts, others: Counts, made: Node)
    requires Balanced(nodes, refs, others)
    ensures Balanced([made] + nodes, Added(refs, made.x.transform), others)
  {
  }

  lemma RemoveBalances(nodes: seq<Node>, refs: Counts, others: Counts, i: nat)
    requires Balanced(nodes, refs, others) && i < |nodes|
    ensures Balanced(nodes[..i] + nodes[i + 1..], Dropped(refs, nodes[i].x.transform), others)
  {
    var t := nodes[i].x.transform;
    if t.Some? {
      HeldIsAlive(nodes, refs, others, i);
    }
    forall u: nat ensures Get(Dropped(refs, t), u) == Holds(nodes[..i] + nodes[i + 1..], u) + Get(others, u) {
      DroppedGet(refs, t, u);
      assert nodes == nodes[..i] + ([nodes[i]] + nodes[i + 1..]);
      HoldsConcat(nodes[..i], [nodes[i]] + nodes[i + 1..], u);
      HoldsConcat(nodes[..i], nodes[i + 1..], u);
    }
  }
}
