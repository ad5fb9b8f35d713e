/**
 FIFO barriers: each surface has a barrier flag and an intrusive list link; each
 output heads a circular list of the surfaces whose barriers it will clear.
 Source: libweston-vendored/src/libweston/fifo.c (wl_list as in libwayland).
 */
module Fifo {
  import opened Bytes
  import opened Collections

  /** A struct wl_list: the head embedded in an output, or the link embedded in a surface. */
  datatype Node = Head(output: nat) | Link(surface: nat)

  type Pointers = map<Node, Node>

  // ---- circular doubly linked lists

  function After(i: nat, n: nat): nat {
    if i + 1 < n then i + 1 else 0
  }

  predicate Joined(next: Pointers, prev: Pointers, x: Node, y: Node) {
    x in next && next[x] == y && y in prev && prev[y] == x
  }

  /** The nodes form a circular doubly linked list in this order. */
  predicate Linked(next: Pointers, prev: Pointers, r: seq<Node>) {
    forall i :: 0 <= i < |r| ==> Joined(next, prev, r[i], r[After(i, |r|)])
  }

  function Without<T>(r: seq<T>, i: nat): seq<T>
    requires i < |r|
  {
    r[..i] + r[i + 1..]
  }

  /** wl_list_remove and wl_list_init on x, as they change the next and prev pointers. */
  function NextWithout(next: Pointers, prev: Pointers, x: Node): Pointers
    requires x in next && x in prev
  {
    next[prev[x] := next[x]][x := x]
  }

  function PrevWithout(next: Pointers, prev: Pointers, x: Node): Pointers
    requires x in next && x in prev
  {
    prev[next[x] := prev[x]][x := x]
  }

  /** Unlinking a node that is not the first closes the ring around it. */
  lemma UnlinkFromRing(next: Pointers, prev: Pointers, r: seq<Node>, i: nat)
    requires 0 < i < |r| && Distinct(r) && Linked(next, prev, r)
    ensures r[i] in next && r[i] in prev
    ensures Linked(NextWithout(next, prev, r[i]), PrevWithout(next, prev, r[i]), Without(r, i))
    ensures prev[r[i]] in r && next[r[i]] in r
  {
    var n := |r|;
    assert Joined(next, prev, r[i], r[After(i, n)]);
    assert Joined(next, prev, r[i - 1], r[After(i - 1, n)]);
    var w := Without(r, i);
    forall k | 0 <= k < |w| ensures Joined(NextWithout(next, prev, r[i]), PrevWithout(next, prev, r[i]), w[k], w[After(k, |w|)]) {
      UnlinkFromRingAt(next, prev, r, i, k);
    }
  }

  lemma UnlinkFromRingAt(next: Pointers, prev: Pointers, r: seq<Node>, i: nat, k: nat)
    requires 0 < i < |r| && Distinct(r) && Linked(next, prev, r) && k < |r| - 1
    requires Joined(next, prev, r[i - 1], r[i]) && Joined(next, prev, r[i], r[After(i, |r|)])
    ensures var w := Without(r, i);
            Joined(NextWithout(next, prev, r[i]), PrevWithout(next, prev, r[i]), w[k], w[After(k, |w|)])
  {
    var n, w := |r|, Without(r, i);
    var k' := if k < i then k else k + 1;
    assert w[k] == r[k'];
    assert Joined(next, prev, r[k'], r[After(k', n)]);
    if k' == i - 1 {
      assert w[After(k, |w|)] == r[After(i, n)];
    } else {
      assert w[After(k, |w|)] == r[After(k', n)];
    }
  }

  /** wl_list_insert behind the head h. */
  function NextWith(next: Pointers, h: Node, x: Node): Pointers
    requires h in next
  {
    next[x := next[h]][h := x]
  }

  function PrevWith(next: Pointers, prev: Pointers, h: Node, x: Node): Pointers
    requires h in next
  {
    prev[x := h][next[h] := x]
  }

  lemma LinkIntoRing(next: Pointers, prev: Pointers, r: seq<Node>, x: Node)
    requires r != [] && x !in r && Distinct(r) && Linked(next, prev, r)
    ensures r[0] in next && next[r[0]] in r
    ensures Linked(NextWith(next, r[0], x), PrevWith(next, prev, r[0], x), [r[0], x] + r[1..])
  {
    var n := |r|;
    assert Joined(next, prev, r[0], r[After(0, n)]);
    var w := [r[0], x] + r[1..];
    var next', prev' := NextWith(next, r[0], x), PrevWith(next, prev, r[0], x);
    forall k | 0 <= k < |w| ensures Joined(next', prev', w[k], w[After(k, |w|)]) {
      if k >= 2 {
        assert w[k] == r[k - 1] && Joined(next, prev, r[k - 1], r[After(k - 1, n)]);
      }
    }
  }

  /** A ring none of whose nodes is written stays a ring. */
  lemma RingKept(next: Pointers, prev: Pointers, next': Pointers, prev': Pointers, r: seq<Node>)
    requires Linked(next, prev, r)
    requires forall x :: x in r && x in next ==> x in next' && next'[x] == next[x]
    requires forall x :: x in r && x in prev ==> x in prev' && prev'[x] == prev[x]
    ensures Linked(next', prev', r)
  {
  }

  // ---- what the lists mean

  /** For each output, the surfaces on its list, most recent first. */
  type Lists = map<nat, seq<nat>>

  ghost predicate On(lists: Lists, s: nat, o: nat) {
    o in lists && s in lists[o]
  }

  ghost predicate Listed(lists: Lists, s: nat) {
    exists o :: On(lists, s, o)
  }

  /** No surface is listed twice, neither by one output nor by two. */
  ghost predicate ListsValid(lists: Lists) {
    && (forall o :: o in lists ==> Distinct(lists[o]))
    && (forall s, o, p :: On(lists, s, o) && On(lists, s, p) ==> o == p)
  }

  function Drop(xs: seq<nat>, s: nat): seq<nat> {
    if xs == [] then []
    else if xs[0] == s then Drop(xs[1..], s)
    else [xs[0]] + Drop(xs[1..], s)
  }

  /** Clearing the barrier of one surface. */
  function Cleared(lists: Lists, s: nat): Lists {
    map o | o in lists :: Drop(lists[o], s)
  }

  /** Setting the barrier of a surface that is shown on output o, or on none. */
  function BarrierSet(lists: Lists, s: nat, o: Option<nat>): Lists {
    var c := Cleared(lists, s);
    if o.Some? && o.value in lists then c[o.value := [s] + c[o.value]] else c
  }

  /** Clearing all barriers of an output. */
  function OutputCleared(lists: Lists, o: nat): Lists {
    if o in lists then lists[o := []] else lists
  }

  lemma {:induction false} DropContents(xs: seq<nat>, s: nat, x: nat)
    ensures x in Drop(xs, s) <==> x in xs && x != s
  {
    if xs != [] {
      DropContents(xs[1..], s, x);
      assert x in xs <==> x == xs[0] || x in xs[1..];
    }
  }

  lemma {:induction false} DropNothing(xs: seq<nat>, s: nat)
    requires s !in xs
    ensures Drop(xs, s) == xs
  {
    if xs != [] {
      DropNothing(xs[1..], s);
    }
  }

  lemma {:induction false} DropAt(xs: seq<nat>, i: nat)
    requires i < |xs| && Distinct(xs)
    ensures Drop(xs, xs[i]) == Without(xs, i)
  {
    if i == 0 {
      assert xs[0] !in xs[1..];
      DropNothing(xs[1..], xs[0]);
    } else {
      DropAt(xs[1..], i - 1);
      assert Without(xs, i) == [xs[0]] + Without(xs[1..], i - 1);
    }
  }

  lemma DropDistinct(xs: seq<nat>, s: nat)
    requires Distinct(xs)
    ensures Distinct(Drop(xs, s))
  {
    if s in xs {
      var i :| 0 <= i < |xs| && xs[i] == s;
      DropAt(xs, i);
    } else {
      DropNothing(xs, s);
    }
  }

  lemma ClearedOn(lists: Lists, s: nat, t: nat, o: nat)
    ensures On(Cleared(lists, s), t, o) <==> On(lists, t, o) && t != s
  {
    if o in lists { DropContents(lists[o], s, t); }
  }

  lemma ClearedValid(lists: Lists, s: nat)
    requires ListsValid(lists)
    ensures ListsValid(Cleared(lists, s)) && !Listed(Cleared(lists, s), s)
  {
    forall t: nat, o: nat ensures On(Cleared(lists, s), t, o) <==> On(lists, t, o) && t != s {
      ClearedOn(lists, s, t, o);
    }
    forall o | o in lists ensures Distinct(Drop(lists[o], s)) {
      DropDistinct(lists[o], s);
    }
  }

  lemma ListFirstValid(lists: Lists, s: nat, o: nat)
    requires ListsValid(lists) && !Listed(lists, s) && o in lists
    ensures ListsValid(lists[o := [s] + lists[o]])
  {
    var l := lists[o := [s] + lists[o]];
    forall t: nat, p: nat ensures On(l, t, p) <==> On(lists, t, p) || (t == s && p == o) {
      if p == o { assert t in l[o] <==> t == s || t in lists[o]; }
    }
    assert !On(lists, s, o);
  }

  lemma BarrierSetValid(lists: Lists, s: nat, o: Option<nat>)
    requires ListsValid(lists)
    ensures ListsValid(BarrierSet(lists, s, o))
    ensures forall t: nat, p: nat :: On(BarrierSet(lists, s, o), t, p) <==>
              if t == s then o == Some(p) && p in lists else On(lists, t, p)
  {
    ClearedValid(lists, s);
    var c, l := Cleared(lists, s), BarrierSet(lists, s, o);
    forall t: nat, p: nat ensures On(l, t, p) <==> if t == s then o == Some(p) && p in lists else On(lists, t, p) {
      ClearedOn(lists, s, t, p);
      if o == Some(p) && p in lists {
        assert t in [s] + c[p] <==> t == s || t in c[p];
      }
      if t == s { assert !On(c, s, p); }
    }
    forall p | p in l ensures Distinct(l[p]) {
      assert !On(c, s, p);
    }
  }

  // ---- pointers and flags agree with the lists

  function Links(xs: seq<nat>): seq<Node> {
    seq(|xs|, i requires 0 <= i < |xs| => Link(xs[i]))
  }

  function Ring(o: nat, xs: seq<nat>): seq<Node> {
    [Head(o)] + Links(xs)
  }

  lemma RingDistinct(o: nat, xs: seq<nat>)
    requires Distinct(xs)
    ensures Distinct(Ring(o, xs))
  {
  }

  ghost predicate SelfLinked(next: Pointers, prev: Pointers, x: Node) {
    x in next && next[x] == x && x in prev && prev[x] == x
  }

  /** Each output's list is a ring in the given order. */
  ghost predicate RingsAgree(next: Pointers, prev: Pointers, lists: Lists) {
    forall o :: o in lists ==> Linked(next, prev, Ring(o, lists[o]))
  }

  /** A surface's flag is set exactly when it is listed; otherwise its link points to itself. */
  ghost predicate FlagsAgree(next: Pointers, prev: Pointers, barrier: map<nat, bool>, lists: Lists) {
    && (forall s :: s in barrier ==> (barrier[s] <==> Listed(lists, s)))
    && (forall s :: s in barrier && !Listed(lists, s) ==> SelfLinked(next, prev, Link(s)))
    && (forall s, o :: On(lists, s, o) ==> s in barrier)
  }

  /** Rings of different outputs share no node, nor does a ring hold the link of a surface it does not list. */
  lemma RingContents(o: nat, xs: seq<nat>, x: Node)
    ensures x in Ring(o, xs) <==> x == Head(o) || (x.Link? && x.surface in xs)
  {
    if x.Link? && x.surface in xs {
      var i :| 0 <= i < |xs| && xs[i] == x.surface;
      assert Ring(o, xs)[i + 1] == x;
    }
  }

  lemma RingWithout(o: nat, xs: seq<nat>, i: nat)
    requires i < |xs|
    ensures Ring(o, Without(xs, i)) == Without(Ring(o, xs), i + 1)
  {
  }

  /** Unlinking a surface, listed or not, leaves pointers that agree with the lists without it. */
  lemma UnlinkAgrees(next: Pointers, prev: Pointers, barrier: map<nat, bool>, lists: Lists, s: nat)
    requires ListsValid(lists) && RingsAgree(next, prev, lists) && FlagsAgree(next, prev, barrier, lists)
    requires s in barrier
    ensures var x := Link(s);
            && x in next && x in prev
            && RingsAgree(NextWithout(next, prev, x), PrevWithout(next, prev, x), Cleared(lists, s))
            && FlagsAgree(NextWithout(next, prev, x), PrevWithout(next, prev, x), barrier[s := false], Cleared(lists, s))
  {
    var x := Link(s);
    ClearedValid(lists, s);
    if Listed(lists, s) {
      var o :| On(lists, s, o);
      UnlinkListed(next, prev, barrier, lists, s, o);
    } else {
      assert NextWithout(next, prev, x) == next && PrevWithout(next, prev, x) == prev;
      assert Cleared(lists, s) == lists by {
        forall o | o in lists ensures Drop(lists[o], s) == lists[o] {
          assert !On(lists, s, o);
          DropNothing(lists[o], s);
        }
      }
    }
  }

  /** Rings of different outputs share no node. */
  lemma RingsDisjoint(lists: Lists, o: nat, p: nat)
    requires ListsValid(lists) && o in lists && p in lists && o != p
    ensures forall x :: x in Ring(p, lists[p]) ==> x !in Ring(o, lists[o])
  {
    forall x | x in Ring(p, lists[p]) ensures x !in Ring(o, lists[o]) {
      RingContents(p, lists[p], x);
      RingContents(o, lists[o], x);
      if x.Link? {
        assert On(lists, x.surface, p);
        assert x.surface in lists[o] ==> On(lists, x.surface, o);
      }
    }
  }

  lemma UnlinkListed(next: Pointers, prev: Pointers, barrier: map<nat, bool>, lists: Lists, s: nat, o: nat)
    requires ListsValid(lists) && RingsAgree(next, prev, lists) && FlagsAgree(next, prev, barrier, lists)
    requires On(lists, s, o)
    ensures var x := Link(s);
            && x in next && x in prev
            && RingsAgree(NextWithout(next, prev, x), PrevWithout(next, prev, x), Cleared(lists, s))
            && FlagsAgree(NextWithout(next, prev, x), PrevWithout(next, prev, x), barrier[s := false], Cleared(lists, s))
  {
    var x, xs := Link(s), lists[o];
    var i :| 0 <= i < |xs| && xs[i] == s;
    var r := Ring(o, xs);
    RingDistinct(o, xs);
    UnlinkFromRing(next, prev, r, i + 1);
    assert r[i + 1] == x;
    var next', prev' := NextWithout(next, prev, x), PrevWithout(next, prev, x);
    var c := Cleared(lists, s);
    forall p | p in c ensures Linked(next', prev', Ring(p, c[p])) {
      if p == o {
        DropAt(xs, i);
        RingWithout(o, xs, i);
      } else {
        assert !On(lists, s, p);
        DropNothing(lists[p], s);
        RingsDisjoint(lists, o, p);
        RingKept(next, prev, next', prev', Ring(p, lists[p]));
      }
    }
    UnlinkFlags(next, prev, barrier, lists, s, o, next', prev');
  }

  lemma UnlinkFlags(next: Pointers, prev: Pointers, barrier: map<nat, bool>, lists: Lists, s: nat, o: nat,
                    next': Pointers, prev': Pointers)
    requires ListsValid(lists) && FlagsAgree(next, prev, barrier, lists) && On(lists, s, o)
    requires SelfLinked(next', prev', Link(s))
    requires forall y :: y in next && y !in Ring(o, lists[o]) ==> y in next' && next'[y] == next[y]
    requires forall y :: y in prev && y !in Ring(o, lists[o]) ==> y in prev' && prev'[y] == prev[y]
    ensures FlagsAgree(next', prev', barrier[s := false], Cleared(lists, s))
  {
    var c := Cleared(lists, s);
    ClearedValid(lists, s);
    forall t: nat ensures Listed(c, t) <==> Listed(lists, t) && t != s {
      if Listed(lists, t) { var p :| On(lists, t, p); ClearedOn(lists, s, t, p); }
      if Listed(c, t) { var p :| On(c, t, p); ClearedOn(lists, s, t, p); }
    }
    forall t | t in barrier && t != s && !Listed(c, t) ensures SelfLinked(next', prev', Link(t)) {
      RingContents(o, lists[o], Link(t));
      assert !On(lists, t, o);
    }
    forall t, p | On(c, t, p) ensures t in barrier { ClearedOn(lists, s, t, p); }
  }

  /** Linking an unlisted surface behind the head of an output agrees with listing it first. */
  lemma LinkAgrees(next: Pointers, prev: Pointers, barrier: map<nat, bool>, lists: Lists, s: nat, o: nat)
    requires ListsValid(lists) && RingsAgree(next, prev, lists) && FlagsAgree(next, prev, barrier, lists)
    requires s in barrier && !Listed(lists, s) && o in lists
    ensures var x, h, lists' := Link(s), Head(o), lists[o := [s] + lists[o]];
            && h in next
            && RingsAgree(NextWith(next, h, x), PrevWith(next, prev, h, x), lists')
            && FlagsAgree(NextWith(next, h, x), PrevWith(next, prev, h, x), barrier[s := true], lists')
  {
    var x, h, xs := Link(s), Head(o), lists[o];
    var r := Ring(o, xs);
    RingDistinct(o, xs);
    RingContents(o, xs, x);
    assert !On(lists, s, o);
    LinkIntoRing(next, prev, r, x);
    var next', prev' := NextWith(next, h, x), PrevWith(next, prev, h, x);
    assert Ring(o, [s] + xs) == [h, x] + r[1..];
    forall p | p in lists && p != o ensures Linked(next', prev', Ring(p, lists[p])) {
      RingsDisjoint(lists, o, p);
      RingContents(p, lists[p], x);
      assert !On(lists, s, p);
      RingKept(next, prev, next', prev', Ring(p, lists[p]));
    }
    LinkFlags(next, prev, barrier, lists, s, o, next', prev');
  }

  lemma LinkFlags(next: Pointers, prev: Pointers, barrier: map<nat, bool>, lists: Lists, s: nat, o: nat,
                  next': Pointers, prev': Pointers)
    requires FlagsAgree(next, prev, barrier, lists) && s in barrier && !Listed(lists, s) && o in lists
    requires forall y :: y in next && y != Link(s) && y !in Ring(o, lists[o]) ==> y in next' && next'[y] == next[y]
    requires forall y :: y in prev && y != Link(s) && y !in Ring(o, lists[o]) ==> y in prev' && prev'[y] == prev[y]
    ensures FlagsAgree(next', prev', barrier[s := true], lists[o := [s] + lists[o]])
  {
    var xs := lists[o];
    var lists' := lists[o := [s] + xs];
    forall t: nat, p: nat ensures On(lists', t, p) <==> On(lists, t, p) || (t == s && p == o) {
      if p == o { assert t in [s] + xs <==> t == s || t in xs; }
    }
    forall t: nat ensures Listed(lists', t) <==> Listed(lists, t) || t == s {
      if Listed(lists, t) { var p :| On(lists, t, p); assert On(lists', t, p); }
      assert On(lists', s, o);
    }
    forall t | t in barrier && !Listed(lists', t) ensures SelfLinked(next', prev', Link(t)) {
      RingContents(o, xs, Link(t));
      assert !On(lists, t, o);
    }
  }

  /** The first surface of a list is on no other list. */
  lemma ClearFirst(lists: Lists, o: nat)
    requires ListsValid(lists) && o in lists && lists[o] != []
    ensures Cleared(lists, lists[o][0]) == lists[o := lists[o][1..]]
  {
    var s := lists[o][0];
    DropAt(lists[o], 0);
    assert Without(lists[o], 0) == lists[o][1..];
    assert On(lists, s, o);
    forall p | p in lists && p != o ensures Drop(lists[p], s) == lists[p] {
      assert !On(lists, s, p);
      DropNothing(lists[p], s);
    }
  }

  lemma HeadAgrees(next: Pointers, prev: Pointers, barrier: map<nat, bool>, lists: Lists, o: nat)
    requires ListsValid(lists) && RingsAgree(next, prev, lists) && FlagsAgree(next, prev, barrier, lists) && o !in lists
    ensures var next', prev', lists' := next[Head(o) := Head(o)], prev[Head(o) := Head(o)], lists[o := []];
            ListsValid(lists') && RingsAgree(next', prev', lists') && FlagsAgree(next', prev', barrier, lists')
  {
    var next', prev', lists' := next[Head(o) := Head(o)], prev[Head(o) := Head(o)], lists[o := []];
    forall t: nat, p: nat ensures On(lists', t, p) <==> On(lists, t, p) { }
    forall t: nat ensures Listed(lists', t) <==> Listed(lists, t) {
      if Listed(lists, t) { var p :| On(lists, t, p); assert On(lists', t, p); }
      if Listed(lists', t) { var p :| On(lists', t, p); assert On(lists, t, p); }
    }
    forall p | p in lists ensures Linked(next', prev', Ring(p, lists[p])) {
      RingContents(p, lists[p], Head(o));
      RingKept(next, prev, next', prev', Ring(p, lists[p]));
    }
  }

  lemma LinkAlone(next: Pointers, prev: Pointers, barrier: map<nat, bool>, lists: Lists, s: nat)
    requires ListsValid(lists) && RingsAgree(next, prev, lists) && FlagsAgree(next, prev, barrier, lists) && s !in barrier
    ensures var next', prev' := next[Link(s) := Link(s)], prev[Link(s) := Link(s)];
            RingsAgree(next', prev', lists) && FlagsAgree(next', prev', barrier[s := false], lists)
  {
    var next', prev' := next[Link(s) := Link(s)], prev[Link(s) := Link(s)];
    assert !Listed(lists, s);
    forall p | p in lists ensures Linked(next', prev', Ring(p, lists[p])) {
      RingContents(p, lists[p], Link(s));
      assert !On(lists, s, p);
      RingKept(next, prev, next', prev', Ring(p, lists[p]));
    }
  }

  class Compositor {
    var next: Pointers
    var prev: Pointers
    var barrier: map<nat, bool>
    /** The output driving each surface. */
    var output: map<nat, Option<nat>>
    ghost var lists: Lists

    ghost predicate Valid()
      reads this
    {
      && ListsValid(lists)
      && RingsAgree(next, prev, lists)
      && FlagsAgree(next, prev, barrier, lists)
      && (forall s :: s in output ==> output[s].Some? ==> output[s].value in lists)
    }

    constructor ()
      ensures Valid() && Now() == World(map[], map[]) && barrier == map[]
    {
      next, prev, barrier, output, lists := map[], map[], map[], map[], map[];
    }

    ghost function Now(): World
      reads this
    {
      World(lists, output)
    }

    /** A new output: wl_list_init on its head. */
    method AddOutput(o: nat)
      requires Valid() && o !in lists
      modifies this`next, this`prev, this`lists
      ensures Valid() && lists == old(lists)[o := []]
    {
      HeadAgrees(next, prev, barrier, lists, o);
      next := next[Head(o) := Head(o)];
      prev := prev[Head(o) := Head(o)];
      lists := lists[o := []];
    }

    /** A new surface, shown nowhere: wl_list_init on its link. */
    method AddSurface(s: nat)
      requires Valid() && s !in barrier
      modifies this`next, this`prev, this`barrier, this`output
      ensures Valid() && barrier == old(barrier)[s := false] && output == old(output)[s := None]
    {
      LinkAlone(next, prev, barrier, lists, s);
      next := next[Link(s) := Link(s)];
      prev := prev[Link(s) := Link(s)];
      barrier := barrier[s := false];
      output := output[s := None];
    }

    /** A surface moves to another output, or to none. */
    method Move(s: nat, to: Option<nat>)
      requires Valid() && (to.Some? ==> to.value in lists)
      modifies this`output
      ensures Valid() && output == old(output)[s := to]
    {
      output := output[s := to];
    }

    /** The event is about surfaces and outputs that exist. */
    ghost predicate Known(e: Event)
      reads this
    {
      match e
      case Set(s) => s in barrier && s in output
      case ClearOutput(o) => o in lists
      case Move(s, to) => s in barrier && (to.Some? ==> to.value in lists)
    }

    /** One event carried out. */
    method Carry(e: Event)
      requires Valid() && Known(e)
      modifies this
      ensures Valid() && Now() == Step(old(Now()), e)
      ensures barrier.Keys == old(barrier).Keys && lists.Keys == old(lists).Keys && old(output).Keys <= output.Keys
    {
      match e {
        case Set(s) =>
          SetBarrier(s);
          assert OutputOf(old(Now()), s) == output[s];
        case ClearOutput(o) => ClearBarriers(o);
        case Move(s, to) => Move(s, to);
      }
    }

    /** A whole run carried out: what is proved of runs holds of the rings and flags. */
    method Replay(es: seq<Event>)
      requires Valid() && forall i :: 0 <= i < |es| ==> Known(es[i])
      modifies this
      ensures Valid() && Now() == Run(old(Now()), es)
    {
      for n := 0 to |es|
        invariant Valid() && Now() == Run(old(Now()), es[..n])
        invariant barrier.Keys == old(barrier).Keys && lists.Keys == old(lists).Keys && old(output).Keys <= output.Keys
      {
        assert es[..n + 1][..n] == es[..n];
        Carry(es[n]);
      }
      assert es[..|es|] == es;
    }

    /** weston_fifo_surface_clear_barrier */
    method ClearBarrier(s: nat)
      requires Valid() && s in barrier
      modifies this`next, this`prev, this`barrier, this`lists
      ensures Valid()
      ensures lists == Cleared(old(lists), s) && barrier == old(barrier)[s := false]
    {
      var x := Link(s);
      UnlinkAgrees(next, prev, barrier, lists, s);
      ClearedValid(lists, s);
      barrier := barrier[s := false];
      var p, n := prev[x], next[x];
      next := next[p := n];
      prev := prev[n := p];
      next := next[x := x];
      prev := prev[x := x];
      lists := Cleared(lists, s);
    }

    /** weston_fifo_surface_set_barrier */
    method SetBarrier(s: nat)
      requires Valid() && s in barrier && s in output
      modifies this`next, this`prev, this`barrier, this`lists
      ensures Valid()
      ensures lists == BarrierSet(old(lists), s, output[s])
      ensures barrier == old(barrier)[s := output[s].Some?]
    {
      ClearedValid(lists, s);
      ClearBarrier(s);
      if output[s].None? { return; }
      Insert(s, output[s].value);
      assert old(barrier)[s := false][s := true] == old(barrier)[s := true];
    }

    /** Raise the flag, and wl_list_insert the link behind the head of the output's list. */
    method Insert(s: nat, o: nat)
      requires Valid() && s in barrier && !Listed(lists, s) && o in lists
      modifies this`next, this`prev, this`barrier, this`lists
      ensures Valid()
      ensures lists == old(lists)[o := [s] + old(lists)[o]]
      ensures barrier == old(barrier)[s := true]
    {
      var x, h := Link(s), Head(o);
      LinkAgrees(next, prev, barrier, lists, s, o);
      ListFirstValid(lists, s, o);
      barrier := barrier[s := true];
      prev := prev[x := h];
      next := next[x := next[h]];
      next := next[h := x];
      prev := prev[next[x] := x];
      lists := lists[o := [s] + lists[o]];
    }

    /** weston_fifo_output_has_barriers */
    method HasBarriers(o: nat) returns (has: bool)
      requires Valid() && o in lists
      ensures has <==> exists s :: s in barrier && On(lists, s, o)
    {
      var r := Ring(o, lists[o]);
      assert Joined(next, prev, r[0], r[After(0, |r|)]);
      has := next[Head(o)] != Head(o);
      if lists[o] != [] {
        assert On(lists, lists[o][0], o) && r[1] == Link(lists[o][0]);
      }
    }

    /** weston_fifo_output_clear_barriers: the safe iteration over the list, clearing each surface. */
    method ClearBarriers(o: nat)
      requires Valid() && o in lists
      modifies this`next, this`prev, this`barrier, this`lists
      ensures Valid()
      ensures lists == OutputCleared(old(lists), o)
      ensures barrier.Keys == old(barrier).Keys
      ensures forall s :: s in barrier ==> (barrier[s] <==> old(barrier)[s] && !On(old(lists), s, o))
    {
      FirstOfRing(o);
      var pos := next[Head(o)];
      var tmp := next[pos];
      while pos != Head(o)
        invariant Valid() && o in lists && At(o, pos, tmp)
        invariant lists == old(lists)[o := lists[o]] && barrier.Keys == old(barrier).Keys
        decreases |lists[o]|
      {
        ClearFirstBarrier(o, pos.surface);
        FirstOfRing(o);
        pos := tmp;
        tmp := next[pos];
      }
      forall s | s in barrier ensures barrier[s] <==> old(barrier)[s] && !On(old(lists), s, o) {
        StillListed(old(lists), o, s);
      }
    }

    /** The iteration stands at the first element, with the one after it saved. */
    ghost predicate At(o: nat, pos: Node, tmp: Node)
      reads this
      requires o in lists
    {
      var xs := lists[o];
      && pos == (if xs == [] then Head(o) else Link(xs[0]))
      && (xs != [] ==> tmp == if |xs| == 1 then Head(o) else Link(xs[1]))
    }

    /** One turn of the iteration: the first surface of the list is cleared, nothing else changes. */
    method ClearFirstBarrier(o: nat, s: nat)
      requires Valid() && o in lists && lists[o] != [] && s == lists[o][0]
      modifies this`next, this`prev, this`barrier, this`lists
      ensures Valid()
      ensures lists == old(lists)[o := old(lists)[o][1..]]
      ensures barrier.Keys == old(barrier).Keys
    {
      ClearFirst(lists, o);
      assert On(lists, s, o);
      ClearBarrier(s);
    }

    /** From the head, and from the first link, the pointers lead to the next element. */
    lemma FirstOfRing(o: nat)
      requires Valid() && o in lists
      ensures var xs := lists[o];
              && Head(o) in next
              && next[Head(o)] == (if xs == [] then Head(o) else Link(xs[0]))
              && (xs != [] ==> Link(xs[0]) in next
                               && next[Link(xs[0])] == (if |xs| == 1 then Head(o) else Link(xs[1])))
    {
      var r := Ring(o, lists[o]);
      assert Joined(next, prev, r[0], r[After(0, |r|)]);
      if |r| > 1 { assert Joined(next, prev, r[1], r[After(1, |r|)]); }
    }
  }

  lemma StillListed(lists: Lists, o: nat, s: nat)
    requires ListsValid(lists)
    ensures Listed(OutputCleared(lists, o), s) <==> Listed(lists, s) && !On(lists, s, o)
  {
    var c := OutputCleared(lists, o);
    if Listed(c, s) { var p :| On(c, s, p); assert On(lists, s, p); }
    if Listed(lists, s) && !On(lists, s, o) { var p :| On(lists, s, p); assert On(c, s, p); }
  }

  /** weston_fifo_surface_state_ready */
  predicate StateReady(fifoWait: bool, barrier: bool, synchronized: bool, output: Option<nat>, visible: bool) {
    !fifoWait || !barrier || synchronized || output.None? || !visible
  }

  // ---- runs

  /** Surfaces move between outputs at any time; barriers are set and cleared in any order. */
  datatype Event = Set(s: nat) | ClearOutput(o: nat) | Move(s: nat, to: Option<nat>)

  datatype World = World(lists: Lists, output: map<nat, Option<nat>>)

  function OutputOf(w: World, s: nat): Option<nat> {
    if s in w.output then w.output[s] else None
  }

  function Step(w: World, e: Event): World {
    match e
    case Set(s) => w.(lists := BarrierSet(w.lists, s, OutputOf(w, s)))
    case ClearOutput(o) => w.(lists := OutputCleared(w.lists, o))
    case Move(s, to) => w.(output := w.output[s := to])
  }

  function Run(w: World, es: seq<Event>): World {
    if es == [] then w else Step(Run(w, es[..|es| - 1]), es[|es| - 1])
  }

  /** A barrier of s set at step i, while o drove s, and neither replaced nor cleared since. */
  ghost predicate Pending(w: World, es: seq<Event>, s: nat, o: nat, i: int) {
    && 0 <= i < |es| && es[i] == Set(s) && OutputOf(Run(w, es[..i]), s) == Some(o)
    && forall j :: i < j < |es| ==> es[j] != Set(s) && es[j] != ClearOutput(o)
  }

  /**
   In every run: no surface is listed twice, and a surface is on the list of
   exactly the output for which its latest barrier is still pending, even if it
   has since moved to another output.
   */
  lemma {:induction false} ListedIffPending(w: World, es: seq<Event>, s: nat, o: nat)
    requires forall p :: p in w.lists ==> w.lists[p] == []
    requires o in w.lists
    ensures On(Run(w, es).lists, s, o) <==> exists i :: Pending(w, es, s, o, i)
    decreases |es|
  {
    if es != [] {
      var n := |es| - 1;
      var front, e := es[..n], es[n];
      ListedIffPending(w, front, s, o);
      RunListsValid(w, front);
      var before := Run(w, front);
      forall i | 0 <= i < n ensures es[..i] == front[..i] { }
      PendingStep(w, es, s, o);
      match e
      case Set(t) => BarrierSetValid(before.lists, t, OutputOf(before, t));
      case ClearOutput(p) =>
        forall t: nat, q: nat ensures On(OutputCleared(before.lists, p), t, q) <==> On(before.lists, t, q) && q != p { }
      case Move(_, _) =>
    }
  }

  lemma {:induction false} RunListsValid(w: World, es: seq<Event>)
    requires ListsValid(w.lists)
    ensures ListsValid(Run(w, es).lists) && Run(w, es).lists.Keys == w.lists.Keys
    decreases |es|
  {
    if es != [] {
      var n := |es| - 1;
      RunListsValid(w, es[..n]);
      var before := Run(w, es[..n]);
      match es[n]
      case Set(t) => BarrierSetValid(before.lists, t, OutputOf(before, t));
      case ClearOutput(p) =>
        forall t: nat, q: nat ensures On(OutputCleared(before.lists, p), t, q) <==> On(before.lists, t, q) && q != p { }
      case Move(_, _) =>
    }
  }

  /** How one more event changes what is pending. */
  lemma PendingStep(w: World, es: seq<Event>, s: nat, o: nat)
    requires es != []
    ensures var n := |es| - 1;
            var was := exists i :: Pending(w, es[..n], s, o, i);
            (exists i :: Pending(w, es, s, o, i)) <==>
              if es[n] == Set(s) then OutputOf(Run(w, es[..n]), s) == Some(o) else was && es[n] != ClearOutput(o)
  {
    var n := |es| - 1;
    var front := es[..n];
    assert forall i :: 0 <= i < n ==> front[i] == es[i];
    forall i | 0 <= i <= n ensures i < n ==> es[..i] == front[..i] { }
    if es[n] == Set(s) {
      assert OutputOf(Run(w, es[..n]), s) == Some(o) ==> Pending(w, es, s, o, n);
      forall i | Pending(w, es, s, o, i) ensures i == n { }
    } else {
      forall i | Pending(w, es, s, o, i) ensures Pending(w, front, s, o, i) { assert es[n] != ClearOutput(o); }
      if es[n] != ClearOutput(o) {
        forall i | Pending(w, front, s, o, i) ensures Pending(w, es, s, o, i) { }
      }
    }
  }

  /** Where the last move of s took it. */
  function LastPlace(es: seq<Event>, s: nat, start: Option<nat>): Option<nat> {
    if es == [] then start
    else var e := es[|es| - 1];
      if e.Move? && e.s == s then e.to else LastPlace(es[..|es| - 1], s, start)
  }

  /** In every run, a surface is shown where its last move took it. */
  lemma {:induction false} OutputIsLastPlace(w: World, es: seq<Event>, s: nat)
    ensures OutputOf(Run(w, es), s) == LastPlace(es, s, OutputOf(w, s))
    decreases |es|
  {
    if es != [] {
      OutputIsLastPlace(w, es[..|es| - 1], s);
    }
  }

  /**
   In every run, a state that waits is held back if and only if a barrier of its
   surface is pending, the surface is on an output, visible, and not synchronized.
   */
  lemma HeldBackIffPending(w: World, es: seq<Event>, s: nat, fifoWait: bool, synchronized: bool, visible: bool)
    requires forall p :: p in w.lists ==> w.lists[p] == []
    ensures var w' := Run(w, es);
            !StateReady(fifoWait, Listed(w'.lists, s), synchronized, OutputOf(w', s), visible) <==>
              && fifoWait && !synchronized && visible && OutputOf(w', s) != None
              && exists o, i :: o in w.lists && Pending(w, es, s, o, i)
  {
    RunListsValid(w, es);
    var lists := Run(w, es).lists;
    forall o: nat | o in w.lists ensures On(lists, s, o) <==> exists i :: Pending(w, es, s, o, i) {
      ListedIffPending(w, es, s, o);
    }
    if Listed(lists, s) {
      var o :| On(lists, s, o);
      assert o in w.lists;
    }
  }

  /** After an output's barriers are cleared, every state that waited on one of them is ready. */
  lemma ClearedStatesReady(w: World, es: seq<Event>, o: nat, s: nat,
                           fifoWait: bool, synchronized: bool, visible: bool)
    requires forall p :: p in w.lists ==> w.lists[p] == []
    requires On(Run(w, es).lists, s, o)
    ensures var w' := Run(w, es + [ClearOutput(o)]);
            && !Listed(w'.lists, s)
            && StateReady(fifoWait, Listed(w'.lists, s), synchronized, OutputOf(w', s), visible)
            && forall t, p :: p != o ==> (On(w'.lists, t, p) <==> On(Run(w, es).lists, t, p))
  {
    RunListsValid(w, es);
    StillListed(Run(w, es).lists, o, s);
    assert (es + [ClearOutput(o)])[..|es|] == es;
  }
}
