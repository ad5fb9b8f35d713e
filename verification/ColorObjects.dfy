/**
 Reference-counted colour profiles and colour transforms, which take an id when
 initialised and give it back with their last reference.
 Source: libweston-vendored/src/libweston/color.c.
 */
module ColorObjects {
  import opened Bytes
  import opened Collections
  import opened IdAllocator

  class ColorObject {
    var refCount: nat
    var id: nat

    /** weston_color_profile_init, weston_color_transform_init */
    method Init(generator: IdAlloc)
      requires generator.Valid()
      requires generator.LastOne() ==> 2 * generator.buckets.Length < U32
      modifies this, generator, generator.buckets
      ensures generator.Valid() && refCount == 1
      ensures id == LeastFree(old(generator.Taken())) % U32
      ensures generator.Taken() == old(generator.Taken()) + {LeastFree(old(generator.Taken()))}
      ensures if old(generator.LastOne())
              then fresh(generator.buckets) && generator.buckets.Length == 2 * old(generator.buckets.Length)
              else generator.buckets == old(generator.buckets)
    {
      refCount := 1;
      id := generator.GetId();
    }

    /** weston_color_profile_ref, weston_color_transform_ref; NULL is accepted. */
    static method Ref(o: ColorObject?) returns (r: ColorObject?)
      requires o != null ==> o.refCount > 0
      modifies if o == null then {} else {o}
      ensures r == o
      ensures o != null ==> o.refCount == old(o.refCount) + 1 && o.id == old(o.id)
    {
      if o == null { return null; }
      o.refCount := o.refCount + 1;
      return o;
    }

    /** weston_color_profile_unref, weston_color_transform_unref; NULL is accepted. */
    static method Unref(o: ColorObject?, generator: IdAlloc) returns (destroyed: bool)
      requires o != null ==> o.refCount > 0
      requires o != null && o.refCount == 1 ==> generator.Valid() && o.id != 0 && o.id in generator.Taken()
      modifies if o == null then {} else {o}, generator, generator.buckets
      ensures destroyed <==> o != null && old(o.refCount) == 1
      ensures o != null ==> o.refCount == old(o.refCount) - 1 && o.id == old(o.id)
      ensures destroyed ==> generator.Valid() && generator.Taken() == old(generator.Taken()) - {o.id}
      ensures generator.buckets == old(generator.buckets)
      ensures !destroyed ==> unchanged(generator) && unchanged(generator.buckets)
    {
      if o == null { return false; }
      o.refCount := o.refCount - 1;
      if o.refCount > 0 { return false; }
      generator.PutId(o.id);
      return true;
    }
  }

  // ---- runs: any interleaving of init, ref and unref on objects sharing one generator

  datatype Obj = Obj(id: nat, refs: nat)

  /** The ids the generator holds as taken, and the live objects by handle. */
  datatype Pool = Pool(taken: set<nat>, live: map<nat, Obj>)

  datatype Op = Create(h: nat) | AddRef(h: nat) | DropRef(h: nat)

  ghost function Step(p: Pool, op: Op): Pool {
    match op
    case Create(h) =>
      if h in p.live then p
      else
        var n := LeastFree(p.taken);
        Pool(p.taken + {n}, p.live[h := Obj(n % U32, 1)])
    case AddRef(h) =>
      if h !in p.live then p
      else p.(live := p.live[h := p.live[h].(refs := p.live[h].refs + 1)])
    case DropRef(h) =>
      if h !in p.live then p
      else if p.live[h].refs > 1 then p.(live := p.live[h := p.live[h].(refs := p.live[h].refs - 1)])
      else Pool(p.taken - {p.live[h].id}, p.live - {h})
  }

  ghost function Run(p: Pool, ops: seq<Op>): Pool
    decreases |ops|
  {
    if ops == [] then p else Run(Step(p, ops[0]), ops[1..])
  }

  /** A fresh generator: id 0 is reserved. */
  ghost const FRESH := Pool({0}, map[])

  ghost function Ids(live: map<nat, Obj>): set<nat> {
    set h | h in live :: live[h].id
  }

  /** Taken is {0} and the ids of live objects; those are distinct, nonzero 32-bit numbers. */
  ghost predicate Inv(p: Pool) {
    && p.taken == {0} + Ids(p.live)
    && (forall h :: h in p.live ==> 0 < p.live[h].id < U32 && p.live[h].refs > 0)
    && (forall h, k :: h in p.live && k in p.live && h != k ==> p.live[h].id != p.live[k].id)
  }

  lemma {:induction false} IdsCard(live: map<nat, Obj>)
    requires forall h, k :: h in live && k in live && h != k ==> live[h].id != live[k].id
    ensures |Ids(live)| == |live|
    decreases |live|
  {
    if live == map[] {
      assert Ids(live) == {};
    } else {
      var h :| h in live;
      var rest := live - {h};
      assert |live.Keys| == |rest.Keys + {h}| && live.Keys == rest.Keys + {h};
      IdsCard(rest);
      assert Ids(live) == Ids(rest) + {live[h].id};
    }
  }

  lemma TakenCard(p: Pool)
    requires Inv(p)
    ensures |p.taken| == |p.live| + 1
  {
    IdsCard(p.live);
    assert 0 !in Ids(p.live);
  }

  lemma CreateKeepsInv(p: Pool, h: nat)
    requires Inv(p) && h !in p.live && |p.live| < U32 - 1
    ensures Inv(Step(p, Create(h)))
    ensures Step(p, Create(h)).live[h].id == LeastFree(p.taken)
  {
    TakenCard(p);
    LeastFreeAtMostCard(p.taken);
    CreateStep(p, h);
    FreshIdKeepsInv(p, h, LeastFree(p.taken));
  }

  lemma CreateStep(p: Pool, h: nat)
    requires h !in p.live && LeastFree(p.taken) < U32
    ensures var n := LeastFree(p.taken);
            Step(p, Create(h)) == Pool(p.taken + {n}, p.live[h := Obj(n, 1)])
  {
  }

  lemma FreshIdKeepsInv(p: Pool, h: nat, n: nat)
    requires Inv(p) && h !in p.live && n < U32 && n !in p.taken
    ensures Inv(Pool(p.taken + {n}, p.live[h := Obj(n, 1)]))
  {
    IdsInsert(p.live, h, Obj(n, 1));
    forall k | k in p.live ensures p.live[k].id != n {
      assert p.live[k].id in Ids(p.live);
    }
  }

  lemma IdsInsert(live: map<nat, Obj>, h: nat, o: Obj)
    requires h !in live
    ensures Ids(live[h := o]) == Ids(live) + {o.id}
  {
    var live' := live[h := o];
    forall x | x in Ids(live) ensures x in Ids(live') {
      var k :| k in live && live[k].id == x;
      assert live'[k].id == x;
    }
    assert live'[h].id == o.id;
  }

  /** Creation keeps the invariant exactly while fewer than 2^32 - 1 objects are live. */
  lemma CreateKeepsInvIff(p: Pool, h: nat)
    requires Inv(p) && h !in p.live
    ensures Inv(Step(p, Create(h))) <==> |p.live| < U32 - 1
  {
    if |p.live| < U32 - 1 {
      CreateKeepsInv(p, h);
    } else {
      FullPool(p);
      assert Step(p, Create(h)).live[h].id == 0;
    }
  }

  /** Once 2^32 - 1 objects are live, every 32-bit id is taken. */
  lemma FullPool(p: Pool)
    requires Inv(p) && |p.live| >= U32 - 1
    ensures LeastFree(p.taken) == U32
  {
    TakenCard(p);
    BelowCard(U32);
    forall x | x in p.taken ensures x in Below(U32) {
      BelowIs(U32, x);
    }
    SubsetSameSize(p.taken, Below(U32));
    forall m: nat | m < U32 ensures m in p.taken {
      BelowIs(U32, m);
    }
    BelowIs(U32, U32);
    LeastFreeUnique(p.taken, U32);
  }

  lemma DropKeepsInv(p: Pool, h: nat)
    requires Inv(p)
    ensures Inv(Step(p, DropRef(h)))
  {
    if h in p.live {
      var p' := Step(p, DropRef(h));
      if p.live[h].refs > 1 {
        assert Ids(p'.live) == Ids(p.live) by { SameIds(p.live, p'.live); }
      } else {
        var id := p.live[h].id;
        forall x ensures x in Ids(p'.live) <==> x in Ids(p.live) && x != id {
          if x in Ids(p.live) && x != id {
            var k :| k in p.live && p.live[k].id == x;
            assert k in p'.live;
          }
        }
      }
    }
  }

  lemma SameIds(a: map<nat, Obj>, b: map<nat, Obj>)
    requires a.Keys == b.Keys && forall h :: h in a ==> a[h].id == b[h].id
    ensures Ids(a) == Ids(b)
  {
  }

  /** Every creation in the run happens while an id is left. */
  ghost predicate Room(p: Pool, ops: seq<Op>)
    decreases |ops|
  {
    ops == [] || ((ops[0].Create? && ops[0].h !in p.live ==> |p.live| < U32 - 1) && Room(Step(p, ops[0]), ops[1..]))
  }

  /** Over every run that never has all ids in use: the generator and the objects agree at all times. */
  lemma {:induction false} RunKeepsInv(p: Pool, ops: seq<Op>)
    requires Inv(p) && Room(p, ops)
    ensures Inv(Run(p, ops))
    decreases |ops|
  {
    if ops != [] {
      match ops[0] {
        case Create(h) => if h !in p.live { CreateKeepsInv(p, h); }
        case AddRef(h) => AddRefKeepsInv(p, h);
        case DropRef(h) => DropKeepsInv(p, h);
      }
      RunKeepsInv(Step(p, ops[0]), ops[1..]);
    }
  }

  /** From a fresh generator: live ids are distinct and nonzero, and the next one is the smallest unused. */
  lemma RunFromFresh(ops: seq<Op>, h: nat)
    requires Room(FRESH, ops)
    requires h !in Run(FRESH, ops).live && |Run(FRESH, ops).live| < U32 - 1
    ensures var p := Run(FRESH, ops);
            var id := Step(p, Create(h)).live[h].id;
            && Inv(p)
            && id != 0 && id !in Ids(p.live)
            && forall m: nat :: 0 < m < id ==> m in Ids(p.live)
  {
    RunKeepsInv(FRESH, ops);
    var p := Run(FRESH, ops);
    CreateKeepsInv(p, h);
    forall m: nat | 0 < m < LeastFree(p.taken) ensures m in Ids(p.live) {
      assert m in p.taken;
    }
  }

  // ---- a run that uses up the ids

  lemma {:induction false} RunAppend(p: Pool, ops: seq<Op>, op: Op)
    ensures Run(p, ops + [op]) == Step(Run(p, ops), op)
    ensures Room(p, ops + [op]) <==>
            Room(p, ops) && (op.Create? && op.h !in Run(p, ops).live ==> |Run(p, ops).live| < U32 - 1)
    decreases |ops|
  {
    if ops == [] {
      assert ops + [op] == [op] && [op][1..] == [];
    } else {
      assert (ops + [op])[1..] == ops[1..] + [op];
      RunAppend(Step(p, ops[0]), ops[1..], op);
    }
  }

  /** Handles 0 to n-1 are live. */
  ghost predicate Filled(p: Pool, n: nat) {
    Inv(p) && p.live.Keys == Below(n)
  }

  lemma FilledCard(p: Pool, n: nat)
    requires Filled(p, n)
    ensures |p.live| == n && n !in p.live
  {
    BelowCard(n);
    BelowIs(n, n);
    assert |p.live| == |p.live.Keys|;
  }

  lemma OneMore(p: Pool, n: nat)
    requires Filled(p, n) && n < U32 - 1
    ensures Filled(Step(p, Create(n)), n + 1)
  {
    FilledCard(p, n);
    CreateKeepsInv(p, n);
    CreateAddsKey(p, n);
  }

  lemma CreateAddsKey(p: Pool, h: nat)
    requires h !in p.live
    ensures Step(p, Create(h)).live.Keys == p.live.Keys + {h}
  {
  }

  lemma FreshFilled()
    ensures Filled(FRESH, 0)
  {
    assert Ids(map[]) == {};
  }

  ghost predicate Fills(p: Pool, ops: seq<Op>, n: nat) {
    Room(p, ops) && Filled(Run(p, ops), n)
  }

  lemma FillsOneMore(p: Pool, ops: seq<Op>, n: nat)
    requires Fills(p, ops, n) && n < U32 - 1
    ensures Fills(p, ops + [Create(n)], n + 1)
  {
    RunAppend(p, ops, Create(n));
    FilledCard(Run(p, ops), n);
    OneMore(Run(p, ops), n);
  }

  /** Creating the handles below n in turn is a run. */
  lemma {:induction false} CreationsFill(p: Pool, n: nat) returns (ops: seq<Op>)
    requires n < U32 && Filled(p, 0)
    ensures Fills(p, ops, n)
  {
    ops := [];
    for i := 0 to n
      invariant Fills(p, ops, i)
    {
      FillsOneMore(p, ops, i);
      ops := ops + [Create(i)];
    }
  }

  /** A run reaches the bound, and the next object of it gets the reserved id 0. */
  lemma RunWrapsToZero(last: nat) returns (ops: seq<Op>)
    requires last == U32 - 1
    ensures Room(FRESH, ops)
    ensures var p := Run(FRESH, ops);
            Inv(p) && |p.live| == last && last !in p.live && Step(p, Create(last)).live[last].id == 0
  {
    FreshFilled();
    ops := CreationsFill(FRESH, last);
    FilledCard(Run(FRESH, ops), last);
    FullPool(Run(FRESH, ops));
  }

  // ---- references and ids, told from the history

  /** The references to h: one from its creation, one more and one less with every call until none is left. */
  function Balance(ops: seq<Op>, h: nat): nat {
    if ops == [] then 0
    else
      var was := Balance(ops[..|ops| - 1], h);
      match ops[|ops| - 1]
      case Create(k) => if k == h && was == 0 then 1 else was
      case AddRef(k) => if k == h && was > 0 then was + 1 else was
      case DropRef(k) => if k == h && was > 0 then was - 1 else was
  }

  ghost function Refs(p: Pool, h: nat): nat {
    if h in p.live then p.live[h].refs else 0
  }

  lemma {:induction false} RefsStep(p: Pool, op: Op, h: nat)
    requires forall k :: k in p.live ==> p.live[k].refs > 0
    ensures forall k :: k in Step(p, op).live ==> Step(p, op).live[k].refs > 0
    ensures Refs(Step(p, op), h) ==
            match op
            case Create(k) => if k == h && Refs(p, h) == 0 then 1 else Refs(p, h)
            case AddRef(k) => if k == h && Refs(p, h) > 0 then Refs(p, h) + 1 else Refs(p, h)
            case DropRef(k) => if k == h && Refs(p, h) > 0 then Refs(p, h) - 1 else Refs(p, h)
  {
  }

  /** In every run, an object is live exactly while references to it are left, and holds their number. */
  lemma {:induction false} RefsAreBalance(ops: seq<Op>, h: nat)
    ensures forall k :: k in Run(FRESH, ops).live ==> Run(FRESH, ops).live[k].refs > 0
    ensures h in Run(FRESH, ops).live <==> Balance(ops, h) > 0
    ensures Refs(Run(FRESH, ops), h) == Balance(ops, h)
    decreases |ops|
  {
    if ops != [] {
      var front, last := ops[..|ops| - 1], ops[|ops| - 1];
      RefsAreBalance(front, h);
      assert ops == front + [last];
      RunAppend(FRESH, front, last);
      RefsStep(Run(FRESH, front), last, h);
    }
  }

  /** The id given at creation stays as long as the object lives, whatever happens to others. */
  lemma {:induction false} IdStays(p: Pool, ops: seq<Op>, h: nat)
    requires h in p.live && forall i :: 0 <= i <= |ops| ==> h in Run(p, ops[..i]).live
    ensures h in Run(p, ops).live && Run(p, ops).live[h].id == p.live[h].id
    decreases |ops|
  {
    if ops == [] {
      assert ops[..0] == ops;
    } else {
      var n := |ops| - 1;
      var front, last := ops[..n], ops[n];
      assert forall i :: 0 <= i <= n ==> front[..i] == ops[..i];
      IdStays(p, front, h);
      assert ops == front + [last] && ops[..n + 1] == ops;
      RunAppend(p, front, last);
    }
  }

  // ---- the objects themselves refine these runs

  /** Buckets never outgrow twice what the 32-bit ids need. */
  lemma GrowthBound(p: Pool, len: nat)
    requires Inv(p) && |p.live| < U32 - 1 && len <= MAX_BUCKETS
    ensures |p.taken| + 1 == BUCKET * len ==> 2 * len <= MAX_BUCKETS < U32
  {
    TakenCard(p);
  }

  /** Different handles name different objects, and each is as the pool has it. */
  ghost predicate Shows(live: map<nat, ColorObject>, v: map<nat, Obj>)
    reads live.Values
  {
    && v.Keys == live.Keys
    && (forall h, k :: h in live && k in live && h != k ==> live[h] != live[k])
    && (forall h :: h in live ==> live[h].id == v[h].id && live[h].refCount == v[h].refs)
  }

  /** Objects by handle on one generator; pool is what they amount to. */
  class Registry {
    const generator: IdAlloc
    var live: map<nat, ColorObject>
    ghost var pool: Pool

    ghost predicate Agrees()
      reads this, generator, generator.buckets, live.Values
    {
      && generator.Valid() && pool.taken == generator.Taken() && Shows(live, pool.live)
    }

    ghost predicate Valid()
      reads this, generator, generator.buckets, live.Values
    {
      Agrees() && generator.buckets.Length <= MAX_BUCKETS && Inv(pool)
    }

    constructor ()
      ensures Valid() && pool == FRESH && live == map[]
      ensures fresh(generator) && fresh(generator.buckets)
    {
      generator := new IdAlloc();
      live := map[];
      pool := FRESH;
      new;
      assert Ids(map[]) == {};
    }

    /** An object for a new handle, whether or not a 32-bit id is left. */
    method Add(h: nat)
      requires Agrees() && h !in live
      requires generator.LastOne() ==> 2 * generator.buckets.Length < U32
      modifies this, generator, generator.buckets
      ensures Agrees() && pool == Step(old(pool), Op.Create(h))
      ensures live.Keys == old(live).Keys + {h} && fresh(live[h])
      ensures forall k :: k in old(live) ==> live[k] == old(live)[k]
      ensures if old(generator.LastOne())
              then fresh(generator.buckets) && generator.buckets.Length == 2 * old(generator.buckets.Length)
              else generator.buckets == old(generator.buckets)
    {
      var o := new ColorObject;
      o.Init(generator);
      live := live[h := o];
      pool := Step(pool, Op.Create(h));
    }

    /** The same while fewer than 2^32 - 1 objects are live: the generator stays within its bounds. */
    method Create(h: nat)
      requires Valid() && h !in live && |live| < U32 - 1
      modifies this, generator, generator.buckets
      ensures Valid() && pool == Step(old(pool), Op.Create(h))
      ensures live.Keys == old(live).Keys + {h} && fresh(live[h])
      ensures forall k :: k in old(live) ==> live[k] == old(live)[k]
      ensures generator.buckets == old(generator.buckets) || fresh(generator.buckets)
    {
      assert |pool.live.Keys| == |live.Keys|;
      GrowthBound(pool, generator.buckets.Length);
      CreateKeepsInv(pool, h);
      Add(h);
    }

    method AddRef(h: nat)
      requires Valid() && h in live
      modifies this`pool, live[h]
      ensures Valid() && pool == Step(old(pool), Op.AddRef(h))
    {
      AddRefKeepsInv(pool, h);
      RefOne(h);
    }

    method RefOne(h: nat)
      requires Agrees() && h in live && pool.live[h].refs > 0
      modifies this`pool, live[h]
      ensures Agrees() && pool == Step(old(pool), Op.AddRef(h))
    {
      var o := ColorObject.Ref(live[h]);
      pool := Step(pool, Op.AddRef(h));
    }

    method DropRef(h: nat)
      requires Valid() && h in live
      modifies this, live[h], generator, generator.buckets
      ensures Valid() && pool == Step(old(pool), Op.DropRef(h))
      ensures forall k :: k in live ==> k in old(live) && live[k] == old(live)[k]
      ensures generator.buckets == old(generator.buckets)
    {
      DropKeepsInv(pool, h);
      LiveIsTaken(pool, h);
      UnrefOne(h);
    }

    method UnrefOne(h: nat)
      requires Agrees() && h in live && pool.live[h].refs > 0
      requires pool.live[h].id != 0 && pool.live[h].id in pool.taken
      modifies this, live[h], generator, generator.buckets
      ensures Agrees() && pool == Step(old(pool), Op.DropRef(h))
      ensures forall k :: k in live ==> k in old(live) && live[k] == old(live)[k]
      ensures generator.buckets == old(generator.buckets)
    {
      DropStep(pool, h);
      var destroyed := ColorObject.Unref(live[h], generator);
      if destroyed {
        live := live - {h};
        pool := Pool(pool.taken - {pool.live[h].id}, pool.live - {h});
      } else {
        pool := pool.(live := pool.live[h := pool.live[h].(refs := pool.live[h].refs - 1)]);
      }
    }
  }

  /** One step of a run; handles that name no object are passed over. */
  method Carry(r: Registry, op: Op)
    requires r.Valid() && Room(r.pool, [op])
    modifies r, r.generator, r.generator.buckets, r.live.Values
    ensures r.Valid() && r.pool == Step(old(r.pool), op)
    ensures r.generator.buckets == old(r.generator.buckets) || fresh(r.generator.buckets)
    ensures forall k :: k in r.live ==> r.live[k] in old(r.live.Values) || fresh(r.live[k])
  {
    match op {
      case Create(h) => if h !in r.live { CarryCreate(r, h); }
      case AddRef(h) => if h in r.live { r.AddRef(h); }
      case DropRef(h) => if h in r.live { r.DropRef(h); }
    }
  }

  method CarryCreate(r: Registry, h: nat)
    requires r.Valid() && h !in r.live && |r.pool.live| < U32 - 1
    modifies r, r.generator, r.generator.buckets
    ensures r.Valid() && r.pool == Step(old(r.pool), Create(h))
    ensures r.generator.buckets == old(r.generator.buckets) || fresh(r.generator.buckets)
    ensures forall k :: k in r.live ==> r.live[k] in old(r.live.Values) || fresh(r.live[k])
  {
    assert |r.pool.live.Keys| == |r.live.Keys|;
    r.Create(h);
  }

  lemma DropStep(p: Pool, h: nat)
    requires h in p.live && p.live[h].refs > 0
    ensures Step(p, DropRef(h)) ==
            if p.live[h].refs == 1 then Pool(p.taken - {p.live[h].id}, p.live - {h})
            else p.(live := p.live[h := p.live[h].(refs := p.live[h].refs - 1)])
  {
  }

  lemma LiveIsTaken(p: Pool, h: nat)
    requires Inv(p) && h in p.live
    ensures p.live[h].refs > 0 && p.live[h].id != 0 && p.live[h].id in p.taken
  {
    assert p.live[h].id in Ids(p.live);
  }

  lemma AddRefKeepsInv(p: Pool, h: nat)
    requires Inv(p)
    ensures Inv(Step(p, AddRef(h)))
  {
    if h in p.live {
      SameIds(p.live, Step(p, AddRef(h)).live);
    }
  }

  /** Carrying out a run on a new generator gives what the run says, whatever the interleaving. */
  method Replay(ops: seq<Op>) returns (r: Registry)
    requires Room(FRESH, ops)
    ensures fresh(r) && r.Valid() && r.pool == Run(FRESH, ops)
  {
    r := new Registry();
    for i := 0 to |ops|
      invariant fresh(r) && fresh(r.generator) && fresh(r.generator.buckets)
      invariant forall k :: k in r.live ==> fresh(r.live[k])
      invariant r.Valid() && Room(r.pool, ops[i..]) && Run(r.pool, ops[i..]) == Run(FRESH, ops)
    {
      RoomHead(r.pool, ops[i], ops[i..], ops[i + 1..]);
      Carry(r, ops[i]);
    }
  }

  lemma RoomHead(p: Pool, op: Op, ops: seq<Op>, more: seq<Op>)
    requires Room(p, ops) && ops == [op] + more
    ensures Room(p, [op]) && Room(Step(p, op), more) && Run(p, ops) == Run(Step(p, op), more)
  {
    assert ops[1..] == more;
  }
}
