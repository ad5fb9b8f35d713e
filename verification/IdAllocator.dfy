/**
 The bitmap id allocator, with its cached "lowest free bucket" and its doubling
 growth. Source: libweston-vendored/src/libweston/id-number-allocator.c.
 */
module IdAllocator {
  import opened Bytes
  import opened Collections

  const BUCKET: nat := 32
  const FULL: bv32 := 0xffff_ffff

  // ---- one bucket

  predicate BitAt(b: bv32, i: bv8)
    requires i < 32
  {
    (b >> i) & 1 == 1
  }

  function Taking(b: bv32, i: bv8): bv32
    requires i < 32
  {
    b | ((1 as bv32) << i)
  }

  function Freeing(b: bv32, i: bv8): bv32
    requires i < 32
  {
    b & !((1 as bv32) << i)
  }

  lemma TakingAt(b: bv32, i: bv8, j: bv8)
    requires i < 32 && j < 32
    ensures BitAt(Taking(b, i), j) <==> i == j || BitAt(b, j)
  {
  }

  lemma FreeingAt(b: bv32, i: bv8, j: bv8)
    requires i < 32 && j < 32
    ensures BitAt(Freeing(b, i), j) <==> i != j && BitAt(b, j)
  {
  }

  lemma FullAt(i: bv8)
    requires i < 32
    ensures BitAt(FULL, i) && !BitAt(0, i)
  {
  }

  function Value(w: bv8): nat {
    w as nat
  }

  lemma ValueInjective(v: bv8, w: bv8)
    requires Value(v) == Value(w)
    ensures v == w
  {
  }

  lemma WordExists(i: nat) returns (w: bv8)
    requires i < BUCKET
    ensures w < 32 && Value(w) == i
  {
    w := i as bv8;
  }

  /** A bit number as the machine word used for shifting. */
  ghost function Word(i: nat): (w: bv8)
    requires i < BUCKET
    ensures w < 32 && Value(w) == i
  {
    assert exists w: bv8 :: w < 32 && Value(w) == i by { var w := WordExists(i); }
    var w: bv8 :| w < 32 && Value(w) == i;
    w
  }

  ghost predicate Bit(b: bv32, i: nat)
    requires i < BUCKET
  {
    BitAt(b, Word(i))
  }

  lemma BitOps(b: bv32, i: bv8, j: nat)
    requires i < 32 && j < BUCKET
    ensures Bit(Taking(b, i), j) <==> Value(i) == j || Bit(b, j)
    ensures Bit(Freeing(b, i), j) <==> Value(i) != j && Bit(b, j)
    ensures Bit(FULL, j) && !Bit(0, j)
  {
    var w := Word(j);
    SameWord(i, j);
    BitOpsAt(b, i, w);
    BitIs(Taking(b, i), j, w);
    BitIs(Freeing(b, i), j, w);
    BitIs(FULL, j, w);
    BitIs(0, j, w);
    BitIs(b, j, w);
  }

  lemma BitIs(b: bv32, j: nat, w: bv8)
    requires j < BUCKET && w == Word(j)
    ensures Bit(b, j) <==> BitAt(b, w)
  {
  }

  lemma BitOpsAt(b: bv32, i: bv8, w: bv8)
    requires i < 32 && w < 32
    ensures BitAt(Taking(b, i), w) <==> i == w || BitAt(b, w)
    ensures BitAt(Freeing(b, i), w) <==> i != w && BitAt(b, w)
    ensures BitAt(FULL, w) && !BitAt(0, w)
  {
    TakingAt(b, i, w);
    FreeingAt(b, i, w);
    FullAt(w);
  }

  lemma SameWord(i: bv8, j: nat)
    requires i < 32 && j < BUCKET
    ensures i == Word(j) <==> Value(i) == j
  {
    if Value(i) == j { ValueInjective(i, Word(j)); }
  }

  lemma SomeBitClear(b: bv32) returns (i: bv8)
    requires b != FULL
    ensures i < 32 && !BitAt(b, i)
  {
    i := 0;
    while i < 31 && BitAt(b, i)
      invariant i < 32
      invariant b | (FULL << i) == FULL
      decreases 31 - i
    {
      i := i + 1;
    }
  }

  // ---- what a bitmap means

  ghost function TakenIn(buckets: seq<bv32>): (s: set<nat>) {
    set n: nat | n < BUCKET * |buckets| && Bit(buckets[n / BUCKET], n % BUCKET)
  }

  lemma TakenAt(buckets: seq<bv32>, k: nat, i: nat)
    requires k < |buckets| && i < BUCKET
    ensures BUCKET * k + i in TakenIn(buckets) <==> Bit(buckets[k], i)
  {
    var n := BUCKET * k + i;
    assert n / BUCKET == k && n % BUCKET == i;
  }

  function Marked(b: bv32, i: bv8, take: bool): bv32
    requires i < 32
  {
    if take then Taking(b, i) else Freeing(b, i)
  }

  lemma MarkedBit(buckets: seq<bv32>, k: nat, i: bv8, take: bool, k': nat, j: nat)
    requires k < |buckets| && i < 32 && k' < |buckets| && j < BUCKET
    ensures Bit(buckets[k := Marked(buckets[k], i, take)][k'], j) <==>
            if k' == k && Value(i) == j then take else Bit(buckets[k'], j)
  {
    BitOps(buckets[k], i, j);
  }

  lemma SplitId(n: nat, len: nat) returns (k: nat, j: nat)
    requires n < BUCKET * len
    ensures n == BUCKET * k + j && k < len && j < BUCKET
  {
    k, j := n / BUCKET, n % BUCKET;
  }

  lemma TakenUpdateAt(buckets: seq<bv32>, k: nat, i: bv8, take: bool, n: nat)
    requires k < |buckets| && i < 32 && Value(i) < BUCKET && n < BUCKET * |buckets|
    ensures n in TakenIn(buckets[k := Marked(buckets[k], i, take)]) <==>
            if n == BUCKET * k + Value(i) then take else n in TakenIn(buckets)
  {
    var k', j := SplitId(n, |buckets|);
    TakenAt(buckets[k := Marked(buckets[k], i, take)], k', j);
    TakenAt(buckets, k', j);
    MarkedBit(buckets, k, i, take, k', j);
  }

  /** Taking or freeing one bit of one bucket changes the meaning by one id. */
  lemma TakenUpdate(buckets: seq<bv32>, k: nat, i: bv8, take: bool)
    requires k < |buckets| && i < 32 && Value(i) < BUCKET
    ensures take ==> TakenIn(buckets[k := Taking(buckets[k], i)]) == TakenIn(buckets) + {BUCKET * k + Value(i)}
    ensures !take ==> TakenIn(buckets[k := Freeing(buckets[k], i)]) == TakenIn(buckets) - {BUCKET * k + Value(i)}
  {
    var after := buckets[k := Marked(buckets[k], i, take)];
    var id := BUCKET * k + Value(i);
    forall n: nat | n < BUCKET * |buckets|
      ensures n in TakenIn(after) <==> if n == id then take else n in TakenIn(buckets)
    {
      TakenUpdateAt(buckets, k, i, take, n);
    }
    assert id < BUCKET * |buckets|;
  }

  /** Zeroed buckets at the end change nothing. */
  lemma TakenGrow(buckets: seq<bv32>, more: seq<bv32>)
    requires forall k :: 0 <= k < |more| ==> more[k] == 0
    ensures TakenIn(buckets + more) == TakenIn(buckets)
  {
  }

  ghost predicate IsLeastFree(s: set<nat>, n: nat) {
    n !in s && forall m: nat :: m < n ==> m in s
  }

  /** The smallest natural number not in a finite set. */
  ghost function LeastFree(s: set<nat>): (n: nat)
    ensures IsLeastFree(s, n)
  {
    assert exists n :: IsLeastFree(s, n) by { var n := LeastFreeExists(s, 0); }
    var n :| IsLeastFree(s, n);
    n
  }

  lemma {:induction false} LeastFreeExists(s: set<nat>, from: nat) returns (n: nat)
    requires forall m: nat :: m < from ==> m in s
    ensures IsLeastFree(s, n)
    decreases |s - Below(from)|
  {
    if from in s {
      BelowIs(from, from);
      assert s - Below(from + 1) == (s - Below(from)) - {from};
      n := LeastFreeExists(s, from + 1);
    } else {
      n := from;
    }
  }

  lemma LeastFreeUnique(s: set<nat>, n: nat)
    requires n !in s && forall m: nat :: m < n ==> m in s
    ensures LeastFree(s) == n
  {
  }

  ghost function Below(n: nat): set<nat> {
    if n == 0 then {} else Below(n - 1) + {n - 1}
  }

  lemma {:induction false} BelowIs(n: nat, m: nat)
    ensures m in Below(n) <==> m < n
  {
    if n > 0 { BelowIs(n - 1, m); }
  }

  lemma {:induction false} BelowCard(n: nat)
    ensures |Below(n)| == n
  {
    if n > 0 {
      BelowCard(n - 1);
      BelowIs(n - 1, n - 1);
    }
  }

  /** Ids are handed out densely: the smallest free one is no larger than the number taken. */
  lemma LeastFreeAtMostCard(s: set<nat>)
    ensures LeastFree(s) <= |s|
  {
    var n := LeastFree(s);
    BelowCard(n);
    forall m | m in Below(n) ensures m in s {
      BelowIs(n, m);
    }
    assert |s| == |Below(n)| + |s - Below(n)|;
  }

  lemma TakenIsBelow(buckets: seq<bv32>)
    ensures TakenIn(buckets) <= Below(BUCKET * |buckets|)
    ensures |Below(BUCKET * |buckets|)| == BUCKET * |buckets|
  {
    BelowCard(BUCKET * |buckets|);
    forall n | n in TakenIn(buckets) ensures n in Below(BUCKET * |buckets|) {
      BelowIs(BUCKET * |buckets|, n);
    }
  }

  ghost predicate AllFull(buckets: seq<bv32>) {
    forall k :: 0 <= k < |buckets| ==> buckets[k] == FULL
  }

  lemma FullTakesAll(buckets: seq<bv32>, n: nat)
    requires AllFull(buckets) && n < BUCKET * |buckets|
    ensures n in TakenIn(buckets)
  {
    var k, j := SplitId(n, |buckets|);
    TakenAt(buckets, k, j);
    BitOps(0, 0, j);
  }

  lemma ClearBitIs(b: bv32, i: bv8)
    requires i < 32 && !BitAt(b, i)
    ensures Value(i) < BUCKET && !Bit(b, Value(i))
  {
    ValueInjective(i, Word(Value(i)));
  }

  lemma NotFullLeavesOne(buckets: seq<bv32>, k: nat) returns (n: nat)
    requires k < |buckets| && buckets[k] != FULL
    ensures n < BUCKET * |buckets| && n !in TakenIn(buckets)
  {
    var i := SomeBitClear(buckets[k]);
    ClearBitIs(buckets[k], i);
    n := ClearId(buckets, k, Value(i));
  }

  lemma ClearId(buckets: seq<bv32>, k: nat, j: nat) returns (n: nat)
    requires k < |buckets| && j < BUCKET && !Bit(buckets[k], j)
    ensures n < BUCKET * |buckets| && n !in TakenIn(buckets)
  {
    TakenAt(buckets, k, j);
    n := BUCKET * k + j;
  }

  /** No bucket has a free bit exactly when as many ids are taken as there are bits. */
  lemma FullIffCount(buckets: seq<bv32>)
    ensures AllFull(buckets) <==> |TakenIn(buckets)| == BUCKET * |buckets|
  {
    var all := Below(BUCKET * |buckets|);
    TakenIsBelow(buckets);
    if AllFull(buckets) {
      forall n | n in all ensures n in TakenIn(buckets) {
        BelowIs(BUCKET * |buckets|, n);
        FullTakesAll(buckets, n);
      }
      assert TakenIn(buckets) == all;
    } else if |TakenIn(buckets)| == BUCKET * |buckets| {
      SubsetSameSize(TakenIn(buckets), all);
      var k :| 0 <= k < |buckets| && buckets[k] != FULL;
      var n := NotFullLeavesOne(buckets, k);
      BelowIs(BUCKET * |buckets|, n);
      assert false;
    }
  }

  /** Twice as many buckets as hold all 32-bit ids. */
  const MAX_BUCKETS: nat := 0x1000_0000

  /** The scan for a free bit; the caller's bucket is not full. */
  method FirstClearBit(b: bv32) returns (i: bv8)
    requires b != FULL
    ensures i < 32 && !BitAt(b, i) && forall j: bv8 :: j < i ==> BitAt(b, j)
  {
    ghost var clear := SomeBitClear(b);
    i := 0;
    while BitAt(b, i)
      invariant i <= clear
      invariant forall j: bv8 :: j < i ==> BitAt(b, j)
      decreases 32 - i
    {
      i := i + 1;
    }
  }

  class IdAlloc {
    var buckets: array<bv32>
    var lowestFree: nat

    /** All buckets below the cached one are full, the cached one is not, and id 0 is taken. */
    ghost predicate Valid()
      reads this, buckets
    {
      && lowestFree < buckets.Length
      && buckets[lowestFree] != FULL
      && (forall k :: 0 <= k < lowestFree ==> buckets[k] == FULL)
      && 0 in Taken()
    }

    ghost function Taken(): set<nat>
      reads this, buckets
    {
      TakenIn(buckets[..])
    }

    /** weston_idalloc_create */
    constructor ()
      ensures Valid() && fresh(buckets) && Taken() == {0} && buckets.Length == 2
    {
      buckets := new bv32[2](_ => 0);
      lowestFree := 0;
      new;
      assert buckets[..] == [0, 0];
      TakenGrow([], buckets[..]);
      assert [] + buckets[..] == buckets[..];
      assert Taking(0, 0) == 1;
      TakenUpdate(buckets[..], 0, 0, true);
      buckets[lowestFree] := 1;
      assert buckets[..] == [0, 0][0 := 1];
    }

    /** update_lowest_free_bucket: called when the cached bucket has just become full. */
    method UpdateLowestFreeBucket()
      requires lowestFree < buckets.Length
      requires forall k :: 0 <= k <= lowestFree ==> buckets[k] == FULL
      requires 0 in Taken()
      requires AllFull(buckets[..]) ==> 2 * buckets.Length < U32
      modifies this
      ensures Valid() && Taken() == old(Taken())
      ensures if old(AllFull(buckets[..])) then fresh(buckets) && buckets.Length == 2 * old(buckets.Length)
              else buckets == old(buckets)
    {
      for i := lowestFree to buckets.Length
        invariant lowestFree == old(lowestFree) && buckets == old(buckets)
        invariant forall k :: 0 <= k < i ==> buckets[k] == FULL
      {
        if buckets[i] == FULL { continue; }
        lowestFree := i;
        return;
      }
      assert AllFull(buckets[..]);
      var n := buckets.Length;
      var grown := new bv32[2 * n](_ => 0);
      for i := 0 to n
        invariant buckets == old(buckets)
        invariant forall k :: 0 <= k < i ==> grown[k] == buckets[k]
        invariant forall k :: i <= k < 2 * n ==> grown[k] == 0
      {
        grown[i] := buckets[i];
      }
      TakenGrow(buckets[..], grown[n..]);
      assert grown[..] == buckets[..] + grown[n..];
      buckets := grown;
      lowestFree := n;
    }

    /** The id about to be taken is the last one the buckets have room for. */
    ghost predicate LastOne()
      reads this, buckets
    {
      |Taken()| + 1 == BUCKET * buckets.Length
    }

    /**
     weston_idalloc_get_id. The sum 32 * bucket + i is a uint32_t, and so is the
     number of buckets, which doubles exactly when the last free bit is taken.
     */
    method GetId() returns (id: nat)
      requires Valid()
      requires LastOne() ==> 2 * buckets.Length < U32
      modifies this, buckets
      ensures Valid()
      ensures id == LeastFree(old(Taken())) % U32
      ensures Taken() == old(Taken()) + {LeastFree(old(Taken()))}
      ensures if old(LastOne()) then fresh(buckets) && buckets.Length == 2 * old(buckets.Length)
              else buckets == old(buckets)
    {
      var k := lowestFree;
      id := TakeLowest();
      FullIffCount(buckets[..]);
      if buckets[k] == FULL { UpdateLowestFreeBucket(); }
    }

    /** Set the first clear bit of the cached bucket, which may become full. */
    method TakeLowest() returns (id: nat)
      requires Valid()
      modifies buckets
      ensures id == LeastFree(old(Taken())) % U32
      ensures Taken() == old(Taken()) + {LeastFree(old(Taken()))}
      ensures forall k :: 0 <= k < lowestFree ==> buckets[k] == FULL
    {
      var k := lowestFree;
      var i := FirstClearBit(buckets[k]);
      FirstFreeIsLeast(buckets[..], k, i);
      TakenUpdate(buckets[..], k, i, true);
      buckets[k] := Taking(buckets[k], i);
      assert buckets[..] == old(buckets[..])[k := Taking(old(buckets[k]), i)];
      id := (BUCKET * lowestFree + Value(i)) % U32;
    }

    /** weston_idalloc_put_id; the caller must return a nonzero id that is taken. */
    method PutId(id: nat)
      requires Valid() && id != 0 && id in Taken()
      modifies this`lowestFree, buckets
      ensures Valid()
      ensures Taken() == old(Taken()) - {id}
    {
      var k, i := id / BUCKET, (id % BUCKET) as bv8;
      assert Value(i) == id % BUCKET;
      TakenUpdate(buckets[..], k, i, false);
      BitOps(buckets[k], i, id % BUCKET);
      if k < lowestFree { lowestFree := k; }
      buckets[k] := Freeing(buckets[k], i);
      assert buckets[..] == old(buckets[..])[k := Freeing(old(buckets[k]), i)];
    }
  }

  /** The first clear bit of the first non-full bucket is the smallest free id of all. */
  lemma FirstFreeIsLeast(buckets: seq<bv32>, k: nat, i: bv8)
    requires k < |buckets| && i < 32
    requires forall m :: 0 <= m < k ==> buckets[m] == FULL
    requires !BitAt(buckets[k], i) && forall j: bv8 :: j < i ==> BitAt(buckets[k], j)
    ensures LeastFree(TakenIn(buckets)) == BUCKET * k + Value(i)
  {
    var n := BUCKET * k + Value(i);
    ValueInjective(i, Word(Value(i)));
    TakenAt(buckets, k, Value(i));
    forall m: nat | m < n ensures m in TakenIn(buckets) {
      var k', j := m / BUCKET, m % BUCKET;
      assert m == BUCKET * k' + j;
      TakenAt(buckets, k', j);
      BitOps(0, 0, j);
      if k' == k { ValueOrder(Word(j), i); }
    }
    LeastFreeUnique(TakenIn(buckets), n);
  }

  lemma ValueOrder(v: bv8, w: bv8)
    requires Value(v) < Value(w)
    ensures v < w
  {
  }
}
