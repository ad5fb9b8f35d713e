/**
 DRM format arrays: arrays of (format, array of modifiers) worked on in place,
 and the set algebra they stand for.
 Source: libweston-vendored/src/libweston/drm-formats.c.
 */
module DrmFormats {
  import opened Bytes
  import opened Collections

  datatype Format = Format(format: nat, modifiers: seq<nat>)

  /** No format twice, and no modifier twice within a format. */
  ghost predicate WellFormed(fs: seq<Format>) {
    && (forall i, j :: 0 <= i < j < |fs| ==> fs[i].format != fs[j].format)
    && (forall i :: 0 <= i < |fs| ==> Distinct(fs[i].modifiers))
  }

  /** What an array means: a set of modifiers for each format listed. */
  type Meaning = map<nat, set<nat>>

  ghost function Elements<T>(s: seq<T>): set<T> {
    set x | x in s
  }

  ghost function MeaningOf(fs: seq<Format>): Meaning {
    if fs == [] then map[]
    else
      var last := fs[|fs| - 1];
      MeaningOf(fs[..|fs| - 1])[last.format := Elements(last.modifiers)]
  }

  ghost function Pairs(m: Meaning): set<(nat, nat)> {
    set f, x | f in m && x in m[f] :: (f, x)
  }

  ghost function Lookup(m: Meaning, f: nat): set<nat> {
    if f in m then m[f] else {}
  }

  /** Formats of either, with the modifiers of both. */
  ghost function Union(a: Meaning, b: Meaning): Meaning {
    map f | f in a.Keys + b.Keys :: Lookup(a, f) + Lookup(b, f)
  }

  /** Formats left without a modifier disappear. */
  ghost function Intersection(a: Meaning, b: Meaning): Meaning {
    map f | f in a && Lookup(a, f) * Lookup(b, f) != {} :: Lookup(a, f) * Lookup(b, f)
  }

  /** Formats that B does not list stay as they are; others disappear once left without a modifier. */
  ghost function Difference(a: Meaning, b: Meaning): Meaning {
    map f | f in a && (f !in b || a[f] - b[f] != {}) :: a[f] - Lookup(b, f)
  }

  // ---- the meaning of an array

  lemma {:induction false} MeaningAt(fs: seq<Format>, i: nat)
    requires WellFormed(fs) && i < |fs|
    ensures fs[i].format in MeaningOf(fs) && MeaningOf(fs)[fs[i].format] == Elements(fs[i].modifiers)
  {
    if i < |fs| - 1 {
      MeaningAt(fs[..|fs| - 1], i);
    }
  }

  lemma {:induction false} MeaningKeys(fs: seq<Format>, f: nat)
    ensures f in MeaningOf(fs) <==> exists i :: 0 <= i < |fs| && fs[i].format == f
  {
    if fs != [] {
      var front := fs[..|fs| - 1];
      MeaningKeys(front, f);
      if f in MeaningOf(front) {
        var i :| 0 <= i < |front| && front[i].format == f;
        assert fs[i].format == f;
      }
      if i :| 0 <= i < |fs| && fs[i].format == f && f != fs[|fs| - 1].format {
        assert front[i].format == f;
      }
    }
  }

  lemma MeaningPush(fs: seq<Format>, x: Format)
    ensures MeaningOf(fs + [x]) == MeaningOf(fs)[x.format := Elements(x.modifiers)]
  {
  }

  lemma {:induction false} MeaningUpdate(fs: seq<Format>, i: nat, ms: seq<nat>)
    requires WellFormed(fs) && i < |fs|
    ensures MeaningOf(fs[i := fs[i].(modifiers := ms)]) == MeaningOf(fs)[fs[i].format := Elements(ms)]
  {
    var fs' := fs[i := fs[i].(modifiers := ms)];
    var n := |fs| - 1;
    if i < n {
      MeaningUpdate(fs[..n], i, ms);
      assert fs'[..n] == fs[..n][i := fs[i].(modifiers := ms)];
    } else {
      assert fs'[..n] == fs[..n];
    }
  }

  lemma ElementsPush<T>(s: seq<T>, x: T)
    ensures Elements(s + [x]) == Elements(s) + {x}
  {
  }

  lemma ElementsPrefix<T>(s: seq<T>, i: nat)
    requires i < |s|
    ensures Elements(s[..i + 1]) == Elements(s[..i]) + {s[i]}
  {
  }

  lemma {:induction false} DistinctCard<T>(s: seq<T>)
    requires Distinct(s)
    ensures |Elements(s)| == |s|
  {
    if s != [] {
      var n := |s| - 1;
      DistinctCard(s[..n]);
      ElementsPrefix(s, n);
      assert s[..n + 1] == s;
      assert s[n] !in Elements(s[..n]);
    }
  }

  function ModifierCount(fs: seq<Format>): nat {
    if fs == [] then 0 else ModifierCount(fs[..|fs| - 1]) + |fs[|fs| - 1].modifiers|
  }

  ghost function Tagged(f: nat, xs: set<nat>): set<(nat, nat)> {
    set x | x in xs :: (f, x)
  }

  lemma {:induction false} TaggedCard(f: nat, xs: set<nat>)
    ensures |Tagged(f, xs)| == |xs|
  {
    if xs == {} {
      assert Tagged(f, xs) == {};
    } else {
      var x :| x in xs;
      TaggedCard(f, xs - {x});
      assert Tagged(f, xs) == Tagged(f, xs - {x}) + {(f, x)};
    }
  }

  lemma PairsInsert(m: Meaning, f: nat, xs: set<nat>)
    requires f !in m
    ensures Pairs(m[f := xs]) == Pairs(m) + Tagged(f, xs)
    ensures Pairs(m) !! Tagged(f, xs)
  {
  }

  /** Adding up the array lengths counts the distinct pairs. */
  lemma {:induction false} ModifierCountIsPairs(fs: seq<Format>)
    requires WellFormed(fs)
    ensures ModifierCount(fs) == |Pairs(MeaningOf(fs))|
  {
    if fs == [] {
      assert Pairs(MeaningOf(fs)) == {};
    } else {
      var n := |fs| - 1;
      var front, last := fs[..n], fs[n];
      ModifierCountIsPairs(front);
      MeaningKeys(front, last.format);
      PairsInsert(MeaningOf(front), last.format, Elements(last.modifiers));
      TaggedCard(last.format, Elements(last.modifiers));
      DistinctCard(last.modifiers);
    }
  }

  // ---- the algebra

  lemma UnionIsUnionOfPairs(a: Meaning, b: Meaning)
    ensures Pairs(Union(a, b)) == Pairs(a) + Pairs(b)
  {
  }

  lemma IntersectionIsIntersectionOfPairs(a: Meaning, b: Meaning)
    ensures Pairs(Intersection(a, b)) == Pairs(a) * Pairs(b)
  {
    forall p: (nat, nat) ensures p in Pairs(Intersection(a, b)) <==> p in Pairs(a) * Pairs(b) {
      assert p == (p.0, p.1);
      if p in Pairs(a) * Pairs(b) {
        assert p.1 in Lookup(a, p.0) * Lookup(b, p.0);
      }
    }
  }

  lemma DifferenceIsDifferenceOfPairs(a: Meaning, b: Meaning)
    ensures Pairs(Difference(a, b)) == Pairs(a) - Pairs(b)
  {
    forall p: (nat, nat) ensures p in Pairs(Difference(a, b)) <==> p in Pairs(a) - Pairs(b) {
      assert p == (p.0, p.1);
      if p in Pairs(a) - Pairs(b) {
        assert p.1 in a[p.0] - Lookup(b, p.0);
      }
    }
  }

  lemma UnionStep(a: Meaning, b: Meaning, f: nat, xs: set<nat>)
    requires f !in b
    ensures Union(a, b[f := xs]) == Union(a, b)[f := Lookup(a, f) + xs]
    ensures Lookup(Union(a, b), f) == Lookup(a, f)
  {
  }

  lemma UnionEmpty(a: Meaning)
    ensures Union(a, map[]) == a
  {
    forall f | f in a ensures Union(a, map[])[f] == a[f] {
      assert Lookup(a, f) + {} == a[f];
    }
    assert Union(a, map[]).Keys == a.Keys;
  }

  lemma IntersectionStep(a: Meaning, f: nat, xs: set<nat>, b: Meaning)
    requires f !in a
    ensures var ys := xs * Lookup(b, f);
            Intersection(a[f := xs], b) == if ys == {} then Intersection(a, b) else Intersection(a, b)[f := ys]
  {
  }

  lemma DifferenceStep(a: Meaning, f: nat, xs: set<nat>, b: Meaning)
    requires f !in a
    ensures f !in b ==> Difference(a[f := xs], b) == Difference(a, b)[f := xs]
    ensures f in b ==> var ys := xs - b[f];
                       Difference(a[f := xs], b) == if ys == {} then Difference(a, b) else Difference(a, b)[f := ys]
  {
    if f !in b {
      assert xs - Lookup(b, f) == xs;
    }
  }

  /** Intersection and subtraction split an array: no pair is lost or counted twice. */
  lemma IntersectPlusSubtractCounts(a: Meaning, b: Meaning)
    ensures |Pairs(Intersection(a, b))| + |Pairs(Difference(a, b))| == |Pairs(a)|
  {
    IntersectionIsIntersectionOfPairs(a, b);
    DifferenceIsDifferenceOfPairs(a, b);
    var pa, pb := Pairs(a), Pairs(b);
    assert pa == pa * pb + (pa - pb);
  }

  // ---- equality by size and one inclusion

  ghost function Keys(fs: seq<Format>): seq<nat> {
    seq(|fs|, i requires 0 <= i < |fs| => fs[i].format)
  }

  lemma MeaningSize(fs: seq<Format>)
    requires WellFormed(fs)
    ensures |MeaningOf(fs).Keys| == |fs|
  {
    DistinctCard(Keys(fs));
    forall f ensures f in MeaningOf(fs).Keys <==> f in Elements(Keys(fs)) {
      MeaningKeys(fs, f);
      if f in MeaningOf(fs) {
        var i :| 0 <= i < |fs| && fs[i].format == f;
        assert Keys(fs)[i] == f;
      }
    }
    assert MeaningOf(fs).Keys == Elements(Keys(fs));
  }

  /** Same sizes, and A's contents found in B: enough for the two arrays to mean the same. */
  lemma EqualFromInclusion(a: seq<Format>, b: seq<Format>)
    requires WellFormed(a) && WellFormed(b) && |a| == |b|
    requires forall i :: 0 <= i < |a| ==>
               a[i].format in MeaningOf(b) && MeaningOf(b)[a[i].format] == Elements(a[i].modifiers)
    ensures MeaningOf(a) == MeaningOf(b)
  {
    var ma, mb := MeaningOf(a), MeaningOf(b);
    forall f | f in ma ensures f in mb && ma[f] == mb[f] {
      MeaningKeys(a, f);
      var i :| 0 <= i < |a| && a[i].format == f;
      MeaningAt(a, i);
    }
    MeaningSize(a);
    MeaningSize(b);
    SubsetSameSize(ma.Keys, mb.Keys);
    assert ma.Keys == mb.Keys;
  }

  // ---- the code

  /** weston_drm_format_has_modifier */
  method HasModifier(f: Format, modifier: nat) returns (found: bool)
    ensures found <==> modifier in f.modifiers
  {
    for i := 0 to |f.modifiers|
      invariant modifier !in f.modifiers[..i]
    {
      if f.modifiers[i] == modifier { return true; }
    }
    return false;
  }

  /** modifiers_intersect and modifiers_subtract: A's modifiers that B has (keep) or lacks (!keep), in order. */
  method FilterModifiers(a: Format, b: Format, keep: bool) returns (result: seq<nat>)
    requires Distinct(a.modifiers)
    ensures Distinct(result)
    ensures Elements(result) == if keep then Elements(a.modifiers) * Elements(b.modifiers)
                                else Elements(a.modifiers) - Elements(b.modifiers)
  {
    result := [];
    for i := 0 to |a.modifiers|
      invariant Distinct(result)
      invariant Elements(result) == if keep then Elements(a.modifiers[..i]) * Elements(b.modifiers)
                                    else Elements(a.modifiers[..i]) - Elements(b.modifiers)
    {
      var m := a.modifiers[i];
      ElementsPrefix(a.modifiers, i);
      assert m !in Elements(a.modifiers[..i]);
      assert m !in Elements(result);
      var has := HasModifier(b, m);
      if has == keep {
        ElementsPush(result, m);
        result := result + [m];
      }
    }
    assert a.modifiers[..|a.modifiers|] == a.modifiers;
  }

  class FormatArray {
    var formats: seq<Format>

    ghost predicate Valid()
      reads this
    {
      WellFormed(formats)
    }

    ghost function Meaning(): Meaning
      reads this
    {
      MeaningOf(formats)
    }

    /** weston_drm_format_array_init */
    constructor ()
      ensures Valid() && formats == []
    {
      formats := [];
    }

    /** weston_drm_format_array_find_format */
    method FindFormat(format: nat) returns (at: int)
      ensures -1 <= at < |formats|
      ensures at >= 0 ==> formats[at].format == format
      ensures at < 0 <==> format !in Meaning()
    {
      MeaningKeys(formats, format);
      for i := 0 to |formats|
        invariant forall k :: 0 <= k < i ==> formats[k].format != format
      {
        if formats[i].format == format { return i; }
      }
      return -1;
    }

    /** weston_drm_format_array_add_format; the caller must not repeat a format. */
    method AddFormat(format: nat) returns (at: nat)
      requires Valid() && format !in Meaning()
      modifies this
      ensures Valid() && formats == old(formats) + [Format(format, [])] && at == |old(formats)|
      ensures Meaning() == old(Meaning())[format := {}]
    {
      MeaningKeys(formats, format);
      MeaningPush(formats, Format(format, []));
      assert Elements<nat>([]) == {};
      formats := formats + [Format(format, [])];
      at := |formats| - 1;
    }

    /** Store the modifier array of the format at an index. */
    method SetModifiers(at: nat, modifiers: seq<nat>)
      requires Valid() && at < |formats| && Distinct(modifiers)
      modifies this
      ensures Valid() && formats == old(formats)[at := Format(old(formats)[at].format, modifiers)]
      ensures Meaning() == old(Meaning())[old(formats)[at].format := Elements(modifiers)]
    {
      MeaningUpdate(formats, at, modifiers);
      formats := formats[at := formats[at].(modifiers := modifiers)];
    }

    /** weston_drm_format_add_modifier; the caller must not repeat a modifier. */
    method AddModifier(at: nat, modifier: nat)
      requires Valid() && at < |formats| && modifier !in formats[at].modifiers
      modifies this
      ensures Valid() && |formats| == |old(formats)|
      ensures formats[at] == Format(old(formats)[at].format, old(formats)[at].modifiers + [modifier])
      ensures Meaning() == var f := old(formats)[at].format;
                           old(Meaning())[f := Elements(old(formats)[at].modifiers) + {modifier}]
    {
      ElementsPush(formats[at].modifiers, modifier);
      SetModifiers(at, formats[at].modifiers + [modifier]);
    }

    /** weston_drm_format_array_remove_latest_format */
    method RemoveLatestFormat()
      requires Valid() && formats != []
      modifies this
      ensures Valid() && formats == old(formats)[..|old(formats)| - 1]
    {
      formats := formats[..|formats| - 1];
    }

    /** add_format_and_modifiers */
    method AddFormatAndModifiers(format: nat, modifiers: seq<nat>)
      requires Valid() && format !in Meaning() && Distinct(modifiers)
      modifies this
      ensures Valid() && formats == old(formats) + [Format(format, modifiers)]
      ensures Meaning() == old(Meaning())[format := Elements(modifiers)]
    {
      var at := AddFormat(format);
      SetModifiers(at, modifiers);
    }

    /** weston_drm_format_array_replace; the array is emptied before the source is read. */
    method Replace(source: FormatArray)
      requires source.Valid()
      modifies this
      ensures Valid() && formats == if source == this then [] else old(source.formats)
    {
      formats := [];
      if source == this { return; }
      for i := 0 to |source.formats|
        invariant Valid() && formats == source.formats[..i]
      {
        var f := source.formats[i];
        MeaningKeys(formats, f.format);
        AddFormatAndModifiers(f.format, f.modifiers);
      }
    }

    /** weston_drm_format_array_count_pairs */
    method CountPairs() returns (n: nat)
      requires Valid()
      ensures n == |Pairs(Meaning())| % U32
    {
      n := 0;
      for i := 0 to |formats|
        invariant n == ModifierCount(formats[..i]) % U32
      {
        assert formats[..i + 1][..i] == formats[..i];
        n := (n + |formats[i].modifiers|) % U32;
      }
      assert formats[..|formats|] == formats;
      ModifierCountIsPairs(formats);
    }

    /** Do two modifier arrays hold the same set? Sizes and one inclusion are compared. */
    static method SameModifiers(a: Format, b: Format) returns (same: bool)
      requires Distinct(a.modifiers) && Distinct(b.modifiers)
      ensures same <==> Elements(a.modifiers) == Elements(b.modifiers)
    {
      DistinctCard(a.modifiers);
      DistinctCard(b.modifiers);
      if |a.modifiers| != |b.modifiers| { return false; }
      for i := 0 to |a.modifiers|
        invariant Elements(a.modifiers[..i]) <= Elements(b.modifiers)
      {
        ElementsPrefix(a.modifiers, i);
        var has := HasModifier(b, a.modifiers[i]);
        if !has {
          assert a.modifiers[i] in Elements(a.modifiers);
          return false;
        }
      }
      assert a.modifiers[..|a.modifiers|] == a.modifiers;
      SubsetSameSize(Elements(a.modifiers), Elements(b.modifiers));
      return true;
    }

    /** weston_drm_format_array_equal */
    method Equal(other: FormatArray) returns (same: bool)
      requires Valid() && other.Valid()
      ensures same <==> Meaning() == other.Meaning()
    {
      MeaningSize(formats);
      MeaningSize(other.formats);
      if |formats| != |other.formats| { return false; }
      for i := 0 to |formats|
        invariant forall k :: 0 <= k < i ==>
                    formats[k].format in other.Meaning()
                    && other.Meaning()[formats[k].format] == Elements(formats[k].modifiers)
      {
        var a := formats[i];
        MeaningAt(formats, i);
        var at := other.FindFormat(a.format);
        if at < 0 { return false; }
        MeaningAt(other.formats, at);
        var eq := SameModifiers(a, other.formats[at]);
        if !eq { return false; }
      }
      EqualFromInclusion(formats, other.formats);
      return true;
    }

    /** The inner loop of join: add to one format the modifiers it does not have yet. */
    method JoinModifiers(at: nat, modifiers: seq<nat>)
      requires Valid() && at < |formats|
      modifies this
      ensures Valid() && |formats| == |old(formats)|
      ensures Meaning() == var f := old(formats)[at].format;
                           old(Meaning())[f := Elements(old(formats)[at].modifiers) + Elements(modifiers)]
      ensures Elements(modifiers) <= Elements(old(formats)[at].modifiers) ==> formats == old(formats)
    {
      MeaningAt(formats, at);
      ghost var f := formats[at].format;
      ghost var before := Elements(formats[at].modifiers);
      for i := 0 to |modifiers|
        invariant Valid() && |formats| == |old(formats)| && formats[at].format == f
        invariant Elements(formats[at].modifiers) == before + Elements(modifiers[..i])
        invariant Meaning() == old(Meaning())[f := before + Elements(modifiers[..i])]
        invariant Elements(modifiers) <= before ==> formats == old(formats)
      {
        ElementsPrefix(modifiers, i);
        assert modifiers[i] in Elements(modifiers);
        var has := HasModifier(formats[at], modifiers[i]);
        if !has {
          ElementsPush(formats[at].modifiers, modifiers[i]);
          AddModifier(at, modifiers[i]);
        }
      }
      assert modifiers[..|modifiers|] == modifiers;
    }

    /** One turn of join: find or add B's format, then join its modifiers. */
    method JoinFormat(b: Format)
      requires Valid()
      modifies this
      ensures Valid()
      ensures Meaning() == old(Meaning())[b.format := Lookup(old(Meaning()), b.format) + Elements(b.modifiers)]
      ensures b in old(formats) ==> formats == old(formats)
    {
      var at := FindFormat(b.format);
      if at < 0 {
        MeaningKeys(formats, b.format);
        at := AddFormat(b.format);
      }
      MeaningAt(formats, at);
      JoinModifiers(at, b.modifiers);
    }

    /** weston_drm_format_array_join: union, kept in this array. */
    method Join(other: FormatArray)
      requires Valid() && other.Valid()
      modifies this
      ensures Valid()
      ensures Meaning() == Union(old(Meaning()), old(other.Meaning()))
    {
      ghost var bs := other.formats;
      UnionEmpty(Meaning());
      for i := 0 to |other.formats|
        invariant Valid() && other.formats == bs
        invariant Meaning() == Union(old(Meaning()), MeaningOf(bs[..i]))
      {
        ghost var b := bs[i];
        MeaningKeys(bs[..i], b.format);
        assert bs[..i + 1][..i] == bs[..i];
        UnionStep(old(Meaning()), MeaningOf(bs[..i]), b.format, Elements(b.modifiers));
        JoinFormat(other.formats[i]);
      }
      assert bs[..|bs|] == bs;
    }

    /** weston_drm_format_array_intersect: intersection, kept in this array. */
    method Intersect(other: FormatArray)
      requires Valid() && other.Valid()
      modifies this
      ensures Valid()
      ensures Meaning() == Intersection(old(Meaning()), old(other.Meaning()))
    {
      var result := new FormatArray();
      for i := 0 to |formats|
        invariant fresh(result) && result.Valid()
        invariant formats == old(formats) && other.formats == old(other.formats)
        invariant result.Meaning() == Intersection(MeaningOf(formats[..i]), other.Meaning())
      {
        var a := formats[i];
        MeaningKeys(formats[..i], a.format);
        assert formats[..i + 1][..i] == formats[..i];
        IntersectionStep(MeaningOf(formats[..i]), a.format, Elements(a.modifiers), other.Meaning());
        var at := other.FindFormat(a.format);
        if at < 0 { continue; }
        MeaningAt(other.formats, at);
        result.AddOrDrop(a, other.formats[at], true);
      }
      assert formats[..|formats|] == formats;
      Replace(result);
    }

    /** weston_drm_format_array_subtract: difference, kept in this array. */
    method Subtract(other: FormatArray)
      requires Valid() && other.Valid()
      modifies this
      ensures Valid()
      ensures Meaning() == Difference(old(Meaning()), old(other.Meaning()))
    {
      var result := new FormatArray();
      for i := 0 to |formats|
        invariant fresh(result) && result.Valid()
        invariant formats == old(formats) && other.formats == old(other.formats)
        invariant result.Meaning() == Difference(MeaningOf(formats[..i]), other.Meaning())
      {
        var a := formats[i];
        MeaningKeys(formats[..i], a.format);
        assert formats[..i + 1][..i] == formats[..i];
        DifferenceStep(MeaningOf(formats[..i]), a.format, Elements(a.modifiers), other.Meaning());
        var at := other.FindFormat(a.format);
        if at < 0 {
          result.AddFormatAndModifiers(a.format, a.modifiers);
          continue;
        }
        MeaningAt(other.formats, at);
        result.AddOrDrop(a, other.formats[at], false);
      }
      assert formats[..|formats|] == formats;
      Replace(result);
    }

    /** The common step of intersect and subtract: add A's format, filter, take it off again if nothing is left. */
    method AddOrDrop(a: Format, b: Format, keep: bool)
      requires Valid() && a.format !in Meaning() && Distinct(a.modifiers)
      modifies this
      ensures Valid()
      ensures var ms := if keep then Elements(a.modifiers) * Elements(b.modifiers)
                        else Elements(a.modifiers) - Elements(b.modifiers);
              Meaning() == if ms == {} then old(Meaning()) else old(Meaning())[a.format := ms]
    {
      ghost var before := formats;
      var at := AddFormat(a.format);
      var ms := FilterModifiers(a, b, keep);
      SetModifiers(at, ms);
      if |formats[at].modifiers| == 0 {
        assert Elements(ms) == {};
        RemoveLatestFormat();
        assert formats == before;
      } else {
        assert ms[0] in Elements(ms);
      }
    }
  }
}
