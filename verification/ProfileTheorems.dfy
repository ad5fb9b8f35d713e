/**
 What holds of every sequence of setter calls on the profile builder, and of the
 profile that creation then hands to the colour manager.
 */
module ProfileTheorems {
  import opened Bytes
  import opened ProfileSpec
  import opened Triangle
  import opened TransferFunctions

  predicate OnChart(p: Point) {
    -1.0 <= p.x <= 2.0 && -1.0 <= p.y <= 2.0
  }

  /** Chromaticities in range, with the white point among the primaries. */
  predicate Sensible(g: Gamut) {
    && OnChart(g.red) && OnChart(g.green) && OnChart(g.blue) && OnChart(g.white)
    && Accepts(g.white, g.red, g.green, g.blue)
  }

  /** The parameters promised to the colour manager (struct weston_color_profile_params). */
  ghost predicate WellFormed(p: Params, mask: set<Group>) {
    && Sensible(p.primaries) && Sensible(p.targetPrimaries)
    && (p.primariesInfo.Some? ==> p.primaries == GamutOf(p.primariesInfo.value))
    && p.tf.Some? && (p.tf == Some(Power) ==> 1.0 <= p.tfExponent <= 10.0)
    && 0.0 <= p.minLum < p.maxLum <= 1000000.0
    && p.minLum < p.refLum <= 1000000.0
    && 0.0 <= p.targetMin < p.targetMax <= 1000000.0
    && (if MaxCLLGroup in mask then p.targetMin < p.maxCLL <= p.targetMax else p.maxCLL == -1.0)
    && (if MaxFALLGroup in mask then p.targetMin < p.maxFALL <= p.targetMax else p.maxFALL == -1.0)
    && (MaxCLLGroup in mask && MaxFALLGroup in mask ==> p.maxFALL <= p.maxCLL)
  }

  /** What every setter keeps true of the stored parameters. */
  ghost predicate Inv(b: Builder) {
    && (TfGroup in b.mask ==> b.params.tf.Some?)
    && (b.params.tf == Some(Power) ==> 1.0 <= b.params.tfExponent <= 10.0)
    && (b.params.primariesInfo.Some? ==>
          PrimariesGroup in b.mask && b.params.primaries == GamutOf(b.params.primariesInfo.value))
    && (LuminanceGroup in b.mask ==> b.params.minLum < b.params.refLum && b.params.minLum < b.params.maxLum)
    && (TargetLuminanceGroup in b.mask ==> b.params.targetMin < b.params.targetMax)
  }

  lemma ApplyKeepsInv(cm: Manager, b: Builder, op: Op)
    requires ManagerValid(cm) && Inv(b)
    ensures Inv(Apply(cm, b, op))
  {
  }

  lemma {:induction false} RunKeepsInv(cm: Manager, b: Builder, ops: seq<Op>)
    requires ManagerValid(cm) && Inv(b)
    ensures Inv(Run(cm, b, ops))
    decreases |ops|
  {
    if ops != [] {
      ApplyKeepsInv(cm, b, ops[0]);
      RunKeepsInv(cm, Apply(cm, b, ops[0]), ops[1..]);
    }
  }

  /** What completion leaves of the luminances: always ordered, and in range if they were defaulted. */
  lemma CompletedLuminance(b: Builder)
    requires Inv(b)
    ensures var p := Complete(b.params, b.mask);
            && p.minLum < p.maxLum && p.minLum < p.refLum
            && (LuminanceGroup !in b.mask ==> 0.0 <= p.minLum && p.maxLum <= MAX_LUM && p.refLum <= MAX_LUM)
            && (if TargetLuminanceGroup in b.mask then p.targetMin < p.targetMax
                else p.targetMin == p.minLum && p.targetMax == p.maxLum)
  {
  }

  lemma CompletedRest(b: Builder)
    requires Inv(b)
    ensures var p := Complete(b.params, b.mask);
            && p.primaries == b.params.primaries && p.primariesInfo == b.params.primariesInfo
            && p.tf == b.params.tf && p.tfExponent == b.params.tfExponent
            && (TargetPrimariesGroup !in b.mask ==> p.targetPrimaries == p.primaries)
            && (MaxCLLGroup !in b.mask ==> p.maxCLL == -1.0)
            && (MaxFALLGroup !in b.mask ==> p.maxFALL == -1.0)
  {
  }

  /** Validation of the completed parameters succeeds exactly when they are well formed. */
  lemma ValidIffWellFormed(b: Builder)
    requires Inv(b)
    ensures var p := Complete(b.params, b.mask);
            ValidationError(p, b.mask).None? <==>
              PrimariesGroup in b.mask && TfGroup in b.mask && WellFormed(p, b.mask)
  {
    CompletedLuminance(b);
    CompletedRest(b);
    ValidIff(b, Complete(b.params, b.mask));
  }

  lemma ValidIff(b: Builder, p: Params)
    requires Inv(b)
    requires p.minLum < p.maxLum && p.minLum < p.refLum
    requires LuminanceGroup !in b.mask ==> 0.0 <= p.minLum && p.maxLum <= MAX_LUM && p.refLum <= MAX_LUM
    requires if TargetLuminanceGroup in b.mask then p.targetMin < p.targetMax
             else p.targetMin == p.minLum && p.targetMax == p.maxLum
    requires p.primaries == b.params.primaries && p.primariesInfo == b.params.primariesInfo
    requires p.tf == b.params.tf && p.tfExponent == b.params.tfExponent
    requires TargetPrimariesGroup !in b.mask ==> p.targetPrimaries == p.primaries
    requires MaxCLLGroup !in b.mask ==> p.maxCLL == -1.0
    requires MaxFALLGroup !in b.mask ==> p.maxFALL == -1.0
    ensures ValidationError(p, b.mask).None? <==>
              PrimariesGroup in b.mask && TfGroup in b.mask && WellFormed(p, b.mask)
  {
  }

  /** True if no call of the sequence fails. */
  predicate AllSucceed(cm: Manager, b: Builder, ops: seq<Op>)
    decreases |ops|
  {
    ops == [] || (OpError(cm, b.mask, ops[0]).None? && AllSucceed(cm, Apply(cm, b, ops[0]), ops[1..]))
  }

  lemma {:induction false} ErrIffSomeFails(cm: Manager, b: Builder, ops: seq<Op>)
    requires b.err.None?
    ensures Run(cm, b, ops).err.None? <==> AllSucceed(cm, b, ops)
    decreases |ops|
  {
    if ops != [] {
      var b' := Apply(cm, b, ops[0]);
      if b'.err.None? {
        ErrIffSomeFails(cm, b', ops[1..]);
      } else {
        ErrorSticks(cm, b', ops[1..]);
      }
    }
  }

  /** Once there is an error, its code never changes. */
  lemma {:induction false} ErrorSticks(cm: Manager, b: Builder, ops: seq<Op>)
    requires b.err.Some?
    ensures Run(cm, b, ops).err == b.err
    decreases |ops|
  {
    if ops != [] { ErrorSticks(cm, Apply(cm, b, ops[0]), ops[1..]); }
  }

  /**
   For every sequence of setter calls: creation reaches the colour manager if and
   only if no call failed, primaries and transfer function were set, and the
   completed parameters are well formed; and then it passes on exactly those.
   */
  lemma ReachedIff(cm: Manager, ops: seq<Op>)
    requires ManagerValid(cm)
    ensures var b := Run(cm, FRESH, ops);
            var p := Complete(b.params, b.mask);
            && (Create(b).Reached? <==>
                  AllSucceed(cm, FRESH, ops) && PrimariesGroup in b.mask && TfGroup in b.mask && WellFormed(p, b.mask))
            && (Create(b).Reached? ==> Create(b).params == p)
  {
    RunKeepsInv(cm, FRESH, ops);
    ErrIffSomeFails(cm, FRESH, ops);
    ValidIffWellFormed(Run(cm, FRESH, ops));
  }

  lemma {:induction false} RunConcat(cm: Manager, b: Builder, a: seq<Op>, c: seq<Op>)
    ensures Run(cm, b, a + c) == Run(cm, Run(cm, b, a), c)
    decreases |a|
  {
    if a == [] {
      assert a + c == c;
    } else {
      assert (a + c)[1..] == a[1..] + c;
      RunConcat(cm, Apply(cm, b, a[0]), a[1..], c);
    }
  }

  /**
   The first call that fails decides: whatever is called before (without failing)
   and afterwards, creation fails with that call's error code.
   */
  lemma FirstFailureDecides(cm: Manager, before: seq<Op>, bad: Op, after: seq<Op>)
    requires AllSucceed(cm, FRESH, before)
    requires OpError(cm, Run(cm, FRESH, before).mask, bad).Some?
    ensures Create(Run(cm, FRESH, before + [bad] + after))
            == Failed(OpError(cm, Run(cm, FRESH, before).mask, bad).value)
  {
    var b := Run(cm, FRESH, before);
    ErrIffSomeFails(cm, FRESH, before);
    assert before + [bad] + after == before + ([bad] + after);
    RunConcat(cm, FRESH, before, [bad] + after);
    assert ([bad] + after)[1..] == after;
    ErrorSticks(cm, Apply(cm, b, bad), after);
  }

  /** A call that fails changes no parameter and marks no group. */
  lemma FailureChangesNothing(cm: Manager, b: Builder, op: Op)
    ensures OpError(cm, b.mask, op).Some? ==> Apply(cm, b, op).params == b.params && Apply(cm, b, op).mask == b.mask
    ensures OpError(cm, b.mask, op).None? ==> Apply(cm, b, op).mask == b.mask + {GroupOf(op)} && GroupOf(op) !in b.mask
  {
  }

  // ---- order does not matter

  /** Calls on different groups commute. */
  lemma Commute(cm: Manager, b: Builder, x: Op, y: Op)
    requires AllSucceed(cm, b, [x, y])
    ensures AllSucceed(cm, b, [y, x])
    ensures Run(cm, b, [x, y]) == Run(cm, b, [y, x])
  {
    SucceedTwo(cm, b, x, y);
    SucceedTwo(cm, b, y, x);
    var b1, b2 := Apply(cm, b, x), Apply(cm, b, y);
    assert GroupOf(x) != GroupOf(y);
    WritesCommute(b.params, x, y);
    assert b1.mask + {GroupOf(y)} == b2.mask + {GroupOf(x)};
  }

  lemma SucceedTwo(cm: Manager, b: Builder, x: Op, y: Op)
    ensures AllSucceed(cm, b, [x, y]) <==>
              OpError(cm, b.mask, x).None? && OpError(cm, Apply(cm, b, x).mask, y).None?
    ensures Run(cm, b, [x, y]) == Apply(cm, Apply(cm, b, x), y)
  {
    assert [x, y][1..] == [y] && [y][1..] == [];
    assert AllSucceed(cm, Apply(cm, b, x), [y]) <==> OpError(cm, Apply(cm, b, x).mask, y).None?;
    assert Run(cm, Apply(cm, b, x), [y]) == Apply(cm, Apply(cm, b, x), y);
  }

  lemma WritesCommute(p: Params, x: Op, y: Op)
    requires GroupOf(x) != GroupOf(y)
    ensures Written(Written(p, x), y) == Written(Written(p, y), x)
  {
  }

  lemma {:induction false} SucceedConcat(cm: Manager, b: Builder, a: seq<Op>, c: seq<Op>)
    ensures AllSucceed(cm, b, a + c) <==> AllSucceed(cm, b, a) && AllSucceed(cm, Run(cm, b, a), c)
    decreases |a|
  {
    if a == [] {
      assert a + c == c;
    } else {
      assert (a + c)[1..] == a[1..] + c;
      SucceedConcat(cm, Apply(cm, b, a[0]), a[1..], c);
    }
  }

  /** A call can be made first instead of after some others. */
  lemma {:induction false} MoveToFront(cm: Manager, b: Builder, a: seq<Op>, x: Op)
    requires AllSucceed(cm, b, a + [x])
    ensures AllSucceed(cm, b, [x] + a)
    ensures Run(cm, b, [x] + a) == Run(cm, b, a + [x])
    decreases |a|
  {
    if a == [] {
      assert a + [x] == [x] + a;
    } else {
      var y, rest := a[0], a[1..];
      var b2 := Apply(cm, b, y);
      assert (a + [x])[1..] == rest + [x];
      MoveToFront(cm, b2, rest, x);
      // y, x, rest  becomes  x, y, rest
      assert [y, x] + rest == [y] + ([x] + rest);
      assert ([y, x] + rest)[1..] == [x] + rest;
      assert AllSucceed(cm, b, [y, x] + rest);
      SucceedConcat(cm, b, [y, x], rest);
      RunConcat(cm, b, [y, x], rest);
      Commute(cm, b, y, x);
      SucceedConcat(cm, b, [x, y], rest);
      RunConcat(cm, b, [x, y], rest);
      assert [x] + a == [x, y] + rest;
    }
  }

  lemma MoveFromMiddle(cm: Manager, b: Builder, a: seq<Op>, x: Op, c: seq<Op>)
    requires AllSucceed(cm, b, a + [x] + c)
    ensures AllSucceed(cm, b, [x] + (a + c))
    ensures Run(cm, b, [x] + (a + c)) == Run(cm, b, a + [x] + c)
  {
    SucceedConcat(cm, b, a + [x], c);
    RunConcat(cm, b, a + [x], c);
    MoveToFront(cm, b, a, x);
    SucceedConcat(cm, b, [x] + a, c);
    RunConcat(cm, b, [x] + a, c);
    assert [x] + (a + c) == [x] + a + c;
  }

  /** Any order of the calls of a successful sequence is successful too, and builds the same. */
  lemma {:induction false} OrderIrrelevant(cm: Manager, b: Builder, a: seq<Op>, c: seq<Op>)
    requires AllSucceed(cm, b, a) && multiset(a) == multiset(c)
    ensures AllSucceed(cm, b, c)
    ensures Run(cm, b, c) == Run(cm, b, a)
    decreases |c|
  {
    if c == [] {
      assert |multiset(a)| == |multiset(c)|;
      assert a == [];
    } else {
      var x := c[0];
      FirstElement(c);
      var l, r := SplitAt(a, x, c[1..]);
      MoveFromMiddle(cm, b, l, x, r);
      assert ([x] + (l + r))[1..] == l + r;
      OrderIrrelevant(cm, Apply(cm, b, x), l + r, c[1..]);
    }
  }

  /** A permutation of x, t holds x somewhere, and the rest of it is a permutation of t. */
  lemma SplitAt<T>(a: seq<T>, x: T, t: seq<T>) returns (l: seq<T>, r: seq<T>)
    requires multiset(a) == multiset(t) + multiset{x}
    ensures a == l + [x] + r && multiset(l + r) == multiset(t)
  {
    l, r := Find(a, x);
    WithElement(l, x, r);
    Cancel(multiset(l + r), multiset(t), x);
  }

  lemma Find<T>(a: seq<T>, x: T) returns (l: seq<T>, r: seq<T>)
    requires x in multiset(a)
    ensures a == l + [x] + r
  {
    var i :| 0 <= i < |a| && a[i] == x;
    l, r := a[..i], a[i + 1..];
  }

  lemma FirstElement<T>(c: seq<T>)
    requires c != []
    ensures multiset(c) == multiset(c[1..]) + multiset{c[0]}
  {
    assert c == [c[0]] + c[1..];
  }

  lemma WithElement<T>(l: seq<T>, x: T, r: seq<T>)
    ensures multiset(l + [x] + r) == multiset(l + r) + multiset{x}
  {
  }

  lemma Cancel<T>(m: multiset<T>, n: multiset<T>, x: T)
    requires m + multiset{x} == n + multiset{x}
    ensures m == n
  {
    assert m == m + multiset{x} - multiset{x};
    assert n == n + multiset{x} - multiset{x};
  }

  // ---- the named gamuts

  /** No named gamut is ever rejected by validation. */
  lemma NamedGamutsValid(p: Primaries)
    ensures GamutValid(GamutOf(p))
  {
  }

  const D65: Point := Point(0.3127, 0.3290)

  /** Red is the rightmost and green the topmost primary, and the white points are those of the standards. */
  lemma NamedGamutsStandard(p: Primaries)
    ensures var g := GamutOf(p);
            && g.red.x > g.green.x && g.red.x > g.blue.x && g.green.y > g.red.y && g.green.y > g.blue.y
            && (p in {SRGB, Pal, Ntsc, BT2020, DisplayP3, AdobeRGB} <==> g.white == D65)
            && (p in {PalM, GenericFilm} <==> g.white == Point(0.3101, 0.3162))
            && (p == DciP3 <==> g.white == Point(0.314, 0.351))
            && (p == CIE1931XYZ <==> g.white == Point(0.3333, 0.3333))
    ensures GamutOf(SRGB) == Gamut(Point(0.64, 0.33), Point(0.3, 0.6), Point(0.15, 0.06), D65)
    ensures GamutOf(BT2020) == Gamut(Point(0.708, 0.292), Point(0.17, 0.797), Point(0.131, 0.046), D65)
    ensures GamutOf(Ntsc) == Gamut(Point(0.63, 0.34), Point(0.31, 0.595), Point(0.155, 0.07), D65)
    ensures GamutOf(PalM).red == Point(0.67, 0.33) && GamutOf(PalM).green == Point(0.21, 0.71)
    ensures GamutOf(PalM).blue == Point(0.14, 0.08)
    ensures GamutOf(GenericFilm).red == Point(0.681, 0.319) && GamutOf(GenericFilm).green == Point(0.243, 0.692)
    ensures GamutOf(GenericFilm).blue == Point(0.145, 0.049)
    ensures GamutOf(CIE1931XYZ).red == Point(1.0, 0.0) && GamutOf(CIE1931XYZ).green == Point(0.0, 1.0)
    ensures GamutOf(CIE1931XYZ).blue == Point(0.0, 0.0)
    ensures GamutOf(DisplayP3) == Gamut(Point(0.68, 0.32), Point(0.265, 0.69), Point(0.15, 0.06), D65)
    ensures GamutOf(DisplayP3) == GamutOf(DciP3).(white := D65)
    ensures GamutOf(AdobeRGB) == GamutOf(SRGB).(green := GamutOf(PalM).green)
    ensures GamutOf(Pal) == GamutOf(SRGB).(green := Point(0.29, 0.6))
  {
  }
}
