/**
 What a caller of the profile builder gets, in terms of its own calls: which
 calls fail and how, and that the arguments of the others, or fixed defaults,
 reach the colour manager. Source:
 libweston-vendored/src/libweston/color-profile-param-builder.c.
 */
module ProfileArguments {
  import opened Bytes
  import opened TransferFunctions
  import opened ProfileSpec
  import opened ProfileTheorems

  // ---- which calls fail, and with which code

  /** Both calls set the same thing. */
  predicate Rivals(a: Op, b: Op) {
    || ((a.SetPrimaries? || a.SetPrimariesNamed?) && (b.SetPrimaries? || b.SetPrimariesNamed?))
    || ((a.SetTfNamed? || a.SetTfPower?) && (b.SetTfNamed? || b.SetTfPower?))
    || (a.SetLuminance? && b.SetLuminance?)
    || ((a.SetTargetPrimaries? || a.SetTargetPrimariesNamed?) && (b.SetTargetPrimaries? || b.SetTargetPrimariesNamed?))
    || (a.SetTargetLuminance? && b.SetTargetLuminance?)
    || (a.SetMaxFALL? && b.SetMaxFALL?)
    || (a.SetMaxCLL? && b.SetMaxCLL?)
  }

  /** What a call fails with when the colour manager does not support it. */
  function Refusal(cm: Manager, op: Op): Option<Error> {
    if op.SetPrimariesNamed? && op.named !in cm.primaries then Some(InvalidPrimariesNamed)
    else if op.SetTfNamed? && op.tf !in cm.tfs then Some(InvalidTf)
    else if op.SetPrimaries? && SetPrimariesFeature !in cm.features then Some(Unsupported)
    else if op.SetTfPower? && SetTfPowerFeature !in cm.features then Some(Unsupported)
    else if op.SetLuminance? && SetLuminancesFeature !in cm.features then Some(Unsupported)
    else if (op.SetTargetPrimaries? || op.SetTargetPrimariesNamed? || op.SetTargetLuminance?)
            && MasteringFeature !in cm.features then Some(Unsupported)
    else None
  }

  /** What a call fails with for its arguments. */
  function Objection(op: Op): Option<Error> {
    if op.SetTfPower? && (op.exponent < 1.0 || op.exponent > 10.0) then Some(InvalidTf)
    else if op.SetLuminance? && (op.lo >= op.ref || op.lo >= op.hi) then Some(InvalidLuminance)
    else if op.SetTargetLuminance? && op.lo >= op.hi then Some(InvalidLuminance)
    else None
  }

  lemma SameGroupIffRivals(a: Op, b: Op)
    ensures GroupOf(a) == GroupOf(b) <==> Rivals(a, b)
  {
  }

  lemma {:induction false} MaskOfSuccess(cm: Manager, b: Builder, ops: seq<Op>, g: Group)
    requires AllSucceed(cm, b, ops)
    ensures g in Run(cm, b, ops).mask <==> g in b.mask || exists i :: 0 <= i < |ops| && GroupOf(ops[i]) == g
    decreases |ops|
  {
    if ops != [] {
      var more := ops[1..];
      MaskOfSuccess(cm, Apply(cm, b, ops[0]), more, g);
      assert forall i :: 0 <= i < |more| ==> more[i] == ops[i + 1];
      if i :| 0 <= i < |ops| && GroupOf(ops[i]) == g {
        assert i > 0 ==> GroupOf(more[i - 1]) == g;
      }
    }
  }

  /** The code a call fails with after calls that succeeded: refused, set before, or objected to, in this order. */
  lemma SetterErrorIs(cm: Manager, before: seq<Op>, op: Op)
    requires AllSucceed(cm, FRESH, before)
    ensures OpError(cm, Run(cm, FRESH, before).mask, op) ==
            if Refusal(cm, op).Some? then Refusal(cm, op)
            else if exists i :: 0 <= i < |before| && Rivals(before[i], op) then Some(AlreadySet)
            else Objection(op)
  {
    MaskOfSuccess(cm, FRESH, before, GroupOf(op));
    forall i | 0 <= i < |before| ensures GroupOf(before[i]) == GroupOf(op) <==> Rivals(before[i], op) {
      SameGroupIffRivals(before[i], op);
    }
    assert SupportError(cm, op) == Refusal(cm, op) && ArgumentError(op) == Objection(op);
  }

  predicate Acceptable(cm: Manager, op: Op) {
    Refusal(cm, op).None? && Objection(op).None?
  }

  predicate NoRivals(ops: seq<Op>) {
    forall i, j :: 0 <= i < j < |ops| ==> !Rivals(ops[i], ops[j])
  }

  /** All calls succeed if and only if each is acceptable by itself and no two set the same thing. */
  lemma {:induction false} AllSucceedIff(cm: Manager, ops: seq<Op>)
    ensures AllSucceed(cm, FRESH, ops) <==>
              (forall i :: 0 <= i < |ops| ==> Acceptable(cm, ops[i])) && NoRivals(ops)
    decreases |ops|
  {
    if ops != [] {
      var n := |ops| - 1;
      var front, last := ops[..n], ops[n];
      AllSucceedIff(cm, front);
      assert ops == front + [last];
      SucceedConcat(cm, FRESH, front, [last]);
      LastSucceeds(cm, Run(cm, FRESH, front), last);
      assert forall i :: 0 <= i < n ==> front[i] == ops[i];
      if AllSucceed(cm, FRESH, front) {
        SetterErrorIs(cm, front, last);
      }
      if (forall i :: 0 <= i < |ops| ==> Acceptable(cm, ops[i])) && NoRivals(ops) {
        assert NoRivals(front) && Acceptable(cm, ops[n]);
      }
    }
  }

  lemma LastSucceeds(cm: Manager, b: Builder, op: Op)
    ensures AllSucceed(cm, b, [op]) <==> OpError(cm, b.mask, op).None?
  {
    assert AllSucceed(cm, Apply(cm, b, op), [op][1..]);
  }

  // ---- the arguments reach the colour manager

  /** The arguments of a call stand in the parameters handed over. */
  predicate Stands(p: Params, op: Op) {
    match op
    case SetPrimaries(g) => p.primaries == g && p.primariesInfo == None
    case SetPrimariesNamed(n) => p.primaries == GamutOf(n) && p.primariesInfo == Some(n)
    case SetTfNamed(tf) => p.tf == Some(tf)
    case SetTfPower(e) => p.tf == Some(Power) && p.tfExponent == e
    case SetLuminance(ref, lo, hi) =>
      p.refLum == ref && p.minLum == lo && p.maxLum == if p.tf == Some(PQ) then lo + 10000.0 else hi
    case SetTargetPrimaries(g) => p.targetPrimaries == g
    case SetTargetPrimariesNamed(n) => p.targetPrimaries == GamutOf(n)
    case SetTargetLuminance(lo, hi) => p.targetMin == lo && p.targetMax == hi
    case SetMaxFALL(v) => p.maxFALL == v
    case SetMaxCLL(v) => p.maxCLL == v
  }

  /** The same before completion. */
  predicate Kept(b: Builder, op: Op) {
    && GroupOf(op) in b.mask
    && (if op.SetLuminance? then b.params.refLum == op.ref && b.params.minLum == op.lo && b.params.maxLum == op.hi
        else Stands(b.params, op))
  }

  /** No name is stored while the primaries are not set. */
  predicate Unnamed(b: Builder) {
    PrimariesGroup !in b.mask ==> b.params.primariesInfo == None
  }

  lemma ApplyKeeps(cm: Manager, b: Builder, next: Op, op: Op)
    requires Kept(b, op)
    ensures Kept(Apply(cm, b, next), op)
  {
  }

  lemma ApplySets(cm: Manager, b: Builder, op: Op)
    requires OpError(cm, b.mask, op).None? && Unnamed(b)
    ensures Kept(Apply(cm, b, op), op)
  {
  }

  lemma ApplyUnnamed(cm: Manager, b: Builder, op: Op)
    requires Unnamed(b)
    ensures Unnamed(Apply(cm, b, op))
  {
  }

  lemma {:induction false} RunKept(cm: Manager, b: Builder, ops: seq<Op>, op: Op)
    requires Kept(b, op)
    ensures Kept(Run(cm, b, ops), op)
    decreases |ops|
  {
    if ops != [] {
      ApplyKeeps(cm, b, ops[0], op);
      RunKept(cm, Apply(cm, b, ops[0]), ops[1..], op);
    }
  }

  lemma {:induction false} RunSets(cm: Manager, b: Builder, ops: seq<Op>, i: nat)
    requires AllSucceed(cm, b, ops) && i < |ops| && Unnamed(b)
    ensures Kept(Run(cm, b, ops), ops[i])
    decreases |ops|
  {
    var b' := Apply(cm, b, ops[0]);
    ApplyUnnamed(cm, b, ops[0]);
    if i == 0 {
      ApplySets(cm, b, ops[0]);
      RunKept(cm, b', ops[1..], ops[0]);
    } else {
      RunSets(cm, b', ops[1..], i - 1);
    }
  }

  lemma CompletionKeeps(b: Builder, op: Op)
    requires Kept(b, op) && TfGroup in b.mask
    ensures Stands(Complete(b.params, b.mask), op)
  {
  }

  /** A successful creation hands over the arguments of every call. */
  lemma ArgumentsStand(cm: Manager, ops: seq<Op>, i: nat)
    requires ManagerValid(cm) && Create(Run(cm, FRESH, ops)).Reached? && i < |ops|
    ensures Stands(Create(Run(cm, FRESH, ops)).params, ops[i])
  {
    ReachedIff(cm, ops);
    RunSets(cm, FRESH, ops, i);
    CompletionKeeps(Run(cm, FRESH, ops), ops[i]);
  }

  // ---- and defaults where nothing was called

  predicate Calls(ops: seq<Op>, op: Op) {
    exists i :: 0 <= i < |ops| && Rivals(ops[i], op)
  }

  predicate LuminancesAre(p: Params, ref: real, lo: real, hi: real) {
    p.refLum == ref && p.minLum == lo && p.maxLum == hi
  }

  lemma GroupNotCalled(cm: Manager, ops: seq<Op>, op: Op)
    requires AllSucceed(cm, FRESH, ops)
    ensures GroupOf(op) in Run(cm, FRESH, ops).mask <==> Calls(ops, op)
  {
    MaskOfSuccess(cm, FRESH, ops, GroupOf(op));
    forall i | 0 <= i < |ops| ensures GroupOf(ops[i]) == GroupOf(op) <==> Rivals(ops[i], op) {
      SameGroupIffRivals(ops[i], op);
    }
  }

  /** What completion fills in, in numbers. */
  lemma CompletionFillsIn(b: Builder, p: Params)
    requires TfGroup in b.mask && p == Complete(b.params, b.mask)
    ensures LuminanceGroup !in b.mask ==> DefaultLuminances(p)
    ensures TargetPrimariesGroup !in b.mask ==> p.targetPrimaries == p.primaries
    ensures TargetLuminanceGroup !in b.mask ==> p.targetMin == p.minLum && p.targetMax == p.maxLum
    ensures MaxCLLGroup !in b.mask ==> p.maxCLL == -1.0
    ensures MaxFALLGroup !in b.mask ==> p.maxFALL == -1.0
  {
  }

  predicate DefaultLuminances(p: Params) {
    if p.tf == Some(BT1886) then LuminancesAre(p, 100.0, 0.01, 100.0)
    else if p.tf == Some(PQ) then LuminancesAre(p, 203.0, 0.005, 10000.0)
    else if p.tf == Some(HLG) then LuminancesAre(p, 203.0, 0.005, 1000.0)
    else LuminancesAre(p, 80.0, 0.2, 80.0)
  }

  /** What no call has set has its default, and primaries and transfer function have been set. */
  lemma DefaultsStand(cm: Manager, ops: seq<Op>)
    requires ManagerValid(cm) && Create(Run(cm, FRESH, ops)).Reached?
    ensures var p := Create(Run(cm, FRESH, ops)).params;
            && (!Calls(ops, SetLuminance(0.0, 0.0, 0.0)) ==> DefaultLuminances(p))
            && (!Calls(ops, SetTargetPrimaries(NO_GAMUT)) ==> p.targetPrimaries == p.primaries)
            && (!Calls(ops, SetTargetLuminance(0.0, 0.0)) ==> p.targetMin == p.minLum && p.targetMax == p.maxLum)
            && (!Calls(ops, SetMaxCLL(0.0)) ==> p.maxCLL == -1.0)
            && (!Calls(ops, SetMaxFALL(0.0)) ==> p.maxFALL == -1.0)
            && Calls(ops, SetPrimaries(NO_GAMUT)) && Calls(ops, SetTfPower(1.0))
  {
    ReachedIff(cm, ops);
    var b := Run(cm, FRESH, ops);
    CompletionFillsIn(b, Complete(b.params, b.mask));
    GroupNotCalled(cm, ops, SetLuminance(0.0, 0.0, 0.0));
    GroupNotCalled(cm, ops, SetTargetPrimaries(NO_GAMUT));
    GroupNotCalled(cm, ops, SetTargetLuminance(0.0, 0.0));
    GroupNotCalled(cm, ops, SetMaxCLL(0.0));
    GroupNotCalled(cm, ops, SetMaxFALL(0.0));
    GroupNotCalled(cm, ops, SetPrimaries(NO_GAMUT));
    GroupNotCalled(cm, ops, SetTfPower(1.0));
  }

  // ---- the code creation fails with

  predicate LevelFits(v: real, p: Params) {
    0.0 < v <= 1000000.0 && p.targetMin < v <= p.targetMax
  }

  /** The content light levels that were set are in the target volume and in order. */
  predicate LevelsFit(cll: bool, fall: bool, p: Params) {
    && (cll ==> LevelFits(p.maxCLL, p)) && (fall ==> LevelFits(p.maxFALL, p))
    && (cll && fall ==> p.maxFALL <= p.maxCLL)
  }

  predicate LuminancesFit(p: Params) {
    && 0.0 < p.refLum <= 1000000.0 && 0.0 <= p.minLum <= 1000000.0 && 0.0 < p.maxLum <= 1000000.0
    && 0.0 <= p.targetMin <= 1000000.0 && 0.0 < p.targetMax <= 1000000.0
  }

  lemma LightLevelErrorIs(p: Params, mask: set<Group>)
    ensures LightLevelError(p, mask) ==
            if LevelsFit(MaxCLLGroup in mask, MaxFALLGroup in mask, p) then None else Some(InvalidLuminance)
  {
  }

  lemma VolumeErrorIs(p: Params, mask: set<Group>)
    requires PrimariesGroup in mask
    requires TargetPrimariesGroup !in mask ==> p.targetPrimaries == p.primaries
    requires LuminanceGroup !in mask ==> LuminanceValid(p)
    requires TargetLuminanceGroup !in mask ==> p.targetMin == p.minLum && p.targetMax == p.maxLum
    ensures VolumeError(p, mask) ==
            if !Sensible(p.primaries) || !Sensible(p.targetPrimaries) then Some(CieOutOfRange)
            else if !LuminancesFit(p) then Some(InvalidLuminance)
            else None
  {
    SensibleIsValid(p.primaries);
    SensibleIsValid(p.targetPrimaries);
  }

  lemma SensibleIsValid(g: Gamut)
    ensures Sensible(g) <==> GamutValid(g)
  {
  }

  lemma ValidationErrorIs(b: Builder, p: Params)
    requires Inv(b) && p == Complete(b.params, b.mask)
    ensures ValidationError(p, b.mask) ==
            if PrimariesGroup !in b.mask || TfGroup !in b.mask then Some(IncompleteSet)
            else if !LevelsFit(MaxCLLGroup in b.mask, MaxFALLGroup in b.mask, p) then Some(InvalidLuminance)
            else if !Sensible(p.primaries) || !Sensible(p.targetPrimaries) then Some(CieOutOfRange)
            else if !LuminancesFit(p) then Some(InvalidLuminance)
            else None
  {
    CompletedLuminance(b);
    CompletedRest(b);
    LightLevelErrorIs(p, b.mask);
    if PrimariesGroup in b.mask {
      VolumeErrorIs(p, b.mask);
    }
  }

  /** After calls that all succeeded, creation fails with the first of these, and else hands the parameters over. */
  lemma CreationIs(cm: Manager, ops: seq<Op>)
    requires ManagerValid(cm) && AllSucceed(cm, FRESH, ops)
    ensures var b := Run(cm, FRESH, ops);
            var p := Complete(b.params, b.mask);
            Create(b) ==
            if !Calls(ops, SetPrimaries(NO_GAMUT)) || !Calls(ops, SetTfPower(1.0)) then Failed(IncompleteSet)
            else if !LevelsFit(Calls(ops, SetMaxCLL(0.0)), Calls(ops, SetMaxFALL(0.0)), p) then Failed(InvalidLuminance)
            else if !Sensible(p.primaries) || !Sensible(p.targetPrimaries) then Failed(CieOutOfRange)
            else if !LuminancesFit(p) then Failed(InvalidLuminance)
            else Reached(p)
  {
    RunKeepsInv(cm, FRESH, ops);
    ErrIffSomeFails(cm, FRESH, ops);
    var b := Run(cm, FRESH, ops);
    ValidationErrorIs(b, Complete(b.params, b.mask));
    GroupNotCalled(cm, ops, SetMaxCLL(0.0));
    GroupNotCalled(cm, ops, SetMaxFALL(0.0));
    GroupNotCalled(cm, ops, SetPrimaries(NO_GAMUT));
    GroupNotCalled(cm, ops, SetTfPower(1.0));
  }
}
