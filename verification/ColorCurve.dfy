/**
 Colour curves over three channels: sampling, inversion and the reduction of a
 transform to one curve. Source:
 libweston-vendored/src/libweston/color-operations.c, color.c and
 color-properties.c.
 */
module ColorCurve {
  import opened Bytes
  import opened Reals
  import opened Power
  import opened Curves
  import opened CurveInverse
  import opened CurveSigns
  import opened CurveRange
  import opened CurveThreshold
  import opened Srgb
  import opened TransferFunctions
  import opened Vectors
  import Pq

  datatype Kind = LINPOW | POWLIN

  datatype Parametric = Parametric(kind: Kind, chan: seq<Chan>, clamped: bool)

  datatype Direction = FORWARD | INVERSE

  datatype Curve =
    | Identity
    | Lut3x1d(id: nat)
    /** The exponent is the parameter of Power; the other functions have none. */
    | Enumerated(tf: Tf, exponent: real, direction: Direction)
    | Param(p: Parametric)

  // ---- the curve of a named transfer function

  function Uniform(kind: Kind, c: Chan, clamped: bool): Parametric {
    Parametric(kind, [c, c, c], clamped)
  }

  function PowerLaw(g: real): Chan {
    Chan(g, 1.0, 0.0, 1.0, 0.0)
  }

  function TabledPower(g: real, direction: Direction): Parametric
    requires g != 0.0
  {
    Uniform(LINPOW, PowerLaw(if direction == FORWARD then g else 1.0 / g), true)
  }

  function TabledSrgb(direction: Direction, clamped: bool): Parametric {
    if direction == FORWARD then Uniform(LINPOW, SRGB_CHAN, clamped) else Uniform(POWLIN, SRGB_INVERSE_CHAN, clamped)
  }

  /** weston_color_curve_enum_get_parametric; the exponent 0 has no inverse. */
  function EnumParametric(tf: Tf, e: real, direction: Direction): Option<Parametric> {
    match tf
    case Power =>
      if direction == FORWARD then Some(Uniform(LINPOW, PowerLaw(e), false))
      else if e != 0.0 then Some(Uniform(LINPOW, PowerLaw(1.0 / e), false))
      else None
    case BT1886 => Some(TabledPower(2.4, direction))
    case Gamma22 => Some(TabledPower(2.2, direction))
    case Gamma28 => Some(TabledPower(2.8, direction))
    case TfSRGB => Some(TabledSrgb(direction, true))
    case ExtSRGB => Some(TabledSrgb(direction, false))
    case _ => None
  }

  // ---- what a curve does to a colour

  predicate WellFormed(c: Curve) {
    match c
    case Param(p) => |p.chan| == 3
    case _ => true
  }

  function EvalChan(pow: Pow, kind: Kind, c: Chan, x: real): real {
    if kind == LINPOW then Linpow(pow, c, x) else Powlin(pow, c, x)
  }

  function EvalParametric(pow: Pow, p: Parametric, v: Vec3): Vec3
    requires |p.chan| == 3
  {
    var t := if p.clamped then ClampVec(v, 0.0, 1.0) else v;
    Vec3(EvalChan(pow, p.kind, p.chan[0], t.x), EvalChan(pow, p.kind, p.chan[1], t.y), EvalChan(pow, p.kind, p.chan[2], t.z))
  }

  /** One channel of the perceptual quantizer, with its clamped input. */
  ghost function EvalPq(pow: Pow, direction: Direction, x: real): real
    requires Laws(pow)
  {
    var t := Clamp(x, 0.0, 1.0);
    Pq.DefinedOnUnit(pow, t);
    if direction == FORWARD then Pq.Quantizer(pow, t) else Pq.QuantizerInverse(pow, t)
  }

  ghost function EvalPqVec(pow: Pow, direction: Direction, v: Vec3): Vec3
    requires Laws(pow)
  {
    Vec3(EvalPq(pow, direction, v.x), EvalPq(pow, direction, v.y), EvalPq(pow, direction, v.z))
  }

  /** The curves sampling handles; it asserts on the others. */
  predicate Sampleable(c: Curve) {
    match c
    case Enumerated(tf, e, direction) => tf == PQ || EnumParametric(tf, e, direction).Some?
    case Param(p) => |p.chan| == 3
    case _ => false
  }

  ghost function Eval(pow: Pow, c: Curve, v: Vec3): Vec3
    requires Laws(pow) && Sampleable(c)
  {
    match c
    case Enumerated(tf, e, direction) =>
      if tf == PQ then EvalPqVec(pow, direction, v)
      else EvalParametric(pow, EnumParametric(tf, e, direction).value, v)
    case Param(p) => EvalParametric(pow, p, v)
  }

  predicate Usable(c: Curve) {
    Sampleable(c) || c.Identity? || c.Lut3x1d?
  }

  /** What a curve step does; luts gives the meaning of the look-up tables. */
  ghost function Step(pow: Pow, luts: (nat, Vec3) -> Vec3, c: Curve, v: Vec3): Vec3
    requires Laws(pow) && Usable(c)
  {
    match c
    case Identity => v
    case Lut3x1d(id) => luts(id, v)
    case _ => Eval(pow, c, v)
  }

  // ---- sampling arrays

  /** sample_linpow and sample_powlin; the two arrays may be the same one. */
  method SampleParametric(pow: Pow, p: Parametric, src: array<Vec3>, dst: array<Vec3>, len: nat)
    requires |p.chan| == 3 && len <= src.Length && len <= dst.Length
    modifies dst
    ensures forall i :: 0 <= i < len ==> dst[i] == EvalParametric(pow, p, old(src[i]))
    ensures forall i :: len <= i < dst.Length ==> dst[i] == old(dst[i])
  {
    for i := 0 to len
      invariant forall j :: 0 <= j < i ==> dst[j] == EvalParametric(pow, p, old(src[j]))
      invariant forall j :: i <= j < dst.Length ==> dst[j] == old(dst[j])
      invariant forall j :: i <= j < len ==> src[j] == old(src[j])
    {
      var tmp := src[i];
      if p.clamped {
        tmp := ClampVec(tmp, 0.0, 1.0);
      }
      if p.kind == LINPOW {
        dst[i] := Vec3(Linpow(pow, p.chan[0], tmp.x), Linpow(pow, p.chan[1], tmp.y), Linpow(pow, p.chan[2], tmp.z));
      } else {
        dst[i] := Vec3(Powlin(pow, p.chan[0], tmp.x), Powlin(pow, p.chan[1], tmp.y), Powlin(pow, p.chan[2], tmp.z));
      }
    }
  }

  /** One colour of sample_pq. */
  method PqColor(pow: Pow, direction: Direction, v: Vec3) returns (r: Vec3)
    requires Laws(pow)
    ensures r == EvalPqVec(pow, direction, v)
  {
    var t := ClampVec(v, 0.0, 1.0);
    Pq.DefinedOnUnit(pow, t.x);
    Pq.DefinedOnUnit(pow, t.y);
    Pq.DefinedOnUnit(pow, t.z);
    if direction == FORWARD {
      return Vec3(Pq.Quantizer(pow, t.x), Pq.Quantizer(pow, t.y), Pq.Quantizer(pow, t.z));
    } else {
      return Vec3(Pq.QuantizerInverse(pow, t.x), Pq.QuantizerInverse(pow, t.y), Pq.QuantizerInverse(pow, t.z));
    }
  }

  method SamplePq(pow: Pow, direction: Direction, src: array<Vec3>, dst: array<Vec3>, len: nat)
    requires Laws(pow) && len <= src.Length && len <= dst.Length
    modifies dst
    ensures forall i :: 0 <= i < len ==> dst[i] == EvalPqVec(pow, direction, old(src[i]))
    ensures forall i :: len <= i < dst.Length ==> dst[i] == old(dst[i])
  {
    for i := 0 to len
      invariant forall j :: 0 <= j < i ==> dst[j] == EvalPqVec(pow, direction, old(src[j]))
      invariant forall j :: i <= j < dst.Length ==> dst[j] == old(dst[j])
      invariant forall j :: i <= j < len ==> src[j] == old(src[j])
    {
      var r := PqColor(pow, direction, src[i]);
      dst[i] := r;
    }
  }

  /** weston_color_curve_sample */
  method Sample(pow: Pow, c: Curve, src: array<Vec3>, dst: array<Vec3>, len: nat)
    requires Laws(pow) && Sampleable(c) && len <= src.Length && len <= dst.Length
    modifies dst
    ensures forall i :: 0 <= i < len ==> dst[i] == Eval(pow, c, old(src[i]))
    ensures forall i :: len <= i < dst.Length ==> dst[i] == old(dst[i])
  {
    match c {
      case Enumerated(tf, e, direction) =>
        if tf == PQ {
          SamplePq(pow, direction, src, dst, len);
        } else {
          SampleParametric(pow, EnumParametric(tf, e, direction).value, src, dst, len);
        }
      case Param(p) => SampleParametric(pow, p, src, dst, len);
    }
  }

  // ---- inversion

  function InvertChan(pow: Pow, kind: Kind, c: Chan): Option<Chan> {
    if kind == LINPOW then InvertLinpow(pow, c) else InvertPowlin(pow, c)
  }

  function OtherKind(kind: Kind): Kind {
    if kind == LINPOW then POWLIN else LINPOW
  }

  /** weston_color_curve_parametric_inverse */
  method ParametricInverse(pow: Pow, p: Parametric) returns (r: Option<Parametric>)
    requires |p.chan| == 3
    ensures r.Some? <==> forall i :: 0 <= i < 3 ==> InvertChan(pow, p.kind, p.chan[i]).Some?
    ensures r.Some? ==> r.value.kind == OtherKind(p.kind) && r.value.clamped == p.clamped && |r.value.chan| == 3
    ensures r.Some? ==> forall i :: 0 <= i < 3 ==> Some(r.value.chan[i]) == InvertChan(pow, p.kind, p.chan[i])
  {
    var chan: seq<Chan> := [];
    for i := 0 to 3
      invariant |chan| == i
      invariant forall j :: 0 <= j < i ==> Some(chan[j]) == InvertChan(pow, p.kind, p.chan[j])
    {
      var c := InvertChan(pow, p.kind, p.chan[i]);
      if c.None? {
        return None;
      }
      chan := chan + [c.value];
    }
    return Some(Parametric(OtherKind(p.kind), chan, p.clamped));
  }

  predicate AllInvert(pow: Pow, p: Parametric)
    requires |p.chan| == 3
  {
    forall i :: 0 <= i < 3 ==> InvertChan(pow, p.kind, p.chan[i]).Some?
  }

  function InvertedParametric(pow: Pow, p: Parametric): Parametric
    requires |p.chan| == 3 && AllInvert(pow, p)
  {
    Parametric(OtherKind(p.kind),
               [InvertChan(pow, p.kind, p.chan[0]).value,
                InvertChan(pow, p.kind, p.chan[1]).value,
                InvertChan(pow, p.kind, p.chan[2]).value],
               p.clamped)
  }

  function Flip(direction: Direction): Direction {
    if direction == FORWARD then INVERSE else FORWARD
  }

  function CreatedInverse(pow: Pow, c: Curve): Option<Curve>
    requires WellFormed(c)
  {
    match c
    case Identity => Some(Identity)
    case Lut3x1d(_) => None
    case Enumerated(tf, e, direction) => Some(Enumerated(tf, e, Flip(direction)))
    case Param(p) => if AllInvert(pow, p) then Some(Param(InvertedParametric(pow, p))) else None
  }

  /** weston_color_curve_create_inverse */
  method CreateInverse(pow: Pow, c: Curve) returns (r: Option<Curve>)
    requires WellFormed(c)
    ensures r == CreatedInverse(pow, c)
  {
    match c {
      case Identity => return Some(Identity);
      case Lut3x1d(_) => return None;
      case Enumerated(tf, e, direction) =>
        match direction {
          case FORWARD => return Some(Enumerated(tf, e, INVERSE));
          case INVERSE => return Some(Enumerated(tf, e, FORWARD));
        }
      case Param(p) =>
        var q := ParametricInverse(pow, p);
        match q {
          case Some(inv) =>
            assert inv == InvertedParametric(pow, p);
            return Some(Param(inv));
          case None => return None;
        }
    }
  }

  // ---- an inverse undoes its curve

  /** Rising, with a cross-over in the domain where the two pieces meet. */
  predicate Continuous(pow: Pow, kind: Kind, c: Chan) {
    && c.a > 0.0 && c.g > 0.0 && c.d >= 0.0
    && (if kind == LINPOW then Base(c, c.d) >= 0.0 && LinpowCross(pow, c) == c.c * c.d
        else PowlinCross(pow, c) == c.c * c.d)
  }

  lemma ChanRoundTrip(pow: Pow, kind: Kind, c: Chan, x: real)
    requires Laws(pow) && Continuous(pow, kind, c) && InvertChan(pow, kind, c).Some?
    ensures var inv := InvertChan(pow, kind, c).value;
            && EvalChan(pow, OtherKind(kind), inv, EvalChan(pow, kind, c, x)) == x
            && EvalChan(pow, kind, c, EvalChan(pow, OtherKind(kind), inv, x)) == x
  {
    var inv := InvertChan(pow, kind, c).value;
    InvertedMatches(c);
    if kind == LINPOW {
      LinpowUndone(pow, c, inv, x);
      PowlinUndoes(pow, c, inv, x);
    } else {
      Scale(c.c, 0.0, c.d);
      PowlinUndone(pow, c, inv, x);
      LinpowUndoes(pow, c, inv, x);
    }
  }

  predicate InUnit(v: Vec3) {
    Pq.Unit(v.x) && Pq.Unit(v.y) && Pq.Unit(v.z)
  }

  predicate AllContinuous(pow: Pow, p: Parametric) {
    |p.chan| == 3 && forall i :: 0 <= i < 3 ==> Continuous(pow, p.kind, p.chan[i])
  }

  /** A continuous channel and its inverse, as functions. */
  lemma ChanPair(pow: Pow, kind: Kind, c: Chan, f: real -> real, g: real -> real)
    requires Laws(pow) && Continuous(pow, kind, c) && InvertChan(pow, kind, c).Some?
    requires forall x: real :: f(x) == EvalChan(pow, kind, c, x)
    requires forall x: real :: g(x) == EvalChan(pow, OtherKind(kind), InvertChan(pow, kind, c).value, x)
    ensures GrowingPair(f, g)
  {
    forall x: real, y: real | x < y ensures f(x) < f(y) {
      ChanGrows(pow, kind, c, x, y);
    }
    forall x: real ensures g(f(x)) == x && f(g(x)) == x {
      ChanRoundTrip(pow, kind, c, x);
    }
    ChanAtZero(pow, kind, c);
  }

  lemma ChanGrows(pow: Pow, kind: Kind, c: Chan, x: real, y: real)
    requires Laws(pow) && Continuous(pow, kind, c) && c.c > 0.0 && x < y
    ensures EvalChan(pow, kind, c, x) < EvalChan(pow, kind, c, y)
  {
    if kind == LINPOW {
      LinpowGrows(pow, c, x, y);
    } else {
      PowlinGrows(pow, c, x, y);
    }
  }

  lemma ChanAtZero(pow: Pow, kind: Kind, c: Chan)
    requires Continuous(pow, kind, c)
    ensures EvalChan(pow, kind, c, 0.0) == 0.0
  {
  }

  /** What a curve makes of full drive, channel by channel. */
  function FullDrive(pow: Pow, p: Parametric): Vec3
    requires |p.chan| == 3
  {
    Vec3(EvalChan(pow, p.kind, p.chan[0], 1.0),
         EvalChan(pow, p.kind, p.chan[1], 1.0),
         EvalChan(pow, p.kind, p.chan[2], 1.0))
  }

  predicate Within(v: Vec3, w: Vec3) {
    v.x <= w.x && v.y <= w.y && v.z <= w.z
  }

  function ChanOf(pow: Pow, p: Parametric, i: nat): real -> real
    requires i < |p.chan|
  {
    x => EvalChan(pow, p.kind, p.chan[i], x)
  }

  lemma PairOf(pow: Pow, p: Parametric, i: nat)
    requires Laws(pow) && AllContinuous(pow, p) && AllInvert(pow, p) && i < 3
    ensures GrowingPair(ChanOf(pow, p, i), ChanOf(pow, InvertedParametric(pow, p), i))
    ensures GrowingPair(ChanOf(pow, InvertedParametric(pow, p), i), ChanOf(pow, p, i))
  {
    var f, g := ChanOf(pow, p, i), ChanOf(pow, InvertedParametric(pow, p), i);
    ChanPair(pow, p.kind, p.chan[i], f, g);
    PairFlips(f, g);
  }

  ghost predicate Paired(pow: Pow, p: Parametric, q: Parametric) {
    && |p.chan| == |q.chan| == 3 && p.clamped == q.clamped
    && forall i :: 0 <= i < 3 ==> GrowingPair(ChanOf(pow, p, i), ChanOf(pow, q, i))
  }

  lemma InversesPaired(pow: Pow, p: Parametric, q: Parametric)
    requires Laws(pow) && AllContinuous(pow, p) && AllInvert(pow, p) && q == InvertedParametric(pow, p)
    ensures Paired(pow, p, q) && Paired(pow, q, p)
  {
    forall i: nat | i < 3
      ensures GrowingPair(ChanOf(pow, p, i), ChanOf(pow, q, i)) && GrowingPair(ChanOf(pow, q, i), ChanOf(pow, p, i))
    {
      PairOf(pow, p, i);
    }
  }

  function Applied(f: real -> real, clamped: bool, x: real): real {
    if clamped then Clamped(f, x) else f(x)
  }

  lemma EvalByChannels(pow: Pow, p: Parametric, v: Vec3)
    requires |p.chan| == 3
    ensures EvalParametric(pow, p, v) == Vec3(Applied(ChanOf(pow, p, 0), p.clamped, v.x),
                                              Applied(ChanOf(pow, p, 1), p.clamped, v.y),
                                              Applied(ChanOf(pow, p, 2), p.clamped, v.z))
    ensures FullDrive(pow, p) == Vec3(ChanOf(pow, p, 0)(1.0), ChanOf(pow, p, 1)(1.0), ChanOf(pow, p, 2)(1.0))
  {
  }

  lemma AppliedIff(f: real -> real, g: real -> real, clamped: bool, x: real)
    requires GrowingPair(f, g)
    ensures Applied(g, clamped, Applied(f, clamped, x)) == x <==> (clamped ==> Pq.Unit(x) && x <= g(1.0))
  {
    if clamped {
      ClampedPairIff(f, g, x);
    }
  }

  lemma PairRoundTripIff(pow: Pow, p: Parametric, q: Parametric, v: Vec3)
    requires Paired(pow, p, q)
    ensures EvalParametric(pow, q, EvalParametric(pow, p, v)) == v <==>
            (p.clamped ==> InUnit(v) && Within(v, FullDrive(pow, q)))
  {
    EvalByChannels(pow, p, v);
    EvalByChannels(pow, q, EvalParametric(pow, p, v));
    AppliedIff(ChanOf(pow, p, 0), ChanOf(pow, q, 0), p.clamped, v.x);
    AppliedIff(ChanOf(pow, p, 1), ChanOf(pow, q, 1), p.clamped, v.y);
    AppliedIff(ChanOf(pow, p, 2), ChanOf(pow, q, 2), p.clamped, v.z);
  }

  /**
   Both orders give every colour back; a clamped pair exactly the colours of the
   unit cube that do not exceed what the second of the two curves has at 1.
   */
  lemma ParametricRoundTripIff(pow: Pow, p: Parametric, v: Vec3)
    requires Laws(pow) && AllContinuous(pow, p) && AllInvert(pow, p)
    ensures var q := InvertedParametric(pow, p);
            EvalParametric(pow, q, EvalParametric(pow, p, v)) == v <==>
            (p.clamped ==> InUnit(v) && Within(v, FullDrive(pow, q)))
    ensures var q := InvertedParametric(pow, p);
            EvalParametric(pow, p, EvalParametric(pow, q, v)) == v <==>
            (p.clamped ==> InUnit(v) && Within(v, FullDrive(pow, p)))
  {
    var q := InvertedParametric(pow, p);
    InversesPaired(pow, p, q);
    PairRoundTripIff(pow, p, q, v);
    PairRoundTripIff(pow, q, p, v);
  }

  ghost predicate UndoesUnitCube(pow: Pow, q: Parametric, p: Parametric)
    requires |p.chan| == |q.chan| == 3
  {
    forall v: Vec3 :: InUnit(v) ==> EvalParametric(pow, q, EvalParametric(pow, p, v)) == v
  }

  lemma PairUndoesIff(pow: Pow, p: Parametric, q: Parametric)
    requires Paired(pow, p, q) && p.clamped
    ensures UndoesUnitCube(pow, q, p) <==> Within(ONES, FullDrive(pow, q))
  {
    if Within(ONES, FullDrive(pow, q)) {
      forall v: Vec3 | InUnit(v) ensures EvalParametric(pow, q, EvalParametric(pow, p, v)) == v {
        PairRoundTripIff(pow, p, q, v);
      }
    } else {
      PairRoundTripIff(pow, p, q, ONES);
      assert InUnit(ONES);
    }
  }

  lemma FullDrivesOpposed(pow: Pow, p: Parametric, q: Parametric)
    requires Paired(pow, p, q)
    ensures Within(ONES, FullDrive(pow, q)) <==> Within(FullDrive(pow, p), ONES)
  {
    EvalByChannels(pow, p, ONES);
    EvalByChannels(pow, q, ONES);
    ReachesOne(ChanOf(pow, p, 0), ChanOf(pow, q, 0));
    ReachesOne(ChanOf(pow, p, 1), ChanOf(pow, q, 1));
    ReachesOne(ChanOf(pow, p, 2), ChanOf(pow, q, 2));
  }

  /**
   The assumption in the source that a clamped curve maps its domain onto itself:
   a clamped curve is undone on the unit cube exactly when it is at most 1 at
   full drive, and undoes its inverse exactly when it is at least 1 there.
   */
  lemma ClampedInverseIff(pow: Pow, p: Parametric)
    requires Laws(pow) && AllContinuous(pow, p) && AllInvert(pow, p) && p.clamped
    ensures UndoesUnitCube(pow, InvertedParametric(pow, p), p) <==> Within(FullDrive(pow, p), ONES)
    ensures UndoesUnitCube(pow, p, InvertedParametric(pow, p)) <==> Within(ONES, FullDrive(pow, p))
  {
    var q := InvertedParametric(pow, p);
    InversesPaired(pow, p, q);
    PairUndoesIff(pow, p, q);
    FullDrivesOpposed(pow, p, q);
    PairUndoesIff(pow, q, p);
  }

  /** A clamped curve that doubles is inverted without complaint, and white comes back as half of it. */
  lemma DoublingNotUndone(pow: Pow, p: Parametric)
    requires Laws(pow) && p == Uniform(LINPOW, Chan(1.0, 2.0, 0.0, 2.0, 0.0), true)
    ensures AllContinuous(pow, p) && AllInvert(pow, p)
    ensures EvalParametric(pow, InvertedParametric(pow, p), EvalParametric(pow, p, ONES)) == Vec3(0.5, 0.5, 0.5)
  {
    var c := p.chan[0];
    DoublingAccepted(pow, c);
    DoublingAtOne(pow, c);
    HalvingAtOne(pow, c, InvertChan(pow, LINPOW, c).value);
  }

  predicate Doubling(c: Chan) {
    c == Chan(1.0, 2.0, 0.0, 2.0, 0.0)
  }

  lemma DoublingCross(pow: Pow, c: Chan)
    requires Laws(pow) && Doubling(c)
    ensures Base(c, c.d) == 0.0 && LinpowCross(pow, c) == 0.0
  {
    assert Base(c, c.d) == 0.0;
    ExponentOne(pow, 0.0);
  }

  lemma DoublingAccepted(pow: Pow, c: Chan)
    requires Laws(pow) && Doubling(c)
    ensures Continuous(pow, LINPOW, c) && InvertChan(pow, LINPOW, c) == Some(Inverted(c))
  {
    DoublingCross(pow, c);
    assert c.c * c.d == 0.0;
  }

  lemma DoublingAtOne(pow: Pow, c: Chan)
    requires Laws(pow) && Doubling(c)
    ensures Linpow(pow, c, 1.0) == 2.0
  {
    assert Base(c, 1.0) == 2.0;
    ExponentOne(pow, 2.0);
  }

  lemma HalvingAtOne(pow: Pow, c: Chan, inv: Chan)
    requires Laws(pow) && Doubling(c) && inv == Inverted(c)
    ensures Powlin(pow, inv, 1.0) == 0.5
  {
    assert inv == Chan(1.0, 0.5, 0.0, 0.5, 0.0);
    ExponentOne(pow, 1.0);
    assert Base(inv, 1.0) == 0.5;
  }

  // ---- enumerated curves

  /** The pure power law is its own LINPOW and POWLIN form. */
  lemma PowerLawForms(pow: Pow, g: real, x: real)
    ensures Linpow(pow, PowerLaw(g), x) == Powlin(pow, PowerLaw(g), x)
  {
  }

  lemma PowerLawRoundTrip(pow: Pow, g: real, h: real, x: real)
    requires Laws(pow) && g > 0.0 && g * h == 1.0
    ensures Linpow(pow, PowerLaw(h), Linpow(pow, PowerLaw(g), x)) == x
  {
    var p := PowerLaw(g);
    Signs(pow, 0.0, g);
    assert Base(p, p.d) == 0.0 && LinpowCross(pow, p) == 0.0;
    LinpowUndone(pow, p, PowerLaw(h), x);
    PowerLawForms(pow, h, Linpow(pow, p, x));
  }

  lemma PowerLawInUnit(pow: Pow, g: real, x: real)
    requires Laws(pow) && g > 0.0 && Pq.Unit(x)
    ensures Pq.Unit(Linpow(pow, PowerLaw(g), x))
  {
    assert Base(PowerLaw(g), x) == x;
    Pq.UnitPower(pow, x, g);
  }

  lemma PowerLawsRoundTrip(pow: Pow, g: real, h: real, clamped: bool, v: Vec3)
    requires Laws(pow) && g > 0.0 && g * h == 1.0 && (clamped ==> InUnit(v))
    ensures var p, q := Uniform(LINPOW, PowerLaw(g), clamped), Uniform(LINPOW, PowerLaw(h), clamped);
            EvalParametric(pow, q, EvalParametric(pow, p, v)) == v
  {
    PowerLawRoundTrip(pow, g, h, v.x);
    PowerLawRoundTrip(pow, g, h, v.y);
    PowerLawRoundTrip(pow, g, h, v.z);
    if clamped {
      ClampInUnit(v);
      PowerLawInUnit(pow, g, v.x);
      PowerLawInUnit(pow, g, v.y);
      PowerLawInUnit(pow, g, v.z);
    }
  }

  lemma PqChanRoundTrip(pow: Pow, direction: Direction, x: real)
    requires Laws(pow) && Pq.Unit(x)
    ensures EvalPq(pow, Flip(direction), EvalPq(pow, direction, x)) == x <==>
            (direction == FORWARD ==> x >= pow(Pq.C1, Pq.M2))
  {
    if direction == FORWARD {
      Pq.QuantizerInUnit(pow, x);
      Pq.InverseUndoesQuantizerIff(pow, x);
    } else {
      Pq.RootOfInverse(pow, x);
      Pq.QuantizerUndoesInverse(pow, x);
    }
  }

  // ---- the tabled sRGB pair

  predicate SrgbChanOk(pow: Pow, direction: Direction, x: real) {
    if direction == FORWARD then ForwardOk(pow, SRGB_CHAN, SRGB_INVERSE_CHAN, Abs(x))
    else BackOk(pow, SRGB_CHAN, SRGB_INVERSE_CHAN, Abs(x))
  }

  predicate SrgbOk(pow: Pow, direction: Direction, v: Vec3) {
    SrgbChanOk(pow, direction, v.x) && SrgbChanOk(pow, direction, v.y) && SrgbChanOk(pow, direction, v.z)
  }

  function EvalSrgb(pow: Pow, direction: Direction, x: real): real {
    if direction == FORWARD then Linpow(pow, SRGB_CHAN, x) else Powlin(pow, SRGB_INVERSE_CHAN, x)
  }

  lemma SrgbChanIff(pow: Pow, direction: Direction, x: real)
    requires Laws(pow)
    ensures EvalSrgb(pow, Flip(direction), EvalSrgb(pow, direction, x)) == x <==> SrgbChanOk(pow, direction, x)
  {
    SrgbPair();
    if direction == FORWARD {
      ForwardIff(pow, SRGB_CHAN, SRGB_INVERSE_CHAN, x);
    } else {
      BackIff(pow, SRGB_CHAN, SRGB_INVERSE_CHAN, x);
    }
  }

  /** The condition in numbers: the input must avoid the gap that the rounding of the cross-over opens. */
  lemma SrgbChanOkIff(pow: Pow, direction: Direction, x: real)
    requires Laws(pow) && PiecesApart(pow)
    ensures SrgbChanOk(pow, direction, x) <==>
            if direction == FORWARD then Abs(x) < GAP || Abs(x) >= 0.04045
            else Abs(x) < 0.0031308 || Abs(x) >= LinpowCross(pow, SRGB_CHAN)
  {
    SrgbChanIff(pow, direction, x);
    if direction == FORWARD {
      ForwardThenInverseIff(pow, x);
    } else {
      InverseThenForwardIff(pow, x);
    }
  }

  lemma SrgbInUnit(pow: Pow, direction: Direction, x: real)
    requires Laws(pow) && Pq.Unit(x)
    ensures Pq.Unit(EvalSrgb(pow, direction, x))
  {
    SrgbBases(x);
    if direction == FORWARD {
      if x >= SRGB_CHAN.d {
        Pq.UnitPower(pow, Base(SRGB_CHAN, x), SRGB_CHAN.g);
      }
    } else {
      Pq.UnitPower(pow, x, SRGB_INVERSE_CHAN.g);
    }
  }

  lemma SrgbEval(pow: Pow, direction: Direction, clamped: bool, v: Vec3)
    ensures var t := if clamped then ClampVec(v, 0.0, 1.0) else v;
            EvalParametric(pow, TabledSrgb(direction, clamped), v)
            == Vec3(EvalSrgb(pow, direction, t.x), EvalSrgb(pow, direction, t.y), EvalSrgb(pow, direction, t.z))
  {
  }

  lemma ClampInUnit(v: Vec3)
    ensures InUnit(ClampVec(v, 0.0, 1.0))
    ensures InUnit(v) ==> ClampVec(v, 0.0, 1.0) == v
  {
  }

  lemma ClampedSrgbInUnit(pow: Pow, direction: Direction, v: Vec3)
    requires Laws(pow)
    ensures InUnit(EvalParametric(pow, TabledSrgb(direction, true), v))
  {
    SrgbEval(pow, direction, true, v);
    ClampInUnit(v);
    var t := ClampVec(v, 0.0, 1.0);
    SrgbInUnit(pow, direction, t.x);
    SrgbInUnit(pow, direction, t.y);
    SrgbInUnit(pow, direction, t.z);
  }

  /** Switching the direction of the tabled pair, extended or clamped. */
  lemma SrgbRoundTripIff(pow: Pow, direction: Direction, clamped: bool, v: Vec3)
    requires Laws(pow)
    ensures EvalParametric(pow, TabledSrgb(Flip(direction), clamped), EvalParametric(pow, TabledSrgb(direction, clamped), v)) == v
            <==> SrgbOk(pow, direction, v) && (clamped ==> InUnit(v))
  {
    var w := EvalParametric(pow, TabledSrgb(direction, clamped), v);
    SrgbEval(pow, direction, clamped, v);
    SrgbEval(pow, Flip(direction), clamped, w);
    if clamped {
      ClampedSrgbInUnit(pow, direction, v);
      ClampedSrgbInUnit(pow, Flip(direction), w);
      ClampInUnit(v);
      ClampInUnit(w);
    }
    SrgbChanIff(pow, direction, v.x);
    SrgbChanIff(pow, direction, v.y);
    SrgbChanIff(pow, direction, v.z);
  }

  // ---- all curves together

  /** The functions that can be evaluated. */
  predicate HasCurve(tf: Tf) {
    tf in {PQ, Tf.Power, BT1886, Gamma22, Gamma28, TfSRGB, ExtSRGB}
  }

  /** The colours that the inverse of c gives back. */
  ghost predicate Recoverable(pow: Pow, c: Curve, v: Vec3)
    requires Laws(pow)
  {
    match c
    case Identity => true
    case Lut3x1d(_) => false
    case Enumerated(PQ, _, direction) =>
      InUnit(v) && (direction == FORWARD ==>
        var least := pow(Pq.C1, Pq.M2); v.x >= least && v.y >= least && v.z >= least)
    case Enumerated(Power, e, _) => e > 0.0
    case Enumerated(TfSRGB, _, direction) => InUnit(v) && SrgbOk(pow, direction, v)
    case Enumerated(ExtSRGB, _, direction) => SrgbOk(pow, direction, v)
    case Enumerated(tf, _, _) => HasCurve(tf) && InUnit(v)
    case Param(p) =>
      && AllContinuous(pow, p) && AllInvert(pow, p)
      && (p.clamped ==> InUnit(v) && Within(v, FullDrive(pow, InvertedParametric(pow, p))))
  }

  lemma PowerUndoes(pow: Pow, e: real, direction: Direction, clamped: bool, v: Vec3)
    requires Laws(pow) && e > 0.0 && (clamped ==> InUnit(v))
    ensures var p, q := Uniform(LINPOW, PowerLaw(e), clamped), Uniform(LINPOW, PowerLaw(1.0 / e), clamped);
            && (direction == FORWARD ==> EvalParametric(pow, q, EvalParametric(pow, p, v)) == v)
            && (direction == INVERSE ==> EvalParametric(pow, p, EvalParametric(pow, q, v)) == v)
  {
    var h := Divide(1.0, e);
    NonzeroFactors(e, h);
    PowerLawsRoundTrip(pow, e, h, clamped, v);
    PowerLawsRoundTrip(pow, h, e, clamped, v);
  }

  lemma PqInUnit(pow: Pow, direction: Direction, v: Vec3)
    requires Laws(pow)
    ensures InUnit(EvalPqVec(pow, direction, v))
  {
    ClampInUnit(v);
    var t := ClampVec(v, 0.0, 1.0);
    PqChanInUnit(pow, direction, t.x);
    PqChanInUnit(pow, direction, t.y);
    PqChanInUnit(pow, direction, t.z);
  }

  lemma PqChanInUnit(pow: Pow, direction: Direction, x: real)
    requires Laws(pow) && Pq.Unit(x)
    ensures Pq.Unit(EvalPq(pow, direction, x))
  {
    if direction == FORWARD {
      Pq.QuantizerInUnit(pow, x);
    } else {
      Pq.RootOfInverse(pow, x);
    }
  }

  lemma PqRoundTripIff(pow: Pow, e: real, direction: Direction, v: Vec3)
    requires Laws(pow)
    ensures EvalPqVec(pow, Flip(direction), EvalPqVec(pow, direction, v)) == v <==>
            Recoverable(pow, Enumerated(PQ, e, direction), v)
  {
    PqInUnit(pow, Flip(direction), EvalPqVec(pow, direction, v));
    if InUnit(v) {
      PqChanRoundTrip(pow, direction, v.x);
      PqChanRoundTrip(pow, direction, v.y);
      PqChanRoundTrip(pow, direction, v.z);
    }
  }

  lemma TabledPowerInUnit(pow: Pow, g: real, direction: Direction, v: Vec3)
    requires Laws(pow) && g > 0.0
    ensures InUnit(EvalParametric(pow, TabledPower(g, direction), v))
  {
    var e := if direction == FORWARD then g else 1.0 / g;
    SignOfReciprocal(g);
    ClampInUnit(v);
    var t := ClampVec(v, 0.0, 1.0);
    PowerLawInUnit(pow, e, t.x);
    PowerLawInUnit(pow, e, t.y);
    PowerLawInUnit(pow, e, t.z);
  }

  lemma TabledPowerRoundTripIff(pow: Pow, g: real, direction: Direction, v: Vec3)
    requires Laws(pow) && g > 0.0
    ensures EvalParametric(pow, TabledPower(g, Flip(direction)), EvalParametric(pow, TabledPower(g, direction), v)) == v
            <==> InUnit(v)
  {
    TabledPowerInUnit(pow, g, Flip(direction), EvalParametric(pow, TabledPower(g, direction), v));
    if InUnit(v) {
      PowerUndoes(pow, g, direction, true, v);
    }
  }

  lemma PowerTfUndoes(pow: Pow, e: real, direction: Direction, v: Vec3)
    requires Laws(pow) && e > 0.0
    ensures var c, inv := Enumerated(Tf.Power, e, direction), Enumerated(Tf.Power, e, Flip(direction));
            Sampleable(c) && Sampleable(inv) && Eval(pow, inv, Eval(pow, c, v)) == v
  {
    PowerUndoes(pow, e, direction, false, v);
  }

  /** Switching the direction of a named transfer function gives back exactly the recoverable colours. */
  lemma EnumeratedRoundTripIff(pow: Pow, tf: Tf, e: real, direction: Direction, v: Vec3)
    requires Laws(pow) && HasCurve(tf) && (tf.Power? ==> e > 0.0)
    ensures Sampleable(Enumerated(tf, e, direction)) && Sampleable(Enumerated(tf, e, Flip(direction)))
    ensures Eval(pow, Enumerated(tf, e, Flip(direction)), Eval(pow, Enumerated(tf, e, direction), v)) == v <==>
            Recoverable(pow, Enumerated(tf, e, direction), v)
  {
    match tf {
      case PQ => PqRoundTripIff(pow, e, direction, v);
      case Power => PowerTfUndoes(pow, e, direction, v);
      case BT1886 => TabledPowerRoundTripIff(pow, 2.4, direction, v);
      case Gamma22 => TabledPowerRoundTripIff(pow, 2.2, direction, v);
      case Gamma28 => TabledPowerRoundTripIff(pow, 2.8, direction, v);
      case TfSRGB => SrgbRoundTripIff(pow, direction, true, v);
      case ExtSRGB => SrgbRoundTripIff(pow, direction, false, v);
    }
  }

  /** The curves that colours can come back from: transfer functions with a curve, and continuous channels. */
  predicate Regular(pow: Pow, c: Curve) {
    match c
    case Identity => true
    case Lut3x1d(_) => true
    case Enumerated(tf, e, _) => HasCurve(tf) && (tf.Power? ==> e > 0.0)
    case Param(p) => AllContinuous(pow, p)
  }

  /** A created inverse gives exactly the recoverable colours back. */
  lemma CreatedInverseUndoesIff(pow: Pow, luts: (nat, Vec3) -> Vec3, c: Curve, inv: Curve, v: Vec3)
    requires Laws(pow) && WellFormed(c) && CreatedInverse(pow, c) == Some(inv) && Regular(pow, c)
    ensures Usable(c) && Usable(inv)
    ensures Step(pow, luts, inv, Step(pow, luts, c, v)) == v <==> Recoverable(pow, c, v)
  {
    match c {
      case Identity =>
      case Enumerated(tf, e, direction) => EnumeratedRoundTripIff(pow, tf, e, direction, v);
      case Param(p) => ParametricRoundTripIff(pow, p, v);
    }
  }

  predicate Reinvertible(c: Chan) {
    c.c <= HUGE && Abs(c.a) <= HUGE && Abs(c.g) <= HUGE
  }

  lemma ChanInvertedTwice(pow: Pow, kind: Kind, c: Chan)
    requires Laws(pow) && Continuous(pow, kind, c) && InvertChan(pow, kind, c).Some?
    ensures InvertChan(pow, OtherKind(kind), InvertChan(pow, kind, c).value) == if Reinvertible(c) then Some(c) else None
  {
    if kind == LINPOW {
      InvertLinpowTwice(pow, c);
    } else {
      InvertPowlinTwice(pow, c);
    }
  }

  /** Inverting the inverse of a curve gives the curve itself, as long as no parameter is too large for it. */
  lemma CreatedInverseTwice(pow: Pow, c: Curve, inv: Curve)
    requires Laws(pow) && WellFormed(c) && CreatedInverse(pow, c) == Some(inv)
    requires c.Param? ==> AllContinuous(pow, c.p)
    ensures WellFormed(inv)
    ensures CreatedInverse(pow, inv) == Some(c) <==>
            (c.Param? ==> forall i :: 0 <= i < 3 ==> Reinvertible(c.p.chan[i]))
  {
    match c {
      case Param(p) =>
        ChanInvertedTwice(pow, p.kind, p.chan[0]);
        ChanInvertedTwice(pow, p.kind, p.chan[1]);
        ChanInvertedTwice(pow, p.kind, p.chan[2]);
        var q := inv.p;
        assert forall i :: 0 <= i < 3 ==>
            InvertChan(pow, q.kind, q.chan[i]) == if Reinvertible(p.chan[i]) then Some(p.chan[i]) else None;
        if AllInvert(pow, q) {
          assert InvertedParametric(pow, q).chan == p.chan;
        } else {
          var i :| 0 <= i < 3 && InvertChan(pow, q.kind, q.chan[i]).None?;
          assert !Reinvertible(p.chan[i]);
        }
      case _ =>
    }
  }

  // ---- a transform as one curve

  datatype Mapping = NoMapping | Matrix(m: Mat3, offset: Vec3)

  datatype Transform = Transform(stepsValid: bool, pre: Curve, mapping: Mapping, post: Curve)

  function Map(m: Mapping, v: Vec3): Vec3 {
    match m
    case NoMapping => v
    case Matrix(mat, offset) => Add(MulVec(mat, v), offset)
  }

  ghost function Pipeline(pow: Pow, luts: (nat, Vec3) -> Vec3, t: Transform, v: Vec3): Vec3
    requires Laws(pow) && Usable(t.pre) && Usable(t.post)
  {
    Step(pow, luts, t.post, Map(t.mapping, Step(pow, luts, t.pre, v)))
  }

  /** weston_color_transform_as_single_curve */
  function AsSingleCurve(t: Transform): Option<Curve> {
    if !t.stepsValid then None
    else if !t.mapping.NoMapping? then None
    else if t.pre.Identity? then Some(t.post)
    else if !t.post.Identity? then None
    else Some(t.pre)
  }

  /** The one curve does what the whole pipeline does; it is refused only to a transform with more than one step. */
  lemma SingleCurveIsPipeline(pow: Pow, luts: (nat, Vec3) -> Vec3, t: Transform, v: Vec3)
    requires Laws(pow) && Usable(t.pre) && Usable(t.post)
    ensures AsSingleCurve(t).Some? ==>
              Usable(AsSingleCurve(t).value) && Step(pow, luts, AsSingleCurve(t).value, v) == Pipeline(pow, luts, t, v)
    ensures AsSingleCurve(t).None? <==>
              !t.stepsValid || t.mapping.Matrix? || (!t.pre.Identity? && !t.post.Identity?)
  {
  }
}
