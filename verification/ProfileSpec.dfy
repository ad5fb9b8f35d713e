/**
 Parametric colour profiles as values: what each setter of the builder checks
 and stores, how missing parameters are completed, and what is validated.
 Source: libweston-vendored/src/libweston/color-profile-param-builder.c.
 */
module ProfileSpec {
  import opened Bytes
  import opened TransferFunctions
  import opened Triangle

  datatype Gamut = Gamut(red: Point, green: Point, blue: Point, white: Point)

  datatype Primaries = SRGB | PalM | Pal | Ntsc | GenericFilm | BT2020 | CIE1931XYZ | DciP3 | DisplayP3 | AdobeRGB

  datatype Feature = SetPrimariesFeature | SetTfPowerFeature | SetLuminancesFeature | MasteringFeature

  /** What the colour manager supports. */
  datatype Manager = Manager(features: set<Feature>, primaries: set<Primaries>, tfs: set<Tf>)

  /** A power law has a parameter, so it is never offered as a named transfer function. */
  predicate ManagerValid(cm: Manager) {
    Power !in cm.tfs
  }

  datatype Error = Unsupported | AlreadySet | InvalidPrimariesNamed | InvalidTf | InvalidLuminance
                 | CieOutOfRange | IncompleteSet

  datatype Params = Params(
    primaries: Gamut, primariesInfo: Option<Primaries>,
    tf: Option<Tf>, tfExponent: real,
    minLum: real, maxLum: real, refLum: real,
    targetPrimaries: Gamut, targetMin: real, targetMax: real,
    maxCLL: real, maxFALL: real)

  /** The bits of the group mask. */
  datatype Group = PrimariesGroup | TfGroup | LuminanceGroup | TargetPrimariesGroup | TargetLuminanceGroup
                 | MaxCLLGroup | MaxFALLGroup

  datatype Op =
    | SetPrimaries(gamut: Gamut)
    | SetPrimariesNamed(named: Primaries)
    | SetTfNamed(tf: Tf)
    | SetTfPower(exponent: real)
    | SetLuminance(ref: real, lo: real, hi: real)
    | SetTargetPrimaries(gamut: Gamut)
    | SetTargetPrimariesNamed(named: Primaries)
    | SetTargetLuminance(lo: real, hi: real)
    | SetMaxFALL(value: real)
    | SetMaxCLL(value: real)

  /** The builder: parameters so far, which groups are set, and the first error. */
  datatype Builder = Builder(params: Params, mask: set<Group>, err: Option<Error>)

  const ORIGIN := Point(0.0, 0.0)
  const NO_GAMUT := Gamut(ORIGIN, ORIGIN, ORIGIN, ORIGIN)
  const NO_PARAMS := Params(NO_GAMUT, None, None, 0.0, 0.0, 0.0, 0.0, NO_GAMUT, 0.0, 0.0, 0.0, 0.0)
  const FRESH := Builder(NO_PARAMS, {}, None)

  /** color_primaries_info_table */
  function GamutOf(p: Primaries): Gamut {
    match p
    case SRGB => Gamut(Point(0.64, 0.33), Point(0.30, 0.60), Point(0.15, 0.06), Point(0.3127, 0.3290))
    case PalM => Gamut(Point(0.67, 0.33), Point(0.21, 0.71), Point(0.14, 0.08), Point(0.3101, 0.3162))
    case Pal => Gamut(Point(0.64, 0.33), Point(0.29, 0.60), Point(0.15, 0.06), Point(0.3127, 0.3290))
    case Ntsc => Gamut(Point(0.630, 0.340), Point(0.310, 0.595), Point(0.155, 0.070), Point(0.3127, 0.3290))
    case GenericFilm => Gamut(Point(0.681, 0.319), Point(0.243, 0.692), Point(0.145, 0.049), Point(0.3101, 0.3162))
    case BT2020 => Gamut(Point(0.708, 0.292), Point(0.170, 0.797), Point(0.131, 0.046), Point(0.3127, 0.3290))
    case CIE1931XYZ => Gamut(Point(1.0, 0.0), Point(0.0, 1.0), Point(0.0, 0.0), Point(0.3333, 0.3333))
    case DciP3 => Gamut(Point(0.680, 0.320), Point(0.265, 0.690), Point(0.150, 0.060), Point(0.314, 0.351))
    case DisplayP3 => Gamut(Point(0.680, 0.320), Point(0.265, 0.690), Point(0.150, 0.060), Point(0.3127, 0.3290))
    case AdobeRGB => Gamut(Point(0.64, 0.33), Point(0.21, 0.71), Point(0.15, 0.06), Point(0.3127, 0.3290))
  }

  function GroupOf(op: Op): Group {
    match op
    case SetPrimaries(_) => PrimariesGroup
    case SetPrimariesNamed(_) => PrimariesGroup
    case SetTfNamed(_) => TfGroup
    case SetTfPower(_) => TfGroup
    case SetLuminance(_, _, _) => LuminanceGroup
    case SetTargetPrimaries(_) => TargetPrimariesGroup
    case SetTargetPrimariesNamed(_) => TargetPrimariesGroup
    case SetTargetLuminance(_, _) => TargetLuminanceGroup
    case SetMaxFALL(_) => MaxFALLGroup
    case SetMaxCLL(_) => MaxCLLGroup
  }

  /** The error a setter raises before it looks at the mask, if the colour manager lacks support. */
  function SupportError(cm: Manager, op: Op): Option<Error> {
    match op
    case SetPrimaries(_) => if SetPrimariesFeature in cm.features then None else Some(Unsupported)
    case SetPrimariesNamed(p) => if p in cm.primaries then None else Some(InvalidPrimariesNamed)
    case SetTfNamed(tf) => if tf in cm.tfs then None else Some(InvalidTf)
    case SetTfPower(_) => if SetTfPowerFeature in cm.features then None else Some(Unsupported)
    case SetLuminance(_, _, _) => if SetLuminancesFeature in cm.features then None else Some(Unsupported)
    case SetTargetPrimaries(_) => if MasteringFeature in cm.features then None else Some(Unsupported)
    case SetTargetPrimariesNamed(_) => if MasteringFeature in cm.features then None else Some(Unsupported)
    case SetTargetLuminance(_, _) => if MasteringFeature in cm.features then None else Some(Unsupported)
    case SetMaxFALL(_) => None
    case SetMaxCLL(_) => None
  }

  /** The error a setter raises for its arguments. */
  function ArgumentError(op: Op): Option<Error> {
    match op
    case SetTfPower(e) => if 1.0 <= e <= 10.0 then None else Some(InvalidTf)
    case SetLuminance(ref, lo, hi) => if lo >= ref || lo >= hi then Some(InvalidLuminance) else None
    case SetTargetLuminance(lo, hi) => if lo >= hi then Some(InvalidLuminance) else None
    case _ => None
  }

  /** The first error a setter stores. */
  function OpError(cm: Manager, mask: set<Group>, op: Op): Option<Error> {
    if SupportError(cm, op).Some? then SupportError(cm, op)
    else if GroupOf(op) in mask then Some(AlreadySet)
    else ArgumentError(op)
  }

  /** What a successful setter writes. */
  function Written(p: Params, op: Op): Params {
    match op
    case SetPrimaries(g) => p.(primaries := g)
    case SetPrimariesNamed(n) => p.(primariesInfo := Some(n), primaries := GamutOf(n))
    case SetTfNamed(tf) => p.(tf := Some(tf))
    case SetTfPower(e) => p.(tf := Some(Power), tfExponent := e)
    case SetLuminance(ref, lo, hi) => p.(refLum := ref, minLum := lo, maxLum := hi)
    case SetTargetPrimaries(g) => p.(targetPrimaries := g)
    case SetTargetPrimariesNamed(n) => p.(targetPrimaries := GamutOf(n))
    case SetTargetLuminance(lo, hi) => p.(targetMin := lo, targetMax := hi)
    case SetMaxFALL(v) => p.(maxFALL := v)
    case SetMaxCLL(v) => p.(maxCLL := v)
  }

  /** store_error: only the first error code is kept. */
  function Stored(err: Option<Error>, e: Option<Error>): Option<Error> {
    if err.Some? then err else e
  }

  /** One setter call. */
  function Apply(cm: Manager, b: Builder, op: Op): Builder {
    var e := OpError(cm, b.mask, op);
    if e.Some? then b.(err := Stored(b.err, e))
    else Builder(Written(b.params, op), b.mask + {GroupOf(op)}, b.err)
  }

  function Run(cm: Manager, b: Builder, ops: seq<Op>): Builder
    decreases |ops|
  {
    if ops == [] then b else Run(cm, Apply(cm, b, ops[0]), ops[1..])
  }

  // ---- completion and validation

  /** Reference, minimum and maximum luminance when none were set. */
  function DefaultLuminance(tf: Option<Tf>): (real, real, real) {
    if tf == Some(BT1886) then (100.0, 0.01, 100.0)
    else if tf == Some(PQ) then (203.0, 0.005, 10000.0)
    else if tf == Some(HLG) then (203.0, 0.005, 1000.0)
    else (80.0, 0.2, 80.0)
  }

  function CompleteLuminance(p: Params, mask: set<Group>): Params {
    if LuminanceGroup !in mask then
      var (ref, lo, hi) := DefaultLuminance(if TfGroup in mask then p.tf else None);
      p.(refLum := ref, minLum := lo, maxLum := hi)
    else if TfGroup in mask && p.tf == Some(PQ) then p.(maxLum := p.minLum + 10000.0)
    else p
  }

  /** builder_complete_params */
  function Complete(p: Params, mask: set<Group>): Params {
    var p1 := if TargetPrimariesGroup !in mask then p.(targetPrimaries := p.primaries) else p;
    var p2 := CompleteLuminance(p1, mask);
    var p3 := if TargetLuminanceGroup !in mask then p2.(targetMin := p2.minLum, targetMax := p2.maxLum) else p2;
    var p4 := if MaxCLLGroup !in mask then p3.(maxCLL := -1.0) else p3;
    if MaxFALLGroup !in mask then p4.(maxFALL := -1.0) else p4
  }

  const MAX_LUM: real := 1000000.0

  predicate CieValid(p: Point) {
    -1.0 <= p.x <= 2.0 && -1.0 <= p.y <= 2.0
  }

  predicate GamutValid(g: Gamut) {
    CieValid(g.red) && CieValid(g.green) && CieValid(g.blue) && CieValid(g.white)
    && Accepts(g.white, g.red, g.green, g.blue)
  }

  predicate LightLevelValid(v: real, p: Params) {
    0.0 < v <= MAX_LUM && p.targetMin < v <= p.targetMax
  }

  predicate LuminanceValid(p: Params) {
    0.0 < p.refLum <= MAX_LUM && 0.0 <= p.minLum <= MAX_LUM && 0.0 < p.maxLum <= MAX_LUM
  }

  predicate TargetLuminanceValid(p: Params) {
    0.0 <= p.targetMin <= MAX_LUM && 0.0 < p.targetMax <= MAX_LUM
  }

  /** builder_validate_params_set */
  function MandatoryError(mask: set<Group>): Option<Error> {
    if PrimariesGroup !in mask || TfGroup !in mask then Some(IncompleteSet) else None
  }

  /** The content light levels in builder_validate_params. */
  function LightLevelError(p: Params, mask: set<Group>): Option<Error> {
    if MaxCLLGroup in mask && !LightLevelValid(p.maxCLL, p) then Some(InvalidLuminance)
    else if MaxFALLGroup in mask && !LightLevelValid(p.maxFALL, p) then Some(InvalidLuminance)
    else if MaxCLLGroup in mask && MaxFALLGroup in mask && p.maxFALL > p.maxCLL then Some(InvalidLuminance)
    else None
  }

  /** The colour volumes and luminances in builder_validate_params. */
  function VolumeError(p: Params, mask: set<Group>): Option<Error> {
    if PrimariesGroup in mask && !GamutValid(p.primaries) then Some(CieOutOfRange)
    else if TargetPrimariesGroup in mask && !GamutValid(p.targetPrimaries) then Some(CieOutOfRange)
    else if LuminanceGroup in mask && !LuminanceValid(p) then Some(InvalidLuminance)
    else if TargetLuminanceGroup in mask && !TargetLuminanceValid(p) then Some(InvalidLuminance)
    else None
  }

  /** The first error of the validation. */
  function ValidationError(p: Params, mask: set<Group>): Option<Error> {
    Stored(MandatoryError(mask), Stored(LightLevelError(p, mask), VolumeError(p, mask)))
  }

  /** Creation hands the completed parameters to the colour manager, or fails with an error code. */
  datatype Outcome = Reached(params: Params) | Failed(err: Error)

  /** weston_color_profile_param_builder_create_color_profile, up to the call into the colour manager. */
  function Create(b: Builder): Outcome {
    var p := Complete(b.params, b.mask);
    var e := Stored(b.err, ValidationError(p, b.mask));
    if e.Some? then Failed(e.value) else Reached(p)
  }
}
