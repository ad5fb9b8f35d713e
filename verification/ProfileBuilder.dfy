/**
 The parametric profile builder as the mutable object it is: setters that check
 and store, an error log of which only the first code matters, and creation,
 which completes and validates the parameters in place.
 Source: libweston-vendored/src/libweston/color-profile-param-builder.c.
 */
module ProfileBuilder {
  import opened Bytes
  import opened Triangle
  import opened ProfileSpec
  import opened TransferFunctions

  class ParamBuilder {
    const cm: Manager
    var params: Params
    var groupMask: set<Group>
    var err: Error
    var hasErrors: bool

    /** The builder as a value. */
    function State(): Builder
      reads this
    {
      Builder(params, groupMask, if hasErrors then Some(err) else None)
    }

    constructor (cm: Manager)
      ensures this.cm == cm && State() == FRESH
    {
      this.cm := cm;
      params, groupMask, err, hasErrors := NO_PARAMS, {}, Unsupported, false;
    }

    /** store_error */
    method StoreError(e: Error)
      modifies this`err, this`hasErrors
      ensures State() == old(State()).(err := Stored(old(State()).err, Some(e)))
    {
      if !hasErrors {
        hasErrors := true;
        err := e;
      }
    }

    /** set_primaries */
    method SetPrimaries(gamut: Gamut) returns (ok: bool)
      modifies this
      ensures State() == Apply(cm, old(State()), Op.SetPrimaries(gamut))
      ensures ok <==> OpError(cm, old(groupMask), Op.SetPrimaries(gamut)).None?
    {
      ok := true;
      if SetPrimariesFeature !in cm.features { StoreError(Unsupported); ok := false; }
      if PrimariesGroup in groupMask { StoreError(AlreadySet); ok := false; }
      if !ok { return false; }
      params := params.(primaries := gamut);
      groupMask := groupMask + {PrimariesGroup};
    }

    /** set_primaries_named */
    method SetPrimariesNamed(named: Primaries) returns (ok: bool)
      modifies this
      ensures State() == Apply(cm, old(State()), Op.SetPrimariesNamed(named))
      ensures ok <==> OpError(cm, old(groupMask), Op.SetPrimariesNamed(named)).None?
    {
      ok := true;
      if named !in cm.primaries { StoreError(InvalidPrimariesNamed); ok := false; }
      if PrimariesGroup in groupMask { StoreError(AlreadySet); ok := false; }
      if !ok { return false; }
      params := params.(primariesInfo := Some(named));
      params := params.(primaries := GamutOf(named));
      groupMask := groupMask + {PrimariesGroup};
    }

    /** set_tf_named; the colour manager must not offer the power law by name. */
    method SetTfNamed(tf: Tf) returns (ok: bool)
      requires ManagerValid(cm)
      modifies this
      ensures State() == Apply(cm, old(State()), Op.SetTfNamed(tf))
      ensures ok <==> OpError(cm, old(groupMask), Op.SetTfNamed(tf)).None?
    {
      ok := true;
      if tf !in cm.tfs { StoreError(InvalidTf); ok := false; }
      if TfGroup in groupMask { StoreError(AlreadySet); ok := false; }
      if !ok { return false; }
      params := params.(tf := Some(tf));
      assert tf != Power;
      groupMask := groupMask + {TfGroup};
    }

    /** set_tf_power_exponent */
    method SetTfPower(exponent: real) returns (ok: bool)
      modifies this
      ensures State() == Apply(cm, old(State()), Op.SetTfPower(exponent))
      ensures ok <==> OpError(cm, old(groupMask), Op.SetTfPower(exponent)).None?
    {
      ok := true;
      if SetTfPowerFeature !in cm.features { StoreError(Unsupported); ok := false; }
      if TfGroup in groupMask { StoreError(AlreadySet); ok := false; }
      if !(exponent >= 1.0 && exponent <= 10.0) { StoreError(InvalidTf); ok := false; }
      if !ok { return false; }
      params := params.(tf := Some(Power));
      params := params.(tfExponent := exponent);
      groupMask := groupMask + {TfGroup};
    }

    /** set_primary_luminance */
    method SetLuminance(ref: real, lo: real, hi: real) returns (ok: bool)
      modifies this
      ensures State() == Apply(cm, old(State()), Op.SetLuminance(ref, lo, hi))
      ensures ok <==> OpError(cm, old(groupMask), Op.SetLuminance(ref, lo, hi)).None?
    {
      ok := true;
      if SetLuminancesFeature !in cm.features { StoreError(Unsupported); ok := false; }
      if LuminanceGroup in groupMask { StoreError(AlreadySet); ok := false; }
      if lo >= ref { StoreError(InvalidLuminance); ok := false; }
      if lo >= hi { StoreError(InvalidLuminance); ok := false; }
      if !ok { return false; }
      params := params.(refLum := ref);
      params := params.(minLum := lo);
      params := params.(maxLum := hi);
      groupMask := groupMask + {LuminanceGroup};
    }

    /** set_target_primaries */
    method SetTargetPrimaries(gamut: Gamut) returns (ok: bool)
      modifies this
      ensures State() == Apply(cm, old(State()), Op.SetTargetPrimaries(gamut))
      ensures ok <==> OpError(cm, old(groupMask), Op.SetTargetPrimaries(gamut)).None?
    {
      ok := true;
      if MasteringFeature !in cm.features { StoreError(Unsupported); ok := false; }
      if TargetPrimariesGroup in groupMask { StoreError(AlreadySet); ok := false; }
      if !ok { return false; }
      params := params.(targetPrimaries := gamut);
      groupMask := groupMask + {TargetPrimariesGroup};
    }

    /** set_target_primaries_named */
    method SetTargetPrimariesNamed(named: Primaries) returns (ok: bool)
      modifies this
      ensures State() == Apply(cm, old(State()), Op.SetTargetPrimariesNamed(named))
      ensures ok <==> OpError(cm, old(groupMask), Op.SetTargetPrimariesNamed(named)).None?
    {
      ok := SetTargetPrimaries(GamutOf(named));
    }

    /** set_target_luminance */
    method SetTargetLuminance(lo: real, hi: real) returns (ok: bool)
      modifies this
      ensures State() == Apply(cm, old(State()), Op.SetTargetLuminance(lo, hi))
      ensures ok <==> OpError(cm, old(groupMask), Op.SetTargetLuminance(lo, hi)).None?
    {
      ok := true;
      if MasteringFeature !in cm.features { StoreError(Unsupported); ok := false; }
      if TargetLuminanceGroup in groupMask { StoreError(AlreadySet); ok := false; }
      if lo >= hi { StoreError(InvalidLuminance); ok := false; }
      if !ok { return false; }
      params := params.(targetMin := lo);
      params := params.(targetMax := hi);
      groupMask := groupMask + {TargetLuminanceGroup};
    }

    /** set_maxFALL */
    method SetMaxFALL(value: real) returns (ok: bool)
      modifies this
      ensures State() == Apply(cm, old(State()), Op.SetMaxFALL(value))
      ensures ok <==> OpError(cm, old(groupMask), Op.SetMaxFALL(value)).None?
    {
      if MaxFALLGroup in groupMask { StoreError(AlreadySet); return false; }
      params := params.(maxFALL := value);
      groupMask := groupMask + {MaxFALLGroup};
      return true;
    }

    /** set_maxCLL */
    method SetMaxCLL(value: real) returns (ok: bool)
      modifies this
      ensures State() == Apply(cm, old(State()), Op.SetMaxCLL(value))
      ensures ok <==> OpError(cm, old(groupMask), Op.SetMaxCLL(value)).None?
    {
      if MaxCLLGroup in groupMask { StoreError(AlreadySet); return false; }
      params := params.(maxCLL := value);
      groupMask := groupMask + {MaxCLLGroup};
      return true;
    }

    /** The luminance part of builder_complete_params. */
    method CompletePrimaryLuminance()
      modifies this`params
      ensures params == CompleteLuminance(old(params), groupMask)
    {
      if LuminanceGroup !in groupMask {
        params := params.(refLum := 80.0, minLum := 0.2, maxLum := 80.0);
        if TfGroup in groupMask {
          match params.tf {
            case Some(BT1886) => params := params.(refLum := 100.0, minLum := 0.01, maxLum := 100.0);
            case Some(PQ) => params := params.(refLum := 203.0, minLum := 0.005, maxLum := 10000.0);
            case Some(HLG) => params := params.(refLum := 203.0, minLum := 0.005, maxLum := 1000.0);
            case _ =>
          }
        }
      } else if TfGroup in groupMask && params.tf == Some(PQ) {
        params := params.(maxLum := params.minLum + 10000.0);
      }
    }

    /** builder_complete_params */
    method CompleteParams()
      modifies this`params
      ensures params == Complete(old(params), groupMask)
    {
      if TargetPrimariesGroup !in groupMask { params := params.(targetPrimaries := params.primaries); }
      CompletePrimaryLuminance();
      if TargetLuminanceGroup !in groupMask {
        params := params.(targetMin := params.minLum);
        params := params.(targetMax := params.maxLum);
      }
      if MaxCLLGroup !in groupMask { params := params.(maxCLL := -1.0); }
      if MaxFALLGroup !in groupMask { params := params.(maxFALL := -1.0); }
    }

    /** Add an error to the log if a check fails. */
    ghost function After(e: Option<Error>): Option<Error>
      reads this
    {
      Stored(State().err, e)
    }

    /** builder_validate_params_set */
    method ValidateParamsSet()
      modifies this`err, this`hasErrors
      ensures State() == old(State()).(err := old(After(MandatoryError(groupMask))))
    {
      if PrimariesGroup !in groupMask { StoreError(IncompleteSet); }
      if TfGroup !in groupMask { StoreError(IncompleteSet); }
    }

    /** validate_maxcll and validate_maxfall */
    method ValidateLightLevel(v: real)
      modifies this`err, this`hasErrors
      ensures State() == old(State()).(err := old(After(
                if LightLevelValid(v, params) then None else Some(InvalidLuminance))))
    {
      if !(v > 0.0 && v <= MAX_LUM) { StoreError(InvalidLuminance); }
      if params.targetMin >= v { StoreError(InvalidLuminance); }
      if params.targetMax < v { StoreError(InvalidLuminance); }
    }

    /** validate_color_gamut */
    method ValidateGamut(g: Gamut)
      modifies this`err, this`hasErrors
      ensures State() == old(State()).(err := old(After(if GamutValid(g) then None else Some(CieOutOfRange))))
    {
      var xy := [g.red, g.green, g.blue, g.white];
      for i := 0 to 4
        invariant State() == old(State()).(err := old(After(
                    if forall k :: 0 <= k < i ==> CieValid(xy[k]) then None else Some(CieOutOfRange))))
      {
        if !(xy[i].x >= -1.0 && xy[i].x <= 2.0) { StoreError(CieOutOfRange); }
        if !(xy[i].y >= -1.0 && xy[i].y <= 2.0) { StoreError(CieOutOfRange); }
      }
      assert xy[0] == g.red && xy[1] == g.green && xy[2] == g.blue && xy[3] == g.white;
      if !Accepts(g.white, g.red, g.green, g.blue) { StoreError(CieOutOfRange); }
    }

    /** builder_validate_primary_luminances */
    method ValidatePrimaryLuminances()
      modifies this`err, this`hasErrors
      ensures State() == old(State()).(err := old(After(
                if LuminanceValid(params) then None else Some(InvalidLuminance))))
    {
      if !(params.refLum > 0.0 && params.refLum <= MAX_LUM) { StoreError(InvalidLuminance); }
      if !(params.minLum >= 0.0 && params.minLum <= MAX_LUM) { StoreError(InvalidLuminance); }
      if !(params.maxLum > 0.0 && params.maxLum <= MAX_LUM) { StoreError(InvalidLuminance); }
    }

    /** builder_validate_target_luminances */
    method ValidateTargetLuminances()
      modifies this`err, this`hasErrors
      ensures State() == old(State()).(err := old(After(
                if TargetLuminanceValid(params) then None else Some(InvalidLuminance))))
    {
      if !(params.targetMin >= 0.0 && params.targetMin <= MAX_LUM) { StoreError(InvalidLuminance); }
      if !(params.targetMax > 0.0 && params.targetMax <= MAX_LUM) { StoreError(InvalidLuminance); }
    }

    /** The first half of builder_validate_params. */
    method ValidateLightLevels()
      modifies this`err, this`hasErrors
      ensures State() == old(State()).(err := old(After(LightLevelError(params, groupMask))))
    {
      if MaxCLLGroup in groupMask { ValidateLightLevel(params.maxCLL); }
      if MaxFALLGroup in groupMask { ValidateLightLevel(params.maxFALL); }
      if MaxCLLGroup in groupMask && MaxFALLGroup in groupMask && params.maxFALL > params.maxCLL {
        StoreError(InvalidLuminance);
      }
    }

    /** The second half of builder_validate_params. */
    method ValidateVolumes()
      modifies this`err, this`hasErrors
      ensures State() == old(State()).(err := old(After(VolumeError(params, groupMask))))
    {
      if PrimariesGroup in groupMask { ValidateGamut(params.primaries); }
      if TargetPrimariesGroup in groupMask { ValidateGamut(params.targetPrimaries); }
      if LuminanceGroup in groupMask { ValidatePrimaryLuminances(); }
      if TargetLuminanceGroup in groupMask { ValidateTargetLuminances(); }
    }

    /** create_color_profile, up to the call into the colour manager. */
    method CreateColorProfile() returns (r: Outcome)
      modifies this
      ensures r == Create(old(State()))
    {
      CompleteParams();
      ValidateParamsSet();
      ValidateLightLevels();
      ValidateVolumes();
      r := if hasErrors then Failed(err) else Reached(params);
    }
  }

  /** One setter call, whichever it is. */
  method Call(b: ParamBuilder, op: Op)
    requires ManagerValid(b.cm)
    modifies b
    ensures b.State() == Apply(b.cm, old(b.State()), op)
  {
    var ok;
    match op {
      case SetPrimaries(gamut) => ok := b.SetPrimaries(gamut);
      case SetPrimariesNamed(named) => ok := b.SetPrimariesNamed(named);
      case SetTfNamed(tf) => ok := b.SetTfNamed(tf);
      case SetTfPower(exponent) => ok := b.SetTfPower(exponent);
      case SetLuminance(ref, lo, hi) => ok := b.SetLuminance(ref, lo, hi);
      case SetTargetPrimaries(gamut) => ok := b.SetTargetPrimaries(gamut);
      case SetTargetPrimariesNamed(named) => ok := b.SetTargetPrimariesNamed(named);
      case SetTargetLuminance(lo, hi) => ok := b.SetTargetLuminance(lo, hi);
      case SetMaxFALL(value) => ok := b.SetMaxFALL(value);
      case SetMaxCLL(value) => ok := b.SetMaxCLL(value);
    }
  }

  /** Any sequence of setter calls on a new builder, and then creation, is what the specification says of it. */
  method Build(cm: Manager, ops: seq<Op>) returns (r: Outcome)
    requires ManagerValid(cm)
    ensures r == Create(Run(cm, FRESH, ops))
  {
    var b := new ParamBuilder(cm);
    for i := 0 to |ops|
      invariant fresh(b) && b.cm == cm && Run(cm, b.State(), ops[i..]) == Run(cm, FRESH, ops)
    {
      assert ops[i..][1..] == ops[i + 1..];
      Call(b, ops[i]);
    }
    r := b.CreateColorProfile();
  }
}
