/** `ModelLoader`: reads a bundle of fitted components, checks that the five
    required ones are there, and keeps them. The pickle file is an input
    `ModelFile`: absent, unreadable, or a dictionary of components. */
module ModelLoading {
  import opened Wrappers
  import opened Frames

  const ModelKey := "Model"
  const LabelEncoderKey := "Label_Encoder"
  const ScalerKey := "Scaler_X"
  const TargetScalerKey := "Scaler_Y"
  const IsolationForestKey := "Isolation_Forest"

  /** `REQUIRED_COMPONENTS`, in declaration order. */
  const RequiredComponents: seq<string> :=
    [ModelKey, LabelEncoderKey, ScalerKey, TargetScalerKey, IsolationForestKey]

  const LoadErrorPrefix := "Error loading model: "
  const MissingComponentsPrefix := "Missing required model components: "

  /** What opening and unpickling the model file gives. */
  datatype ModelFile<T> = Absent | Unreadable(reason: string) | Bundle(components: map<string, T>)

  /** The names separated by a comma and a space. */
  function Join(names: seq<string>): string {
    if |names| == 0 then ""
    else if |names| == 1 then names[0]
    else Join(names[..|names| - 1]) + ", " + names[|names| - 1]
  }

  /** For each required component, whether the bundle lacks it. */
  function AbsentMask<T>(bundle: map<string, T>): (keep: seq<bool>)
    ensures |keep| == |RequiredComponents|
    ensures forall k :: 0 <= k < |RequiredComponents| ==> (keep[k] <==> RequiredComponents[k] !in bundle)
  {
    seq(|RequiredComponents|, k requires 0 <= k < |RequiredComponents| => RequiredComponents[k] !in bundle)
  }

  /** The required components a bundle lacks, in declaration order. */
  function MissingComponents<T>(bundle: map<string, T>): (r: seq<string>)
    ensures Distinct(r)
    ensures forall c :: c in r <==> c in RequiredComponents && c !in bundle
  {
    RequiredComponentsDistinct();
    Where(RequiredComponents, c => c !in bundle)
  }

  /** The missing components are the required names the bundle lacks, kept
      in declaration order. */
  lemma MissingComponentsInOrder<T>(bundle: map<string, T>)
    ensures MissingComponents(bundle) == Select(RequiredComponents, AbsentMask(bundle))
  {
    WhereSelect(RequiredComponents, c => c !in bundle, AbsentMask(bundle));
  }

  lemma RequiredComponentsDistinct()
    ensures Distinct(RequiredComponents)
  {
    var r := RequiredComponents;
    assert |r[0]| == 5 && |r[1]| == 13 && |r[2]| == 8 && |r[4]| == 16;
    assert r[2][7] == 'X' && r[3][7] == 'Y';
  }

  /** `_validate_model_components`: collects the absent required names in a
      loop and fails with them joined by commas. */
  method ValidateModelComponents<T>(bundle: map<string, T>) returns (o: Outcome<string>)
    ensures o.Pass? <==> forall c :: c in RequiredComponents ==> c in bundle
    ensures o.Fail? ==> o.error == MissingComponentsPrefix + Join(MissingComponents(bundle))
  {
    var missing := CollectMissing(RequiredComponents, bundle);
    if |missing| > 0 {
      assert missing[0] in RequiredComponents && missing[0] !in bundle;
      return Fail(MissingComponentsPrefix + Join(missing));
    }
    o := Pass;
  }

  /** The loop of `_validate_model_components`: the names of `required`
      absent from `bundle`, in order. */
  method CollectMissing<T>(required: seq<string>, bundle: map<string, T>) returns (missing: seq<string>)
    ensures missing == Where(required, c => c !in bundle)
  {
    ghost var absent := c => c !in bundle;
    missing := [];
    var i := 0;
    while i < |required|
      invariant 0 <= i <= |required|
      invariant missing == Where(required[..i], absent)
    {
      assert required[..i + 1] == required[..i] + [required[i]];
      WhereSnoc(required[..i], required[i], absent);
      if required[i] !in bundle {
        missing := missing + [required[i]];
      }
      i := i + 1;
    }
    assert required[..i] == required;
  }

  /** Why `_load_model` fails on a file, or `None` when it succeeds. Every
      failure is wrapped with the same prefix, and a load succeeds exactly on
      a readable bundle holding all five required components. */
  function LoadFailure<T>(path: string, file: ModelFile<T>): (r: Option<string>)
    ensures r.Some? ==> |r.value| >= |LoadErrorPrefix| && r.value[..|LoadErrorPrefix|] == LoadErrorPrefix
    ensures r.None? <==> file.Bundle? && forall c :: c in RequiredComponents ==> c in file.components
  {
    match file
    case Absent => Some(LoadErrorPrefix + "Model file not found: " + path)
    case Unreadable(reason) => Some(LoadErrorPrefix + reason)
    case Bundle(b) =>
      var missing := MissingComponents(b);
      if |missing| > 0 then
        assert missing[0] in missing;
        Some(LoadErrorPrefix + MissingComponentsPrefix + Join(missing))
      else None
  }

  predicate RequiredKeysPresent<T>(b: map<string, T>) {
    && ModelKey in b && LabelEncoderKey in b && ScalerKey in b
    && TargetScalerKey in b && IsolationForestKey in b
  }

  /** A bundle that holds every required component holds each of the five. */
  lemma RequiredKeys<T>(b: map<string, T>)
    requires forall c :: c in RequiredComponents ==> c in b
    ensures RequiredKeysPresent(b)
  {
    assert RequiredComponents[0] == ModelKey && RequiredComponents[1] == LabelEncoderKey;
    assert RequiredComponents[2] == ScalerKey && RequiredComponents[3] == TargetScalerKey;
    assert RequiredComponents[4] == IsolationForestKey;
  }

  /** Extra keys never matter: bundles that agree on which required names
      they hold fail or pass alike, with the same message. */
  lemma ExtraKeysIgnored<T>(a: map<string, T>, b: map<string, T>)
    requires forall c :: c in RequiredComponents ==> (c in a <==> c in b)
    ensures MissingComponents(a) == MissingComponents(b)
  {
    WhereAgrees(RequiredComponents, c => c !in a, c => c !in b);
  }

  /** An empty bundle lacks every component, listed in declaration order. */
  lemma EmptyBundleMissesAll<T>(b: map<string, T>)
    requires b == map[]
    ensures MissingComponents(b) == RequiredComponents
  {
    WhereAll(RequiredComponents, c => c !in b);
  }

  /** What `get_model_info` returns. */
  datatype ModelInfo = ModelInfo(modelPath: string, loadTimestamp: string, components: seq<string>)

  class ModelLoader<T> {
    const modelPath: string
    var model: Option<T>
    var labelEncoder: Option<T>
    var scaler: Option<T>
    var targetScaler: Option<T>
    var iso: Option<T>
    var loadTimestamp: Option<string>

    /** The five component fields and the timestamp are set together, or
        none of them is. */
    predicate Valid()
      reads this
    {
      && (loadTimestamp.Some? <==> model.Some?)
      && model.Some? == labelEncoder.Some? == scaler.Some? == targetScaler.Some? == iso.Some?
    }

    /** The state `__init__` has set up before it calls `_load_model`. */
    constructor (path: string)
      ensures Valid() && modelPath == path
      ensures loadTimestamp.None? && model.None?
    {
      modelPath := path;
      model, labelEncoder, scaler, targetScaler, iso := None, None, None, None, None;
      loadTimestamp := None;
    }

    /** `_load_model`, with the file's contents and the clock's reading as
        inputs: on success the five fields hold the bundle's entries and
        the timestamp is set; on failure nothing changes. */
    method LoadModel(file: ModelFile<T>, now: string) returns (o: Outcome<string>)
      requires Valid()
      modifies this
      ensures Valid()
      ensures o.Pass? <==> LoadFailure(modelPath, file).None?
      ensures o.Fail? ==> o.error == LoadFailure(modelPath, file).value
      ensures o.Fail? ==> unchanged(this)
      ensures o.Pass? ==> && file.Bundle?
                          && RequiredKeysPresent(file.components)
                          && model == Some(file.components[ModelKey])
                          && labelEncoder == Some(file.components[LabelEncoderKey])
                          && scaler == Some(file.components[ScalerKey])
                          && targetScaler == Some(file.components[TargetScalerKey])
                          && iso == Some(file.components[IsolationForestKey])
                          && loadTimestamp == Some(now)
    {
      match file {
        case Absent =>
          return Fail(LoadErrorPrefix + "Model file not found: " + modelPath);
        case Unreadable(reason) =>
          return Fail(LoadErrorPrefix + reason);
        case Bundle(b) =>
          var v := ValidateModelComponents(b);
          if v.Fail? {
            return Fail(LoadErrorPrefix + v.error);
          }
          RequiredKeys(b);
          KeepComponents(b, now);
          o := Pass;
      }
    }

    /** The five assignments and the timestamp that end a successful load. */
    method KeepComponents(b: map<string, T>, now: string)
      requires RequiredKeysPresent(b)
      modifies this
      ensures Valid()
      ensures model == Some(b[ModelKey]) && labelEncoder == Some(b[LabelEncoderKey])
      ensures scaler == Some(b[ScalerKey]) && targetScaler == Some(b[TargetScalerKey])
      ensures iso == Some(b[IsolationForestKey]) && loadTimestamp == Some(now)
    {
      model := Some(b[ModelKey]);
      labelEncoder := Some(b[LabelEncoderKey]);
      scaler := Some(b[ScalerKey]);
      targetScaler := Some(b[TargetScalerKey]);
      iso := Some(b[IsolationForestKey]);
      loadTimestamp := Some(now);
    }

    /** `ModelLoader(config_path)`: the constructor followed by `_load_model`;
        the object exists only when the load succeeds. */
    static method Create(path: string, file: ModelFile<T>, now: string) returns (r: Result<ModelLoader<T>, string>)
      ensures r.Ok? <==> LoadFailure(path, file).None?
      ensures r.Err? ==> r.error == LoadFailure(path, file).value
      ensures r.Ok? ==> && fresh(r.value) && r.value.Valid()
                        && r.value.modelPath == path && r.value.loadTimestamp == Some(now)
      ensures r.Ok? ==> && file.Bundle? && RequiredKeysPresent(file.components)
                        && r.value.model == Some(file.components[ModelKey])
                        && r.value.labelEncoder == Some(file.components[LabelEncoderKey])
                        && r.value.scaler == Some(file.components[ScalerKey])
                        && r.value.targetScaler == Some(file.components[TargetScalerKey])
                        && r.value.iso == Some(file.components[IsolationForestKey])
    {
      var loader := new ModelLoader(path);
      var o := loader.LoadModel(file, now);
      if o.Fail? {
        return Err(o.error);
      }
      r := Ok(loader);
    }

    /** `get_model_info`: the path, the load time as `str` shows it, and the
        names of the required components in declaration order. */
    function GetModelInfo(): (info: ModelInfo)
      reads this
      ensures info.components == RequiredComponents
      ensures info.modelPath == modelPath
      ensures loadTimestamp.None? ==> info.loadTimestamp == "None"
      ensures loadTimestamp.Some? ==> info.loadTimestamp == loadTimestamp.value
    {
      ModelInfo(modelPath, if loadTimestamp.Some? then loadTimestamp.value else "None", RequiredComponents)
    }
  }
}
