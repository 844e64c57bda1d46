/** The preset registry query: an append-only list of registered UnoCSS
    presets, returned by priority (higher first) and then by name. */
module GetPresets {
  import opened Json
  import opened Records
  import opened Text
  import opened Sorting

  /** The optional query parameters as the caller passes them. */
  datatype PresetsInput = PresetsInput(includeConfig: Option<bool>)

  /** One registered preset; `config` is absent when the query was asked not
      to include configurations. */
  datatype Preset = Preset(
    name: string,
    moduleName: Option<Json>,
    path: Option<Json>,
    priority: int,
    registeredAt: Option<Json>,
    registeredBy: Option<Json>,
    config: Option<Json>)

  datatype PresetsResult = PresetsResult(presets: seq<Preset>, count: nat)

  /** `includeConfig` defaults to true when the parameter, or the whole
      parameter object, is missing. */
  function IncludeConfig(input: Option<PresetsInput>): (b: bool)
    ensures b <==> input.None? || input.value.includeConfig != Some(false)
  {
    if input.None? then true else OrDefault(input.value.includeConfig, true)
  }

  /** The records the query takes into account. */
  predicate IsRegistration(r: Record) {
    r.kind == "uno-preset" && r.operation == "register"
  }

  /** The entry a registration appends: a missing or zero priority becomes
      100, and the configuration, when included, falls back to `{}`. */
  function MakePreset(r: Record, includeConfig: bool): (p: Preset)
    ensures p.name == r.name && p.moduleName == r.data.moduleName && p.path == r.data.path
    ensures p.registeredAt == r.data.registeredAt && p.registeredBy == r.data.registeredBy
    ensures r.data.priority.None? || r.data.priority == Some(0) ==> p.priority == 100
    ensures r.data.priority.Some? && r.data.priority != Some(0) ==> p.priority == r.data.priority.value
    ensures p.config.Some? <==> includeConfig
    ensures includeConfig ==> Truthy(p.config.value)
    ensures includeConfig && !(r.data.config.Some? && Truthy(r.data.config.value)) ==> p.config == Some(JObj(map[]))
    ensures includeConfig && r.data.config.Some? && Truthy(r.data.config.value) ==> p.config == r.data.config
  {
    Preset(
      r.name, r.data.moduleName, r.data.path,
      OrInt(r.data.priority, 100),
      r.data.registeredAt, r.data.registeredBy,
      if includeConfig then Some(Or(r.data.config, JObj(map[]))) else None)
  }

  /** The registrations of `rs`, in record order. */
  function Registrations(rs: seq<Record>): (regs: seq<Record>)
    ensures |regs| <= |rs|
    ensures forall r :: r in regs <==> r in rs && IsRegistration(r)
    decreases |rs|
  {
    if rs == [] then []
    else Registrations(rs[..|rs| - 1]) + (if IsRegistration(rs[|rs| - 1]) then [rs[|rs| - 1]] else [])
  }

  /** The preset list after folding `rs` from the empty list. */
  function PresetsOf(rs: seq<Record>, includeConfig: bool): seq<Preset>
    decreases |rs|
  {
    if rs == [] then []
    else
      var ps := PresetsOf(rs[..|rs| - 1], includeConfig);
      if IsRegistration(rs[|rs| - 1]) then ps + [MakePreset(rs[|rs| - 1], includeConfig)] else ps
  }

  /** The sort key: higher priority first, then ascending name. Against the
      key of any other preset `q`, it sorts no later exactly when `p` has the
      higher priority, or the same priority and a name not after `q`'s. */
  function PresetKey(p: Preset): (k: SortKey)
    ensures forall q: Preset :: KeyLe(k, SortKey(-q.priority, q.name)) <==>
              p.priority > q.priority || (p.priority == q.priority && StrLe(p.name, q.name))
  {
    SortKey(-p.priority, p.name)
  }

  /** The key order is the comparator of `getResult`: a preset sorts no later
      than another exactly when its priority is higher, or equal with a name
      that does not sort after the other's. */
  lemma PresetOrder(a: Preset, b: Preset)
    ensures KeyLe(PresetKey(a), PresetKey(b)) <==>
              a.priority > b.priority || (a.priority == b.priority && StrLe(a.name, b.name))
  {
  }

  /** Append only, with no merging by name: the list holds one entry per
      registration, in record order, each built from its own record. */
  lemma {:induction false} PresetsOfRegistrations(rs: seq<Record>, includeConfig: bool)
    ensures |PresetsOf(rs, includeConfig)| == |Registrations(rs)|
    ensures forall k :: 0 <= k < |Registrations(rs)| ==>
              PresetsOf(rs, includeConfig)[k] == MakePreset(Registrations(rs)[k], includeConfig)
    decreases |rs|
  {
    if rs != [] {
      PresetsOfRegistrations(rs[..|rs| - 1], includeConfig);
    }
  }

  /** Whether entries carry a configuration depends only on the flag. */
  lemma PresetsOfConfig(rs: seq<Record>, includeConfig: bool)
    ensures forall p :: p in PresetsOf(rs, includeConfig) ==> (p.config.Some? <==> includeConfig)
  {
    PresetsOfRegistrations(rs, includeConfig);
  }

  /** The query's state. */
  class PresetState {
    var presets: seq<Preset>

    /** `initState`: no presets. */
    constructor ()
      ensures presets == []
    {
      presets := [];
    }

    /** `processRecord`: a registration appends one entry; any other record
        changes nothing. */
    method ProcessRecord(r: Record, input: Option<PresetsInput>)
      modifies this
      ensures IsRegistration(r) ==> presets == old(presets) + [MakePreset(r, IncludeConfig(input))]
      ensures !IsRegistration(r) ==> presets == old(presets)
    {
      var includeConfig := IncludeConfig(input);
      if IsRegistration(r) {
        presets := presets + [MakePreset(r, includeConfig)];
      }
    }

    /** `getResult`: a stable sort of the list in place by priority and name,
        returned with its length. */
    method GetResult() returns (res: PresetsResult)
      modifies this
      ensures SortedBy(res.presets, PresetKey)
      ensures multiset(res.presets) == multiset(old(presets))
      ensures forall k :: WithKey(res.presets, PresetKey, k) == WithKey(old(presets), PresetKey, k)
      ensures res.count == |res.presets|
      ensures presets == res.presets
    {
      presets := SortBy(presets, PresetKey);
      res := PresetsResult(presets, |presets|);
    }
  }

  /** The whole query: fold every record in order, then `getResult`. The
      result holds one entry per registration, ordered by priority and name,
      with registrations that tie on both kept in record order. */
  method Run(input: Option<PresetsInput>, records: seq<Record>) returns (res: PresetsResult)
    ensures SortedBy(res.presets, PresetKey)
    ensures multiset(res.presets) == multiset(PresetsOf(records, IncludeConfig(input)))
    ensures forall k :: WithKey(res.presets, PresetKey, k) == WithKey(PresetsOf(records, IncludeConfig(input)), PresetKey, k)
    ensures res.count == |res.presets| == |Registrations(records)|
  {
    var state := new PresetState();
    for i := 0 to |records|
      invariant state.presets == PresetsOf(records[..i], IncludeConfig(input))
    {
      assert records[..i + 1][..i] == records[..i];
      state.ProcessRecord(records[i], input);
    }
    assert records[..|records|] == records;
    res := state.GetResult();
    PresetsOfRegistrations(records, IncludeConfig(input));
    assert |multiset(res.presets)| == |multiset(PresetsOf(records, IncludeConfig(input)))|;
  }
}
