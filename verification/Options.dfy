/** Functional options over shared structures (options.go, openllmetry.go, datadog.go).

  Maps and the structures behind pointers are objects, so that sharing is visible. No method here but
  the two in-place writers may modify an object that existed before the call.
 */
module Options {
  import opened Values
  import opened GoText
  import opened Headers
  import Config
  import Endpoint
  import Events

  /** A Go map, which is shared when it is copied. */
  class StringMap {
    var entries: HeaderMap

    constructor (entries: HeaderMap)
      ensures this.entries == entries
    {
      this.entries := entries;
    }
  }

  /** DatadogPreset: a struct that holds a reference to a map. */
  datatype Preset = Preset(enabled: bool, traceEndpoint: Text, apiKey: Text, headers: StringMap?)

  /** OpenLLMetryCompatOptions */
  datatype Compat = Compat(
    workflow: Text, entityName: Text, entityPath: Text, entityVersion: Text, spanKind: Text,
    properties: StringMap?)

  /** What a pointer to a struct points to. */
  class Cell<T> {
    var value: T

    constructor (value: T)
      ensures this.value == value
    {
      this.value := value;
    }
  }

  /** PayloadCaptureOptions; a redactor of the caller is known by a number. */
  datatype Redactor = DropAllPayloads | Given(id: nat)

  datatype Capture = Capture(redactor: Redactor, mode: Events.FailureMode)

  /** The part of Options that functional options touch. */
  datatype Options = Options(
    preset: Cell?<Preset>, compat: Cell?<Compat>, devSink: Option<Config.DevSink>, capture: Option<Capture>)

  datatype PresetOption =
    | NilPresetOption | TraceEndpoint(endpoint: Text) | ApiKey(key: Text) | ExtraHeaders(headers: StringMap?)

  datatype FunctionalOption =
    | NilOption
    | WithDatadogPreset(options: seq<PresetOption>)
    | WithDevSink(endpoint: Text)
    | WithOpenLLMetryCompat(overlays: seq<Compat>)
    | WithPayloadCapture(redactor: Option<nat>, modes: seq<Option<Events.FailureMode>>)

  // ---- The values behind the references -----------------------------------------------------

  datatype CompatValue = CompatValue(
    workflow: Text, entityName: Text, entityPath: Text, entityVersion: Text, spanKind: Text,
    properties: Option<HeaderMap>)

  datatype OptionsValue = OptionsValue(
    preset: Option<Config.DatadogPreset>, compat: Option<CompatValue>, devSink: Option<Config.DevSink>,
    capture: Option<Capture>)

  datatype PresetOptionValue =
    | NilPresetValue | TraceEndpointValue(endpoint: Text) | ApiKeyValue(key: Text)
    | ExtraHeadersValue(headers: HeaderMap)

  datatype OptionValue =
    | NilValue
    | DatadogValue(options: seq<PresetOptionValue>)
    | DevSinkValue(endpoint: Text)
    | CompatOverlays(overlays: seq<CompatValue>)
    | CaptureOptions(redactor: Option<nat>, modes: seq<Option<Events.FailureMode>>)

  ghost function MapValue(m: StringMap?): Option<HeaderMap>
    reads m
  {
    if m == null then None else Some(m.entries)
  }

  ghost function PresetValue(p: Preset): Config.DatadogPreset
    reads p.headers
  {
    Config.DatadogPreset(p.enabled, p.traceEndpoint, p.apiKey, MapValue(p.headers))
  }

  ghost function CompatValueOf(c: Compat): CompatValue
    reads c.properties
  {
    CompatValue(c.workflow, c.entityName, c.entityPath, c.entityVersion, c.spanKind, MapValue(c.properties))
  }

  ghost function OptionsValueOf(o: Options): OptionsValue
    reads o.preset, o.compat
    reads if o.preset != null then {o.preset.value.headers} else {}
    reads if o.compat != null then {o.compat.value.properties} else {}
  {
    OptionsValue(
      if o.preset == null then None else Some(PresetValue(o.preset.value)),
      if o.compat == null then None else Some(CompatValueOf(o.compat.value)),
      o.devSink, o.capture)
  }

  ghost function PresetOptionValueOf(o: PresetOption): PresetOptionValue
    reads if o.ExtraHeaders? then {o.headers} else {}
  {
    match o
    case NilPresetOption => NilPresetValue
    case TraceEndpoint(e) => TraceEndpointValue(e)
    case ApiKey(k) => ApiKeyValue(k)
    case ExtraHeaders(m) => ExtraHeadersValue(OrEmpty(MapValue(m)))
  }

  ghost function PresetOptionValues(os: seq<PresetOption>): seq<PresetOptionValue>
    reads set o | o in os && o.ExtraHeaders? :: o.headers
  {
    if os == [] then [] else PresetOptionValues(os[..|os| - 1]) + [PresetOptionValueOf(os[|os| - 1])]
  }

  ghost function CompatValues(cs: seq<Compat>): seq<CompatValue>
    reads set c | c in cs :: c.properties
  {
    if cs == [] then [] else CompatValues(cs[..|cs| - 1]) + [CompatValueOf(cs[|cs| - 1])]
  }

  /** The maps that an option refers to. */
  ghost function ArgumentMaps(o: FunctionalOption): set<StringMap?> {
    match o
    case WithDatadogPreset(os) => set p | p in os && p.ExtraHeaders? :: p.headers
    case WithOpenLLMetryCompat(cs) => set c | c in cs :: c.properties
    case _ => {}
  }

  ghost function OptionValueOf(o: FunctionalOption): OptionValue
    reads ArgumentMaps(o)
  {
    match o
    case NilOption => NilValue
    case WithDatadogPreset(os) => DatadogValue(PresetOptionValues(os))
    case WithDevSink(e) => DevSinkValue(e)
    case WithOpenLLMetryCompat(cs) => CompatOverlays(CompatValues(cs))
    case WithPayloadCapture(redactor, modes) => CaptureOptions(redactor, modes)
  }

  ghost function OptionValues(os: seq<FunctionalOption>): seq<OptionValue>
    reads set o, m | o in os && m in ArgumentMaps(o) :: m
  {
    if os == [] then [] else OptionValues(os[..|os| - 1]) + [OptionValueOf(os[|os| - 1])]
  }

  // ---- What options do to values ------------------------------------------------------------

  function ApplyPresetOption(p: Config.DatadogPreset, o: PresetOptionValue): Config.DatadogPreset {
    match o
    case NilPresetValue => p
    case TraceEndpointValue(e) => p.(traceEndpoint := e)
    case ApiKeyValue(k) => p.(apiKey := k)
    case ExtraHeadersValue(m) => if m == map[] then p else p.(headers := Some(OrEmpty(p.headers) + m))
  }

  function ApplyPresetOptions(p: Config.DatadogPreset, os: seq<PresetOptionValue>): Config.DatadogPreset {
    if os == [] then p else ApplyPresetOption(ApplyPresetOptions(p, os[..|os| - 1]), os[|os| - 1])
  }

  function Later(base: Text, overlay: Text): Text {
    if overlay == [] then base else overlay
  }

  /** A map that is written into another; nil stays nil if there is nothing to write. */
  function MergeMaps(base: Option<HeaderMap>, overlay: Option<HeaderMap>): Option<HeaderMap> {
    if OrEmpty(overlay) == map[] then base else Some(OrEmpty(base) + overlay.value)
  }

  /** mergeOpenLLMetryCompat */
  function Merge(base: CompatValue, overlay: CompatValue): CompatValue {
    CompatValue(
      Later(base.workflow, overlay.workflow), Later(base.entityName, overlay.entityName),
      Later(base.entityPath, overlay.entityPath), Later(base.entityVersion, overlay.entityVersion),
      Later(base.spanKind, overlay.spanKind),
      MergeMaps(base.properties, overlay.properties))
  }

  const EMPTY_COMPAT := CompatValue([], [], [], [], [], None)

  function MergeAll(base: CompatValue, overlays: seq<CompatValue>): CompatValue {
    if overlays == [] then base else Merge(MergeAll(base, overlays[..|overlays| - 1]), overlays[|overlays| - 1])
  }

  const DEFAULT_PRESET := Config.DatadogPreset(true, [], [], None)

  function ApplyOption(v: OptionsValue, o: OptionValue): OptionsValue {
    match o
    case NilValue => v
    case DevSinkValue(e) => v.(devSink := Some(Config.DevSink(true, e)))
    case DatadogValue(os) =>
      var start := if v.preset.None? then DEFAULT_PRESET else v.preset.value.(enabled := true);
      v.(preset := Some(ApplyPresetOptions(start, os)))
    case CompatOverlays(cs) =>
      v.(compat := Some(MergeAll(if v.compat.None? then EMPTY_COMPAT else v.compat.value, cs)))
    case CaptureOptions(redactor, modes) => v.(capture := Some(CaptureOf(redactor, modes)))
  }

  /** The loop over the capture options, which write into one struct. */
  function CaptureOf(redactor: Option<nat>, modes: seq<Option<Events.FailureMode>>): Capture {
    if modes == [] then Capture(if redactor.None? then DropAllPayloads else Given(redactor.value), Events.DropPayload)
    else
      var before := CaptureOf(redactor, modes[..|modes| - 1]);
      var last := modes[|modes| - 1];
      if last.None? then before else before.(mode := last.value)
  }

  function ApplyAll(v: OptionsValue, os: seq<OptionValue>): OptionsValue {
    if os == [] then v else ApplyOption(ApplyAll(v, os[..|os| - 1]), os[|os| - 1])
  }

  // ---- The code -----------------------------------------------------------------------------

  /** maps.Clone: nil stays nil, and a map is copied. */
  method CloneStringMap(m: StringMap?) returns (r: StringMap?)
    ensures r != null ==> fresh(r)
    ensures MapValue(r) == MapValue(m)
  {
    if m == null { return null; }
    r := new StringMap(m.entries);
  }

  /** The loop that writes every entry of `from` into `into`, in some order. */
  method WriteAll(into: StringMap, from: StringMap)
    requires into != from
    modifies into
    ensures into.entries == old(into.entries) + from.entries
  {
    var todo := from.entries.Keys;
    while todo != {}
      invariant todo <= from.entries.Keys
      invariant into.entries == old(into.entries) + (from.entries - todo)
      decreases todo
    {
      var k :| k in todo;
      into.entries := into.entries[k := from.entries[k]];
      todo := todo - {k};
    }
    assert from.entries - {} == from.entries;
  }

  /** A DatadogPresetOption. It writes into the headers of the preset it is given. */
  method ApplyToPreset(p: Preset, o: PresetOption) returns (r: Preset)
    requires p.headers != null && o.ExtraHeaders? ==> p.headers != o.headers
    modifies p.headers
    ensures PresetValue(r) == ApplyPresetOption(old(PresetValue(p)), old(PresetOptionValueOf(o)))
    ensures r.headers == p.headers || (r.headers != null && fresh(r.headers))
  {
    match o {
      case NilPresetOption => return p;
      case TraceEndpoint(e) => return p.(traceEndpoint := e);
      case ApiKey(k) => return p.(apiKey := k);
      case ExtraHeaders(m) =>
        if m == null || |m.entries| == 0 { return p; }
        var target := p.headers;
        if target == null {
          target := new StringMap(map[]);
        }
        WriteAll(target, m);
        return p.(headers := target);
    }
  }

  /** The loop over the preset options, which write into one preset. */
  method ApplyAllToPreset(p: Preset, os: seq<PresetOption>) returns (r: Preset)
    requires forall o | o in os && o.ExtraHeaders? :: p.headers != null ==> p.headers != o.headers
    modifies p.headers
    ensures PresetValue(r) == ApplyPresetOptions(old(PresetValue(p)), old(PresetOptionValues(os)))
    ensures r.headers == p.headers || (r.headers != null && fresh(r.headers))
  {
    hide ApplyPresetOption;
    r := p;
    for i := 0 to |os|
      invariant r.headers == p.headers || (r.headers != null && fresh(r.headers))
      invariant PresetValue(r) == ApplyPresetOptions(old(PresetValue(p)), old(PresetOptionValues(os[..i])))
    {
      assert os[..i + 1][..i] == os[..i] && os[i] in os;
      assert PresetOptionValueOf(os[i]) == old(PresetOptionValueOf(os[i]));
      ApplyOneMore(old(PresetValue(p)), old(PresetOptionValues(os[..i])), PresetOptionValueOf(os[i]));
      r := ApplyToPreset(r, os[i]);
    }
    assert os[..|os|] == os;
  }

  lemma ApplyOneMore(p: Config.DatadogPreset, os: seq<PresetOptionValue>, o: PresetOptionValue)
    ensures ApplyPresetOptions(p, os + [o]) == ApplyPresetOption(ApplyPresetOptions(p, os), o)
  {
    assert (os + [o])[..|os|] == os;
  }

  /** WithDatadogPreset, applied to a set of options. */
  method UseDatadogPreset(opts: Options, os: seq<PresetOption>) returns (r: Options)
    ensures OptionsValueOf(r) == ApplyOption(old(OptionsValueOf(opts)), old(OptionValueOf(WithDatadogPreset(os))))
    ensures r.compat == opts.compat && r.preset != null && fresh(r.preset)
    ensures r.preset.value.headers != null ==> fresh(r.preset.value.headers)
  {
    hide ApplyPresetOptions, PresetOptionValues;
    var preset := Preset(true, [], [], null);
    if opts.preset != null {
      preset := opts.preset.value;
      var headers := CloneStringMap(preset.headers);
      preset := preset.(enabled := true, headers := headers);
    }
    preset := ApplyAllToPreset(preset, os);
    var cell := new Cell(preset);
    r := opts.(preset := cell);
  }

  /** mergeOpenLLMetryCompat: `base` is a copy of a struct, but its map is written in place. */
  method MergeOpenLLMetryCompat(base: Compat, overlay: Compat) returns (r: Compat)
    requires base.properties != null ==> base.properties != overlay.properties
    modifies base.properties
    ensures CompatValueOf(r) == Merge(old(CompatValueOf(base)), old(CompatValueOf(overlay)))
    ensures r.properties == base.properties || (r.properties != null && fresh(r.properties))
  {
    hide MergeMaps;
    var properties := MergeProperties(base.properties, overlay.properties);
    r := base.(
      properties := properties,
      workflow := if overlay.workflow != [] then overlay.workflow else base.workflow,
      entityName := if overlay.entityName != [] then overlay.entityName else base.entityName,
      entityPath := if overlay.entityPath != [] then overlay.entityPath else base.entityPath,
      entityVersion := if overlay.entityVersion != [] then overlay.entityVersion else base.entityVersion,
      spanKind := if overlay.spanKind != [] then overlay.spanKind else base.spanKind);
  }

  method MergeProperties(base: StringMap?, overlay: StringMap?) returns (r: StringMap?)
    requires base != null ==> base != overlay
    modifies base
    ensures MapValue(r) == MergeMaps(old(MapValue(base)), old(MapValue(overlay)))
    ensures r == base || (r != null && fresh(r))
  {
    r := base;
    if overlay != null && |overlay.entries| > 0 {
      if r == null {
        r := new StringMap(map[]);
      }
      WriteAll(r, overlay);
    }
  }

  /** The loop over the overlays, which are merged into one struct. */
  method MergeAllOverlays(base: Compat, overlays: seq<Compat>) returns (r: Compat)
    requires forall c | c in overlays :: base.properties != null ==> base.properties != c.properties
    modifies base.properties
    ensures CompatValueOf(r) == MergeAll(old(CompatValueOf(base)), old(CompatValues(overlays)))
    ensures r.properties == base.properties || (r.properties != null && fresh(r.properties))
  {
    hide Merge;
    r := base;
    for i := 0 to |overlays|
      invariant r.properties == base.properties || (r.properties != null && fresh(r.properties))
      invariant CompatValueOf(r) == MergeAll(old(CompatValueOf(base)), old(CompatValues(overlays[..i])))
    {
      assert overlays[..i + 1][..i] == overlays[..i] && overlays[i] in overlays;
      assert CompatValueOf(overlays[i]) == old(CompatValueOf(overlays[i]));
      MergeOneMore(old(CompatValueOf(base)), old(CompatValues(overlays[..i])), CompatValueOf(overlays[i]));
      r := MergeOpenLLMetryCompat(r, overlays[i]);
    }
    assert overlays[..|overlays|] == overlays;
  }

  lemma MergeOneMore(base: CompatValue, overlays: seq<CompatValue>, c: CompatValue)
    ensures MergeAll(base, overlays + [c]) == Merge(MergeAll(base, overlays), c)
  {
    assert (overlays + [c])[..|overlays|] == overlays;
  }

  /** WithOpenLLMetryCompat, applied to a set of options. */
  method UseOpenLLMetryCompat(opts: Options, overlays: seq<Compat>) returns (r: Options)
    ensures OptionsValueOf(r) ==
      ApplyOption(old(OptionsValueOf(opts)), old(OptionValueOf(WithOpenLLMetryCompat(overlays))))
    ensures r.preset == opts.preset && r.compat != null && fresh(r.compat)
    ensures r.compat.value.properties != null ==> fresh(r.compat.value.properties)
  {
    hide MergeAll, CompatValues;
    var compat := Compat([], [], [], [], [], null);
    if opts.compat != null {
      compat := opts.compat.value;
      var properties := CloneStringMap(compat.properties);
      compat := compat.(properties := properties);
    }
    assert CompatValueOf(compat) == if opts.compat == null then EMPTY_COMPAT else CompatValueOf(opts.compat.value);
    assert forall c | c in overlays && c.properties != null :: old(allocated(c.properties));
    assert CompatValues(overlays) == old(CompatValues(overlays));
    compat := MergeAllOverlays(compat, overlays);
    var cell := new Cell(compat);
    r := opts.(compat := cell);
  }

  /** WithPayloadCapture */
  method NewCapture(redactor: Option<nat>, modes: seq<Option<Events.FailureMode>>) returns (r: Capture)
    ensures r == CaptureOf(redactor, modes)
  {
    r := Capture(if redactor.Some? then Given(redactor.value) else DropAllPayloads, Events.DropPayload);
    for i := 0 to |modes|
      invariant r == CaptureOf(redactor, modes[..i])
    {
      assert modes[..i + 1][..i] == modes[..i];
      if modes[i].Some? {
        r := r.(mode := modes[i].value);
      }
    }
    assert modes[..|modes|] == modes;
  }

  /** One functional option. */
  method Use(opts: Options, o: FunctionalOption) returns (r: Options)
    ensures OptionsValueOf(r) == ApplyOption(old(OptionsValueOf(opts)), old(OptionValueOf(o)))
    ensures Unshared(opts, r)
    ensures (o.WithDatadogPreset? ==> r.preset != null && fresh(r.preset))
      && (o.WithOpenLLMetryCompat? ==> r.compat != null && fresh(r.compat))
  {
    hide ApplyPresetOptions, PresetOptionValues, MergeAll, CompatValues;
    match o {
      case NilOption => r := opts;
      case WithDatadogPreset(os) => r := UseDatadogPreset(opts, os);
      case WithDevSink(e) => r := opts.(devSink := Some(Config.DevSink(true, e)));
      case WithOpenLLMetryCompat(cs) => r := UseOpenLLMetryCompat(opts, cs);
      case WithPayloadCapture(redactor, modes) =>
        var capture := NewCapture(redactor, modes);
        r := opts.(capture := Some(capture));
    }
  }

  /** A structure of the result is either that of the base, untouched, or new together with its map. */
  twostate predicate Unshared(opts: Options, new r: Options)
    reads r.preset, r.compat
  {
    && (r.preset == opts.preset || (r.preset != null && fresh(r.preset)
          && (r.preset.value.headers != null ==> fresh(r.preset.value.headers))))
    && (r.compat == opts.compat || (r.compat != null && fresh(r.compat)
          && (r.compat.value.properties != null ==> fresh(r.compat.value.properties))))
  }

  /** ApplyOptions. The frame is empty: nothing that the caller can reach, through the base or through
      an option's arguments, is modified. */
  method ApplyOptions(base: Options, options: seq<FunctionalOption>) returns (r: Options)
    ensures OptionsValueOf(r) == ApplyAll(old(OptionsValueOf(base)), old(OptionValues(options)))
    ensures Unshared(base, r)
  {
    hide ApplyOption, OptionValueOf, ArgumentMaps;
    r := base;
    for i := 0 to |options|
      invariant Unshared(base, r)
      invariant OptionsValueOf(r) == ApplyAll(old(OptionsValueOf(base)), old(OptionValues(options[..i])))
    {
      assert options[..i + 1][..i] == options[..i] && options[i] in options;
      OptionStays(options[i]);
      ApplyAllOneMore(old(OptionsValueOf(base)), old(OptionValues(options[..i])), OptionValueOf(options[i]));
      r := Use(r, options[i]);
    }
    assert options[..|options|] == options;
  }

  twostate lemma OptionStays(o: FunctionalOption)
    requires forall m | m in ArgumentMaps(o) && m != null && old(allocated(m)) :: unchanged(m)
    ensures OptionValueOf(o) == old(OptionValueOf(o))
  {
    hide CompatValues, PresetOptionValues;
    match o {
      case WithDatadogPreset(os) =>
        assert forall p | p in os && p.ExtraHeaders? :: p.headers in ArgumentMaps(o) && old(allocated(p.headers));
        assert PresetOptionValues(os) == old(PresetOptionValues(os));
      case WithOpenLLMetryCompat(cs) =>
        assert forall c | c in cs :: c.properties in ArgumentMaps(o) && old(allocated(c.properties));
        assert CompatValues(cs) == old(CompatValues(cs));
      case _ =>
    }
  }

  lemma ApplyAllOneMore(v: OptionsValue, os: seq<OptionValue>, o: OptionValue)
    ensures ApplyAll(v, os + [o]) == ApplyOption(ApplyAll(v, os), o)
  {
    assert (os + [o])[..|os|] == os;
  }

  /** Using one option value on two bases gives structures that share no map. */
  method UseOnTwoBases(a: Options, b: Options, o: FunctionalOption) returns (r: Options, q: Options)
    requires o.WithDatadogPreset? || o.WithOpenLLMetryCompat?
    ensures OptionsValueOf(r) == ApplyOption(old(OptionsValueOf(a)), old(OptionValueOf(o)))
    ensures OptionsValueOf(q) == ApplyOption(old(OptionsValueOf(b)), old(OptionValueOf(o)))
    ensures o.WithDatadogPreset? ==>
      && r.preset != null && q.preset != null && r.preset != q.preset
      && (r.preset.value.headers != null ==> r.preset.value.headers != q.preset.value.headers)
    ensures o.WithOpenLLMetryCompat? ==>
      && r.compat != null && q.compat != null && r.compat != q.compat
      && (r.compat.value.properties != null ==> r.compat.value.properties != q.compat.value.properties)
  {
    hide ApplyOption;
    r := Use(a, o);
    OptionStays(o);
    assert b.preset != null ==> PresetValue(b.preset.value) == old(PresetValue(b.preset.value));
    assert b.compat != null ==> CompatValueOf(b.compat.value) == old(CompatValueOf(b.compat.value));
    q := Use(b, o);
  }

  /** datadogTraceDefaults clones the preset's headers and then writes into the clone. */
  method DatadogTraceDefaults(preset: Cell?<Preset>, env: Config.Env)
      returns (endpoint: Text, headers: StringMap?, protocol: Text)
    ensures headers != null ==> fresh(headers)
    ensures Config.TraceDefaults(endpoint, MapValue(headers), protocol)
      == Config.DatadogTraceDefaults(if preset == null then None else Some(PresetValue(preset.value)), env)
  {
    if preset == null || !preset.value.enabled {
      return [], null, [];
    }
    headers := CloneStringMap(preset.value.headers);
    var apiKey := preset.value.apiKey;
    if apiKey == [] && Config.DD_API_KEY in env {
      apiKey := env[Config.DD_API_KEY];
    }
    if apiKey != [] {
      if headers == null {
        headers := new StringMap(map[]);
      }
      headers.entries := headers.entries[Config.DD_API_KEY_HEADER := apiKey];
    }
    if headers == null {
      headers := new StringMap(map[]);
    }
    headers.entries := headers.entries[Config.DD_SOURCE_HEADER := Config.DD_SOURCE_LLMOBS];
    return preset.value.traceEndpoint, headers, Endpoint.HTTP_PROTOBUF;
  }

  // ---- Laws ---------------------------------------------------------------------------------

  /** Overlays can be merged in any grouping. */
  lemma MergeAssociative(a: CompatValue, b: CompatValue, c: CompatValue)
    ensures Merge(Merge(a, b), c) == Merge(a, Merge(b, c))
  {
    var x, y, z := OrEmpty(a.properties), OrEmpty(b.properties), OrEmpty(c.properties);
    assert (x + y) + z == x + (y + z);
    assert z != map[] ==> y + z != map[];
    assert map[] + z == z && x + map[] == x;
  }

  /** The empty overlay is a right identity; on the left it is one exactly for values whose property
      map is not an empty map that is not nil. */
  lemma MergeIdentity(a: CompatValue)
    ensures Merge(a, EMPTY_COMPAT) == a
    ensures Merge(EMPTY_COMPAT, a) == a <==> a.properties != Some(map[])
  {
    assert map[] + OrEmpty(a.properties) == OrEmpty(a.properties);
  }

  /** A list of overlays is one overlay: that of merging the list by itself. */
  lemma {:induction false} OverlaysAreOneOverlay(base: CompatValue, overlays: seq<CompatValue>)
    ensures MergeAll(base, overlays) == Merge(base, MergeAll(EMPTY_COMPAT, overlays))
  {
    if overlays == [] {
      MergeIdentity(base);
    } else {
      var init, last := overlays[..|overlays| - 1], overlays[|overlays| - 1];
      OverlaysAreOneOverlay(base, init);
      MergeAssociative(base, MergeAll(EMPTY_COMPAT, init), last);
    }
  }

  // ---- What preset options do ---------------------------------------------------------------

  /** The trace endpoint is that of the last endpoint option ... */
  lemma {:induction false} LastEndpointWins(p: Config.DatadogPreset, os: seq<PresetOptionValue>, i: nat)
    requires i < |os| && os[i].TraceEndpointValue?
    requires forall j | i < j < |os| :: !os[j].TraceEndpointValue?
    ensures ApplyPresetOptions(p, os).traceEndpoint == os[i].endpoint
  {
    if i < |os| - 1 {
      LastEndpointWins(p, os[..|os| - 1], i);
    }
  }

  /** ... the API key that of the last key option ... */
  lemma {:induction false} LastKeyWins(p: Config.DatadogPreset, os: seq<PresetOptionValue>, i: nat)
    requires i < |os| && os[i].ApiKeyValue?
    requires forall j | i < j < |os| :: !os[j].ApiKeyValue?
    ensures ApplyPresetOptions(p, os).apiKey == os[i].key
  {
    if i < |os| - 1 {
      LastKeyWins(p, os[..|os| - 1], i);
    }
  }

  predicate Sets(o: PresetOptionValue, header: Text) {
    o.ExtraHeadersValue? && header in o.headers
  }

  /** ... a header that of the last header option that has it ... */
  lemma {:induction false} LastHeaderWins(p: Config.DatadogPreset, os: seq<PresetOptionValue>, header: Text, i: nat)
    requires i < |os| && Sets(os[i], header)
    requires forall j | i < j < |os| :: !Sets(os[j], header)
    ensures var after := OrEmpty(ApplyPresetOptions(p, os).headers);
      header in after && after[header] == os[i].headers[header]
  {
    var n := |os| - 1;
    if i < n {
      LastHeaderWins(p, os[..n], header, i);
      assert !Sets(os[n], header);
    }
  }

  /** ... and those of the base otherwise; no option switches the preset on or off. */
  lemma {:induction false} BasePresetStays(p: Config.DatadogPreset, os: seq<PresetOptionValue>)
    ensures ApplyPresetOptions(p, os).enabled == p.enabled
    ensures (forall o | o in os :: !o.TraceEndpointValue?) ==>
      ApplyPresetOptions(p, os).traceEndpoint == p.traceEndpoint
    ensures (forall o | o in os :: !o.ApiKeyValue?) ==> ApplyPresetOptions(p, os).apiKey == p.apiKey
  {
    if os != [] {
      BasePresetStays(p, os[..|os| - 1]);
      assert os[|os| - 1] in os;
    }
  }

  lemma {:induction false} BaseHeaderStays(p: Config.DatadogPreset, os: seq<PresetOptionValue>, header: Text)
    requires forall j | 0 <= j < |os| :: !Sets(os[j], header)
    ensures var before, after := OrEmpty(p.headers), OrEmpty(ApplyPresetOptions(p, os).headers);
      && (header in after <==> header in before)
      && (header in before ==> after[header] == before[header])
  {
    if os != [] {
      BaseHeaderStays(p, os[..|os| - 1], header);
      assert !Sets(os[|os| - 1], header);
    }
  }

  /** WithDatadogPreset starts from the preset that is there, or from an empty one, and enables it, whatever
      its own options are. */
  lemma PresetStart(v: OptionsValue, os: seq<PresetOptionValue>) returns (start: Config.DatadogPreset)
    ensures v.preset.Some? ==>
      && start.traceEndpoint == v.preset.value.traceEndpoint && start.apiKey == v.preset.value.apiKey
      && start.headers == v.preset.value.headers
    ensures v.preset.None? ==> start.traceEndpoint == [] && start.apiKey == [] && start.headers == None
    ensures var after := ApplyOption(v, DatadogValue(os)).preset;
      after == Some(ApplyPresetOptions(start, os)) && after.value.enabled
  {
    start := if v.preset.None? then DEFAULT_PRESET else v.preset.value.(enabled := true);
    BasePresetStays(start, os);
  }

  /** WithOpenLLMetryCompat starts from the settings that are there, or from empty ones. */
  lemma CompatStart(v: OptionsValue, overlays: seq<CompatValue>)
    ensures v.compat.Some? ==>
      ApplyOption(v, CompatOverlays(overlays)).compat == Some(MergeAll(v.compat.value, overlays))
    ensures v.compat.None? ==>
      ApplyOption(v, CompatOverlays(overlays)).compat
        == Some(MergeAll(CompatValue([], [], [], [], [], None), overlays))
  {
  }

  // ---- What overlays do ---------------------------------------------------------------------

  datatype Field = Workflow | EntityName | EntityPath | EntityVersion | SpanKind

  function Get(c: CompatValue, f: Field): Text {
    match f
    case Workflow => c.workflow
    case EntityName => c.entityName
    case EntityPath => c.entityPath
    case EntityVersion => c.entityVersion
    case SpanKind => c.spanKind
  }

  /** Each field after any overlays is the last one that is not empty ... */
  lemma {:induction false} LastFieldWins(base: CompatValue, overlays: seq<CompatValue>, f: Field, i: nat)
    requires i < |overlays| && Get(overlays[i], f) != []
    requires forall j | i < j < |overlays| :: Get(overlays[j], f) == []
    ensures Get(MergeAll(base, overlays), f) == Get(overlays[i], f)
  {
    var n := |overlays| - 1;
    if i < n {
      LastFieldWins(base, overlays[..n], f, i);
    }
  }

  /** ... and that of the base if all are empty. */
  lemma {:induction false} BaseFieldStays(base: CompatValue, overlays: seq<CompatValue>, f: Field)
    requires forall c | c in overlays :: Get(c, f) == []
    ensures Get(MergeAll(base, overlays), f) == Get(base, f)
  {
    if overlays != [] {
      BaseFieldStays(base, overlays[..|overlays| - 1], f);
      assert overlays[|overlays| - 1] in overlays;
    }
  }

  predicate Has(c: CompatValue, key: Text) {
    key in OrEmpty(c.properties)
  }

  /** A property after any overlays has the value of the last overlay that has it ... */
  lemma {:induction false} LastPropertyWins(base: CompatValue, overlays: seq<CompatValue>, key: Text, i: nat)
    requires i < |overlays| && Has(overlays[i], key)
    requires forall j | i < j < |overlays| :: !Has(overlays[j], key)
    ensures var after := MergeAll(base, overlays);
      Has(after, key) && OrEmpty(after.properties)[key] == OrEmpty(overlays[i].properties)[key]
  {
    var n := |overlays| - 1;
    if i < n {
      LastPropertyWins(base, overlays[..n], key, i);
      assert !Has(overlays[n], key);
    }
  }

  /** ... and that of the base if none has it. */
  lemma {:induction false} BasePropertyStays(base: CompatValue, overlays: seq<CompatValue>, key: Text)
    requires forall j | 0 <= j < |overlays| :: !Has(overlays[j], key)
    ensures var after := MergeAll(base, overlays);
      && (Has(after, key) <==> Has(base, key))
      && (Has(base, key) ==> OrEmpty(after.properties)[key] == OrEmpty(base.properties)[key])
  {
    if overlays != [] {
      BasePropertyStays(base, overlays[..|overlays| - 1], key);
      assert !Has(overlays[|overlays| - 1], key);
    }
  }

  /** The failure mode is that of the last option that is not nil ... */
  lemma {:induction false} LastModeWins(redactor: Option<nat>, modes: seq<Option<Events.FailureMode>>, i: nat)
    requires i < |modes| && modes[i].Some?
    requires forall j | i < j < |modes| :: modes[j].None?
    ensures CaptureOf(redactor, modes).mode == modes[i].value
  {
    var n := |modes| - 1;
    if i < n {
      LastModeWins(redactor, modes[..n], i);
    }
  }

  /** ... or to drop the payload if there is none; and no option changes the redactor, which is the one
      that drops every payload if none was given. */
  lemma {:induction false} CaptureDefaults(redactor: Option<nat>, modes: seq<Option<Events.FailureMode>>)
    ensures (forall m | m in modes :: m.None?) ==> CaptureOf(redactor, modes).mode == Events.DropPayload
    ensures CaptureOf(redactor, modes).redactor == if redactor.None? then DropAllPayloads else Given(redactor.value)
  {
    if modes != [] {
      CaptureDefaults(redactor, modes[..|modes| - 1]);
      assert modes[|modes| - 1] in modes;
    }
  }

  // ---- Options of different kinds do not interfere ------------------------------------------

  datatype OptionKind = NilKind | PresetKind | CompatKind | SinkKind | CaptureKind

  function KindOf(o: OptionValue): OptionKind {
    match o
    case NilValue => NilKind
    case DatadogValue(_) => PresetKind
    case DevSinkValue(_) => SinkKind
    case CompatOverlays(_) => CompatKind
    case CaptureOptions(_, _) => CaptureKind
  }

  function Only(kind: OptionKind, os: seq<OptionValue>): seq<OptionValue> {
    if os == [] then []
    else
      var last := os[|os| - 1];
      Only(kind, os[..|os| - 1]) + if KindOf(last) == kind then [last] else []
  }

  /** Whether two results agree on the part that options of a kind decide. */
  predicate AgreeOn(kind: OptionKind, v: OptionsValue, w: OptionsValue) {
    match kind
    case NilKind => true
    case PresetKind => v.preset == w.preset
    case CompatKind => v.compat == w.compat
    case SinkKind => v.devSink == w.devSink
    case CaptureKind => v.capture == w.capture
  }

  lemma SameKindAgrees(kind: OptionKind, v: OptionsValue, w: OptionsValue, o: OptionValue)
    requires AgreeOn(kind, v, w)
    ensures AgreeOn(kind, ApplyOption(v, o), ApplyOption(w, o))
  {
    hide ApplyPresetOptions, MergeAll, CaptureOf;
  }

  lemma OtherKindAgrees(kind: OptionKind, v: OptionsValue, o: OptionValue)
    requires KindOf(o) != kind
    ensures AgreeOn(kind, ApplyOption(v, o), v)
  {
    hide ApplyPresetOptions, MergeAll, CaptureOf;
  }

  /** Each part of the result is decided by the options of its own kind, in their order: moving options
      of other kinds around, or leaving them out, changes nothing in it. */
  lemma {:induction false} KindsDoNotInterfere(kind: OptionKind, v: OptionsValue, os: seq<OptionValue>)
    ensures AgreeOn(kind, ApplyAll(v, os), ApplyAll(v, Only(kind, os)))
  {
    hide ApplyOption;
    if os != [] {
      var init, last := os[..|os| - 1], os[|os| - 1];
      KindsDoNotInterfere(kind, v, init);
      if KindOf(last) == kind {
        ApplyAllOneMore(v, Only(kind, init), last);
        SameKindAgrees(kind, ApplyAll(v, init), ApplyAll(v, Only(kind, init)), last);
      } else {
        OtherKindAgrees(kind, ApplyAll(v, init), last);
        assert Only(kind, os) == Only(kind, init);
      }
    }
  }

  /** The sink is that of the last sink option, whatever stands around it ... */
  lemma {:induction false} LastSinkWins(v: OptionsValue, os: seq<OptionValue>, i: nat)
    requires i < |os| && os[i].DevSinkValue?
    requires forall j | i < j < |os| :: !os[j].DevSinkValue?
    ensures ApplyAll(v, os).devSink == Some(Config.DevSink(true, os[i].endpoint))
  {
    hide ApplyPresetOptions, MergeAll, CaptureOf;
    var n := |os| - 1;
    if i < n {
      LastSinkWins(v, os[..n], i);
      OtherKindAgrees(SinkKind, ApplyAll(v, os[..n]), os[n]);
    }
  }

  /** ... and the capture that of the last capture option; both replace what was there before. */
  lemma {:induction false} LastCaptureWins(v: OptionsValue, os: seq<OptionValue>, i: nat)
    requires i < |os| && os[i].CaptureOptions?
    requires forall j | i < j < |os| :: !os[j].CaptureOptions?
    ensures ApplyAll(v, os).capture == Some(CaptureOf(os[i].redactor, os[i].modes))
  {
    hide ApplyPresetOptions, MergeAll, CaptureOf;
    var n := |os| - 1;
    if i < n {
      LastCaptureWins(v, os[..n], i);
      OtherKindAgrees(CaptureKind, ApplyAll(v, os[..n]), os[n]);
    }
  }

  /** Applying two lists of options one after the other is applying their concatenation. */
  lemma {:induction false} ApplyAllConcat(v: OptionsValue, a: seq<OptionValue>, b: seq<OptionValue>)
    ensures ApplyAll(v, a + b) == ApplyAll(ApplyAll(v, a), b)
  {
    hide ApplyOption;
    if b == [] {
      assert a + b == a;
    } else {
      assert (a + b)[..|a + b| - 1] == a + b[..|b| - 1];
      ApplyAllConcat(v, a, b[..|b| - 1]);
    }
  }
}
