/** Resolution of the exporter configuration from options, environment and preset
  (config.go, env.go, datadog.go). */
module Config {
  import opened Values
  import opened GoText
  import opened Headers
  import opened Endpoint
  import Url

  datatype Signal = Traces | Metrics | Logs

  /** The five settings that every signal has a variable for. */
  datatype Setting = EndpointOf | HeadersOf | InsecureOf | ProtocolOf | TimeoutOf

  datatype ExporterConfig = ExporterConfig(
    endpoint: Text, protocol: Text, headers: HeaderMap, insecure: bool, timeout: int)

  datatype DatadogPreset = DatadogPreset(
    enabled: bool, traceEndpoint: Text, apiKey: Text, headers: Option<HeaderMap>)

  datatype DevSink = DevSink(enabled: bool, endpoint: Text)

  datatype Options = Options(
    traces: ExporterConfig, metrics: ExporterConfig, logs: ExporterConfig,
    exportTimeout: int, preset: Option<DatadogPreset>, devSink: Option<DevSink>)

  datatype Resolved = Resolved(
    endpoint: Text, protocol: Text, headers: Option<HeaderMap>, insecure: bool, timeout: int)

  datatype ResolvedConfig = ResolvedConfig(traces: Resolved, metrics: Resolved, logs: Resolved)

  type Env = map<Text, Text>

  // ---- Variable names -----------------------------------------------------------------------

  const DD_API_KEY: Text := "DD_API_KEY"
  const DD_API_KEY_HEADER: Text := "dd-api-key"
  const DD_SOURCE_HEADER: Text := "dd-otlp-source"
  const DD_SOURCE_LLMOBS: Text := "llmobs"
  const DEFAULT_GRPC_ENDPOINT: Text := "localhost:4317"
  const DEFAULT_HTTP_ENDPOINT: Text := "http://localhost:4318"
  const OTLP: Text := "OTEL_EXPORTER_OTLP_"

  function SignalTag(sig: Signal): Text {
    match sig
    case Traces => "TRACES"
    case Metrics => "METRICS"
    case Logs => "LOGS"
  }

  function SettingTag(setting: Setting): Text {
    match setting
    case EndpointOf => "ENDPOINT"
    case HeadersOf => "HEADERS"
    case InsecureOf => "INSECURE"
    case ProtocolOf => "PROTOCOL"
    case TimeoutOf => "TIMEOUT"
  }

  /** perSignalEnv */
  function PerSignal(sig: Signal, setting: Setting): Text {
    OTLP + (SignalTag(sig) + ['_'] + SettingTag(setting))
  }

  function General(setting: Setting): Text {
    OTLP + SettingTag(setting)
  }

  // ---- The resolvers ------------------------------------------------------------------------

  /** A resolved text, and the layer and raw text it came from. */
  datatype Choice = Choice(resolved: Text, field: Source, value: Text)

  /** A variable counts only if it is set to something that is not blank. */
  function Visible(env: Env, name: Text): Option<Text> {
    if name in env && !Blank(env[name]) then Some(env[name]) else None
  }

  function ApiKey(preset: DatadogPreset, env: Env): Text {
    if preset.apiKey != [] then preset.apiKey
    else if DD_API_KEY in env then env[DD_API_KEY] else []
  }

  datatype TraceDefaults = TraceDefaults(endpoint: Text, headers: Option<HeaderMap>, protocol: Text)

  /** datadogTraceDefaults */
  function DatadogTraceDefaults(preset: Option<DatadogPreset>, env: Env): TraceDefaults {
    if preset.None? || !preset.value.enabled then TraceDefaults([], None, [])
    else
      var p := preset.value;
      var key := ApiKey(p, env);
      var withKey := if key != [] then OrEmpty(p.headers)[DD_API_KEY_HEADER := key] else OrEmpty(p.headers);
      TraceDefaults(p.traceEndpoint, Some(withKey[DD_SOURCE_HEADER := DD_SOURCE_LLMOBS]), HTTP_PROTOBUF)
  }

  /** The preset is consulted for traces only. */
  function PresetFor(sig: Signal, preset: Option<DatadogPreset>, env: Env): TraceDefaults {
    DatadogTraceDefaults(if sig.Traces? then preset else None, env)
  }

  function ResolveProtocol(sig: Signal, explicit: ExporterConfig, preset: Option<DatadogPreset>, env: Env): Choice {
    if !Blank(explicit.protocol) then
      Choice(Trim(explicit.protocol), FromOption, explicit.protocol)
    else match Visible(env, PerSignal(sig, ProtocolOf))
      case Some(raw) => Choice(Trim(raw), FromVariable(PerSignal(sig, ProtocolOf)), raw)
      case None => match Visible(env, General(ProtocolOf))
        case Some(raw) => Choice(Trim(raw), FromVariable(General(ProtocolOf)), raw)
        case None =>
          var p := PresetFor(sig, preset, env).protocol;
          if p != [] then Choice(p, FromPreset, p)
          else Choice(GRPC, FromDefault, GRPC)
  }

  function ResolveEndpoint(sig: Signal, explicit: ExporterConfig, protocol: Text,
                           preset: Option<DatadogPreset>, env: Env): Choice
  {
    if !Blank(explicit.endpoint) then
      Choice(Trim(explicit.endpoint), FromOption, explicit.endpoint)
    else match Visible(env, PerSignal(sig, EndpointOf))
      case Some(raw) => Choice(Trim(raw), FromVariable(PerSignal(sig, EndpointOf)), raw)
      case None => match Visible(env, General(EndpointOf))
        case Some(raw) => Choice(Trim(raw), FromVariable(General(EndpointOf)), raw)
        case None =>
          var e := PresetFor(sig, preset, env).endpoint;
          if !Blank(e) then Choice(Trim(e), FromPreset, e)
          else
            var d := if protocol == HTTP_PROTOBUF then DEFAULT_HTTP_ENDPOINT else DEFAULT_GRPC_ENDPOINT;
            Choice(d, FromDefault, d)
  }

  /** parseBool with fallback false */
  predicate ParseBool(raw: Text) {
    var s := Trim(raw);
    || s == "1" || s == "t" || s == "T" || s == "TRUE" || s == "true" || s == "True"
    || Lower(s) == "y" || Lower(s) == "yes" || Lower(s) == "on"
  }

  predicate ResolveInsecure(sig: Signal, explicit: ExporterConfig, endpoint: Text, env: Env) {
    match SchemeSaysInsecure(endpoint)
    case Some(b) => b
    case None =>
      explicit.insecure ||
      match Visible(env, PerSignal(sig, InsecureOf))
      case Some(raw) => ParseBool(raw)
      case None => match Visible(env, General(InsecureOf))
        case Some(raw) => ParseBool(raw)
        case None => false
  }

  function ResolveHeaders(sig: Signal, explicit: ExporterConfig, preset: Option<DatadogPreset>,
      env: Env): Option<HeaderMap> {
    if explicit.headers != map[] then Some(explicit.headers)
    else match Visible(env, PerSignal(sig, HeadersOf))
      case Some(raw) => NilIfEmpty(Meaning(raw))
      case None => match Visible(env, General(HeadersOf))
        case Some(raw) => NilIfEmpty(Meaning(raw))
        case None => PresetFor(sig, preset, env).headers
  }

  const NANOS_PER_MILLI := 1_000_000

  /** parseTimeout: the product is a 64-bit one. */
  function ParseTimeout(field: Source, raw: Text): Result<int, ConfigError> {
    match Atoi(Trim(raw))
    case Err(e) => Err(ConfigError(field, Trim(raw), TimeoutNotInteger(e)))
    case Ok(ms) =>
      if ms < 0 then Err(ConfigError(field, Trim(raw), TimeoutNegative))
      else Ok(Wrap64(ms * NANOS_PER_MILLI))
  }

  function ResolveTimeout(sig: Signal, explicit: ExporterConfig, exportTimeout: int,
      env: Env): Result<int, ConfigError> {
    if explicit.timeout > 0 then Ok(explicit.timeout)
    else match Visible(env, PerSignal(sig, TimeoutOf))
      case Some(raw) => ParseTimeout(FromVariable(PerSignal(sig, TimeoutOf)), raw)
      case None => match Visible(env, General(TimeoutOf))
        case Some(raw) => ParseTimeout(FromVariable(General(TimeoutOf)), raw)
        case None => Ok(if exportTimeout > 0 then exportTimeout else 0)
  }

  function ExplicitFor(sig: Signal, opts: Options): ExporterConfig {
    match sig
    case Traces => opts.traces
    case Metrics => opts.metrics
    case Logs => opts.logs
  }

  /** The endpoint choice that resolveExporterConfig goes on with. */
  function EndpointChoice(sig: Signal, opts: Options, env: Env): Choice {
    var explicit := ExplicitFor(sig, opts);
    ResolveEndpoint(sig, explicit, ResolveProtocol(sig, explicit, opts.preset, env).resolved, opts.preset, env)
  }

  /** resolveExporterConfig */
  function Resolve(c: Url.Codec, sig: Signal, opts: Options, env: Env): Result<Resolved, ConfigError> {
    var explicit := ExplicitFor(sig, opts);
    var p := ResolveProtocol(sig, explicit, opts.preset, env);
    if p.resolved != GRPC && p.resolved != HTTP_PROTOBUF then
      Err(ConfigError(p.field, p.value, UnsupportedProtocol(p.resolved)))
    else
      var e := ResolveEndpoint(sig, explicit, p.resolved, opts.preset, env);
      var insecure := ResolveInsecure(sig, explicit, e.resolved, env);
      match Normalize(c, e.resolved, p.resolved, insecure)
      case Err(reason) => Err(ConfigError(e.field, e.value, reason))
      case Ok(t) =>
        match ResolveTimeout(sig, explicit, opts.exportTimeout, env)
        case Err(error) => Err(error)
        case Ok(timeout) =>
          Ok(Resolved(t.endpoint, p.resolved, ResolveHeaders(sig, explicit, opts.preset, env), t.insecure, timeout))
  }

  /** resolveConfig */
  function ResolveAll(c: Url.Codec, opts: Options, env: Env): Result<ResolvedConfig, ConfigError> {
    match Resolve(c, Traces, opts, env)
    case Err(e) => Err(e)
    case Ok(traces) =>
      match Resolve(c, Metrics, opts, env)
      case Err(e) => Err(e)
      case Ok(metrics) =>
        match Resolve(c, Logs, opts, env)
        case Err(e) => Err(e)
        case Ok(logs) => Ok(ResolvedConfig(traces, metrics, logs))
  }

  /** The order in which the signals are resolved. */
  function Rank(sig: Signal): nat {
    match sig
    case Traces => 0
    case Metrics => 1
    case Logs => 2
  }

  predicate FirstToFail(c: Url.Codec, sig: Signal, opts: Options, env: Env) {
    && Resolve(c, sig, opts, env).Err?
    && forall s | Rank(s) < Rank(sig) :: Resolve(c, s, opts, env).Ok?
  }

  /** The three signals are resolved independently; one failure, the first in order, fails all. */
  lemma AllOrFirstError(c: Url.Codec, opts: Options, env: Env)
    ensures ResolveAll(c, opts, env).Ok? <==> forall sig :: Resolve(c, sig, opts, env).Ok?
    ensures ResolveAll(c, opts, env).Ok? ==>
      var all := ResolveAll(c, opts, env).value;
      && Resolve(c, Traces, opts, env) == Ok(all.traces)
      && Resolve(c, Metrics, opts, env) == Ok(all.metrics)
      && Resolve(c, Logs, opts, env) == Ok(all.logs)
    ensures forall sig | FirstToFail(c, sig, opts, env) ::
      ResolveAll(c, opts, env) == Err(Resolve(c, sig, opts, env).error)
  {
    hide Resolve;
    var first := if Resolve(c, Traces, opts, env).Err? then Traces
                 else if Resolve(c, Metrics, opts, env).Err? then Metrics else Logs;
    assert ResolveAll(c, opts, env).Err? <==> Resolve(c, first, opts, env).Err?;
    forall sig ensures ResolveAll(c, opts, env).Ok? ==> Resolve(c, sig, opts, env).Ok? {
      match sig case Traces => case Metrics => case Logs =>
    }
    forall sig | FirstToFail(c, sig, opts, env)
      ensures ResolveAll(c, opts, env) == Err(Resolve(c, sig, opts, env).error)
    {
      assert Rank(Traces) < Rank(Metrics) < Rank(Logs);
      assert first == sig;
    }
  }

  // ---- Well-formedness ----------------------------------------------------------------------

  /** A resolved configuration has a supported protocol and an endpoint that is well formed for it,
      and its TLS flag is the one the raw endpoint, the options and the environment ask for. */
  lemma ResolvedIsWellFormed(c: Url.Codec, sig: Signal, opts: Options, env: Env)
    requires Resolve(c, sig, opts, env).Ok?
    ensures var r := Resolve(c, sig, opts, env).value;
      && (r.protocol == GRPC || r.protocol == HTTP_PROTOBUF)
      && WellFormed(r.protocol, Target(r.endpoint, r.insecure))
      && r.insecure == ResolveInsecure(sig, ExplicitFor(sig, opts), EndpointChoice(sig, opts, env).resolved, env)
  {
    hide Normalize, WellFormed, ResolveProtocol, ResolveEndpoint, ResolveHeaders, ResolveTimeout,
      SchemeSaysInsecure, ParseBool, Visible, PerSignal, General;
    var r := Resolve(c, sig, opts, env).value;
    var raw := EndpointChoice(sig, opts, env).resolved;
    var insecure := ResolveInsecure(sig, ExplicitFor(sig, opts), raw, env);
    NormalizedIsWellFormed(c, raw, r.protocol, insecure);
    TlsAgreement(c, raw, r.protocol, insecure);
  }

  // ---- What a resolved configuration carries ------------------------------------------------

  /** `own` is the exporter configuration that the options give for a signal. */
  predicate IsOwn(sig: Signal, opts: Options, own: ExporterConfig) {
    && (sig.Traces? ==> own == opts.traces)
    && (sig.Metrics? ==> own == opts.metrics)
    && (sig.Logs? ==> own == opts.logs)
  }

  /** The headers: the explicit map if it is not empty, else the first variable that is not blank, by
      being there, else the preset's for traces. */
  predicate HeadersFromFirst(headers: Option<HeaderMap>, sig: Signal, own: ExporterConfig,
                             preset: Option<DatadogPreset>, env: Env)
  {
    var v := FirstVariable(sig, HeadersOf, env);
    if own.headers != map[] then headers == Some(own.headers)
    else if v.Some? then headers == NilIfEmpty(Meaning(v.value))
    else if sig.Traces? then headers == DatadogTraceDefaults(preset, env).headers
    else headers == None
  }

  /** The timeout: the explicit one if it is positive, else that of the first variable that is not blank,
      in 64-bit nanoseconds, else that of the options if it is positive, else 0. */
  predicate TimeoutFromFirst(timeout: int, sig: Signal, own: ExporterConfig, exportTimeout: int, env: Env) {
    var v := FirstVariable(sig, TimeoutOf, env);
    if own.timeout > 0 then timeout == own.timeout
    else if v.Some? then
      var ms := Atoi(Trim(v.value));
      ms.Ok? && ms.value >= 0 && timeout == Wrap64(ms.value * 1_000_000)
    else (timeout == exportTimeout > 0) || (timeout == 0 >= exportTimeout)
  }

  /** The variable that decides a timeout. */
  function TimeoutVariable(sig: Signal, env: Env): Source {
    var own := PerSignal(sig, TimeoutOf);
    FromVariable(if Visible(env, own).Some? then own else General(TimeoutOf))
  }

  /** A timeout variable that is consulted and is no integer, or is negative. */
  predicate TimeoutRefused(sig: Signal, own: ExporterConfig, env: Env, error: ConfigError) {
    var v := FirstVariable(sig, TimeoutOf, env);
    own.timeout <= 0 && v.Some? &&
    var text := Trim(v.value);
    error.field == TimeoutVariable(sig, env) && error.value == text &&
    match Atoi(text)
    case Err(e) => error.reason == TimeoutNotInteger(e)
    case Ok(ms) => ms < 0 && error.reason == TimeoutNegative
  }

  lemma TimeoutResolved(sig: Signal, own: ExporterConfig, exportTimeout: int, env: Env)
    ensures match ResolveTimeout(sig, own, exportTimeout, env)
      case Ok(timeout) => TimeoutFromFirst(timeout, sig, own, exportTimeout, env)
        && forall error :: !TimeoutRefused(sig, own, env, error)
      case Err(error) => TimeoutRefused(sig, own, env, error)
  {
    hide Trim, Atoi, FirstVariable, PerSignal, General;
    FirstVariableIsVisible(sig, TimeoutOf, env);
  }

  lemma HeadersResolved(sig: Signal, own: ExporterConfig, preset: Option<DatadogPreset>, env: Env)
    ensures HeadersFromFirst(ResolveHeaders(sig, own, preset, env), sig, own, preset, env)
  {
    hide Trim, Meaning, FirstVariable, PerSignal, General;
    FirstVariableIsVisible(sig, HeadersOf, env);
  }

  /** Resolution as a whole. Protocol `p` and endpoint `e` come from the first layer that is not blank.
      An accepted configuration carries that protocol, that endpoint in its normal form, and the headers
      and the timeout of their first layers. Resolution fails exactly for an unsupported protocol, an
      endpoint that is refused, or a timeout that is refused, in this order, and names the layer. */
  lemma ResolveCarriesFirstLayers(c: Url.Codec, sig: Signal, opts: Options, env: Env, own: ExporterConfig)
      returns (p: Choice, i: nat, e: Choice, j: nat)
    requires IsOwn(sig, opts, own)
    ensures FromFirst(p, ProtocolLayers(sig, own, opts.preset, env), i)
    ensures FromFirst(e, EndpointLayers(sig, own, p.resolved, opts.preset, env), j)
    ensures var flag := ResolveInsecure(sig, own, e.resolved, env);
      var supported := p.resolved == "grpc" || p.resolved == "http/protobuf";
      var endpoint := Normalize(c, e.resolved, p.resolved, flag);
      match Resolve(c, sig, opts, env)
      case Ok(r) =>
        && supported && r.protocol == p.resolved
        && endpoint == Ok(Target(r.endpoint, r.insecure))
        && HeadersFromFirst(r.headers, sig, own, opts.preset, env)
        && TimeoutFromFirst(r.timeout, sig, own, opts.exportTimeout, env)
      case Err(error) =>
        if !supported then error == ConfigError(p.field, p.value, UnsupportedProtocol(p.resolved))
        else if endpoint.Err? then error == ConfigError(e.field, e.value, endpoint.error)
        else TimeoutRefused(sig, own, env, error)
  {
    hide Normalize, ResolveProtocol, ResolveEndpoint, ResolveHeaders, ResolveTimeout, ResolveInsecure, FromFirst,
      ProtocolLayers, EndpointLayers, HeadersFromFirst, TimeoutFromFirst, TimeoutRefused;
    p := ResolveProtocol(sig, own, opts.preset, env);
    e := ResolveEndpoint(sig, own, p.resolved, opts.preset, env);
    i := ProtocolPrecedence(sig, own, opts.preset, env);
    j := EndpointPrecedence(sig, own, p.resolved, opts.preset, env);
    HeadersResolved(sig, own, opts.preset, env);
    TimeoutResolved(sig, own, opts.exportTimeout, env);
  }

  /** A timeout is not refused and accepted at once, so the last cause of failure is exact, too. */
  lemma RefusedTimeoutFails(c: Url.Codec, sig: Signal, opts: Options, env: Env, own: ExporterConfig, error: ConfigError)
    requires IsOwn(sig, opts, own) && TimeoutRefused(sig, own, env, error)
    ensures Resolve(c, sig, opts, env).Err?
  {
    hide Normalize, ResolveProtocol, ResolveEndpoint, ResolveHeaders, ResolveTimeout, ResolveInsecure,
      TimeoutFromFirst, TimeoutRefused;
    TimeoutResolved(sig, own, opts.exportTimeout, env);
  }

  const MAX_EXACT_MILLIS := 9_223_372_036_854

  const TWO_TO_64 := 0x1_0000_0000_0000_0000

  /** The value that the low 64 bits of a product stand for. */
  lemma WrapOfLow(x: nat)
    ensures var low := x % TWO_TO_64; Wrap64(x) == if low > MAX_INT64 then low - TWO_TO_64 else low
  {
    var q, low := x / TWO_TO_64, x % TWO_TO_64;
    assert x - MIN_INT64 == q * TWO_TO_64 + (low - MIN_INT64);
    RemainderIs(x - MIN_INT64, if low > MAX_INT64 then q + 1 else q);
  }

  lemma RemainderIs(x: int, q: int)
    requires 0 <= x - q * TWO_TO_64 < TWO_TO_64
    ensures x % TWO_TO_64 == x - q * TWO_TO_64
  {
    assert x / TWO_TO_64 == q;
  }

  /** A timeout variable is converted exactly if and only if the product fits 64 bits. */
  lemma TimeoutExact(field: Source, raw: Text) returns (ms: nat)
    requires ParseTimeout(field, raw).Ok?
    ensures Atoi(Trim(raw)) == Ok(ms)
    ensures ParseTimeout(field, raw) == Ok(ms * NANOS_PER_MILLI) <==> ms <= MAX_EXACT_MILLIS
  {
    ms := Atoi(Trim(raw)).value;
    var exact := ms * NANOS_PER_MILLI;
    assert exact <= MAX_INT64 <==> ms <= MAX_EXACT_MILLIS;
  }

  /** The first value beyond that becomes negative, although negative timeouts are rejected. */
  lemma TimeoutWrapsToNegative(field: Source)
    ensures var d := ParseTimeout(field, Numeral(MAX_EXACT_MILLIS + 1)); d.Ok? && d.value < 0
  {
    hide Trim, Atoi, Numeral;
    var raw := Numeral(MAX_EXACT_MILLIS + 1);
    PrintableIsSpaceFree(raw);
    AtoiNumeral(MAX_EXACT_MILLIS + 1);
  }

  /** An accepted timeout is the low 64 bits of the product, so it is negative if and only if the highest
      of those bits is set: larger values become positive again, and negative again. */
  lemma TimeoutSign(field: Source, raw: Text) returns (ms: nat)
    requires ParseTimeout(field, raw).Ok?
    ensures Atoi(Trim(raw)) == Ok(ms)
    ensures var low := ms * NANOS_PER_MILLI % TWO_TO_64;
      && ParseTimeout(field, raw).value == (if low > MAX_INT64 then low - TWO_TO_64 else low)
      && (ParseTimeout(field, raw).value < 0 <==> low > MAX_INT64)
  {
    hide Trim, Atoi;
    ms := Atoi(Trim(raw)).value;
    WrapOfLow(ms * NANOS_PER_MILLI);
  }

  // ---- Words for true and false -------------------------------------------------------------

  /** The words for true, in any letter case but for "true" itself, of which three spellings count. */
  lemma BoolWords(raw: Text)
    ensures var s := Trim(raw);
      var l := Lower(s);
      ParseBool(raw) <==>
        && (l == "1" || l == "t" || l == "true" || l == "y" || l == "yes" || l == "on")
        && (l == "true" ==> s == "true" || s == "TRUE" || s == "True")
  {
    hide Trim, Lower;
    OneByteWords(Trim(raw));
    SpellingsOfTrue();
  }

  lemma OneByteWords(s: Text)
    ensures Lower(s) == "1" <==> s == "1"
    ensures Lower(s) == "t" <==> s == "t" || s == "T"
  {
    hide Lower;
    assert |s| == 1 ==> s == [s[0]] && Lower(s) == [LowerByte(s[0])];
  }

  lemma SpellingsOfTrue()
    ensures Lower("true") == "true" && Lower("TRUE") == "true" && Lower("True") == "true"
  {
  }

  /** White space around a word does not matter. */
  lemma BoolIgnoresSpace(w: Text, s: Text)
    requires IsSpaceRune(w)
    ensures ParseBool(w + s) == ParseBool(s) == ParseBool(s + w)
  {
    hide Trim, IsSpaceRune;
    TrimDropsLeadingSpace(w, s);
    TrimDropsTrailingSpace(s, w);
  }

  // ---- Precedence ---------------------------------------------------------------------------

  /** One layer that can supply a text. */
  datatype Layer = Layer(text: Option<Text>, field: Source)

  predicate Silent(layer: Layer) {
    layer.text.None? || Blank(layer.text.value)
  }

  /** `choice` comes from the first layer that is not silent. */
  predicate FromFirst(choice: Choice, layers: seq<Layer>, i: nat) {
    && i < |layers| && !Silent(layers[i]) && (forall j | 0 <= j < i :: Silent(layers[j]))
    && choice == Choice(Trim(layers[i].text.value), layers[i].field, layers[i].text.value)
  }

  function Raw(env: Env, name: Text): Option<Text> {
    if name in env then Some(env[name]) else None
  }

  function ProtocolLayers(sig: Signal, explicit: ExporterConfig, preset: Option<DatadogPreset>, env: Env): seq<Layer> {
    [ Layer(Some(explicit.protocol), FromOption),
      Layer(Raw(env, PerSignal(sig, ProtocolOf)), FromVariable(PerSignal(sig, ProtocolOf))),
      Layer(Raw(env, General(ProtocolOf)), FromVariable(General(ProtocolOf))),
      Layer(Some(PresetFor(sig, preset, env).protocol), FromPreset),
      Layer(Some(GRPC), FromDefault) ]
  }

  function EndpointLayers(sig: Signal, explicit: ExporterConfig, protocol: Text,
                          preset: Option<DatadogPreset>, env: Env): seq<Layer>
  {
    [ Layer(Some(explicit.endpoint), FromOption),
      Layer(Raw(env, PerSignal(sig, EndpointOf)), FromVariable(PerSignal(sig, EndpointOf))),
      Layer(Raw(env, General(EndpointOf)), FromVariable(General(EndpointOf))),
      Layer(Some(PresetFor(sig, preset, env).endpoint), FromPreset),
      Layer(Some(if protocol == HTTP_PROTOBUF then DEFAULT_HTTP_ENDPOINT else DEFAULT_GRPC_ENDPOINT), FromDefault) ]
  }

  lemma ConstantsAreTrimmed()
    ensures Trim(GRPC) == GRPC && Trim(HTTP_PROTOBUF) == HTTP_PROTOBUF
    ensures Trim(DEFAULT_GRPC_ENDPOINT) == DEFAULT_GRPC_ENDPOINT
    ensures Trim(DEFAULT_HTTP_ENDPOINT) == DEFAULT_HTTP_ENDPOINT
    ensures Trim([]) == []
  {
    hide Trim;
    PrintableIsSpaceFree(GRPC);
    PrintableIsSpaceFree(HTTP_PROTOBUF);
    PrintableIsSpaceFree(DEFAULT_GRPC_ENDPOINT);
    PrintableIsSpaceFree(DEFAULT_HTTP_ENDPOINT);
    PrintableIsSpaceFree([]);
  }

  /** The first non-blank layer wins: option, signal variable, general variable, preset, default. */
  lemma ProtocolPrecedence(sig: Signal, explicit: ExporterConfig, preset: Option<DatadogPreset>, env: Env)
      returns (i: nat)
    ensures FromFirst(ResolveProtocol(sig, explicit, preset, env), ProtocolLayers(sig, explicit, preset, env), i)
  {
    hide Trim;
    ConstantsAreTrimmed();
    var layers := ProtocolLayers(sig, explicit, preset, env);
    i := if !Silent(layers[0]) then 0
         else if !Silent(layers[1]) then 1
         else if !Silent(layers[2]) then 2
         else if !Silent(layers[3]) then 3 else 4;
  }

  lemma EndpointPrecedence(sig: Signal, explicit: ExporterConfig, protocol: Text,
                           preset: Option<DatadogPreset>, env: Env) returns (i: nat)
    ensures FromFirst(ResolveEndpoint(sig, explicit, protocol, preset, env),
                      EndpointLayers(sig, explicit, protocol, preset, env), i)
  {
    hide Trim;
    ConstantsAreTrimmed();
    var layers := EndpointLayers(sig, explicit, protocol, preset, env);
    i := if !Silent(layers[0]) then 0
         else if !Silent(layers[1]) then 1
         else if !Silent(layers[2]) then 2
         else if !Silent(layers[3]) then 3 else 4;
  }

  /** The raw text of the first of some variables that is not blank. */
  function FirstVisible(names: seq<Text>, env: Env): Option<Text> {
    if names == [] then None
    else if names[0] in env && !Blank(env[names[0]]) then Some(env[names[0]])
    else FirstVisible(names[1..], env)
  }

  /** The raw text of the first of the two variables of a setting that is not blank. */
  function FirstVariable(sig: Signal, setting: Setting, env: Env): Option<Text> {
    FirstVisible([PerSignal(sig, setting), General(setting)], env)
  }

  /** Headers, timeout and the TLS flag: an explicit value wins, then the first variable that is not
      blank, then the preset's headers, the option for all signals, or TLS. The endpoint's scheme
      comes before all of these for the TLS flag. */
  lemma OtherSettingsPrecedence(sig: Signal, explicit: ExporterConfig, endpoint: Text,
                                preset: Option<DatadogPreset>, exportTimeout: int, env: Env)
    ensures ResolveHeaders(sig, explicit, preset, env) ==
      if explicit.headers != map[] then Some(explicit.headers)
      else match FirstVariable(sig, HeadersOf, env)
        case Some(raw) => NilIfEmpty(Meaning(raw))
        case None => PresetFor(sig, preset, env).headers
    ensures ResolveInsecure(sig, explicit, endpoint, env) ==
      if SchemeSaysInsecure(endpoint).Some? then SchemeSaysInsecure(endpoint).value
      else
        || explicit.insecure
        || var v := FirstVariable(sig, InsecureOf, env); v.Some? && ParseBool(v.value)
    ensures ResolveTimeout(sig, explicit, exportTimeout, env) ==
      if explicit.timeout > 0 then Ok(explicit.timeout)
      else match FirstVariable(sig, TimeoutOf, env)
        case Some(raw) =>
          var own := PerSignal(sig, TimeoutOf);
          ParseTimeout(FromVariable(if Visible(env, own).Some? then own else General(TimeoutOf)), raw)
        case None => Ok(if exportTimeout > 0 then exportTimeout else 0)
  {
    hide Trim, Meaning, ParseBool, ParseTimeout, SchemeSaysInsecure, FirstVariable;
    FirstVariableIsVisible(sig, HeadersOf, env);
    FirstVariableIsVisible(sig, InsecureOf, env);
    FirstVariableIsVisible(sig, TimeoutOf, env);
  }

  lemma FirstVariableIsVisible(sig: Signal, setting: Setting, env: Env)
    ensures FirstVariable(sig, setting, env) ==
      match Visible(env, PerSignal(sig, setting))
      case Some(raw) => Some(raw)
      case None => Visible(env, General(setting))
  {
    hide Blank, PerSignal, General;
    var own, general := PerSignal(sig, setting), General(setting);
    var none: seq<Text> := [];
    assert FirstVisible([general], env) == Visible(env, general) by {
      assert [general][1..] == none && FirstVisible(none, env) == None;
    }
    assert [own, general][1..] == [general];
  }

  /** The preset's endpoint and headers: its own, with the API key of the preset, or else of the
      environment, if there is one, and always the source. */
  lemma PresetHeaders(preset: DatadogPreset, env: Env)
    requires preset.enabled
    ensures var d := PresetFor(Traces, Some(preset), env);
      && d.headers.Some? && d.protocol == "http/protobuf" && d.endpoint == preset.traceEndpoint
      && var h, own := d.headers.value, OrEmpty(preset.headers);
        var fromEnv := DD_API_KEY in env && env[DD_API_KEY] != [];
        && DD_SOURCE_HEADER in h && h[DD_SOURCE_HEADER] == "llmobs"
        && (preset.apiKey != [] ==> DD_API_KEY_HEADER in h && h[DD_API_KEY_HEADER] == preset.apiKey)
        && (preset.apiKey == [] && fromEnv ==> DD_API_KEY_HEADER in h && h[DD_API_KEY_HEADER] == env[DD_API_KEY])
        && (forall k | k != DD_SOURCE_HEADER && (k != DD_API_KEY_HEADER || (preset.apiKey == [] && !fromEnv)) ::
              (k in h <==> k in own) && (k in h ==> h[k] == own[k]))
  {
    assert |DD_SOURCE_HEADER| != |DD_API_KEY_HEADER|;
  }

  /** Without an enabled preset, and for metrics and logs, there are no such defaults. */
  lemma NoPreset(sig: Signal, preset: Option<DatadogPreset>, env: Env)
    requires !sig.Traces? || preset.None? || !preset.value.enabled
    ensures PresetFor(sig, preset, env) == TraceDefaults([], None, [])
  {
  }

  /** A header variable that is not blank wins by being there: the lower layers are not consulted
      even when it holds no valid pair, as in the list made of one comma. */
  lemma HeaderLayerWinsByPresence(sig: Signal, explicit: ExporterConfig, preset: Option<DatadogPreset>, env: Env,
      raw: Text)
    requires explicit.headers == map[] && !Blank(raw)
    ensures ResolveHeaders(sig, explicit, preset, env[PerSignal(sig, HeadersOf) := raw]) == NilIfEmpty(Meaning(raw))
    ensures ResolveHeaders(sig, explicit, preset, env[PerSignal(sig, HeadersOf) := [',']]) == None
    ensures Visible(env, PerSignal(sig, HeadersOf)).None? ==>
      && ResolveHeaders(sig, explicit, preset, env[General(HeadersOf) := raw]) == NilIfEmpty(Meaning(raw))
      && ResolveHeaders(sig, explicit, preset, env[General(HeadersOf) := [',']]) == None
  {
    hide Trim, Meaning, SignalTag, SettingTag;
    NamesAreDistinct(sig, HeadersOf, sig, HeadersOf);
    CommaMeansNothing();
    PrintableIsSpaceFree([',']);
  }

  lemma CommaMeansNothing()
    ensures Meaning([',']) == map[]
  {
    hide Meaning;
    Homomorphism([], []);
    BlankMeansNothing();
    assert Then([], []) == [','];
  }

  // ---- Non-interference ---------------------------------------------------------------------

  lemma TagsAreDistinct(a: Signal, b: Signal, s: Setting, t: Setting)
    ensures SignalTag(a)[0] == SignalTag(b)[0] ==> a == b
    ensures SettingTag(s)[0] == SettingTag(t)[0] ==> s == t
    ensures SignalTag(a)[..2] != SettingTag(t)[..2]
  {
    assert SignalTag(a)[..2][1] != SettingTag(t)[..2][1] || SignalTag(a)[..2][0] != SettingTag(t)[..2][0];
  }

  lemma PrefixCancels(p: Text, x: Text, y: Text)
    ensures p + x == p + y ==> x == y
  {
    assert (p + x)[|p|..] == x && (p + y)[|p|..] == y;
  }

  lemma SuffixesAreDistinct(a: Signal, s: Setting, b: Signal, t: Setting)
    ensures SignalTag(a) + ['_'] + SettingTag(s) == SignalTag(b) + ['_'] + SettingTag(t) ==> a == b && s == t
    ensures SignalTag(a) + ['_'] + SettingTag(s) != SettingTag(t)
  {
    hide SignalTag, SettingTag;
    var x, y := SignalTag(a) + ['_'] + SettingTag(s), SignalTag(b) + ['_'] + SettingTag(t);
    TagsAreDistinct(a, b, s, t);
    TagLengths(a, b, s, t);
    assert x[0] == SignalTag(a)[0] && y[0] == SignalTag(b)[0];
    assert x[..2] == SignalTag(a)[..2];
    if a == b {
      PrefixCancels(SignalTag(a) + ['_'], SettingTag(s), SettingTag(t));
    }
  }

  lemma TagLengths(a: Signal, b: Signal, s: Setting, t: Setting)
    ensures |SignalTag(a)| >= 2 && |SignalTag(b)| >= 2 && |SettingTag(s)| >= 2 && |SettingTag(t)| >= 2
  {
  }

  /** No two settings share a variable, and none uses the API key's. */
  lemma NamesAreDistinct(a: Signal, s: Setting, b: Signal, t: Setting)
    ensures PerSignal(a, s) == PerSignal(b, t) ==> a == b && s == t
    ensures PerSignal(a, s) != General(t)
    ensures General(s) == General(t) ==> s == t
    ensures PerSignal(a, s) != DD_API_KEY && General(s) != DD_API_KEY
  {
    hide SignalTag, SettingTag;
    SuffixesAreDistinct(a, s, b, t);
    TagsAreDistinct(a, b, s, t);
    var x, y := SignalTag(a) + ['_'] + SettingTag(s), SignalTag(b) + ['_'] + SettingTag(t);
    PrefixCancels(OTLP, x, y);
    PrefixCancels(OTLP, x, SettingTag(t));
    PrefixCancels(OTLP, SettingTag(s), SettingTag(t));
    assert PerSignal(a, s)[0] == 'O' && General(s)[0] == 'O';
  }

  lemma TracesNames()
    ensures PerSignal(Traces, EndpointOf) == "OTEL_EXPORTER_OTLP_TRACES_ENDPOINT"
    ensures PerSignal(Traces, HeadersOf) == "OTEL_EXPORTER_OTLP_TRACES_HEADERS"
    ensures PerSignal(Traces, InsecureOf) == "OTEL_EXPORTER_OTLP_TRACES_INSECURE"
    ensures PerSignal(Traces, ProtocolOf) == "OTEL_EXPORTER_OTLP_TRACES_PROTOCOL"
    ensures PerSignal(Traces, TimeoutOf) == "OTEL_EXPORTER_OTLP_TRACES_TIMEOUT"
  {
  }

  lemma MetricsNames()
    ensures PerSignal(Metrics, EndpointOf) == "OTEL_EXPORTER_OTLP_METRICS_ENDPOINT"
    ensures PerSignal(Metrics, HeadersOf) == "OTEL_EXPORTER_OTLP_METRICS_HEADERS"
    ensures PerSignal(Metrics, InsecureOf) == "OTEL_EXPORTER_OTLP_METRICS_INSECURE"
    ensures PerSignal(Metrics, ProtocolOf) == "OTEL_EXPORTER_OTLP_METRICS_PROTOCOL"
    ensures PerSignal(Metrics, TimeoutOf) == "OTEL_EXPORTER_OTLP_METRICS_TIMEOUT"
  {
  }

  lemma LogsNames()
    ensures PerSignal(Logs, EndpointOf) == "OTEL_EXPORTER_OTLP_LOGS_ENDPOINT"
    ensures PerSignal(Logs, HeadersOf) == "OTEL_EXPORTER_OTLP_LOGS_HEADERS"
    ensures PerSignal(Logs, InsecureOf) == "OTEL_EXPORTER_OTLP_LOGS_INSECURE"
    ensures PerSignal(Logs, ProtocolOf) == "OTEL_EXPORTER_OTLP_LOGS_PROTOCOL"
    ensures PerSignal(Logs, TimeoutOf) == "OTEL_EXPORTER_OTLP_LOGS_TIMEOUT"
  {
  }

  lemma GeneralNames()
    ensures General(EndpointOf) == "OTEL_EXPORTER_OTLP_ENDPOINT"
    ensures General(HeadersOf) == "OTEL_EXPORTER_OTLP_HEADERS"
    ensures General(InsecureOf) == "OTEL_EXPORTER_OTLP_INSECURE"
    ensures General(ProtocolOf) == "OTEL_EXPORTER_OTLP_PROTOCOL"
    ensures General(TimeoutOf) == "OTEL_EXPORTER_OTLP_TIMEOUT"
  {
  }

  /** Two environments that show one signal the same: its own and the general variables, and for
      traces the API key. */
  ghost predicate SeesSame(sig: Signal, e1: Env, e2: Env) {
    && (forall s :: Visible(e1, PerSignal(sig, s)) == Visible(e2, PerSignal(sig, s)))
    && (forall s :: Visible(e1, General(s)) == Visible(e2, General(s)))
    && (sig.Traces? ==> Raw(e1, DD_API_KEY) == Raw(e2, DD_API_KEY))
  }

  lemma SameChoices(sig: Signal, explicit: ExporterConfig, p1: Option<DatadogPreset>, p2: Option<DatadogPreset>,
      e1: Env, e2: Env)
    requires SeesSame(sig, e1, e2) && (sig.Traces? ==> p1 == p2)
    ensures ResolveProtocol(sig, explicit, p1, e1) == ResolveProtocol(sig, explicit, p2, e2)
    ensures forall p :: ResolveEndpoint(sig, explicit, p, p1, e1) == ResolveEndpoint(sig, explicit, p, p2, e2)
    ensures ResolveHeaders(sig, explicit, p1, e1) == ResolveHeaders(sig, explicit, p2, e2)
  {
    hide Trim, Meaning;
    assert PresetFor(sig, p1, e1) == PresetFor(sig, p2, e2);
  }

  lemma SameFlags(sig: Signal, explicit: ExporterConfig, exportTimeout: int, e1: Env, e2: Env)
    requires SeesSame(sig, e1, e2)
    ensures forall e :: ResolveInsecure(sig, explicit, e, e1) == ResolveInsecure(sig, explicit, e, e2)
    ensures ResolveTimeout(sig, explicit, exportTimeout, e1) == ResolveTimeout(sig, explicit, exportTimeout, e2)
  {
    hide Trim, ParseBool, ParseTimeout, SchemeSaysInsecure;
  }

  /** A signal's result depends on nothing else: not on another signal's variables or explicit
      configuration, nor, for metrics and logs, on the preset. */
  lemma NonInterference(c: Url.Codec, sig: Signal, o1: Options, o2: Options, e1: Env, e2: Env)
    requires SeesSame(sig, e1, e2)
    requires ExplicitFor(sig, o1) == ExplicitFor(sig, o2) && o1.exportTimeout == o2.exportTimeout
    requires sig.Traces? ==> o1.preset == o2.preset
    ensures Resolve(c, sig, o1, e1) == Resolve(c, sig, o2, e2)
  {
    hide Normalize, ResolveProtocol, ResolveEndpoint, ResolveHeaders, ResolveInsecure, ResolveTimeout;
    SameChoices(sig, ExplicitFor(sig, o1), o1.preset, o2.preset, e1, e2);
    SameFlags(sig, ExplicitFor(sig, o1), o1.exportTimeout, e1, e2);
  }

  /** Setting any variable of another signal changes nothing. */
  lemma {:induction false} OtherSignalsDoNotMatter(c: Url.Codec, sig: Signal, other: Signal, s: Setting,
      opts: Options, env: Env, v: Text)
    requires sig != other
    ensures Resolve(c, sig, opts, env[PerSignal(other, s) := v]) == Resolve(c, sig, opts, env)
  {
    hide Resolve, ExplicitFor, Trim, SignalTag, SettingTag;
    var env' := env[PerSignal(other, s) := v];
    forall t ensures PerSignal(sig, t) != PerSignal(other, s) && General(t) != PerSignal(other, s) {
      NamesAreDistinct(sig, t, other, s);
      NamesAreDistinct(other, s, sig, t);
    }
    NamesAreDistinct(other, s, other, s);
    NonInterference(c, sig, opts, opts, env', env);
  }

  /** A blank OTEL variable is the same as no variable. (The API key is not trimmed.) */
  lemma BlankIsAbsent(c: Url.Codec, sig: Signal, name: Text, opts: Options, env: Env, v: Text)
    requires name != DD_API_KEY && Blank(v)
    ensures Resolve(c, sig, opts, env[name := v]) == Resolve(c, sig, opts, env - {name})
  {
    NonInterference(c, sig, opts, opts, env[name := v], env - {name});
  }
}
