/** The metric recorders (instruments.go, usage.go, spans.go): everything they emit has passed the
  cardinality gate. */
module Instruments {
  import opened Values
  import opened Cardinality

  datatype ModelLabels = ModelLabels(operation: string, provider: string, model: string, errorType: string)

  datatype ErrorLabels = ErrorLabels(provider: string, errorType: string)

  datatype Fallback = Fallback(provider: string, from: string, to: string, attributes: seq<KeyValue>)

  datatype Usage = Usage(inputTokens: int, outputTokens: int, available: bool)

  datatype TokenType = Input | Output

  function TokenTag(t: TokenType): string {
    if t.Input? then "input" else "output"
  }

  datatype RecordError = NegativeUsage(t: TokenType, tokens: int) | Rejected(err: CardinalityError)

  datatype Amount = Seconds(s: real) | Count(n: int)

  /** One measurement that reached an instrument. */
  datatype Point = Point(metric: string, amount: Amount, attrs: seq<KeyValue>)

  // ---- Attribute builders -------------------------------------------------------------------

  function Attr(key: string, value: string): seq<KeyValue> {
    if value == "" then [] else [KeyValue(key, value)]
  }

  function ModelBaseAttrs(l: ModelLabels): seq<KeyValue> {
    Attr(OPERATION_NAME, l.operation) + Attr(PROVIDER_NAME, l.provider) + Attr(REQUEST_MODEL, l.model)
  }

  function LatencyAttrs(l: ModelLabels): seq<KeyValue> {
    ModelBaseAttrs(l) + Attr(ERROR_TYPE, l.errorType)
  }

  function TokenUsageAttrs(l: ModelLabels, t: TokenType): seq<KeyValue> {
    ModelBaseAttrs(l) + [KeyValue(TOKEN_TYPE, TokenTag(t))]
  }

  function ErrorAttrs(l: ErrorLabels): seq<KeyValue> {
    Attr(PROVIDER_NAME, l.provider) + Attr(ERROR_TYPE, l.errorType)
  }

  function FallbackAttrs(f: Fallback): seq<KeyValue> {
    Attr(PROVIDER_NAME, f.provider) + Attr(PROVIDER_FROM, f.from) + Attr(PROVIDER_TO, f.to) + f.attributes
  }

  /** The values that a list of attributes gives to a key. */
  function ValuesOf(attrs: seq<KeyValue>, key: string): seq<string> {
    if attrs == [] then []
    else
      var last := attrs[|attrs| - 1];
      ValuesOf(attrs[..|attrs| - 1], key) + if last.key == key then [last.value] else []
  }

  lemma {:induction false} ValuesOfConcat(a: seq<KeyValue>, b: seq<KeyValue>, key: string)
    ensures ValuesOf(a + b, key) == ValuesOf(a, key) + ValuesOf(b, key)
  {
    if b == [] {
      assert a + b == a;
    } else {
      assert (a + b)[..|a + b| - 1] == a + b[..|b| - 1];
      ValuesOfConcat(a, b[..|b| - 1], key);
    }
  }

  /** The value of a label, if it is not empty. */
  function Given(value: string): seq<string> {
    if value == "" then [] else [value]
  }

  lemma ValuesOfAttr(k: string, value: string, key: string)
    ensures ValuesOf(Attr(k, value), key) == if k == key then Given(value) else []
  {
    var a := KeyValue(k, value);
    assert [a][..0] == [] && ValuesOf([], key) == [];
  }

  lemma KeysDiffer()
    ensures |OPERATION_NAME| == 21 && |PROVIDER_NAME| == 20 && |TOKEN_TYPE| == 17 && |ERROR_TYPE| == 10
    ensures |REQUEST_MODEL| == 20 && |PROVIDER_FROM| == 24 && |PROVIDER_TO| == 22
    ensures PROVIDER_NAME != REQUEST_MODEL
  {
    assert PROVIDER_NAME[7] != REQUEST_MODEL[7];
  }

  lemma BaseValues(l: ModelLabels, key: string)
    ensures ValuesOf(ModelBaseAttrs(l), key) ==
      if key == OPERATION_NAME then Given(l.operation)
      else if key == PROVIDER_NAME then Given(l.provider)
      else if key == REQUEST_MODEL then Given(l.model) else []
  {
    hide Attr, ValuesOf;
    KeysDiffer();
    var a, b, c := Attr(OPERATION_NAME, l.operation), Attr(PROVIDER_NAME, l.provider), Attr(REQUEST_MODEL, l.model);
    ValuesOfAttr(OPERATION_NAME, l.operation, key);
    ValuesOfAttr(PROVIDER_NAME, l.provider, key);
    ValuesOfAttr(REQUEST_MODEL, l.model, key);
    ValuesOfConcat(a, b, key);
    ValuesOfConcat(a + b, c, key);
  }

  /** A latency has one value for each label that is not empty, under the label's own key. */
  lemma LatencyValues(l: ModelLabels, key: string)
    ensures ValuesOf(LatencyAttrs(l), key) ==
      if key == ERROR_TYPE then Given(l.errorType) else ValuesOf(ModelBaseAttrs(l), key)
  {
    hide Attr, ValuesOf, ModelBaseAttrs;
    KeysDiffer();
    BaseValues(l, key);
    ValuesOfAttr(ERROR_TYPE, l.errorType, key);
    ValuesOfConcat(ModelBaseAttrs(l), Attr(ERROR_TYPE, l.errorType), key);
  }

  /** A token count always has its type. */
  lemma TokenUsageValues(l: ModelLabels, t: TokenType, key: string)
    ensures ValuesOf(TokenUsageAttrs(l, t), key) ==
      if key == TOKEN_TYPE then [if t.Input? then "input" else "output"] else ValuesOf(ModelBaseAttrs(l), key)
  {
    hide ValuesOf, ModelBaseAttrs;
    KeysDiffer();
    BaseValues(l, key);
    assert Attr(TOKEN_TYPE, TokenTag(t)) == [KeyValue(TOKEN_TYPE, TokenTag(t))];
    ValuesOfAttr(TOKEN_TYPE, TokenTag(t), key);
    ValuesOfConcat(ModelBaseAttrs(l), [KeyValue(TOKEN_TYPE, TokenTag(t))], key);
  }

  lemma ErrorValues(l: ErrorLabels, key: string)
    ensures ValuesOf(ErrorAttrs(l), key) ==
      if key == PROVIDER_NAME then Given(l.provider)
      else if key == ERROR_TYPE then Given(l.errorType) else []
  {
    hide Attr, ValuesOf;
    KeysDiffer();
    ValuesOfAttr(PROVIDER_NAME, l.provider, key);
    ValuesOfAttr(ERROR_TYPE, l.errorType, key);
    ValuesOfConcat(Attr(PROVIDER_NAME, l.provider), Attr(ERROR_TYPE, l.errorType), key);
  }

  /** The caller's own attributes follow those of the labels. */
  lemma FallbackValues(f: Fallback, key: string)
    ensures ValuesOf(FallbackAttrs(f), key) ==
      (if key == PROVIDER_NAME then Given(f.provider)
       else if key == PROVIDER_FROM then Given(f.from)
       else if key == PROVIDER_TO then Given(f.to) else [])
      + ValuesOf(f.attributes, key)
  {
    hide Attr, ValuesOf;
    KeysDiffer();
    var a, b, c := Attr(PROVIDER_NAME, f.provider), Attr(PROVIDER_FROM, f.from), Attr(PROVIDER_TO, f.to);
    ValuesOfAttr(PROVIDER_NAME, f.provider, key);
    ValuesOfAttr(PROVIDER_FROM, f.from, key);
    ValuesOfAttr(PROVIDER_TO, f.to, key);
    ValuesOfConcat(a, b, key);
    ValuesOfConcat(a + b, c, key);
    ValuesOfConcat(a + b + c, f.attributes, key);
  }

  // ---- Usage --------------------------------------------------------------------------------

  /** Usage.Validate */
  function UsageProblem(u: Usage): Option<RecordError> {
    if u.inputTokens < 0 then Some(NegativeUsage(Input, u.inputTokens))
    else if u.outputTokens < 0 then Some(NegativeUsage(Output, u.outputTokens))
    else None
  }

  /** UsageMetricPoints */
  function UsagePoints(u: Usage): Result<seq<(TokenType, int)>, RecordError> {
    match UsageProblem(u)
    case Some(e) => Err(e)
    case None => Ok(if u.available then [(Input, u.inputTokens), (Output, u.outputTokens)] else [])
  }

  // ---- Recording ----------------------------------------------------------------------------

  datatype RecordOp =
    | Latency(seconds: real, labels: ModelLabels)
    | UsageOf(usage: Usage, labels: ModelLabels)
    | Tokens(t: TokenType, tokens: int, labels: ModelLabels)
    | ProviderError(errorLabels: ErrorLabels)
    | FallbackEngaged(fallback: Fallback)

  /** What a recorder lets through: at most one point, or an error. */
  datatype Recorded = Recorded(points: seq<Point>, err: Option<RecordError>)

  function Measure(mode: Mode, metric: string, amount: Amount, attrs: seq<KeyValue>): Recorded {
    var out := FilterResult(mode, metric, attrs);
    if out.err.Some? then Recorded([], Some(Rejected(out.err.value)))
    else if !out.keep then Recorded([], None)
    else Recorded([Point(metric, amount, out.attrs)], None)
  }

  /** Recording one count per token type stops at the first error. */
  function MeasureTokens(mode: Mode, points: seq<(TokenType, int)>, l: ModelLabels): Recorded {
    if points == [] then Recorded([], None)
    else
      var (t, n) := points[0];
      var first := if n < 0 then Recorded([], Some(NegativeUsage(t, n)))
                   else Measure(mode, TOKEN_USAGE, Count(n), TokenUsageAttrs(l, t));
      if first.err.Some? then first
      else
        var rest := MeasureTokens(mode, points[1..], l);
        Recorded(first.points + rest.points, rest.err)
  }

  /** What one recorder call emits and returns. */
  function Effect(mode: Mode, op: RecordOp): Recorded {
    match op
    case Latency(seconds, l) => Measure(mode, OPERATION_DURATION, Seconds(seconds), LatencyAttrs(l))
    case Tokens(t, n, l) => MeasureTokens(mode, [(t, n)], l)
    case ProviderError(l) => Measure(mode, PROVIDER_ERRORS, Count(1), ErrorAttrs(l))
    case FallbackEngaged(f) => Measure(mode, FALLBACK_ENGAGED, Count(1), FallbackAttrs(f))
    case UsageOf(u, l) =>
      match UsagePoints(u)
      case Err(e) => Recorded([], Some(e))
      case Ok(points) => MeasureTokens(mode, points, l)
  }

  /** The metric and the attributes that a call hands to the filter, one entry per measurement. */
  function Offered(op: RecordOp): seq<FilterCall> {
    match op
    case Latency(_, l) => [FilterCall(OPERATION_DURATION, LatencyAttrs(l))]
    case Tokens(t, n, l) => if n < 0 then [] else [FilterCall(TOKEN_USAGE, TokenUsageAttrs(l, t))]
    case ProviderError(l) => [FilterCall(PROVIDER_ERRORS, ErrorAttrs(l))]
    case FallbackEngaged(f) => [FilterCall(FALLBACK_ENGAGED, FallbackAttrs(f))]
    case UsageOf(u, l) =>
      if UsageProblem(u).Some? || !u.available then []
      else [FilterCall(TOKEN_USAGE, TokenUsageAttrs(l, Input)), FilterCall(TOKEN_USAGE, TokenUsageAttrs(l, Output))]
  }

  /** Everything that a run hands to the filter. */
  function AllOffered(ops: seq<RecordOp>): seq<FilterCall> {
    if ops == [] then [] else AllOffered(ops[..|ops| - 1]) + Offered(ops[|ops| - 1])
  }

  /** What a logger has received after `calls`, if there is one. */
  function Logged(logger: bool, emitted: seq<Violation>, mode: Mode, calls: seq<FilterCall>): seq<Violation> {
    if logger then EmitNew(emitted, AllViolations(mode, calls)) else emitted
  }

  lemma LoggedOne(logger: bool, emitted: seq<Violation>, mode: Mode, call: FilterCall)
    ensures Logged(logger, emitted, mode, [call])
      == if logger then EmitNew(emitted, ViolationsOf(mode, call.metric, call.attrs)) else emitted
  {
    hide ViolationsOf, EmitNew;
    assert [call][..0] == [];
    assert AllViolations(mode, [call]) == ViolationsOf(mode, call.metric, call.attrs);
  }

  lemma LoggedNothing(logger: bool, emitted: seq<Violation>, mode: Mode)
    ensures Logged(logger, emitted, mode, []) == emitted
  {
  }

  lemma {:induction false} AllViolationsConcat(mode: Mode, a: seq<FilterCall>, b: seq<FilterCall>)
    ensures AllViolations(mode, a + b) == AllViolations(mode, a) + AllViolations(mode, b)
  {
    hide ViolationsOf;
    if b == [] {
      assert a + b == a;
    } else {
      assert (a + b)[..|a + b| - 1] == a + b[..|b| - 1];
      AllViolationsConcat(mode, a, b[..|b| - 1]);
    }
  }

  lemma LoggedConcat(logger: bool, emitted: seq<Violation>, mode: Mode, a: seq<FilterCall>, b: seq<FilterCall>)
    ensures Logged(logger, emitted, mode, a + b) == Logged(logger, Logged(logger, emitted, mode, a), mode, b)
  {
    hide AllViolations, EmitNew;
    AllViolationsConcat(mode, a, b);
    EmitNewConcat(emitted, AllViolations(mode, a), AllViolations(mode, b));
  }

  /** Calls that meet no violation leave the log as it is. */
  lemma LoggedUnchanged(logger: bool, emitted: seq<Violation>, mode: Mode, calls: seq<FilterCall>)
    requires forall call | call in calls :: ViolationsOf(mode, call.metric, call.attrs) == []
    ensures Logged(logger, emitted, mode, calls) == emitted
  {
    hide ViolationsOf;
    NoViolations(mode, calls);
  }

  lemma {:induction false} NoViolations(mode: Mode, calls: seq<FilterCall>)
    requires forall call | call in calls :: ViolationsOf(mode, call.metric, call.attrs) == []
    ensures AllViolations(mode, calls) == []
  {
    hide ViolationsOf;
    if calls != [] {
      NoViolations(mode, calls[..|calls| - 1]);
      assert calls[|calls| - 1] in calls;
    }
  }

  lemma TokensLogNothing(logger: bool, emitted: seq<Violation>, mode: Mode, t: TokenType, n: int, l: ModelLabels)
    ensures Logged(logger, emitted, mode, Offered(Tokens(t, n, l))) == emitted
  {
    hide ViolationsOf, Logged;
    TokensPass(mode, t, n, l);
    LoggedUnchanged(logger, emitted, mode, Offered(Tokens(t, n, l)));
  }

  lemma UsageLogsNothing(logger: bool, emitted: seq<Violation>, mode: Mode, u: Usage, l: ModelLabels)
    ensures Logged(logger, emitted, mode, Offered(UsageOf(u, l))) == emitted
  {
    hide ViolationsOf, Logged;
    TokensPass(mode, Input, 0, l);
    TokensPass(mode, Output, 0, l);
    LoggedUnchanged(logger, emitted, mode, Offered(UsageOf(u, l)));
  }

  lemma MeasureNothing(mode: Mode, l: ModelLabels)
    ensures MeasureTokens(mode, [], l) == Recorded([], None)
  {
  }

  /** Recording a list of counts is recording the first, and the rest unless that fails. */
  lemma MeasureTokensFirst(mode: Mode, ps: seq<(TokenType, int)>, l: ModelLabels)
    requires ps != []
    ensures MeasureTokens(mode, ps, l) ==
      var one := MeasureTokens(mode, [ps[0]], l);
      var rest := MeasureTokens(mode, ps[1..], l);
      if one.err.Some? then one else Recorded(one.points + rest.points, rest.err)
  {
    hide Measure;
    assert [ps[0]][1..] == [] && MeasureTokens(mode, [], l) == Recorded([], None);
  }

  class Instruments {
    const cardinality: CardinalityValidator
    var points: seq<Point>

    constructor (cardinality: CardinalityValidator)
      ensures this.cardinality == cardinality && points == []
    {
      this.cardinality := cardinality;
      points := [];
    }

    /** filterMetricAttrs, and the recording if it lets the measurement through. */
    method Emit(metric: string, amount: Amount, attrs: seq<KeyValue>) returns (err: Option<RecordError>)
      requires cardinality.Valid()
      modifies this, cardinality`seen, cardinality`emitted
      ensures cardinality.Valid()
      ensures var r := Measure(cardinality.mode, metric, amount, attrs);
        points == old(points) + r.points && err == r.err
      ensures cardinality.emitted ==
        Logged(cardinality.logger, old(cardinality.emitted), cardinality.mode, [FilterCall(metric, attrs)])
    {
      hide FilterResult, ViolationsOf, EmitNew, AllViolations;
      LoggedOne(cardinality.logger, cardinality.emitted, cardinality.mode, FilterCall(metric, attrs));
      var filtered, keep, rejected := cardinality.Filter(metric, attrs);
      if rejected.Some? || !keep {
        return if rejected.Some? then Some(Rejected(rejected.value)) else None;
      }
      points := points + [Point(metric, amount, filtered)];
      return None;
    }

    /** RecordUsageInputTokens and RecordUsageOutputTokens */
    method RecordTokens(tokens: int, l: ModelLabels, t: TokenType) returns (err: Option<RecordError>)
      requires cardinality.Valid()
      modifies this, cardinality`seen, cardinality`emitted
      ensures cardinality.Valid()
      ensures var r := MeasureTokens(cardinality.mode, [(t, tokens)], l);
        points == old(points) + r.points && err == r.err
      ensures cardinality.emitted ==
        Logged(cardinality.logger, old(cardinality.emitted), cardinality.mode, Offered(Tokens(t, tokens, l)))
    {
      hide Measure, Logged;
      if tokens < 0 {
        LoggedNothing(cardinality.logger, cardinality.emitted, cardinality.mode);
        return Some(NegativeUsage(t, tokens));
      }
      err := Emit(TOKEN_USAGE, Count(tokens), TokenUsageAttrs(l, t));
    }

    method RecordUsage(u: Usage, l: ModelLabels) returns (err: Option<RecordError>)
      requires cardinality.Valid()
      modifies this, cardinality`seen, cardinality`emitted
      ensures cardinality.Valid()
      ensures var r := Effect(cardinality.mode, UsageOf(u, l));
        points == old(points) + r.points && err == r.err
      ensures cardinality.emitted ==
        Logged(cardinality.logger, old(cardinality.emitted), cardinality.mode, Offered(UsageOf(u, l)))
    {
      hide Measure, MeasureTokens, Logged, UsageProblem, EmitNew, AllViolations;
      MeasureNothing(cardinality.mode, l);
      UsageLogsNothing(cardinality.logger, cardinality.emitted, cardinality.mode, u, l);
      var usagePoints := UsagePoints(u);
      if usagePoints.Err? {
        return Some(usagePoints.error);
      }
      var ps := usagePoints.value;
      for i := 0 to |ps|
        invariant cardinality.Valid()
        invariant var all := MeasureTokens(cardinality.mode, ps, l);
          var rest := MeasureTokens(cardinality.mode, ps[i..], l);
          old(points) + all.points == points + rest.points && all.err == rest.err
        invariant cardinality.emitted == old(cardinality.emitted)
      {
        TokensLogNothing(cardinality.logger, cardinality.emitted, cardinality.mode, ps[i].0, ps[i].1, l);
        MeasureTokensFirst(cardinality.mode, ps[i..], l);
        err := RecordTokens(ps[i].1, l, ps[i].0);
        assert ps[i..][1..] == ps[i + 1..];
        if err.Some? {
          return;
        }
      }
      assert ps[|ps|..] == [];
      return None;
    }

    method Record(op: RecordOp) returns (err: Option<RecordError>)
      requires cardinality.Valid()
      modifies this, cardinality`seen, cardinality`emitted
      ensures cardinality.Valid()
      ensures points == old(points) + Effect(cardinality.mode, op).points
      ensures err == Effect(cardinality.mode, op).err
      ensures cardinality.emitted == Logged(cardinality.logger, old(cardinality.emitted), cardinality.mode, Offered(op))
    {
      hide Logged;
      match op {
        case Latency(seconds, l) => err := Emit(OPERATION_DURATION, Seconds(seconds), LatencyAttrs(l));
        case UsageOf(u, l) => err := RecordUsage(u, l);
        case Tokens(t, n, l) => err := RecordTokens(n, l, t);
        case ProviderError(l) => err := Emit(PROVIDER_ERRORS, Count(1), ErrorAttrs(l));
        case FallbackEngaged(f) => err := Emit(FALLBACK_ENGAGED, Count(1), FallbackAttrs(f));
      }
    }

    /** Any sequence of recorder calls. */
    method Drive(ops: seq<RecordOp>)
      requires cardinality.Valid()
      modifies this, cardinality`seen, cardinality`emitted
      ensures cardinality.Valid()
      ensures points == old(points) + Emitted(cardinality.mode, ops)
      ensures cardinality.emitted ==
        Logged(cardinality.logger, old(cardinality.emitted), cardinality.mode, AllOffered(ops))
      ensures forall v | v in cardinality.emitted && v !in old(cardinality.emitted) :: FromFallback(ops, v)
    {
      hide Effect, Logged, Offered, FromFallback;
      LoggedNothing(cardinality.logger, cardinality.emitted, cardinality.mode);
      for i := 0 to |ops|
        invariant cardinality.Valid()
        invariant points == old(points) + Emitted(cardinality.mode, ops[..i])
        invariant cardinality.emitted ==
          Logged(cardinality.logger, old(cardinality.emitted), cardinality.mode, AllOffered(ops[..i]))
      {
        assert ops[..i + 1][..i] == ops[..i];
        LoggedConcat(cardinality.logger, old(cardinality.emitted), cardinality.mode, 
          AllOffered(ops[..i]), Offered(ops[i]));
        var _ := Record(ops[i]);
      }
      assert ops[..|ops|] == ops;
      NewViolationsComeFromFallbacks(cardinality.logger, old(cardinality.emitted), cardinality.mode, ops);
    }
  }

  /** Everything that reaches an instrument in a run. */
  function Emitted(mode: Mode, ops: seq<RecordOp>): seq<Point> {
    if ops == [] then [] else Emitted(mode, ops[..|ops| - 1]) + Effect(mode, ops[|ops| - 1]).points
  }

  // ---- Theorems about runs ------------------------------------------------------------------

  predicate Allowed(p: Point) {
    SpecOf(p.metric).Some? &&
    forall a | a in p.attrs :: a.key in SpecOf(p.metric).value.allowedKeys && !IsProhibitedKey(a.key)
  }

  lemma MeasureIsAllowed(mode: Mode, metric: string, amount: Amount, attrs: seq<KeyValue>)
    requires !mode.Disabled?
    ensures forall p | p in Measure(mode, metric, amount, attrs).points :: Allowed(p)
  {
    hide IsProhibitedKey, SpecOf;
    if SpecOf(metric).Some? {
      KeptIsAllowed(SpecOf(metric).value, attrs);
    }
  }

  lemma {:induction false} TokensAreAllowed(mode: Mode, ps: seq<(TokenType, int)>, l: ModelLabels)
    requires !mode.Disabled?
    ensures forall p | p in MeasureTokens(mode, ps, l).points :: Allowed(p)
  {
    hide Measure, Allowed;
    if ps != [] {
      MeasureIsAllowed(mode, TOKEN_USAGE, Count(ps[0].1), TokenUsageAttrs(l, ps[0].0));
      TokensAreAllowed(mode, ps[1..], l);
    }
  }

  /** With filtering on, every measurement of every run carries only keys that its metric allows. */
  lemma {:induction false} RunsAreAllowed(mode: Mode, ops: seq<RecordOp>)
    requires !mode.Disabled?
    ensures forall p | p in Emitted(mode, ops) :: Allowed(p)
  {
    hide Measure, MeasureTokens, Allowed;
    if ops != [] {
      RunsAreAllowed(mode, ops[..|ops| - 1]);
      match ops[|ops| - 1] {
        case Latency(seconds, l) => MeasureIsAllowed(mode, OPERATION_DURATION, Seconds(seconds), LatencyAttrs(l));
        case UsageOf(u, l) =>
          if UsagePoints(u).Ok? { TokensAreAllowed(mode, UsagePoints(u).value, l); }
        case Tokens(t, n, l) => TokensAreAllowed(mode, [(t, n)], l);
        case ProviderError(l) => MeasureIsAllowed(mode, PROVIDER_ERRORS, Count(1), ErrorAttrs(l));
        case FallbackEngaged(f) => MeasureIsAllowed(mode, FALLBACK_ENGAGED, Count(1), FallbackAttrs(f));
      }
    }
  }

  // ---- What can cause a violation -----------------------------------------------------------

  /** The keys that the attribute builders use. */
  const BUILDER_KEYS := {
    PROVIDER_NAME, REQUEST_MODEL, OPERATION_NAME, TOKEN_TYPE, ERROR_TYPE, PROVIDER_FROM, PROVIDER_TO}

  function CharAt(s: string, i: nat): char {
    if i < |s| then s[i] else ' '
  }

  lemma BuilderKeysAreNotProhibited(key: string)
    requires key in BUILDER_KEYS
    ensures !IsProhibitedKey(key)
  {
    var prefix := PROHIBITED_PREFIXES[0];
    assert PROHIBITED_PREFIXES == [prefix] && prefix[0] == 't';
    assert key[0] != 't';
    // Where the lengths agree, the first or the ninth character differs.
    forall p | p in PROHIBITED_KEYS ensures key != p {
      assert |key| != |p| || CharAt(key, 0) != CharAt(p, 0) || CharAt(key, 8) != CharAt(p, 8);
    }
  }

  lemma BuiltInSpecs()
    ensures SpecOf(OPERATION_DURATION) == Some(BUILT_IN_SPECS[0])
    ensures SpecOf(TOKEN_USAGE) == Some(BUILT_IN_SPECS[1])
    ensures SpecOf(PROVIDER_ERRORS) == Some(BUILT_IN_SPECS[2])
    ensures SpecOf(FALLBACK_ENGAGED) == Some(BUILT_IN_SPECS[3])
  {
    // The four names differ in length.
    assert |OPERATION_DURATION| == 32 && |TOKEN_USAGE| == 25 && |PROVIDER_ERRORS| == 26 && |FALLBACK_ENGAGED| == 27;
  }

  /** Attributes whose keys are builder keys that the metric allows pass unchanged and unlogged. */
  lemma {:induction false} BuiltAttrsPass(metric: string, spec: MetricSpec, attrs: seq<KeyValue>)
    requires forall a | a in attrs :: a.key in BUILDER_KEYS && a.key in spec.allowedKeys
    ensures Kept(spec, attrs) == attrs && LabelViolations(metric, spec, attrs) == []
  {
    hide IsProhibitedKey;
    if attrs != [] {
      var init, last := attrs[..|attrs| - 1], attrs[|attrs| - 1];
      BuiltAttrsPass(metric, spec, init);
      BuilderKeysAreNotProhibited(last.key);
      assert attrs == init + [last];
    }
  }

  lemma BuiltMetricPasses(mode: Mode, metric: string, spec: MetricSpec, amount: Amount, attrs: seq<KeyValue>)
    requires SpecOf(metric) == Some(spec)
    requires forall a | a in attrs :: a.key in BUILDER_KEYS && a.key in spec.allowedKeys
    ensures ViolationsOf(mode, metric, attrs) == []
    ensures Measure(mode, metric, amount, attrs) == Recorded([Point(metric, amount, attrs)], None)
  {
    hide SpecOf, IsProhibitedKey;
    BuiltAttrsPass(metric, spec, attrs);
    NoObjection(metric, spec, attrs);
    forall a | a in attrs ensures Objection(spec, a.key).None? {
      BuilderKeysAreNotProhibited(a.key);
    }
  }

  lemma LatencyPasses(mode: Mode, seconds: real, l: ModelLabels)
    ensures ViolationsOf(mode, OPERATION_DURATION, LatencyAttrs(l)) == []
    ensures Effect(mode, Latency(seconds, l)) ==
      Recorded([Point(OPERATION_DURATION, Seconds(seconds), LatencyAttrs(l))], None)
  {
    hide SpecOf, Measure, ViolationsOf;
    BuiltInSpecs();
    BuiltMetricPasses(mode, OPERATION_DURATION, BUILT_IN_SPECS[0], Seconds(seconds), LatencyAttrs(l));
  }

  lemma ProviderErrorPasses(mode: Mode, l: ErrorLabels)
    ensures ViolationsOf(mode, PROVIDER_ERRORS, ErrorAttrs(l)) == []
    ensures Effect(mode, ProviderError(l)) == Recorded([Point(PROVIDER_ERRORS, Count(1), ErrorAttrs(l))], None)
  {
    hide SpecOf, Measure, ViolationsOf;
    BuiltInSpecs();
    BuiltMetricPasses(mode, PROVIDER_ERRORS, BUILT_IN_SPECS[2], Count(1), ErrorAttrs(l));
  }

  function TokenPoint(t: TokenType, n: int, l: ModelLabels): Point {
    Point(TOKEN_USAGE, Count(n), TokenUsageAttrs(l, t))
  }

  lemma TokensPass(mode: Mode, t: TokenType, n: int, l: ModelLabels)
    ensures ViolationsOf(mode, TOKEN_USAGE, TokenUsageAttrs(l, t)) == []
    ensures Measure(mode, TOKEN_USAGE, Count(n), TokenUsageAttrs(l, t)) == Recorded([TokenPoint(t, n, l)], None)
  {
    hide SpecOf, ViolationsOf;
    BuiltInSpecs();
    BuiltMetricPasses(mode, TOKEN_USAGE, BUILT_IN_SPECS[1], Count(n), TokenUsageAttrs(l, t));
  }

  lemma TokenCallPasses(mode: Mode, t: TokenType, n: int, l: ModelLabels)
    ensures MeasureTokens(mode, [(t, n)], l) ==
      if n < 0 then Recorded([], Some(NegativeUsage(t, n))) else Recorded([TokenPoint(t, n, l)], None)
  {
    hide Measure;
    TokensPass(mode, t, n, l);
    assert [(t, n)][1..] == [] && MeasureTokens(mode, [], l) == Recorded([], None);
    assert [TokenPoint(t, n, l)] + [] == [TokenPoint(t, n, l)];
  }

  /** In every mode RecordUsage emits both points or neither, and no error but that of a negative
      count: it emits both exactly if the usage is available and not negative. */
  lemma UsageIsAtomic(mode: Mode, u: Usage, l: ModelLabels)
    ensures Effect(mode, UsageOf(u, l)) ==
      if u.inputTokens < 0 then Recorded([], Some(NegativeUsage(Input, u.inputTokens)))
      else if u.outputTokens < 0 then Recorded([], Some(NegativeUsage(Output, u.outputTokens)))
      else if !u.available then Recorded([], None)
      else Recorded([TokenPoint(Input, u.inputTokens, l), TokenPoint(Output, u.outputTokens, l)], None)
  {
    hide Measure;
    TokensPass(mode, Input, u.inputTokens, l);
    TokenCallPasses(mode, Output, u.outputTokens, l);
    var ps := [(Input, u.inputTokens), (Output, u.outputTokens)];
    assert ps[1..] == [(Output, u.outputTokens)];
    assert [TokenPoint(Input, u.inputTokens, l)] + [TokenPoint(Output, u.outputTokens, l)]
        == [TokenPoint(Input, u.inputTokens, l), TokenPoint(Output, u.outputTokens, l)];
  }

  lemma {:induction false} ViolationsComeFromAttrs(metric: string, spec: MetricSpec, attrs: seq<KeyValue>)
    ensures forall v | v in LabelViolations(metric, spec, attrs) ::
      exists a :: a in attrs && a.key == v.key && Objection(spec, a.key).Some?
  {
    hide Objection;
    if attrs != [] {
      ViolationsComeFromAttrs(metric, spec, attrs[..|attrs| - 1]);
      var last := attrs[|attrs| - 1];
      assert last in attrs;
    }
  }

  /** Only an attribute that the caller puts into a Fallback can violate the budget; every other
      call passes the filter unchanged. */
  lemma OnlyFallbackAttributesViolate(mode: Mode, op: RecordOp, call: FilterCall, v: Violation)
    requires call in Offered(op) && v in ViolationsOf(mode, call.metric, call.attrs)
    ensures op.FallbackEngaged? && exists a :: a in op.fallback.attributes && a.key == v.key
  {
    hide SpecOf, ViolationsOf, IsProhibitedKey, UsageProblem, LatencyAttrs, ErrorAttrs, TokenUsageAttrs, FallbackAttrs;
    match op {
      case Latency(seconds, l) => LatencyPasses(mode, seconds, l);
      case ProviderError(l) => ProviderErrorPasses(mode, l);
      case Tokens(t, n, l) => TokensPass(mode, t, n, l);
      case UsageOf(u, l) =>
        TokensPass(mode, Input, 0, l);
        TokensPass(mode, Output, 0, l);
      case FallbackEngaged(f) => FallbackViolation(mode, f, v);
    }
  }

  lemma FallbackViolation(mode: Mode, f: Fallback, v: Violation)
    requires v in ViolationsOf(mode, FALLBACK_ENGAGED, FallbackAttrs(f))
    ensures exists a :: a in f.attributes && a.key == v.key
  {
    hide SpecOf, IsProhibitedKey;
    BuiltInSpecs();
    var spec := BUILT_IN_SPECS[3];
    ViolationsComeFromAttrs(FALLBACK_ENGAGED, spec, FallbackAttrs(f));
    var a :| a in FallbackAttrs(f) && a.key == v.key && Objection(spec, a.key).Some?;
    BuilderKeysAreNotProhibited(PROVIDER_NAME);
    BuilderKeysAreNotProhibited(PROVIDER_FROM);
    BuilderKeysAreNotProhibited(PROVIDER_TO);
    assert a in f.attributes;
  }

  /** What a fallback emits: one count, with all its attributes when the filter is off, with the allowed
      ones by default, and in strict mode only if all are allowed; otherwise the checker's error. */
  lemma FallbackEffect(f: Fallback)
    ensures var attrs := FallbackAttrs(f);
      var kept := Kept(BUILT_IN_SPECS[3], attrs);
      && BUILT_IN_SPECS[3].name == "agent_otel.fallback.engaged"
      && Effect(Disabled, FallbackEngaged(f)) == Recorded([Point(FALLBACK_ENGAGED, Count(1), attrs)], None)
      && Effect(LogAndDrop, FallbackEngaged(f)) == Recorded([Point(FALLBACK_ENGAGED, Count(1), kept)], None)
      && Effect(Strict, FallbackEngaged(f)) ==
        match CheckAllowedLabels(FALLBACK_ENGAGED, Keys(attrs))
        case None => Recorded([Point(FALLBACK_ENGAGED, Count(1), attrs)], None)
        case Some(e) => Recorded([], Some(Rejected(e)))
  {
    hide SpecOf, FallbackAttrs, CheckAllowedLabels, Kept;
    BuiltInSpecs();
    DisabledPasses(FALLBACK_ENGAGED, FallbackAttrs(f));
    KnownMetric(FALLBACK_ENGAGED, FallbackAttrs(f));
    FilterRefinesChecker(Strict, FALLBACK_ENGAGED, FallbackAttrs(f));
  }

  /** The violation is met at an attribute that some fallback of the run carries. */
  ghost predicate FromFallback(ops: seq<RecordOp>, v: Violation) {
    exists op | op in ops :: op.FallbackEngaged? && exists a :: a in op.fallback.attributes && a.key == v.key
  }

  lemma {:induction false} RunViolation(mode: Mode, ops: seq<RecordOp>, v: Violation)
    requires v in AllViolations(mode, AllOffered(ops))
    ensures FromFallback(ops, v)
  {
    hide ViolationsOf, Offered;
    if ops != [] {
      var init, op := ops[..|ops| - 1], ops[|ops| - 1];
      AllViolationsConcat(mode, AllOffered(init), Offered(op));
      if v in AllViolations(mode, AllOffered(init)) {
        RunViolation(mode, init, v);
      } else {
        var call := ViolationOfCall(mode, Offered(op), v);
        OnlyFallbackAttributesViolate(mode, op, call, v);
        assert op in ops;
      }
    }
  }

  lemma {:induction false} ViolationOfCall(mode: Mode, calls: seq<FilterCall>, v: Violation) returns (call: FilterCall)
    requires v in AllViolations(mode, calls)
    ensures call in calls && v in ViolationsOf(mode, call.metric, call.attrs)
  {
    hide ViolationsOf;
    call := calls[|calls| - 1];
    if v !in ViolationsOf(mode, call.metric, call.attrs) {
      call := ViolationOfCall(mode, calls[..|calls| - 1], v);
    }
  }

  lemma {:induction false} EmitNewMembers(emitted: seq<Violation>, vs: seq<Violation>, v: Violation)
    ensures v in EmitNew(emitted, vs) <==> v in emitted || v in vs
  {
    if vs != [] {
      EmitNewMembers(emitted, vs[..|vs| - 1], v);
      assert vs == vs[..|vs| - 1] + [vs[|vs| - 1]];
    }
  }

  /** Whatever a run adds to the log comes from a fallback's own attributes. */
  lemma NewViolationsComeFromFallbacks(logger: bool, emitted: seq<Violation>, mode: Mode, ops: seq<RecordOp>)
    ensures forall v | v in Logged(logger, emitted, mode, AllOffered(ops)) && v !in emitted :: FromFallback(ops, v)
  {
    hide AllOffered, AllViolations, FromFallback;
    forall v | v in Logged(logger, emitted, mode, AllOffered(ops)) && v !in emitted ensures FromFallback(ops, v) {
      EmitNewMembers(emitted, AllViolations(mode, AllOffered(ops)), v);
      RunViolation(mode, ops, v);
    }
  }

  // ---- Conservation of tokens ---------------------------------------------------------------

  /** The tokens of one type that a point counts. */
  function PointTokens(t: TokenType, p: Point): int {
    if p.metric == TOKEN_USAGE && p.amount.Count? && KeyValue(TOKEN_TYPE, TokenTag(t)) in p.attrs then p.amount.n else 0
  }

  function SumTokens(t: TokenType, points: seq<Point>): int {
    if points == [] then 0 else SumTokens(t, points[..|points| - 1]) + PointTokens(t, points[|points| - 1])
  }

  /** The tokens of one type that a call was given, if they are valid and available. */
  function GivenTokens(t: TokenType, op: RecordOp): int {
    match op
    case Tokens(t', n, _) => if t == t' && n >= 0 then n else 0
    case UsageOf(u, _) =>
      if !u.available || u.inputTokens < 0 || u.outputTokens < 0 then 0
      else if t.Input? then u.inputTokens else u.outputTokens
    case _ => 0
  }

  function SumGiven(t: TokenType, ops: seq<RecordOp>): int {
    if ops == [] then 0 else SumGiven(t, ops[..|ops| - 1]) + GivenTokens(t, ops[|ops| - 1])
  }

  lemma {:induction false} SumTokensConcat(t: TokenType, a: seq<Point>, b: seq<Point>)
    ensures SumTokens(t, a + b) == SumTokens(t, a) + SumTokens(t, b)
  {
    if b == [] {
      assert a + b == a;
    } else {
      assert (a + b)[..|a + b| - 1] == a + b[..|b| - 1];
      SumTokensConcat(t, a, b[..|b| - 1]);
    }
  }

  lemma TokenPointCounts(t: TokenType, t': TokenType, n: int, l: ModelLabels)
    ensures PointTokens(t, TokenPoint(t', n, l)) == if t == t' then n else 0
  {
    assert TokenTag(Input) != TokenTag(Output);
    assert |TOKEN_TYPE| == 17 && |OPERATION_NAME| == 21 && |PROVIDER_NAME| == 20 && |REQUEST_MODEL| == 20;
    assert KeyValue(TOKEN_TYPE, TokenTag(t')) in TokenUsageAttrs(l, t');
  }

  lemma SumOfOneCall(mode: Mode, t: TokenType, op: RecordOp)
    ensures SumTokens(t, Effect(mode, op).points) == GivenTokens(t, op)
  {
    hide Measure, MeasureTokens, PointTokens, LatencyAttrs, ErrorAttrs, FallbackAttrs, TokenUsageAttrs;
    match op {
      case Latency(seconds, l) =>
        LatencyPasses(mode, seconds, l);
        OtherMetricsCountNothing(t, Point(OPERATION_DURATION, Seconds(seconds), LatencyAttrs(l)));
      case ProviderError(l) =>
        ProviderErrorPasses(mode, l);
        OtherMetricsCountNothing(t, Point(PROVIDER_ERRORS, Count(1), ErrorAttrs(l)));
      case FallbackEngaged(f) =>
        FallbackCountsNothing(mode, t, f);
      case Tokens(t', n, l) =>
        TokenCallPasses(mode, t', n, l);
        TokenPointCounts(t, t', n, l);
      case UsageOf(u, l) =>
        UsageIsAtomic(mode, u, l);
        TokenPointCounts(t, Input, u.inputTokens, l);
        TokenPointCounts(t, Output, u.outputTokens, l);
        SumTokensConcat(t, [TokenPoint(Input, u.inputTokens, l)], [TokenPoint(Output, u.outputTokens, l)]);
        assert [TokenPoint(Input, u.inputTokens, l)] + [TokenPoint(Output, u.outputTokens, l)]
            == [TokenPoint(Input, u.inputTokens, l), TokenPoint(Output, u.outputTokens, l)];
    }
  }

  lemma OtherMetricsCountNothing(t: TokenType, p: Point)
    requires |p.metric| != |TOKEN_USAGE|
    ensures SumTokens(t, [p]) == 0
  {
    assert [p][..0] == [];
  }

  lemma FallbackCountsNothing(mode: Mode, t: TokenType, f: Fallback)
    ensures SumTokens(t, Effect(mode, FallbackEngaged(f)).points) == 0
  {
    hide FilterResult;
    var points := Effect(mode, FallbackEngaged(f)).points;
    if points != [] {
      OtherMetricsCountNothing(t, points[0]);
      assert points == [points[0]];
    }
  }

  /** In every mode and every run, the tokens recorded are the tokens given. */
  lemma {:induction false} TokensAreConserved(mode: Mode, t: TokenType, ops: seq<RecordOp>)
    ensures SumTokens(t, Emitted(mode, ops)) == SumGiven(t, ops)
  {
    hide Effect, GivenTokens;
    if ops != [] {
      var n := |ops| - 1;
      TokensAreConserved(mode, t, ops[..n]);
      SumTokensConcat(t, Emitted(mode, ops[..n]), Effect(mode, ops[n]).points);
      SumOfOneCall(mode, t, ops[n]);
    }
  }
}
