/** The cardinality gate (cardinality.go): a stateful filter that agrees with a stateless checker and
  logs every violation once. */
module Cardinality {
  import opened Values

  datatype KeyValue = KeyValue(key: string, value: string)

  datatype MetricSpec = MetricSpec(name: string, allowedKeys: seq<string>)

  datatype Mode = LogAndDrop | Strict | Disabled

  datatype Reason = Prohibited | UnknownKey | UnknownMetric

  datatype Action = DroppedLabel | DroppedMeasurement

  datatype Violation = Violation(metric: string, key: string, reason: Reason, action: Action)

  /** The key of the `seen` map. */
  datatype ViolationKey = ViolationKey(metric: string, key: string, reason: Reason, action: Action)

  /** cardinalityError has a form without a label, which it also uses for an empty key. */
  datatype CardinalityError =
    | MetricRejected(metric: string, reason: Reason)
    | LabelRejected(metric: string, key: string, reason: Reason)

  const PROVIDER_NAME := "gen_ai.provider.name"
  const REQUEST_MODEL := "gen_ai.request.model"
  const OPERATION_NAME := "gen_ai.operation.name"
  const TOKEN_TYPE := "gen_ai.token.type"
  const ERROR_TYPE := "error.type"
  const PROVIDER_FROM := "agent_otel.provider.from"
  const PROVIDER_TO := "agent_otel.provider.to"

  const OPERATION_DURATION := "gen_ai.client.operation.duration"
  const TOKEN_USAGE := "gen_ai.client.token.usage"
  const PROVIDER_ERRORS := "agent_otel.provider.errors"
  const FALLBACK_ENGAGED := "agent_otel.fallback.engaged"

  const BUILT_IN_SPECS := [
    MetricSpec(OPERATION_DURATION, [PROVIDER_NAME, REQUEST_MODEL, OPERATION_NAME, ERROR_TYPE]),
    MetricSpec(TOKEN_USAGE, [PROVIDER_NAME, REQUEST_MODEL, OPERATION_NAME, TOKEN_TYPE]),
    MetricSpec(PROVIDER_ERRORS, [PROVIDER_NAME, ERROR_TYPE]),
    MetricSpec(FALLBACK_ENGAGED, [PROVIDER_NAME, PROVIDER_FROM, PROVIDER_TO])]

  const PROHIBITED_KEYS := [
    "issue.id", "session.id", "thread.id", "turn.id", "run_attempt.id", "gen_ai.input.messages",
    "gen_ai.output.messages", "gen_ai.system_instructions", "gen_ai.tool.definitions"]

  const PROHIBITED_PREFIXES := ["tool.input/"]

  // ---- The stateless checker ----------------------------------------------------------------

  predicate IsProhibitedKey(key: string) {
    key in PROHIBITED_KEYS || exists p | p in PROHIBITED_PREFIXES :: p <= key
  }

  /** metricSpec: the first built-in specification of that name. */
  function FindSpec(specs: seq<MetricSpec>, name: string): (r: Option<MetricSpec>)
    ensures r.Some? ==> r.value.name == name && exists i ::
      (0 <= i < |specs| && specs[i] == r.value && forall j | 0 <= j < i :: specs[j].name != name)
    ensures r.None? ==> forall s | s in specs :: s.name != name
  {
    if specs == [] then None
    else if specs[0].name == name then Some(specs[0])
    else FindSpec(specs[1..], name)
  }

  function SpecOf(metric: string): Option<MetricSpec> {
    FindSpec(BUILT_IN_SPECS, metric)
  }

  function MakeError(metric: string, key: string, reason: Reason): CardinalityError {
    if key == "" then MetricRejected(metric, reason) else LabelRejected(metric, key, reason)
  }

  /** Why a label is dropped; None if it is kept. */
  function Objection(spec: MetricSpec, key: string): Option<Reason> {
    if IsProhibitedKey(key) then Some(Prohibited)
    else if key !in spec.allowedKeys then Some(UnknownKey)
    else None
  }

  /** CheckAllowedLabels: the error for the first key that is not allowed. */
  function CheckAllowedLabels(metric: string, keys: seq<string>): Option<CardinalityError> {
    match SpecOf(metric)
    case None => Some(MakeError(metric, "", UnknownMetric))
    case Some(spec) => FirstObjection(metric, spec, keys)
  }

  function FirstObjection(metric: string, spec: MetricSpec, keys: seq<string>): Option<CardinalityError> {
    if keys == [] then None
    else match Objection(spec, keys[0])
      case Some(reason) => Some(MakeError(metric, keys[0], reason))
      case None => FirstObjection(metric, spec, keys[1..])
  }

  // ---- What the filter does, as functions ---------------------------------------------------

  function Keys(attrs: seq<KeyValue>): seq<string> {
    if attrs == [] then [] else [attrs[0].key] + Keys(attrs[1..])
  }

  /** The attributes without objection, in order. */
  function Kept(spec: MetricSpec, attrs: seq<KeyValue>): seq<KeyValue> {
    if attrs == [] then []
    else
      var last := attrs[|attrs| - 1];
      Kept(spec, attrs[..|attrs| - 1]) + if Objection(spec, last.key).None? then [last] else []
  }

  /** The violations of one call, in order. */
  function LabelViolations(metric: string, spec: MetricSpec, attrs: seq<KeyValue>): seq<Violation> {
    if attrs == [] then []
    else
      var key := attrs[|attrs| - 1].key;
      LabelViolations(metric, spec, attrs[..|attrs| - 1])
        + match Objection(spec, key)
          case Some(reason) => [Violation(metric, key, reason, DroppedLabel)]
          case None => []
  }

  datatype Filtered = Filtered(attrs: seq<KeyValue>, keep: bool, err: Option<CardinalityError>)

  /** What Filter returns in a mode. */
  function FilterResult(mode: Mode, metric: string, attrs: seq<KeyValue>): Filtered {
    if mode.Disabled? then Filtered(attrs, true, None)
    else match SpecOf(metric)
      case None => Filtered([], false, Some(MakeError(metric, "", UnknownMetric)))
      case Some(spec) =>
        Filtered(Kept(spec, attrs), true, if mode.Strict? then CheckAllowedLabels(metric, Keys(attrs)) else None)
  }

  /** The violations that Filter meets in a mode. */
  function ViolationsOf(mode: Mode, metric: string, attrs: seq<KeyValue>): seq<Violation> {
    if mode.Disabled? then []
    else match SpecOf(metric)
      case None => [Violation(metric, "", UnknownMetric, DroppedMeasurement)]
      case Some(spec) => LabelViolations(metric, spec, attrs)
  }

  // ---- The filter refines the checker -------------------------------------------------------

  /** Prohibition comes before the allowlist, and nothing else is objected to. */
  lemma ObjectionMeans(spec: MetricSpec, key: string)
    ensures Objection(spec, key) == Some(Prohibited) <==> IsProhibitedKey(key)
    ensures Objection(spec, key) == Some(UnknownKey) <==> !IsProhibitedKey(key) && key !in spec.allowedKeys
    ensures Objection(spec, key) == None <==> !IsProhibitedKey(key) && key in spec.allowedKeys
  {
  }

  /** The prohibited keys: nine names, and everything that begins with one prefix. */
  lemma ProhibitedExactly(key: string)
    ensures IsProhibitedKey(key) <==>
      || key == "issue.id" || key == "session.id" || key == "thread.id" || key == "turn.id"
      || key == "run_attempt.id" || key == "gen_ai.input.messages" || key == "gen_ai.output.messages"
      || key == "gen_ai.system_instructions" || key == "gen_ai.tool.definitions"
      || "tool.input/" <= key
  {
    assert PROHIBITED_PREFIXES[0] in PROHIBITED_PREFIXES;
  }

  lemma {:induction false} KeptIsAllowed(spec: MetricSpec, attrs: seq<KeyValue>)
    ensures forall a | a in Kept(spec, attrs) :: a in attrs && Objection(spec, a.key).None?
  {
    hide Objection;
    if attrs != [] {
      KeptIsAllowed(spec, attrs[..|attrs| - 1]);
    }
  }

  /** Every allowed attribute is kept as often as it was given. */
  lemma {:induction false} KeptKeepsAll(spec: MetricSpec, attrs: seq<KeyValue>, a: KeyValue)
    ensures multiset(Kept(spec, attrs))[a] ==
      if a.key in spec.allowedKeys && !IsProhibitedKey(a.key) then multiset(attrs)[a] else 0
  {
    hide Objection, IsProhibitedKey;
    ObjectionMeans(spec, a.key);
    if attrs != [] {
      KeptKeepsAll(spec, attrs[..|attrs| - 1], a);
      assert attrs == attrs[..|attrs| - 1] + [attrs[|attrs| - 1]];
    }
  }

  /** Filtering keeps the order: the parts of a list are filtered one after the other. */
  lemma {:induction false} KeptConcat(spec: MetricSpec, a: seq<KeyValue>, b: seq<KeyValue>)
    ensures Kept(spec, a + b) == Kept(spec, a) + Kept(spec, b)
  {
    hide Objection;
    if b == [] {
      assert a + b == a;
    } else {
      assert (a + b)[..|a + b| - 1] == a + b[..|b| - 1];
      KeptConcat(spec, a, b[..|b| - 1]);
    }
  }

  /** Key `i` is the first one with an objection, and `e` reports it. */
  predicate ReportsFirst(metric: string, spec: MetricSpec, keys: seq<string>, e: CardinalityError, i: nat) {
    && i < |keys| && (IsProhibitedKey(keys[i]) || keys[i] !in spec.allowedKeys)
    && e == (
      var reason := if IsProhibitedKey(keys[i]) then Prohibited else UnknownKey;
      if keys[i] == "" then MetricRejected(metric, reason) else LabelRejected(metric, keys[i], reason))
    && forall j | 0 <= j < i :: !IsProhibitedKey(keys[j]) && keys[j] in spec.allowedKeys
  }

  /** The checker accepts exactly if no key has an objection, and otherwise reports the first key that
      has one, with the reason. */
  lemma {:induction false} CheckerReportsFirst(metric: string, spec: MetricSpec, keys: seq<string>) returns (i: nat)
    ensures FirstObjection(metric, spec, keys).None? <==>
      forall k | k in keys :: k in spec.allowedKeys && !IsProhibitedKey(k)
    ensures FirstObjection(metric, spec, keys).Some? ==>
      ReportsFirst(metric, spec, keys, FirstObjection(metric, spec, keys).value, i)
  {
    hide IsProhibitedKey;
    i := 0;
    if keys != [] {
      ObjectionMeans(spec, keys[0]);
      assert keys == [keys[0]] + keys[1..];
      if Objection(spec, keys[0]).None? {
        i := CheckerReportsFirst(metric, spec, keys[1..]);
        assert forall j | 0 < j < |keys| :: keys[j] == keys[1..][j - 1];
        i := i + 1;
      }
    }
  }

  lemma {:induction false} AllKept(spec: MetricSpec, attrs: seq<KeyValue>)
    requires forall a | a in attrs :: Objection(spec, a.key).None?
    ensures Kept(spec, attrs) == attrs
  {
    hide Objection;
    if attrs != [] {
      AllKept(spec, attrs[..|attrs| - 1]);
      assert attrs[|attrs| - 1] in attrs;
    }
  }

  lemma NothingDropped(spec: MetricSpec, attrs: seq<KeyValue>)
    ensures Kept(spec, attrs) == attrs <==> forall a | a in attrs :: Objection(spec, a.key).None?
  {
    hide Objection, Kept;
    KeptIsAllowed(spec, attrs);
    if forall a | a in attrs :: Objection(spec, a.key).None? {
      AllKept(spec, attrs);
    }
  }

  lemma KeptIdempotent(spec: MetricSpec, attrs: seq<KeyValue>)
    ensures Kept(spec, Kept(spec, attrs)) == Kept(spec, attrs)
  {
    hide Objection;
    KeptIsAllowed(spec, attrs);
    NothingDropped(spec, Kept(spec, attrs));
  }

  lemma {:induction false} NoObjection(metric: string, spec: MetricSpec, attrs: seq<KeyValue>)
    ensures FirstObjection(metric, spec, Keys(attrs)).None? <==> forall a | a in attrs :: Objection(spec, a.key).None?
  {
    hide Objection;
    if attrs != [] {
      NoObjection(metric, spec, attrs[1..]);
      assert attrs == [attrs[0]] + attrs[1..];
      assert Keys(attrs)[1..] == Keys(attrs[1..]);
    }
  }

  /** For a known metric: filtering twice is filtering once, and a call drops nothing exactly if
      the checker accepts the same keys. */
  lemma FilterRefinesChecker(mode: Mode, metric: string, attrs: seq<KeyValue>)
    requires !mode.Disabled? && SpecOf(metric).Some?
    ensures var out := FilterResult(mode, metric, attrs);
      && out.keep
      && FilterResult(mode, metric, out.attrs) == Filtered(out.attrs, true, None)
      && (out.attrs == attrs <==> CheckAllowedLabels(metric, Keys(attrs)).None?)
      && (forall a | a in out.attrs :: a.key in SpecOf(metric).value.allowedKeys && !IsProhibitedKey(a.key))
  {
    hide IsProhibitedKey, SpecOf;
    var spec := SpecOf(metric).value;
    KeptIsAllowed(spec, attrs);
    KeptIdempotent(spec, attrs);
    NothingDropped(spec, attrs);
    NoObjection(metric, spec, attrs);
    NoObjection(metric, spec, Kept(spec, attrs));
  }

  // ---- What each mode answers ---------------------------------------------------------------

  /** A known metric: the strict mode returns the checker's error beside the kept attributes, the default
      mode none. */
  lemma KnownMetric(metric: string, attrs: seq<KeyValue>)
    requires SpecOf(metric).Some?
    ensures var kept := Kept(SpecOf(metric).value, attrs);
      && FilterResult(LogAndDrop, metric, attrs) == Filtered(kept, true, None)
      && FilterResult(Strict, metric, attrs) == Filtered(kept, true, CheckAllowedLabels(metric, Keys(attrs)))
    ensures ViolationsOf(Strict, metric, attrs) == ViolationsOf(LogAndDrop, metric, attrs)
      == LabelViolations(metric, SpecOf(metric).value, attrs)
  {
  }

  /** An unknown metric: checker and filter give the same error, no measurement is kept, and there is one
      violation. */
  lemma UnknownMetricRejected(mode: Mode, metric: string, attrs: seq<KeyValue>)
    requires !mode.Disabled? && forall spec | spec in BUILT_IN_SPECS :: spec.name != metric
    ensures CheckAllowedLabels(metric, Keys(attrs)) == Some(MetricRejected(metric, UnknownMetric))
    ensures FilterResult(mode, metric, attrs) == Filtered([], false, Some(MetricRejected(metric, UnknownMetric)))
    ensures ViolationsOf(mode, metric, attrs) == [Violation(metric, "", UnknownMetric, DroppedMeasurement)]
  {
  }

  /** Switched off: everything passes, and nothing is logged. */
  lemma DisabledPasses(metric: string, attrs: seq<KeyValue>)
    ensures FilterResult(Disabled, metric, attrs) == Filtered(attrs, true, None)
    ensures ViolationsOf(Disabled, metric, attrs) == []
  {
  }

  // ---- Which violations are met -------------------------------------------------------------

  /** `v` is the violation of a label that is dropped. */
  predicate IsDrop(metric: string, spec: MetricSpec, a: KeyValue, v: Violation) {
    || (IsProhibitedKey(a.key) && v == Violation(metric, a.key, Prohibited, DroppedLabel))
    || (!IsProhibitedKey(a.key) && a.key !in spec.allowedKeys
        && v == Violation(metric, a.key, UnknownKey, DroppedLabel))
  }

  /** Every dropped label is a violation, with its reason, and there are no others. */
  lemma {:induction false} ViolationsExactly(metric: string, spec: MetricSpec, attrs: seq<KeyValue>, v: Violation)
    ensures v in LabelViolations(metric, spec, attrs) <==> exists a | a in attrs :: IsDrop(metric, spec, a, v)
  {
    hide IsProhibitedKey;
    if attrs != [] {
      var init, last := attrs[..|attrs| - 1], attrs[|attrs| - 1];
      ViolationsExactly(metric, spec, init, v);
      ObjectionMeans(spec, last.key);
      assert attrs == init + [last];
      assert v in LabelViolations(metric, spec, attrs) <==>
        v in LabelViolations(metric, spec, init) || IsDrop(metric, spec, last, v);
    }
  }

  /** They are met in the order of the attributes. */
  lemma {:induction false} ViolationsConcat(metric: string, spec: MetricSpec, a: seq<KeyValue>, b: seq<KeyValue>)
    ensures LabelViolations(metric, spec, a + b) == LabelViolations(metric, spec, a) + LabelViolations(metric, spec, b)
  {
    hide Objection;
    if b == [] {
      assert a + b == a;
    } else {
      assert (a + b)[..|a + b| - 1] == a + b[..|b| - 1];
      ViolationsConcat(metric, spec, a, b[..|b| - 1]);
    }
  }

  /** Every attribute is either kept or a violation. */
  lemma {:induction false} KeptOrViolation(metric: string, spec: MetricSpec, attrs: seq<KeyValue>)
    ensures |LabelViolations(metric, spec, attrs)| + |Kept(spec, attrs)| == |attrs|
  {
    hide Objection;
    if attrs != [] {
      KeptOrViolation(metric, spec, attrs[..|attrs| - 1]);
    }
  }

  // ---- Logging once -------------------------------------------------------------------------

  function KeyOf(v: Violation): ViolationKey {
    ViolationKey(v.metric, v.key, v.reason, v.action)
  }

  function KeysOf(vs: seq<Violation>): set<ViolationKey> {
    set v | v in vs :: KeyOf(v)
  }

  /** `emitted` extended by the violations that it does not contain yet. */
  function EmitNew(emitted: seq<Violation>, vs: seq<Violation>): seq<Violation> {
    if vs == [] then emitted
    else
      var before := EmitNew(emitted, vs[..|vs| - 1]);
      var v := vs[|vs| - 1];
      if v in before then before else before + [v]
  }

  lemma {:induction false} EmitNewConcat(emitted: seq<Violation>, a: seq<Violation>, b: seq<Violation>)
    ensures EmitNew(emitted, a + b) == EmitNew(EmitNew(emitted, a), b)
  {
    if b == [] {
      assert a + b == a;
    } else {
      assert (a + b)[..|a + b| - 1] == a + b[..|b| - 1];
      EmitNewConcat(emitted, a, b[..|b| - 1]);
    }
  }

  /** The positions at which a violation occurs for the first time. */
  function FirstPositions(vs: seq<Violation>): seq<nat> {
    if vs == [] then []
    else
      var n := |vs| - 1;
      FirstPositions(vs[..n]) + if vs[n] in vs[..n] then [] else [n]
  }

  /** What a fresh logger has received after `vs`: the first occurrences, in order, without
      repetition, and all of them. */
  ghost predicate LoggedOnce(emitted: seq<Violation>, vs: seq<Violation>) {
    var at := FirstPositions(vs);
    && |emitted| == |at|
    && (forall i | 0 <= i < |at| :: at[i] < |vs| && emitted[i] == vs[at[i]] && vs[at[i]] !in vs[..at[i]])
    && (forall i, j | 0 <= i < j < |at| :: at[i] < at[j] && emitted[i] != emitted[j])
    && (forall v :: v in emitted <==> v in vs)
  }

  lemma {:induction false} FreshLogIsFirstOccurrences(vs: seq<Violation>)
    ensures LoggedOnce(EmitNew([], vs), vs)
  {
    if vs != [] {
      var n := |vs| - 1;
      var init := vs[..n];
      FreshLogIsFirstOccurrences(init);
      var at := FirstPositions(init);
      assert vs == init + [vs[n]];
      forall i | 0 <= i < |at| ensures vs[at[i]] == init[at[i]] && vs[..at[i]] == init[..at[i]] {}
    }
  }

  // ---- The validator ------------------------------------------------------------------------

  datatype ValidatorOption = WithMode(mode: Mode) | WithLogger(present: bool)

  /** The last option of each kind decides. */
  function ModeOf(options: seq<ValidatorOption>): Mode {
    if options == [] then LogAndDrop
    else match options[|options| - 1]
      case WithMode(mode) => mode
      case WithLogger(_) => ModeOf(options[..|options| - 1])
  }

  predicate LoggerOf(options: seq<ValidatorOption>) {
    options != [] &&
    match options[|options| - 1]
    case WithLogger(present) => present
    case WithMode(_) => LoggerOf(options[..|options| - 1])
  }

  /** The mode is that of the last option that sets one ... */
  lemma {:induction false} LastModeOptionWins(options: seq<ValidatorOption>, i: nat)
    requires i < |options| && options[i].WithMode?
    requires forall j | i < j < |options| :: !options[j].WithMode?
    ensures ModeOf(options) == options[i].mode
  {
    if i < |options| - 1 {
      LastModeOptionWins(options[..|options| - 1], i);
    }
  }

  /** ... the logger that of the last option that sets one ... */
  lemma {:induction false} LastLoggerOptionWins(options: seq<ValidatorOption>, i: nat)
    requires i < |options| && options[i].WithLogger?
    requires forall j | i < j < |options| :: !options[j].WithLogger?
    ensures LoggerOf(options) == options[i].present
  {
    if i < |options| - 1 {
      LastLoggerOptionWins(options[..|options| - 1], i);
    }
  }

  /** ... and without one the validator drops silently. */
  lemma {:induction false} ValidatorDefaults(options: seq<ValidatorOption>)
    ensures (forall o | o in options :: !o.WithMode?) ==> ModeOf(options) == LogAndDrop
    ensures (forall o | o in options :: !o.WithLogger?) ==> !LoggerOf(options)
  {
    if options != [] {
      ValidatorDefaults(options[..|options| - 1]);
      assert options[|options| - 1] in options;
    }
  }

  class CardinalityValidator {
    var mode: Mode
    var logger: bool                    // whether there is a logger
    var seen: Option<set<ViolationKey>> // None is the nil map
    var emitted: seq<Violation>         // what the logger was called with

    /** `seen` and the calls of the logger agree, and the map is there whenever it is written. */
    ghost predicate Valid()
      reads this
    {
      && (seen.Some? <==> !mode.Disabled? && logger)
      && (seen.Some? ==> seen.value == KeysOf(emitted))
      && (seen.None? ==> emitted == [])
    }

    /** NewCardinalityValidator */
    constructor (options: seq<ValidatorOption>)
      ensures Valid() && emitted == []
      ensures mode == ModeOf(options) && logger == LoggerOf(options)
    {
      mode, logger, seen, emitted := LogAndDrop, false, None, [];
      new;
      for i := 0 to |options|
        invariant mode == ModeOf(options[..i]) && logger == LoggerOf(options[..i])
        invariant seen == None && emitted == []
      {
        assert options[..i + 1][..i] == options[..i];
        match options[i] {
          case WithMode(m) => mode := m;
          case WithLogger(present) => logger := present;
        }
      }
      assert options[..|options|] == options;
      if !mode.Disabled? && logger {
        seen := Some({});
      }
    }

    /** The method `log`. The write needs a map that is not nil; Valid provides it. */
    method Log(v: Violation)
      requires Valid() && !mode.Disabled?
      modifies this`seen, this`emitted
      ensures Valid()
      ensures emitted == if logger then EmitNew(old(emitted), [v]) else old(emitted)
    {
      if !logger { return; }
      var key := KeyOf(v);
      assert [v][..0] == [] && EmitNew(emitted, []) == emitted;
      if key in seen.value { return; }
      seen := Some(seen.value + {key});
      emitted := emitted + [v];
    }

    method Filter(metric: string, attrs: seq<KeyValue>)
        returns (filtered: seq<KeyValue>, keep: bool, err: Option<CardinalityError>)
      requires Valid()
      modifies this`seen, this`emitted
      ensures Valid()
      ensures Filtered(filtered, keep, err) == FilterResult(mode, metric, attrs)
      ensures emitted == if logger then EmitNew(old(emitted), ViolationsOf(mode, metric, attrs)) else old(emitted)
    {
      hide Objection, SpecOf, Keys, FirstObjection, EmitNew;
      EmitNothing(emitted);
      if mode.Disabled? { return attrs, true, None; }
      if SpecOf(metric).None? {
        Log(Violation(metric, "", UnknownMetric, DroppedMeasurement));
        return [], false, Some(MakeError(metric, "", UnknownMetric));
      }
      var spec := SpecOf(metric).value;
      NoKeys(metric, spec);
      var firstErr: Option<CardinalityError> := None;
      filtered := [];
      for i := 0 to |attrs|
        invariant Valid()
        invariant filtered == Kept(spec, attrs[..i])
        invariant firstErr == FirstObjection(metric, spec, Keys(attrs[..i]))
        invariant emitted ==
          if logger then EmitNew(old(emitted), LabelViolations(metric, spec, attrs[..i])) else old(emitted)
      {
        var key := attrs[i].key;
        assert attrs[..i + 1] == attrs[..i] + [attrs[i]] && attrs[..i + 1][..i] == attrs[..i];
        FirstObjectionStep(metric, spec, attrs[..i], attrs[i]);
        var reason := Objection(spec, key);
        if reason.Some? {
          if firstErr.None? {
            firstErr := Some(MakeError(metric, key, reason.value));
          }
          var v := Violation(metric, key, reason.value, DroppedLabel);
          EmitNewConcat(old(emitted), LabelViolations(metric, spec, attrs[..i]), [v]);
          Log(v);
        } else {
          assert LabelViolations(metric, spec, attrs[..i + 1]) == LabelViolations(metric, spec, attrs[..i]);
          filtered := filtered + [attrs[i]];
        }
      }
      assert attrs[..|attrs|] == attrs;
      return filtered, true, if mode.Strict? then firstErr else None;
    }
  }

  lemma EmitNothing(emitted: seq<Violation>)
    ensures EmitNew(emitted, []) == emitted
  {
  }

  lemma NoKeys(metric: string, spec: MetricSpec)
    ensures FirstObjection(metric, spec, Keys([])) == None
  {
  }

  lemma {:induction false} FirstObjectionStep(metric: string, spec: MetricSpec, attrs: seq<KeyValue>, a: KeyValue)
    ensures FirstObjection(metric, spec, Keys(attrs + [a])) ==
      match FirstObjection(metric, spec, Keys(attrs))
      case Some(e) => Some(e)
      case None =>
        match Objection(spec, a.key)
        case Some(reason) => Some(MakeError(metric, a.key, reason))
        case None => None
  {
    hide Objection;
    if attrs == [] {
      assert [] + [a] == [a] && [a][1..] == [];
    } else {
      assert (attrs + [a])[1..] == attrs[1..] + [a];
      FirstObjectionStep(metric, spec, attrs[1..], a);
    }
  }

  /** One call of Filter. */
  datatype FilterCall = FilterCall(metric: string, attrs: seq<KeyValue>)

  function AllViolations(mode: Mode, calls: seq<FilterCall>): seq<Violation> {
    if calls == [] then []
    else
      var last := calls[|calls| - 1];
      AllViolations(mode, calls[..|calls| - 1]) + ViolationsOf(mode, last.metric, last.attrs)
  }

  /** A new validator and any number of Filter calls: the logger receives every violation once, in
      the order of first occurrence. */
  method RunValidator(options: seq<ValidatorOption>, calls: seq<FilterCall>) returns (v: CardinalityValidator)
    ensures fresh(v) && v.Valid()
    ensures v.logger ==> LoggedOnce(v.emitted, AllViolations(ModeOf(options), calls))
    ensures !v.logger ==> v.emitted == []
  {
    hide ViolationsOf, IsProhibitedKey, FilterResult;
    v := new CardinalityValidator(options);
    for i := 0 to |calls|
      invariant v.Valid() && v.mode == ModeOf(options) && v.logger == LoggerOf(options)
      invariant v.emitted == if v.logger then EmitNew([], AllViolations(v.mode, calls[..i])) else []
    {
      assert calls[..i + 1][..i] == calls[..i];
      EmitNewConcat([], AllViolations(v.mode, calls[..i]), ViolationsOf(v.mode, calls[i].metric, calls[i].attrs));
      var _, _, _ := v.Filter(calls[i].metric, calls[i].attrs);
    }
    assert calls[..|calls|] == calls;
    FreshLogIsFirstOccurrences(AllViolations(v.mode, calls));
  }
}
