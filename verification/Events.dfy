/** The redaction gate (events.go, redact.go): what is attached to a span depends on the redactor's
  answers only, and nothing is attached once the redactor fails. */
module Events {
  import opened Values

  datatype Kind = Prompt | Completion | SystemInstructions | ToolDefinitions | OtherKind(name: string)

  /** A payload value: nil, a string, a byte slice, or a value with its JSON encoding, if it has one. */
  datatype PayloadValue = Nil | Str(s: string) | Bytes(s: string) | Structured(json: Option<string>)

  /** `context` stands for the fields that the gate never looks at. */
  datatype Payload = Payload(kind: Kind, value: PayloadValue, context: string)

  datatype Attribute = StringAttr(key: string, text: string) | BoolAttr(key: string, flag: bool)

  datatype Event = Event(name: string, attrs: seq<Attribute>)

  datatype FailureMode = DropPayload | ReturnError

  datatype ModelCall = ModelCall(operation: string, provider: string, model: string, payloads: seq<Payload>)

  const INPUT_MESSAGES := "gen_ai.input.messages"
  const OUTPUT_MESSAGES := "gen_ai.output.messages"
  const SYSTEM_INSTRUCTIONS := "gen_ai.system_instructions"
  const TOOL_DEFINITIONS := "gen_ai.tool.definitions"
  const OPERATION_NAME := "gen_ai.operation.name"
  const PROVIDER_NAME := "gen_ai.provider.name"
  const REQUEST_MODEL := "gen_ai.request.model"
  const REDACTION_FAILED := "agent_otel.redaction.failed"
  const INFERENCE_DETAILS := "gen_ai.client.inference.operation.details"

  /** payloadAttrKey: None for a kind that has no attribute. */
  function PayloadKey(kind: Kind): Option<string> {
    match kind
    case Prompt => Some(INPUT_MESSAGES)
    case Completion => Some(OUTPUT_MESSAGES)
    case SystemInstructions => Some(SYSTEM_INSTRUCTIONS)
    case ToolDefinitions => Some(TOOL_DEFINITIONS)
    case OtherKind(_) => None
  }

  /** redactedPayloadAttribute and payloadValueString */
  function RedactedAttribute(p: Payload): Option<Attribute> {
    match PayloadKey(p.kind)
    case None => None
    case Some(key) =>
      match p.value
      case Nil => None
      case Str(s) => Some(StringAttr(key, s))
      case Bytes(s) => Some(StringAttr(key, s))
      case Structured(json) => if json.None? then None else Some(StringAttr(key, json.value))
  }

  function NonEmptyAttr(key: string, value: string): seq<Attribute> {
    if value == "" then [] else [StringAttr(key, value)]
  }

  /** payloadCorrelationAttrs */
  function CorrelationAttrs(call: ModelCall): seq<Attribute> {
    NonEmptyAttr(OPERATION_NAME, call.operation) + NonEmptyAttr(PROVIDER_NAME, call.provider)
      + NonEmptyAttr(REQUEST_MODEL, call.model)
  }

  /** The place of a correlation key: operation, provider, model. */
  function Place(key: string): nat {
    if key == OPERATION_NAME then 0 else if key == PROVIDER_NAME then 1 else 2
  }

  /** The correlation attributes are the fields of the call that are not empty, under their own keys,
      each once, and in the order operation, provider, model. */
  lemma CorrelationIsExact(call: ModelCall)
    ensures forall a :: a in CorrelationAttrs(call) <==>
      && a.StringAttr? && a.text != ""
      && (|| a == StringAttr(OPERATION_NAME, call.operation)
          || a == StringAttr(PROVIDER_NAME, call.provider)
          || a == StringAttr(REQUEST_MODEL, call.model))
    ensures var attrs := CorrelationAttrs(call);
      forall i, j | 0 <= i < j < |attrs| :: Place(attrs[i].key) < Place(attrs[j].key)
  {
    assert PROVIDER_NAME[7] != REQUEST_MODEL[7] && |OPERATION_NAME| > |PROVIDER_NAME| == |REQUEST_MODEL|;
    assert Place(OPERATION_NAME) == 0 && Place(PROVIDER_NAME) == 1 && Place(REQUEST_MODEL) == 2;
  }

  /** What a redactor answers may depend on everything it was asked; None is an error. */
  type Policy = seq<Payload> -> Option<Payload>

  class Redactor {
    const policy: Policy
    var asked: seq<Payload>

    constructor (policy: Policy)
      ensures this.policy == policy && asked == []
    {
      this.policy := policy;
      asked := [];
    }

    method RedactPrompt(p: Payload) returns (answer: Option<Payload>)
      modifies this
      ensures asked == old(asked) + [p] && answer == policy(asked)
    {
      asked := asked + [p];
      answer := policy(asked);
    }
  }

  class Span {
    var attrs: seq<Attribute>
    var events: seq<Event>

    constructor ()
      ensures attrs == [] && events == []
    {
      attrs, events := [], [];
    }
  }

  /** PayloadCaptureOptions; the capture can be off and the redactor missing. */
  datatype Capture = Off | On(redactor: Redactor?, mode: FailureMode)

  // ---- The effect as a function of the answers ----------------------------------------------

  /** The answers to `payloads`, up to and including the first failure. */
  function AnswersTo(policy: Policy, asked: seq<Payload>, payloads: seq<Payload>): seq<Option<Payload>>
    decreases |payloads|
  {
    if payloads == [] then []
    else
      var answer := policy(asked + [payloads[0]]);
      if answer.None? then [answer]
      else [answer] + AnswersTo(policy, asked + [payloads[0]], payloads[1..])
  }

  predicate Failed(answers: seq<Option<Payload>>) {
    exists a | a in answers :: a.None?
  }

  /** The attributes of the answers that can be represented, in order. */
  function Representable(answers: seq<Option<Payload>>): seq<Attribute> {
    if answers == [] then []
    else Representable(answers[..|answers| - 1]) + AttributeOf(answers[|answers| - 1])
  }

  /** The attribute of one answer, as a list of at most one. */
  function AttributeOf(answer: Option<Payload>): seq<Attribute> {
    if answer.None? || RedactedAttribute(answer.value).None? then [] else [RedactedAttribute(answer.value).value]
  }

  /** What a call adds to its span, and whether it returns an error. */
  datatype Effect = Effect(attrs: seq<Attribute>, events: seq<Event>, err: bool)

  function EffectOf(answers: seq<Option<Payload>>, correlation: seq<Attribute>, mode: FailureMode): Effect {
    if Failed(answers) then Effect([BoolAttr(REDACTION_FAILED, true)], [], mode.ReturnError?)
    else if Representable(answers) == [] then Effect([], [], false)
    else Effect([], [Event(INFERENCE_DETAILS, Representable(answers) + correlation)], false)
  }

  /** The effect of a call when capture is on. */
  function CallEffect(policy: Policy, asked: seq<Payload>, call: ModelCall, mode: FailureMode): Effect {
    EffectOf(AnswersTo(policy, asked, call.payloads), CorrelationAttrs(call), mode)
  }

  lemma LastFailed(answers: seq<Option<Payload>>, correlation: seq<Attribute>, mode: FailureMode)
    requires answers != [] && answers[|answers| - 1].None?
    ensures EffectOf(answers, correlation, mode) == Effect([BoolAttr(REDACTION_FAILED, true)], [], mode.ReturnError?)
  {
    assert answers[|answers| - 1] in answers;
  }

  lemma NoneFailed(answers: seq<Option<Payload>>, correlation: seq<Attribute>, mode: FailureMode)
    requires forall i | 0 <= i < |answers| :: answers[i].Some?
    ensures EffectOf(answers, correlation, mode) ==
      var attrs := Representable(answers);
      Effect([], if attrs == [] then [] else [Event(INFERENCE_DETAILS, attrs + correlation)], false)
  {
  }

  /** The loop of attachPromptPayloadEvent, which ends at the first failure. */
  method RedactAll(r: Redactor, payloads: seq<Payload>)
      returns (attrs: seq<Attribute>, ok: bool, ghost answers: seq<Option<Payload>>)
    modifies r
    ensures answers == AnswersTo(r.policy, old(r.asked), payloads)
    ensures |answers| <= |payloads| && r.asked == old(r.asked) + payloads[..|answers|]
    ensures ok ==> attrs == Representable(answers) && forall i | 0 <= i < |answers| :: answers[i].Some?
    ensures !ok ==> answers != [] && answers[|answers| - 1].None?
  {
    hide RedactedAttribute;
    answers := AnswersTo(r.policy, r.asked, payloads);
    attrs := [];
    for i := 0 to |payloads|
      invariant r.asked == old(r.asked) + payloads[..i]
      invariant i <= |answers| && answers[i..] == AnswersTo(r.policy, r.asked, payloads[i..])
      invariant forall j | 0 <= j < i :: answers[j].Some?
      invariant attrs == Representable(answers[..i])
    {
      assert payloads[i..][1..] == payloads[i + 1..];
      assert payloads[..i + 1] == payloads[..i] + [payloads[i]];
      assert answers[i] == answers[i..][0] && answers[i..][1..] == answers[i + 1..];
      assert answers[..i + 1][..i] == answers[..i];
      var redacted := r.RedactPrompt(payloads[i]);
      if redacted.None? {
        assert |answers[i..]| == 1;
        return attrs, false, answers;
      }
      var attr := RedactedAttribute(redacted.value);
      if attr.Some? {
        attrs := attrs + [attr.value];
      }
    }
    assert |answers| == |payloads| && answers[..|answers|] == answers;
    return attrs, true, answers;
  }

  /** attachPromptPayloadEvent */
  method AttachPromptPayloadEvent(span: Span?, call: ModelCall, capture: Capture) returns (err: bool)
    modifies span, if capture.On? then {capture.redactor} else {}
    ensures span != null && capture.On? && capture.redactor != null ==>
      var r := capture.redactor;
      var answers := old(AnswersTo(r.policy, r.asked, call.payloads));
      var effect := old(CallEffect(r.policy, r.asked, call, capture.mode));
      && span.attrs == old(span.attrs) + effect.attrs
      && span.events == old(span.events) + effect.events
      && err == effect.err
      && |answers| <= |call.payloads| && r.asked == old(r.asked) + call.payloads[..|answers|]
    ensures span == null || capture.Off? || capture.redactor == null ==>
      && !err && (span != null ==> unchanged(span))
      && (capture.On? && capture.redactor != null ==> unchanged(capture.redactor))
  {
    if span == null || capture.Off? || capture.redactor == null || |call.payloads| == 0 {
      return false;
    }
    hide CorrelationAttrs, EffectOf, AnswersTo, Representable;
    var r := capture.redactor;
    var attrs, ok, answers := RedactAll(r, call.payloads);
    if !ok {
      LastFailed(answers, CorrelationAttrs(call), capture.mode);
      span.attrs := span.attrs + [BoolAttr(REDACTION_FAILED, true)];
      return capture.mode.ReturnError?;
    }
    NoneFailed(answers, CorrelationAttrs(call), capture.mode);
    if |attrs| == 0 {
      return false;
    }
    attrs := attrs + CorrelationAttrs(call);
    span.events := span.events + [Event(INFERENCE_DETAILS, attrs)];
    return false;
  }

  // ---- Theorems -----------------------------------------------------------------------------

  /** What the redactor answers to payload `i`, having been asked the ones before it. */
  function AnswerAt(policy: Policy, asked: seq<Payload>, payloads: seq<Payload>, i: nat): Option<Payload>
    requires i < |payloads|
  {
    policy(asked + payloads[..i + 1])
  }

  lemma AnswerAtNext(policy: Policy, asked: seq<Payload>, payloads: seq<Payload>, i: nat)
    requires i + 1 < |payloads|
    ensures AnswerAt(policy, asked + [payloads[0]], payloads[1..], i) == AnswerAt(policy, asked, payloads, i + 1)
  {
    assert asked + [payloads[0]] + payloads[1..][..i + 1] == asked + payloads[..i + 2];
  }

  lemma AnswerAtFirst(policy: Policy, asked: seq<Payload>, payloads: seq<Payload>)
    requires payloads != []
    ensures AnswerAt(policy, asked, payloads, 0) == policy(asked + [payloads[0]])
  {
    assert payloads[..1] == [payloads[0]];
  }

  lemma {:induction false} AnswersAreThose(policy: Policy, asked: seq<Payload>, payloads: seq<Payload>)
    ensures var answers := AnswersTo(policy, asked, payloads);
      && |answers| <= |payloads|
      && (forall i | 0 <= i < |answers| :: answers[i] == AnswerAt(policy, asked, payloads, i))
      && (forall i | 0 <= i < |answers| - 1 :: answers[i].Some?)
      && (|answers| < |payloads| ==> answers != [] && answers[|answers| - 1].None?)
    decreases |payloads|
  {
    if payloads != [] {
      var rest := AnswersTo(policy, asked + [payloads[0]], payloads[1..]);
      AnswersAreThose(policy, asked + [payloads[0]], payloads[1..]);
      AnswerAtFirst(policy, asked, payloads);
      forall i | 0 <= i < |rest|
        ensures rest[i] == AnswerAt(policy, asked, payloads, i + 1)
      {
        AnswerAtNext(policy, asked, payloads, i);
      }
    }
  }

  /** Fail closed: if the redactor first refuses payload k, it has been asked payloads 0 to k and no
      more, the failure is recorded once, and no event is added. */
  lemma FailClosed(policy: Policy, asked: seq<Payload>, call: ModelCall, mode: FailureMode, k: nat)
    requires k < |call.payloads| && AnswerAt(policy, asked, call.payloads, k).None?
    requires forall j | 0 <= j < k :: AnswerAt(policy, asked, call.payloads, j).Some?
    ensures |AnswersTo(policy, asked, call.payloads)| == k + 1
    ensures CallEffect(policy, asked, call, mode)
      == Effect([BoolAttr(REDACTION_FAILED, true)], [], mode.ReturnError?)
  {
    AnswersAreThose(policy, asked, call.payloads);
    var answers := AnswersTo(policy, asked, call.payloads);
    assert forall j | 0 <= j < |answers| && j < k :: answers[j].Some?;
    assert |answers| == k + 1;
    LastFailed(answers, CorrelationAttrs(call), mode);
  }

  /** The redactors of two calls agree on the first `m` payloads, and no later payload is asked of either:
      there is none, or the last of these answers is a refusal. */
  predicate AgreeWhileAsked(p1: Policy, p2: Policy, asked1: seq<Payload>, asked2: seq<Payload>,
                            payloads1: seq<Payload>, payloads2: seq<Payload>, m: nat)
  {
    && m <= |payloads1| && m <= |payloads2|
    && (forall i | 0 <= i < m :: AnswerAt(p1, asked1, payloads1, i) == AnswerAt(p2, asked2, payloads2, i))
    && (|| m == |payloads1| == |payloads2|
        || (m > 0 && AnswerAt(p1, asked1, payloads1, m - 1).None?))
  }

  /** Non-interference: two calls whose redactors give the same answers for as long as they are asked,
      and whose correlation fields agree, have the same effect on their spans, whatever the raw
      payloads are, and whatever would have come after a refusal. */
  lemma RawPayloadsDoNotMatter(p1: Policy, p2: Policy, asked1: seq<Payload>, asked2: seq<Payload>,
                               call1: ModelCall, call2: ModelCall, mode: FailureMode, m: nat)
    requires AgreeWhileAsked(p1, p2, asked1, asked2, call1.payloads, call2.payloads, m)
    requires call1.(payloads := []) == call2.(payloads := [])
    ensures CallEffect(p1, asked1, call1, mode) == CallEffect(p2, asked2, call2, mode)
    ensures |AnswersTo(p1, asked1, call1.payloads)| == |AnswersTo(p2, asked2, call2.payloads)|
  {
    SameAnswers(p1, p2, asked1, asked2, call1.payloads, call2.payloads, m);
  }

  lemma {:induction false} SameAnswers(p1: Policy, p2: Policy, asked1: seq<Payload>, asked2: seq<Payload>,
                                       payloads1: seq<Payload>, payloads2: seq<Payload>, m: nat)
    requires AgreeWhileAsked(p1, p2, asked1, asked2, payloads1, payloads2, m)
    ensures AnswersTo(p1, asked1, payloads1) == AnswersTo(p2, asked2, payloads2)
    decreases |payloads1|
  {
    if m > 0 {
      AnswerAtFirst(p1, asked1, payloads1);
      AnswerAtFirst(p2, asked2, payloads2);
      assert AnswerAt(p1, asked1, payloads1, 0) == AnswerAt(p2, asked2, payloads2, 0);
      if AnswerAt(p1, asked1, payloads1, 0).Some? {
        AgreementShifts(p1, p2, asked1, asked2, payloads1, payloads2, m);
        SameAnswers(p1, p2, asked1 + [payloads1[0]], asked2 + [payloads2[0]], payloads1[1..], payloads2[1..], m - 1);
      }
    }
  }

  lemma AgreementShifts(p1: Policy, p2: Policy, asked1: seq<Payload>, asked2: seq<Payload>,
                        payloads1: seq<Payload>, payloads2: seq<Payload>, m: nat)
    requires m > 0 && AgreeWhileAsked(p1, p2, asked1, asked2, payloads1, payloads2, m)
    requires AnswerAt(p1, asked1, payloads1, 0).Some?
    ensures AgreeWhileAsked(p1, p2, asked1 + [payloads1[0]], asked2 + [payloads2[0]],
      payloads1[1..], payloads2[1..], m - 1)
  {
    hide AnswerAt;
    forall i | 0 <= i < m - 1
      ensures AnswerAt(p1, asked1 + [payloads1[0]], payloads1[1..], i) == AnswerAt(p1, asked1, payloads1, i + 1)
      ensures AnswerAt(p2, asked2 + [payloads2[0]], payloads2[1..], i) == AnswerAt(p2, asked2, payloads2, i + 1)
    {
      AnswerAtNext(p1, asked1, payloads1, i);
      AnswerAtNext(p2, asked2, payloads2, i);
    }
  }

  /** The answers that have an attribute. */
  function Attached(answers: seq<Option<Payload>>): seq<nat> {
    if answers == [] then []
    else
      var n := |answers| - 1;
      Attached(answers[..n]) + if AttributeOf(answers[n]) == [] then [] else [n]
  }

  /** Every attached attribute is that of one redacted answer, in answer order, and every answer that
      has an attribute is attached. */
  lemma {:induction false} AttachedAttributesAreRedacted(answers: seq<Option<Payload>>)
    ensures var at := Attached(answers);
      && |at| == |Representable(answers)|
      && (forall i | 0 <= i < |at| :: at[i] < |answers| && AttributeOf(answers[at[i]]) == [Representable(answers)[i]])
      && (forall i, j | 0 <= i < j < |at| :: at[i] < at[j])
  {
    hide AttributeOf;
    if answers != [] {
      var n := |answers| - 1;
      AttachedAttributesAreRedacted(answers[..n]);
      AtMostOneAttribute(answers[n]);
      var before := Attached(answers[..n]);
      assert forall i | 0 <= i < |before| :: answers[..n][before[i]] == answers[before[i]];
    }
  }

  lemma {:induction false} NothingIsLost(answers: seq<Option<Payload>>, k: nat)
    requires k < |answers|
    ensures k in Attached(answers) <==> AttributeOf(answers[k]) != []
  {
    hide AttributeOf;
    var n := |answers| - 1;
    if k < n {
      NothingIsLost(answers[..n], k);
    } else {
      AttachedAttributesAreRedacted(answers[..n]);
      assert forall i | i in Attached(answers[..n]) :: i < n;
    }
  }

  lemma AtMostOneAttribute(answer: Option<Payload>)
    ensures |AttributeOf(answer)| <= 1
  {
  }

  // ---- What an attribute says ---------------------------------------------------------------

  /** The text of a value: its string, its bytes, or its encoding. */
  predicate HasText(v: PayloadValue, text: string) {
    v == Str(text) || v == Bytes(text) || v == Structured(Some(text))
  }

  /** The attribute has the text of the payload, and stands under the key of its kind. */
  predicate Carries(a: Attribute, p: Payload) {
    a.StringAttr? && HasText(p.value, a.text) &&
    match p.kind
    case Prompt => a.key == "gen_ai.input.messages"
    case Completion => a.key == "gen_ai.output.messages"
    case SystemInstructions => a.key == "gen_ai.system_instructions"
    case ToolDefinitions => a.key == "gen_ai.tool.definitions"
    case OtherKind(_) => false
  }

  /** Another kind, a nil value, or a value that has no encoding. */
  predicate HasNoAttribute(p: Payload) {
    p.kind.OtherKind? || p.value == Nil || p.value == Structured(None)
  }

  lemma AttributeSays(p: Payload)
    ensures HasNoAttribute(p) <==> AttributeOf(Some(p)) == []
    ensures !HasNoAttribute(p) ==> |AttributeOf(Some(p))| == 1 && Carries(AttributeOf(Some(p))[0], p)
  {
  }

  /** Payloads of different kinds never share a key. */
  lemma KindsHaveDistinctKeys(a: Attribute, p: Payload, b: Attribute, q: Payload)
    requires Carries(a, p) && Carries(b, q) && p.kind != q.kind
    ensures a.key != b.key
  {
    assert |INPUT_MESSAGES| == 21 && |OUTPUT_MESSAGES| == 22;
    assert |SYSTEM_INSTRUCTIONS| == 26 && |TOOL_DEFINITIONS| == 23;
  }

  /** A call whose payloads are all answered adds no attribute to its span and returns no error. It adds no
      event exactly if no answer has an attribute, and otherwise one event, with what the answers carry, in
      their order, followed by the correlation attributes. */
  lemma AnsweredCall(policy: Policy, asked: seq<Payload>, call: ModelCall, mode: FailureMode)
    requires forall i | 0 <= i < |call.payloads| :: AnswerAt(policy, asked, call.payloads, i).Some?
    ensures var e, answers := CallEffect(policy, asked, call, mode), AnswersTo(policy, asked, call.payloads);
      var at := Attached(answers);
      && |answers| == |call.payloads| && e.attrs == [] && !e.err
      && (forall i | 0 <= i < |answers| :: answers[i] == AnswerAt(policy, asked, call.payloads, i))
      && (forall i | 0 <= i < |answers| :: i in at <==> !HasNoAttribute(answers[i].value))
      && (e.events == [] <==> at == [])
      && (e.events != [] ==>
            && |e.events| == 1 && e.events[0].name == "gen_ai.client.inference.operation.details"
            && |e.events[0].attrs| == |at| + |CorrelationAttrs(call)|
            && e.events[0].attrs[|at|..] == CorrelationAttrs(call)
            && (forall i | 0 <= i < |at| :: at[i] < |answers| && Carries(e.events[0].attrs[i], answers[at[i]].value))
            && (forall i, j | 0 <= i < j < |at| :: at[i] < at[j]))
  {
    hide AnswerAt, AttributeOf, HasNoAttribute, Carries, CorrelationAttrs, EffectOf, Representable, Attached;
    var answers := AnswersTo(policy, asked, call.payloads);
    AnswersAreThose(policy, asked, call.payloads);
    NoneFailed(answers, CorrelationAttrs(call), mode);
    AttachedAttributesAreRedacted(answers);
    forall i | 0 <= i < |answers|
      ensures i in Attached(answers) <==> !HasNoAttribute(answers[i].value)
    {
      NothingIsLost(answers, i);
      AttributeSays(answers[i].value);
    }
    var at := Attached(answers);
    forall i | 0 <= i < |at| ensures at[i] < |answers| && Carries(Representable(answers)[i], answers[at[i]].value) {
      AttributeSays(answers[at[i]].value);
    }
  }

  /** DropAllPayloadsRedactor, which is used when no redactor is given, never fails and leaves no
      trace on the span. */
  const DROP_ALL: Policy :=
    (asked: seq<Payload>) => if asked == [] then None else Some(asked[|asked| - 1].(value := Nil))

  lemma DropAllAnswer(asked: seq<Payload>)
    requires asked != []
    ensures DROP_ALL(asked).Some? && AttributeOf(DROP_ALL(asked)) == []
  {
    hide PayloadKey;
  }

  lemma DropAllAttachesNothing(asked: seq<Payload>, call: ModelCall, mode: FailureMode)
    ensures CallEffect(DROP_ALL, asked, call, mode) == Effect([], [], false)
  {
    hide AttributeOf, RedactedAttribute, CorrelationAttrs, EffectOf, Representable;
    var answers := AnswersTo(DROP_ALL, asked, call.payloads);
    AnswersAreThose(DROP_ALL, asked, call.payloads);
    forall i | 0 <= i < |answers| ensures answers[i].Some? && AttributeOf(answers[i]) == [] {
      DropAllAnswer(asked + call.payloads[..i + 1]);
    }
    NothingRepresentable(answers);
    NoneFailed(answers, CorrelationAttrs(call), mode);
  }

  lemma {:induction false} NothingRepresentable(answers: seq<Option<Payload>>)
    requires forall i | 0 <= i < |answers| :: AttributeOf(answers[i]) == []
    ensures Representable(answers) == []
  {
    if answers != [] {
      NothingRepresentable(answers[..|answers| - 1]);
    }
  }
}
