# agent-otel: a verified model

agent-otel configures OpenTelemetry export for agents. This project models the parts of it that make
a promise about all inputs or about all runs, and proves those promises:

- **Configuration.** `GoText`, `Headers`, `Url`, `Endpoint` and `Config` model how options,
  per-signal variables, general variables, the Datadog preset and the defaults are resolved into one
  exporter configuration per signal: white-space trimming on bytes, the percent-encoded header list,
  `host:port` and URL validation, the TLS decision, and the 64-bit timeout conversion. `Dial` models
  which address the reachability check dials.
- **Lifecycle.** `Providers` models the build with rollback, `Shutdown` the shutdown protocol with any
  number of concurrent and re-entrant callers, and `DevSink` the fan-out to a second exporter.
- **Metrics.** `Cardinality` models the stateful attribute filter beside the stateless checker, and
  `Instruments` the recorders that go through it.
- **Payloads.** `Events` models the redaction gate.
- **Test collector.** `Collector` models the reference-counted start and stop of the shared collector,
  and `Polling` the wait with exponential backoff.
- **Options.** `Options` models functional options on a heap, so that sharing of maps is visible.

## Conventions

A Go string is a sequence of bytes (`GoText.Text`). A nil pointer, slice or error is `None`. An error
is a datatype that carries the same distinctions as the message: field, value and reason. The network,
the exporter constructors, redactors, closures, commands and clocks are parameters or arbitrary steps,
so every theorem holds for all their behaviours. `Shutdown` and `Collector` are step machines: one
step is one action between two points at which another goroutine can run.

`Url.Codec` stands for the parts of `net/url` that validate, decode and print a host, a user-info part
and a path with query and fragment; the port of a host is modelled. Theorems about a URL that is printed
and parsed again, or about the port of a decoded host, assume the laws in `Url.Lawful`;
`Url.PlainIsLawful` shows that they can be met.

## What the proofs found

- `docs/bootstrap-design.md:250` promises that repeated calls return the same joined error. That holds
  for every call made after the first one has returned (`Shutdown.LateCallsAgree`). A call that looks
  before the first one has published its error is answered nil, whatever is published later
  (`Shutdown.LookingDecides`, `Shutdown.OverlappingCallsDisagree`), so for a call that looked too early
  the promise holds exactly if that error is nil (`Shutdown.ShutdownAnswers`). The same line calls both
  methods idempotent, but every `ForceFlush` runs every flush function (`Shutdown.EveryFlushRunsAll`).
- The reachability check dials the host of a URL as it was written and does not fill in the port of
  the scheme. The intake URL in `docs/env-vars.md:144` has no port, so with it the package never
  exports (`Providers.DocumentedIntakeBuildsNothing`). In general a URL can be dialled exactly if it
  was written with a port (`Dial.UrlNeedsPort`).
- HTTP accepts bare endpoints that can never be dialled: `a/b:80`, because a byte ends the authority
  before the port (`Dial.SlashBeforePort`), and `a:+80`, because `strconv.Atoi` reads a plus sign and
  `url.Parse` does not (`Dial.SignBeforePort`, `GoText.AtoiSigned`). `Dial.BareHttpReaches` says exactly
  which accepted bare endpoints can be reached.
- A timeout variable above 9223372036854 ms wraps around (`Config.TimeoutExact`). The first such value
  becomes negative, although negative timeouts are rejected (`Config.TimeoutWrapsToNegative`);
  `Config.TimeoutSign` says exactly which values do.
- The helper's `cleanup` does not take `startupMu`. It can stop a collector that another helper has
  just adopted and counted (`Collector.OverlapStopsAdoptedCollector`). In every interleaving a counted
  collector is down exactly if a cleanup has stopped it under somebody who relied on it, and somebody
  has relied on it ever since (`Collector.CountedButDown`).
- A collector that was found healthy can be stopped without any such overlap: if a later Start call's
  health check fails although it is up, and its `start` then succeeds on top of it, the package takes
  it for its own (`Collector.StartOverStopsAdoptedCollector`). Without overlap it is stopped only after
  that (`Collector.CountedMeansUp`, `Collector.StartOverTakesFailedCheck`).
- Merging the empty overlay on the left is not an identity for a property map that is empty but not
  nil (`Options.MergeIdentity`).

## Model

| member | source | states |
|---|---|---|
| GoText.TrimDropsLeadingSpace | env.go:265 | a white-space rune in front of any text does not change what TrimSpace leaves |
| GoText.TrimDropsTrailingSpace | env.go:265 | nor does one behind it, although trimming works from the left first and decodes backwards |
| GoText.TrimIdentity | env.go:265 | text in which no white-space rune starts is left alone |
| GoText.SpaceRunesAreWhiteSpace | env.go:235 | the byte patterns taken for white space are exactly the UTF-8 encodings of the runes with that Unicode property |
| GoText.SplitJoin | env.go:270 | splitting the join of separator-free parts gives those parts back |
| GoText.SplitConcat | env.go:270 | splitting `a,b` is splitting `a` and then `b`, for all strings |
| GoText.AtoiNumeral | env.go:254 | a numeral is read back if it fits 64 bits, and is out of range otherwise |
| GoText.AtoiSigned | env.go:254 | the same for numerals with a sign, including a plus sign |
| GoText.ParseDigitsStops | env.go:254 | a text that goes wrong, by a bad byte or by overflow, stays wrong in the same way whatever follows |
| GoText.SplitHostPortExact | env.go:220 | SplitHostPort answers host and port exactly for the plain and the bracketed way of writing them together |
| GoText.SplitHostPortRefused | env.go:220 | a text without brackets is refused for a missing port iff it has no colon, and for too many colons iff it has two |
| Headers.UnescapeEscape | env.go:275-279 | query-unescaping undoes query-escaping, for every string of bytes |
| Headers.UnescapeFails | env.go:275-279 | unescaping fails exactly if some percent sign is not followed by two hexadecimal digits |
| Headers.UnescapeMeans | env.go:275-279 | a triplet stands for its byte in either letter case, a plus sign for a space, every other byte for itself |
| Headers.PairIsMalformed | env.go:271-283 | a pair is malformed exactly without `=`, with an empty key, or with a bad escape, once white space around key and value is gone; otherwise it gives both, unescaped |
| Headers.ParseHeaders | env.go:264-289 | the loop with its trims and skips computes the map that the untrimmed list means, nil if that is empty |
| Headers.OuterTrimIsRedundant | env.go:265-268 | trimming the whole list never changes the result |
| Headers.Homomorphism | env.go:264-289 | for all strings, `a,b` means `a` overridden by `b` |
| Headers.MalformedPairIsSkipped | env.go:271-282 | a malformed pair anywhere in a list leaves the meaning of the rest unchanged |
| Headers.ParsePrintedPair | env.go:271-283 | an escaped pair with a non-empty key is read back |
| Headers.RoundTrip | env.go:264-289 | every map with non-empty keys comes back from its escaped list, in any order of entries; the empty map comes back as nil |
| Url.HostNeedsAuthority | env.go:161-173 | a parsed URL with a host was written with its scheme and `://` in some letter case |
| Url.ParseWritten | env.go:161 | a text of scheme, authority and remainder is taken apart where it was put together |
| Url.PortIs | env.go:179 | the port of a host is what is written behind its last colon, if that is a number |
| Url.ControlIsRefused | env.go:161 | a control byte before the fragment is refused, and nothing else is refused as one |
| Url.ColonNeedsScheme | env.go:161 | what stands before the first colon must be a scheme, unless the authority or path has begun |
| Url.NoColonNoScheme | env.go:161 | a text without such a colon has neither scheme nor host |
| Url.PrintParse | env.go:184 | printing a parsed URL and parsing it again finds the same scheme and host, and the user info and remainder as printed |
| Url.PlainIsLawful | env.go:161-184 | the laws assumed of host, user and path codecs do not contradict each other: a codec that encodes nothing meets them |
| Endpoint.FirstBadIsFirst | env.go:233-251 | the reported offset is the first byte at which white space or a control character starts |
| Endpoint.NothingBadIsClean | env.go:233-251 | nothing is reported exactly if the text has no white space and no control character |
| Endpoint.SchemeLikeBeginnings | env.go:207-213 | what looks like a mistyped scheme is `://` anywhere or one of five beginnings in any letter case |
| Endpoint.HostPortAccepted | env.go:200-231 | validation accepts exactly a clean text with a host and a port in 1..65535 that has none of these |
| Endpoint.HostPortRefused | env.go:200-261 | which reason is given for every endpoint that is refused |
| Endpoint.GrpcAnswer | env.go:132-147 | gRPC accepts exactly what validation accepts behind the scheme, with the flag of the scheme, and gives its reason otherwise |
| Endpoint.HttpAnswer | env.go:149-185 | HTTP accepts exactly what validation accepts, or an http or https URL that is clean, has a host, and a port in range if it has one; and the reasons for a URL that is none, its scheme and an empty host |
| Endpoint.NormalizedIsWellFormed | env.go:121-185 | an accepted gRPC endpoint is such a text; an accepted HTTP endpoint starts with `http://` iff insecure and with `https://` otherwise, and is such a text behind that, or a clean URL with a host, and a port in range if it has one |
| Endpoint.HttpUrlNormalized | env.go:161-184 | an accepted URL is printed clean, parses to its scheme and to a host with a port in range if it has one, and normalising it again returns it and its flag |
| Endpoint.TlsAgreement | env.go:132-185 | the normalised flag is what the scheme says in any letter case, else the given flag, for both protocols |
| Endpoint.GrpcKeepsTheRest | env.go:132-147 | what gRPC accepts is the whole trimmed endpoint but its scheme, in whatever letter case that was written |
| Endpoint.GrpcIdempotent | env.go:132-147 | normalising an accepted gRPC endpoint again, with either flag, returns it and that flag |
| Config.AllOrFirstError | config.go:63-81 | resolution succeeds exactly if all three signals do, with their results; otherwise the error is that of the first signal to fail |
| Config.ResolvedIsWellFormed | config.go:83-108 | an accepted configuration has a supported protocol, an endpoint well formed for it, and the flag resolveInsecure computed from the raw endpoint |
| Config.ResolveCarriesFirstLayers | config.go:83-108 | an accepted configuration carries the protocol, normalised endpoint, headers and timeout of their first layers; resolution fails exactly for an unsupported protocol, a refused endpoint or a refused timeout, in this order, naming the layer |
| Config.RefusedTimeoutFails | config.go:97-100 | a refused timeout always fails resolution |
| Config.TimeoutExact | env.go:309-318 | an accepted timeout is exactly the milliseconds written iff they are at most 9223372036854 |
| Config.TimeoutWrapsToNegative | env.go:309-318 | the next value is accepted and is negative |
| Config.TimeoutSign | env.go:309-318 | an accepted timeout is the low 64 bits of the product in two's complement, so negative iff these exceed the largest int64 |
| Config.ProtocolPrecedence | env.go:28-45 | value, field and raw text of the protocol come from the first non-blank of option, own variable, general variable, preset, default |
| Config.EndpointPrecedence | env.go:47-67 | the same for the endpoint, with the default of the protocol |
| Config.OtherSettingsPrecedence | env.go:69-119 | headers, TLS flag and timeout come from the explicit value, else the first non-blank variable, else the preset or the option for all signals |
| Config.BoolWords | env.go:291-307 | the words for true are 1, t, true, y, yes and on in any letter case, but only three spellings of true |
| Config.BoolIgnoresSpace | env.go:292 | white space around such a word does not matter |
| Config.PresetHeaders | datadog.go:16-38 | the preset's headers are its own, with its API key, or else that of the environment, if there is one, and always the source |
| Config.NoPreset | datadog.go:17-19 | without an enabled preset, and for metrics and logs, there are no such defaults |
| Config.HeaderLayerWinsByPresence | env.go:88-103 | a non-blank header variable, own or general, shuts out lower layers even when it holds no valid pair |
| Config.NamesAreDistinct | env.go:321-323 | no two settings of any signals share a variable, and none is the API key's |
| Config.TracesNames | env.go:321-323 | the five variables of traces, in full |
| Config.MetricsNames | env.go:321-323 | the five variables of metrics, in full |
| Config.LogsNames | env.go:321-323 | the five variables of logs, in full |
| Config.GeneralNames | env.go:14-20 | the five general variables, in full |
| Config.NonInterference | config.go:83-108 | a signal's result depends only on its own and the general variables, its explicit configuration, the export timeout and, for traces, the preset and API key |
| Config.OtherSignalsDoNotMatter | env.go:321-323 | setting any variable of another signal changes nothing |
| Config.BlankIsAbsent | env.go:32-35 | setting a variable other than the API key to white space is the same as deleting it |
| Dial.GrpcTarget | exporters.go:267-285 | a resolved gRPC endpoint is dialled as it is; only the network decides |
| Dial.UrlTarget | exporters.go:267-275 | an accepted URL is dialled at the host it was written with, after normalising and parsing again |
| Dial.UrlNeedsPort | exporters.go:267-285 | it is reached exactly if that host has a port and the network answers |
| Dial.DocumentedIntakeIsNeverReached | exporters.go:267-285 | the documented intake URL is accepted, and reached on no network |
| Dial.BareHttpTarget | exporters.go:267-275 | for every codec, an accepted bare HTTP endpoint is dialled at the host of the URL it becomes, and not at all if it becomes none |
| Dial.BareAuthority | env.go:200-231 | the part of it that becomes the host has a port exactly if no byte ends the authority early; url.Parse takes that port exactly if it is written with digits only |
| Dial.BareHttpReaches | exporters.go:267-285 | it is reached exactly if no byte ends the authority early, the port has no sign, the codec takes host and user info, and the network answers |
| Dial.SlashBeforePort | exporters.go:267-285 | `a/b:80` is accepted, and reached on no network |
| Dial.SignBeforePort | exporters.go:267-275 | `a:+80` is accepted, and never dialled for any codec |
| DevSink.SinkIsWellFormed | devsink_lotel.go:58-80 | the sink has a well-formed endpoint, the primary's timeout, none of its headers, and is insecure unless its endpoint says https |
| DevSink.SinkIsOn | devsink_lotel.go:58-80 | the sink is on exactly if it is configured, enabled and its endpoint is accepted; which endpoint and protocol it then has |
| DevSink.MultiExporter.Call | devsink_lotel.go:112-151 | both sides get the call, the primary first, and the caller gets the primary's answer |
| DevSink.MultiExporter.Drive | devsink_lotel.go:87-151 | over any run, and whatever the sink answers, the caller gets the answers of the primary driven alone and both sides receive the run |
| DevSink.BothSidesSeeTheRun | devsink_lotel.go:87-151 | in the common order each side sees exactly the run, each call of the sink right after the primary's |
| Providers.Sdk.NewProvider | devsink_lotel.go:13-56 | a provider owns its primary exporter and, if the sink is on, answers and can be made, the sink's |
| Providers.OwnedExactly | devsink_lotel.go:13-56 | over any providers made, a primary exporter is owned iff its provider was made, a sink's iff moreover the sink is on, answers and can be made |
| Providers.Build | exporters.go:24-97 | a no-op exactly if some signal's endpoint does not answer or some primary exporter cannot be made; live with all three providers, or none live and those made, up to the first failure, shut down once in reverse order; an error exactly for instruments |
| Providers.EverySignal | exporters.go:258-265 | all are reachable exactly if no signal's own endpoint fails to answer |
| Providers.RollbackIsComplete | exporters.go:40-68 | after a build that did not go live every exporter made was closed exactly once |
| Providers.ClosedInOrder | exporters.go:83-94 | a live build is shut down in the order logs, metrics, traces, and completely when the winner is done |
| Providers.ClosedAtMostOnce | exporters.go:83-96 | after a live build every primary and sink exporter is closed at most once in any interleaving, exactly once when the winner is done |
| Providers.DocumentedIntakeBuildsNothing | exporters.go:24-28 | with the documented intake as traces endpoint the build is a no-op in every world |
| Shutdown.CallAll | cleanup.go:58-67 | nil functions are skipped, and the result joins what the others returned, in order |
| Shutdown.JoinAllMeaning | cleanup.go:58-67 | the joined error is nil iff all results are, and its flattened leaves are the errors in call order |
| Shutdown.RunKeepsInv | cleanup.go:35-67 | every step of every interleaving keeps the protocol's invariant |
| Shutdown.AtMostOnce | cleanup.go:40-49 | every non-nil closure is started at most once, in list order, all by one call |
| Shutdown.StartedIsPrefix | cleanup.go:58-67 | the closures started are the non-nil ones up to some place of the list, and all when the winner is done |
| Shutdown.ClosuresRunUnlocked | cleanup.go:40-53 | no closure runs while its caller holds the mutex, and whoever holds it can always go on |
| Shutdown.NeverStuck | cleanup.go:35-56 | while a call is unfinished some call can take a step, re-entrant calls included |
| Shutdown.EveryStepIsProgress | cleanup.go:35-67 | every step uses up work, so every call finishes once no new ones enter |
| Shutdown.ShutdownAnswers | cleanup.go:40-56 | a call answers nil or the winner's error E; it answers E exactly if it is the winner, looked after publication, or E is nil |
| Shutdown.LookingDecides | cleanup.go:40-45 | at the end of any longer run a losing call answers the error published when it looked, and nil if none was |
| Shutdown.LateCallsAgree | cleanup.go:35-56 | a call made after the winner has returned answers, when it has finished, exactly what the winner answered |
| Shutdown.EveryFlushRunsAll | cleanup.go:27-32 | every ForceFlush runs every flush closure and joins what they return |
| Shutdown.OverlappingCallsDisagree | cleanup.go:35-56 | a run in which one call returns an error and another nil |
| Cardinality.FindSpec | cardinality.go:269-276 | the first specification of that name, if there is one |
| Cardinality.ProhibitedExactly | cardinality.go:173-185 | the prohibited keys are nine names and everything that begins with one prefix |
| Cardinality.ObjectionMeans | cardinality.go:224-229 | a label is objected to as prohibited, or else as unknown if the metric does not allow it, and otherwise not |
| Cardinality.CheckerReportsFirst | cardinality.go:187-201 | the checker accepts iff every key is allowed and not prohibited, and otherwise reports the first that is not, with the reason |
| Cardinality.UnknownMetricRejected | cardinality.go:187-217 | an unknown metric: checker and filter give the same error, no measurement is kept, and there is one violation |
| Cardinality.KnownMetric | cardinality.go:246-249 | a known metric: strict mode returns the checker's error beside the kept attributes, the default mode none |
| Cardinality.DisabledPasses | cardinality.go:204-206 | switched off, everything passes and nothing is logged |
| Cardinality.KeptIsAllowed | cardinality.go:219-244 | only given attributes whose key is allowed and not prohibited are kept |
| Cardinality.KeptKeepsAll | cardinality.go:219-244 | every attribute with an allowed key that is not prohibited is kept as often as it was given, and no other |
| Cardinality.KeptConcat | cardinality.go:219-244 | the order is kept |
| Cardinality.ViolationsExactly | cardinality.go:221-242 | the violations are exactly those of the dropped labels, prohibited or unknown |
| Cardinality.ViolationsConcat | cardinality.go:221-242 | they are met in the order of the attributes |
| Cardinality.KeptOrViolation | cardinality.go:221-243 | every attribute is either kept or a violation |
| Cardinality.FilterRefinesChecker | cardinality.go:187-250 | for a known metric, filtering is idempotent and drops nothing exactly if the checker accepts the same keys |
| Cardinality.FreshLogIsFirstOccurrences | cardinality.go:252-267 | logging with deduplication yields the first occurrences, in order, pairwise distinct, and all of them |
| Cardinality.LastModeOptionWins | cardinality.go:123-141 | the mode is that of the last option that sets one |
| Cardinality.LastLoggerOptionWins | cardinality.go:129-141 | the logger is that of the last option that sets one |
| Cardinality.ValidatorDefaults | cardinality.go:135-138 | without such options the validator drops silently |
| Cardinality.CardinalityValidator.constructor | cardinality.go:135-146 | for every order of options the set exists exactly if logging can write it |
| Cardinality.CardinalityValidator.Log | cardinality.go:252-267 | the set and the emitted violations stay in step, and a nil set is never written |
| Cardinality.CardinalityValidator.Filter | cardinality.go:203-250 | result and strict error are those of the specification and the checker, and each violation met is logged if new |
| Cardinality.RunValidator | cardinality.go:135-267 | a new validator and any calls: the logger gets each violation once, by first occurrence |
| Instruments.Instruments.Emit | instruments.go:26-36 | a measurement reaches its instrument filtered, or not at all, and its violations are logged if new |
| Instruments.Instruments.RecordTokens | instruments.go:94-107 | a negative count is an error and neither records nor logs anything |
| Instruments.Instruments.RecordUsage | instruments.go:39-56 | the loop over the points stops at the first error; the log is that of the calls offered to the filter |
| Instruments.Instruments.Record | instruments.go:26-107 | what each recorder emits, returns and logs |
| Instruments.Instruments.Drive | instruments.go:26-107 | what any sequence of recorder calls emits and logs; every newly logged violation is met at an attribute of a Fallback of that run |
| Instruments.RunsAreAllowed | instruments.go:109-114 | with filtering on, every measurement of every run has only allowed keys |
| Instruments.LatencyPasses | instruments.go:26-36 | in every mode a latency is recorded with all its attributes |
| Instruments.ProviderErrorPasses | instruments.go:69-79 | in every mode a provider error counts one, with all its attributes |
| Instruments.TokenCallPasses | instruments.go:94-107 | in every mode a token count is recorded unless it is negative |
| Instruments.FallbackEffect | instruments.go:82-92 | a fallback counts one, with the attributes that its mode lets through, or returns the checker's error in strict mode |
| Instruments.BaseValues | instruments.go:130-142 | a model call's attributes hold each label that is not empty exactly once, under its own key, and nothing else |
| Instruments.LatencyValues | instruments.go:116-122 | a latency adds the error type if there is one |
| Instruments.TokenUsageValues | instruments.go:124-128 | a token count adds its type |
| Instruments.ErrorValues | instruments.go:144-153 | a provider error has its two labels under their own keys |
| Instruments.FallbackValues | spans.go:189-202 | a fallback has its three labels under their own keys, and then what the caller gave |
| Instruments.BuilderKeysAreNotProhibited | instruments.go:116-153 | none of the keys the attribute builders use is prohibited |
| Instruments.UsageIsAtomic | instruments.go:39-56 | in every mode RecordUsage emits both points or none, both exactly for a valid and available usage |
| Instruments.OnlyFallbackAttributesViolate | spans.go:189-202 | of what one recorder call offers to the filter, only an attribute that the caller put into a Fallback can violate |
| Instruments.NewViolationsComeFromFallbacks | instruments.go:109-114 | whatever a run adds to the log is met at an attribute of a Fallback of that run |
| Instruments.TokensAreConserved | usage.go:53-64 | over every run the tokens recorded are the tokens given, per type and in every mode |
| Events.RedactAll | events.go:17-31 | the loop asks payloads in order up to the first failure and collects what can be represented |
| Events.AttachPromptPayloadEvent | events.go:12-39 | span, error and redactor calls are those of the answers alone; nothing happens without span, capture or redactor |
| Events.CorrelationIsExact | events.go:83-95 | the correlation attributes are exactly the three fields that are not empty, under their own keys, each once and in order |
| Events.AnswersAreThose | events.go:18-26 | the answers are those the redactor gives to each prefix, and only the last can be a failure |
| Events.FailClosed | events.go:18-26 | a first failure at payload k: k + 1 payloads asked, the failure attribute set once, no event |
| Events.AnsweredCall | events.go:12-39 | a call that is answered throughout adds no event exactly if no answer has an attribute, otherwise one, with what the answers carry, in order, and then the correlation attributes |
| Events.AttributeSays | events.go:41-81 | an answer's attribute has the text of its string, bytes or encoding under the key of its kind; it has none exactly for another kind, a nil value or one without an encoding |
| Events.KindsHaveDistinctKeys | events.go:53-66 | payloads of different kinds never share a key |
| Events.RawPayloadsDoNotMatter | events.go:12-39 | equal answers for as long as they are asked, and equal correlation fields, give equal effects whatever the raw payloads |
| Events.AttachedAttributesAreRedacted | events.go:27-30 | every attached attribute is that of one answer, in payload order |
| Events.NothingIsLost | events.go:41-51 | an answer is attached exactly if it can be represented |
| Events.DropAllAttachesNothing | redact.go:71-75 | the default redactor never fails and leaves no trace |
| Collector.RunKeepsCountInv | test/integration/lotelhelper/lotelhelper.go:194-284 | every step of every interleaving keeps the count exact and mutex ownership consistent |
| Collector.CountIsExact | test/integration/lotelhelper/lotelhelper.go:230-270 | the count is the number of helpers counted and not yet released; each is released at most once |
| Collector.LaunchIsUndoneOrUsed | test/integration/lotelhelper/lotelhelper.go:209-234 | a Start call that launched the collector and gives up has told it to stop, and no other has; one that returned a helper after a launch has ingested |
| Collector.StartedMeansRecorded | test/integration/lotelhelper/lotelhelper.go:205-224 | `pkgStarted` holds exactly if the last step that concerns it recorded a launch, and did not find the collector healthy, take the launch back, or end a successful stop |
| Collector.RunKeepsUpInv | test/integration/lotelhelper/lotelhelper.go:194-284 | every step keeps what a starter knows in its window, and that a stop meets an adopted collector only after a start on top of it, unless a cleanup stops the collector within the window |
| Collector.CountedMeansUp | test/integration/lotelhelper/lotelhelper.go:194-284 | in runs in which no cleanup stops the collector within a starter's window a positive count means that it is up, and an adopted one is told to stop exactly if a start command has succeeded on top of it before |
| Collector.FlagMeansStartedOver | test/integration/lotelhelper/lotelhelper.go:203-217 | the history flag for that means a successful start over an adopted collector that has been up, and not found healthy again, ever since |
| Collector.StartOverTakesFailedCheck | test/integration/lotelhelper/lotelhelper.go:205-209 | such a start comes after the same call's health check failed although the adopted collector was up |
| Collector.CountedButDown | test/integration/lotelhelper/lotelhelper.go:194-284 | in every interleaving a counted collector is down iff a cleanup's stop left it down while somebody relied on it, somebody has relied on it ever since, and no later stop left it up |
| Collector.ClaimedMeansUp | test/integration/lotelhelper/lotelhelper.go:194-284 | the same from the moment on at which a starter has found or started it |
| Collector.OverlapStopsAdoptedCollector | test/integration/lotelhelper/lotelhelper.go:256-284 | a run with an overlap in which the count is positive and the adopted collector was stopped |
| Collector.StartOverStopsAdoptedCollector | test/integration/lotelhelper/lotelhelper.go:203-217 | a run without overlap in which a failed health check leads to the stop of an adopted collector |
| Polling.BackoffValues | test/integration/lotelhelper/lotelhelper.go:157-176 | the backoff doubles below four seconds and never exceeds them |
| Polling.SleptClosedForm | test/integration/lotelhelper/lotelhelper.go:170-176 | the total of the first sleeps |
| Polling.PollBoundIsExact | test/integration/lotelhelper/lotelhelper.go:156-176 | the closed form is the only count whose sleeps but one fit the timeout |
| Polling.WaitForRecords | test/integration/lotelhelper/lotelhelper.go:142-178 | ends within that many polls, which instant polls reach; sleep i is 250 ms doubled at most four times; a normal return has enough records |
| Options.CloneStringMap | options.go:146-148 | a new map with the same entries; nil stays nil |
| Options.ApplyToPreset | options.go:100-127 | the preset changes as the option says; only its own map is written |
| Options.LastEndpointWins | options.go:101-105 | the trace endpoint is that of the last endpoint option |
| Options.LastKeyWins | options.go:108-112 | the API key is that of the last key option |
| Options.LastHeaderWins | options.go:115-127 | each header is that of the last header option that has it |
| Options.BasePresetStays | options.go:83-98 | endpoint and key are the base's if no option sets them; no option switches the preset on or off |
| Options.BaseHeaderStays | options.go:115-127 | a header is the base's if no option has it |
| Options.PresetStart | options.go:83-98 | the preset starts from the one that is there, or from an empty one, and is enabled in the end |
| Options.UseDatadogPreset | options.go:83-98 | the resulting preset and its map are new, and nothing else is written |
| Options.MergeOpenLLMetryCompat | openllmetry.go:111-136 | writes the base's map only, and merges fields and properties as the specification says |
| Options.UseOpenLLMetryCompat | openllmetry.go:47-59 | the resulting structure and its map are new, and nothing else is written |
| Options.CompatStart | openllmetry.go:47-59 | the settings start from those that are there, or from empty ones |
| Options.LastModeWins | redact.go:54-58 | the failure mode is that of the last capture option that is not nil |
| Options.CaptureDefaults | redact.go:50-58 | without one it is to drop the payload; the redactor is the one given, or the one that drops every payload |
| Options.ApplyOptions | options.go:73-80 | the result is that of the options in order; no object that existed before is modified, and every structure of the result is the base's or new |
| Options.UseOnTwoBases | options.go:83-98 | one option value used on two bases gives structures that share no map |
| Options.DatadogTraceDefaults | datadog.go:16-38 | the headers are a new map, and the values are those used in resolution |
| Options.MergeAssociative | openllmetry.go:111-136 | overlays can be merged in any grouping |
| Options.MergeIdentity | openllmetry.go:111-136 | the empty overlay changes nothing on the right; on the left exactly unless the properties are empty but not nil |
| Options.OverlaysAreOneOverlay | openllmetry.go:47-59 | a list of overlays is one overlay |
| Options.LastFieldWins | openllmetry.go:111-126 | each field is that of the last overlay in which it is not empty |
| Options.BaseFieldStays | openllmetry.go:111-126 | and that of the base if there is none |
| Options.LastPropertyWins | openllmetry.go:127-134 | each property has the value of the last overlay that has it |
| Options.BasePropertyStays | openllmetry.go:127-134 | and that of the base if none has it |
| Options.KindsDoNotInterfere | options.go:73-80 | preset, compatibility settings, sink and capture are each decided by the options of their own kind, in order, whatever stands between them |
| Options.LastSinkWins | options.go:130-137 | the sink is that of the last sink option, whatever options stand around it |
| Options.LastCaptureWins | redact.go:48-61 | and the capture that of the last capture option |

## Left out

- Dial.BareAuthority: leaves out a bracketed endpoint with an `@` in its authority, which BareHttpReaches treats: it is refused as a URL.
- Temporality and Aggregation of the metric fan-out, which hand on the primary's answer and call nothing else.
- Url.PlainIsLawful: shows that the laws are consistent; that net/url meets them is assumed, because its host, user and path tables are not part of this model.
- GoText.Lower: models ASCII letters only; no other rune lowers to a letter of the words compared here.
- Nil receivers of Shutdown, Instruments and CardinalityValidator, which return at once.
- The SDK's providers, exporters, batching and transport, and real dialling: they succeed or fail as they like.
- Option builders of exporters and readers, `defaultHTTPPath`, resources and global installation: thin calls into libraries.
- Functional options written by callers: only the package's own are modelled, and NewCapture takes mode options as values.
- The preset fields `SemconvStabilityOptIn`, `PromptPayloadCapture` and `OpenLLMetryCompat`, which nothing modelled here reads.
- Span helpers, `UsageSpanAttributes` and the emission of llm.* and traceloop.* attributes: single-branch plumbing.
- The text of error messages; errors are datatypes.
- JSON encoding of payload values: a partial function of the value.
- Cloning of resolved header maps in resolveHeadersWithPreset: headers are values in `Config`; the clone of the preset's map is in `Options`.
- Concurrent use of one CardinalityValidator: it has no lock, so its calls are taken one after the other.
- 64-bit overflow of summed token counts: counts are unbounded integers, and the package does not add them up for its metrics.
- Commands of the collector's program, its lookup (`acquireCLI`), and its start or stop by anyone else.
- Size limits on payloads in `docs/redaction.md`: the code has none.
