/** Building the providers, with rollback (exporters.go), and closing them once (cleanup.go). */
module Providers {
  import opened Values
  import opened GoText
  import opened Endpoint
  import Config
  import Dial
  import DevSink
  import Shutdown
  import Url

  type Signal = Config.Signal

  /** A primary or a sink exporter of one signal. */
  type ExporterId = (Signal, DevSink.Side)

  /** Which constructors succeed, and which addresses answer a dial. */
  datatype World = World(
    network: Text -> bool, exporter: ExporterId -> bool, instruments: bool)

  datatype Outcome = Live | Noop | Failed

  const PIPELINE: seq<Signal> := [Config.Traces, Config.Metrics, Config.Logs]

  function ConfigOf(cfg: Config.ResolvedConfig, sig: Signal): Config.Resolved {
    match sig
    case Traces => cfg.traces
    case Metrics => cfg.metrics
    case Logs => cfg.logs
  }

  /** The sink of a signal is used if it is configured, answers, and its exporter can be made. */
  predicate SinkUsed(c: Url.Codec, w: World, cfg: Config.ResolvedConfig, opts: Config.Options, sig: Signal) {
    var sink := DevSink.ResolveSink(c, ConfigOf(cfg, sig), opts);
    sink.Some? && Dial.Reaches(c, sink.value, w.network) && w.exporter((sig, DevSink.Dev))
  }

  /** The exporters that the providers of the signals in `made` own. */
  function OwnedBy(c: Url.Codec, w: World, cfg: Config.ResolvedConfig, opts: Config.Options,
      made: seq<Signal>): seq<ExporterId> {
    if made == [] then []
    else
      var sig := made[|made| - 1];
      OwnedBy(c, w, cfg, opts, made[..|made| - 1]) + [(sig, DevSink.Primary)]
      + if SinkUsed(c, w, cfg, opts, sig) then [(sig, DevSink.Dev)] else []
  }

  /** What one build made and shut down, in order. Shutting a provider down shuts down the exporters
      that it was made with. */
  class Sdk {
    const world: World
    var exporters: seq<ExporterId>
    var made: seq<Signal>
    var shut: seq<Signal>

    constructor (world: World)
      ensures this.world == world && exporters == [] && made == [] && shut == []
    {
      this.world := world;
      exporters, made, shut := [], [], [];
    }

    /** new*Exporter */
    method NewExporter(e: ExporterId) returns (ok: bool)
      modifies this`exporters
      ensures ok == world.exporter(e)
      ensures exporters == old(exporters) + if ok then [e] else []
    {
      ok := world.exporter(e);
      if ok {
        exporters := exporters + [e];
      }
    }

    /** The primary exporter of a signal, compose*Exporter, and the provider around the result. */
    method NewProvider(c: Url.Codec, cfg: Config.ResolvedConfig, opts: Config.Options, sig: Signal) returns (ok: bool)
      requires exporters == OwnedBy(c, world, cfg, opts, made)
      modifies this`exporters, this`made
      ensures exporters == OwnedBy(c, world, cfg, opts, made)
      ensures ok == world.exporter((sig, DevSink.Primary))
      ensures made == old(made) + if ok then [sig] else []
    {
      hide DevSink.ResolveSink, Dial.Reaches;
      ok := NewExporter((sig, DevSink.Primary));
      if !ok { return; }
      var sink := DevSink.ResolveSink(c, ConfigOf(cfg, sig), opts);
      if sink.Some? {
        if Dial.Reaches(c, sink.value, world.network) {
          var _ := NewExporter((sig, DevSink.Dev));
        }
      }
      assert (made + [sig])[..|made|] == made;
      made := made + [sig];
    }

    method Shut(sig: Signal)
      modifies this`shut
      ensures shut == old(shut) + [sig]
    {
      shut := shut + [sig];
    }
  }

  /** Some signal's endpoint does not answer. */
  ghost predicate SomeUnreachable(c: Url.Codec, w: World, cfg: Config.ResolvedConfig) {
    exists sig :: !Dial.Reaches(c, ConfigOf(cfg, sig), w.network)
  }

  predicate PrimaryMade(w: World, sig: Signal) {
    w.exporter((sig, DevSink.Primary))
  }

  ghost predicate SomePrimaryFails(w: World) {
    exists sig :: !PrimaryMade(w, sig)
  }

  lemma EverySignal(c: Url.Codec, w: World, cfg: Config.ResolvedConfig)
    ensures Dial.AllReachable(c, cfg, w.network) <==> !SomeUnreachable(c, w, cfg)
    ensures SomePrimaryFails(w) <==>
      !PrimaryMade(w, Config.Traces) || !PrimaryMade(w, Config.Metrics) || !PrimaryMade(w, Config.Logs)
    ensures ConfigOf(cfg, Config.Traces) == cfg.traces && ConfigOf(cfg, Config.Metrics) == cfg.metrics
    ensures ConfigOf(cfg, Config.Logs) == cfg.logs
  {
    hide Dial.Reaches;
    if Dial.AllReachable(c, cfg, w.network) {
      forall sig ensures Dial.Reaches(c, ConfigOf(cfg, sig), w.network) {
        match sig case Traces => case Metrics => case Logs =>
      }
    } else {
      var sig := if !Dial.Reaches(c, cfg.traces, w.network) then Config.Traces
                 else if !Dial.Reaches(c, cfg.metrics, w.network) then Config.Metrics else Config.Logs;
      assert !Dial.Reaches(c, ConfigOf(cfg, sig), w.network);
    }
    forall sig | !PrimaryMade(w, sig)
      ensures !PrimaryMade(w, Config.Traces) || !PrimaryMade(w, Config.Metrics) || !PrimaryMade(w, Config.Logs)
    {
      match sig case Traces => case Metrics => case Logs =>
    }
  }

  /** The order in which the returned object flushes and shuts down. */
  const CLOSING_ORDER: seq<Signal> := [Config.Logs, Config.Metrics, Config.Traces]

  /** buildOTLPProviders. The build is a no-op exactly if some endpoint does not answer or some primary
      exporter cannot be made, and the only error returned is that of the instruments. Providers are made
      in order up to the first failure. Whatever fails, there are in the end either all three and none was
      shut down, or those that were made were all shut down, once and in reverse order. */
  method Build(c: Url.Codec, w: World, cfg: Config.ResolvedConfig, opts: Config.Options)
      returns (sdk: Sdk, outcome: Outcome, closers: seq<Signal>)
    ensures fresh(sdk) && sdk.world == w
    ensures outcome.Noop? <==> SomeUnreachable(c, w, cfg) || SomePrimaryFails(w)
    ensures outcome.Failed? <==> !SomeUnreachable(c, w, cfg) && !SomePrimaryFails(w) && !w.instruments
    ensures sdk.made <= PIPELINE && (!outcome.Noop? ==> sdk.made == PIPELINE)
    ensures SomeUnreachable(c, w, cfg) ==> sdk.made == []
    ensures forall sig | sig in sdk.made :: PrimaryMade(w, sig)
    ensures !SomeUnreachable(c, w, cfg) && |sdk.made| < 3 ==> !PrimaryMade(w, PIPELINE[|sdk.made|])
    ensures sdk.shut == if outcome.Live? then [] else Reverse(sdk.made)
    ensures sdk.exporters == OwnedBy(c, w, cfg, opts, sdk.made)
    ensures closers == if outcome.Live? then [Config.Logs, Config.Metrics, Config.Traces] else []
  {
    hide Dial.AllReachable, OwnedBy, SomeUnreachable, SomePrimaryFails;
    sdk := new Sdk(w);
    closers := [];
    NothingOwned(c, w, cfg, opts);
    EverySignal(c, w, cfg);
    ReversedPipeline();
    if !Dial.AllReachable(c, cfg, w.network) { return sdk, Noop, closers; }
    var ok := sdk.NewProvider(c, cfg, opts, Config.Traces);
    if !ok { return sdk, Noop, closers; }
    ok := sdk.NewProvider(c, cfg, opts, Config.Metrics);
    if !ok {
      sdk.Shut(Config.Traces);
      return sdk, Noop, closers;
    }
    ok := sdk.NewProvider(c, cfg, opts, Config.Logs);
    if !ok {
      sdk.Shut(Config.Metrics);
      sdk.Shut(Config.Traces);
      return sdk, Noop, closers;
    }
    if !w.instruments {
      sdk.Shut(Config.Logs);
      sdk.Shut(Config.Metrics);
      sdk.Shut(Config.Traces);
      return sdk, Failed, closers;
    }
    return sdk, Live, CLOSING_ORDER;
  }

  function Reverse<T>(s: seq<T>): seq<T> {
    if s == [] then [] else Reverse(s[1..]) + [s[0]]
  }

  lemma ReversedPipeline()
    ensures Reverse(PIPELINE) == [Config.Logs, Config.Metrics, Config.Traces]
    ensures Reverse([Config.Traces, Config.Metrics]) == [Config.Metrics, Config.Traces]
    ensures Reverse([Config.Traces]) == [Config.Traces] && Reverse<Signal>([]) == []
  {
    var traces := [Config.Traces];
    var two := [Config.Traces, Config.Metrics];
    assert traces[1..] == [] && two[1..] == [Config.Metrics] && [Config.Metrics][1..] == [];
    assert PIPELINE[1..] == [Config.Metrics, Config.Logs] && PIPELINE[1..][1..] == [Config.Logs];
    assert [Config.Logs][1..] == [];
  }

  lemma NothingOwned(c: Url.Codec, w: World, cfg: Config.ResolvedConfig, opts: Config.Options)
    ensures OwnedBy(c, w, cfg, opts, []) == []
  {
  }

  // ---- Every exporter is closed at most once ------------------------------------------------

  /** How often the exporter `e` is shut down when the providers of `shut` are. */
  function Closings(exporters: seq<ExporterId>, shut: seq<Signal>, e: ExporterId): nat {
    multiset(exporters)[e] * multiset(shut)[e.0]
  }

  lemma {:induction false} ReverseKeeps<T>(s: seq<T>)
    ensures multiset(Reverse(s)) == multiset(s)
  {
    if s != [] {
      ReverseKeeps(s[1..]);
      assert s == [s[0]] + s[1..];
    }
  }

  predicate Distinct<T(==)>(s: seq<T>) {
    forall i, j | 0 <= i < j < |s| :: s[i] != s[j]
  }

  lemma {:induction false} DistinctCount<T>(s: seq<T>, x: T)
    requires Distinct(s)
    ensures multiset(s)[x] == if x in s then 1 else 0
  {
    if s != [] {
      DistinctCount(s[1..], x);
      assert s == [s[0]] + s[1..];
    }
  }

  lemma {:induction false} OwnedOnce(c: Url.Codec, w: World, cfg: Config.ResolvedConfig, opts: Config.Options,
      made: seq<Signal>)
    requires Distinct(made)
    ensures Distinct(OwnedBy(c, w, cfg, opts, made))
    ensures forall e | e in OwnedBy(c, w, cfg, opts, made) :: e.0 in made
  {
    hide SinkUsed;
    if made != [] {
      var before := made[..|made| - 1];
      var sig := made[|made| - 1];
      OwnedOnce(c, w, cfg, opts, before);
      var owned := OwnedBy(c, w, cfg, opts, before);
      assert sig !in before;
      assert forall i | 0 <= i < |owned| :: owned[i] in owned && owned[i].0 != sig;
    }
  }

  /** A provider that was made owns its primary exporter, and its sink's if the sink is on, answers and
      can be made; nothing else is owned. */
  lemma {:induction false} OwnedExactly(c: Url.Codec, w: World, cfg: Config.ResolvedConfig, opts: Config.Options,
      made: seq<Signal>, sig: Signal)
    ensures (sig, DevSink.Primary) in OwnedBy(c, w, cfg, opts, made) <==> sig in made
    ensures (sig, DevSink.Dev) in OwnedBy(c, w, cfg, opts, made) <==>
      var sink := DevSink.ResolveSink(c, ConfigOf(cfg, sig), opts);
      sig in made && sink.Some? && Dial.Reaches(c, sink.value, w.network) && w.exporter((sig, DevSink.Dev))
  {
    hide DevSink.ResolveSink, Dial.Reaches;
    if made != [] {
      OwnedExactly(c, w, cfg, opts, made[..|made| - 1], sig);
      assert made == made[..|made| - 1] + [made[|made| - 1]];
    }
  }

  /** After a build that did not go live, every exporter that it made has been shut down exactly
      once. */
  lemma RollbackIsComplete(c: Url.Codec, w: World, cfg: Config.ResolvedConfig, opts: Config.Options,
      made: seq<Signal>, e: ExporterId)
    requires made <= PIPELINE
    ensures var exporters := OwnedBy(c, w, cfg, opts, made);
      Closings(exporters, Reverse(made), e) == if e in exporters then 1 else 0
  {
    assert Distinct(made);
    OwnedOnce(c, w, cfg, opts, made);
    DistinctCount(OwnedBy(c, w, cfg, opts, made), e);
    DistinctCount(made, e.0);
    ReverseKeeps(made);
  }

  /** The lists of a live build: logs, metrics, traces, and no function that is nil. */
  const LIVE := Shutdown.Closures([true, true, true], [true, true, true])

  function ClosureSignal(i: nat): Signal {
    if i < 3 then CLOSING_ORDER[i] else Config.Traces
  }

  function ClosureSignals(started: seq<nat>): seq<Signal> {
    if started == [] then []
    else ClosureSignals(started[..|started| - 1]) + [ClosureSignal(started[|started| - 1])]
  }

  lemma {:induction false} ClosureSignalAt(started: seq<nat>)
    ensures |ClosureSignals(started)| == |started|
    ensures forall k | 0 <= k < |started| :: ClosureSignals(started)[k] == ClosureSignal(started[k])
  {
    if started != [] {
      ClosureSignalAt(started[..|started| - 1]);
    }
  }

  lemma StartedSignals(steps: seq<Shutdown.Step>)
    requires Shutdown.Exec(LIVE, steps).Some?
    ensures Distinct(ClosureSignals(Shutdown.Exec(LIVE, steps).value.started))
  {
    hide Shutdown.Exec;
    var started := Shutdown.Exec(LIVE, steps).value.started;
    Shutdown.AtMostOnce(LIVE, steps);
    ClosureSignalAt(started);
    assert forall j | 0 <= j < |started| :: started[j] in started;
  }

  lemma WinnerStartedAll(steps: seq<Shutdown.Step>, sig: Signal)
    requires Shutdown.Exec(LIVE, steps).Some? && Shutdown.WinnerDone(Shutdown.Exec(LIVE, steps).value)
    ensures sig in ClosureSignals(Shutdown.Exec(LIVE, steps).value.started)
  {
    hide Shutdown.Exec, Shutdown.NonNil;
    var s := Shutdown.Exec(LIVE, steps).value;
    Shutdown.RunKeepsInv(LIVE, steps);
    assert Shutdown.CallInv(LIVE, s, s.winner.value);
    Shutdown.NonNilInOrder(LIVE.shutdown, 3);
    ClosureSignalAt(s.started);
    var i := if sig.Logs? then 0 else if sig.Metrics? then 1 else 2;
    assert i in s.started;
    var k :| 0 <= k < |s.started| && s.started[k] == i;
    assert ClosureSignals(s.started)[k] == sig;
  }

  /** The providers of a live build are shut down in the order logs, metrics, traces. */
  lemma ClosedInOrder(steps: seq<Shutdown.Step>)
    requires Shutdown.Exec(LIVE, steps).Some?
    ensures var s := Shutdown.Exec(LIVE, steps).value;
      && ClosureSignals(s.started) <= [Config.Logs, Config.Metrics, Config.Traces]
      && (Shutdown.WinnerDone(s) ==> ClosureSignals(s.started) == [Config.Logs, Config.Metrics, Config.Traces])
  {
    hide Shutdown.Exec, Shutdown.NonNil, Shutdown.WinnerDone;
    var s := Shutdown.Exec(LIVE, steps).value;
    var n := Shutdown.StartedIsPrefix(LIVE, steps);
    NonNilOfLive();
    SignalsOfIndices();
    assert n == 0 || n == 1 || n == 2 || n == 3;
  }

  lemma SignalsOfIndices()
    ensures ClosureSignals([]) == [] && ClosureSignals([0]) == [Config.Logs]
    ensures ClosureSignals([0, 1]) == [Config.Logs, Config.Metrics]
    ensures ClosureSignals([0, 1, 2]) == [Config.Logs, Config.Metrics, Config.Traces]
  {
    ClosureSignalAt([0]);
    ClosureSignalAt([0, 1]);
    ClosureSignalAt([0, 1, 2]);
  }

  lemma NonNilOfLive()
    ensures Shutdown.NonNil(LIVE.shutdown, 0) == [] && Shutdown.NonNil(LIVE.shutdown, 1) == [0]
    ensures Shutdown.NonNil(LIVE.shutdown, 2) == [0, 1] && Shutdown.NonNil(LIVE.shutdown, 3) == [0, 1, 2]
  {
    assert Shutdown.NonNil(LIVE.shutdown, 1) == [0];
    assert Shutdown.NonNil(LIVE.shutdown, 2) == [0, 1];
  }

  /** After a live build, every exporter is shut down at most once in any interleaving of any number
      of Shutdown and ForceFlush calls, and exactly once when the winning call has finished. */
  lemma ClosedAtMostOnce(c: Url.Codec, w: World, cfg: Config.ResolvedConfig, opts: Config.Options,
                         steps: seq<Shutdown.Step>, e: ExporterId)
    requires Shutdown.Exec(LIVE, steps).Some?
    requires e in OwnedBy(c, w, cfg, opts, PIPELINE)
    ensures var s := Shutdown.Exec(LIVE, steps).value;
      var closings := Closings(OwnedBy(c, w, cfg, opts, PIPELINE), ClosureSignals(s.started), e);
      closings <= 1 && (Shutdown.WinnerDone(s) ==> closings == 1)
  {
    hide Shutdown.Exec, OwnedBy, Shutdown.WinnerDone;
    var s := Shutdown.Exec(LIVE, steps).value;
    StartedSignals(steps);
    OwnedOnce(c, w, cfg, opts, PIPELINE);
    DistinctCount(OwnedBy(c, w, cfg, opts, PIPELINE), e);
    DistinctCount(ClosureSignals(s.started), e.0);
    if Shutdown.WinnerDone(s) {
      WinnerStartedAll(steps, e.0);
    }
  }

  // ---- An endpoint without a port -----------------------------------------------------------

  /** With the documented Datadog intake as the traces endpoint, the build is a no-op in every world. */
  method DocumentedIntakeBuildsNothing(c: Url.Codec, w: World, cfg: Config.ResolvedConfig, opts: Config.Options)
      returns (outcome: Outcome)
    requires Url.Lawful(c) && Dial.Undecoded(c, Dial.DATADOG_HOST) && c.tailOk(Dial.DATADOG_PATH)
    requires cfg.traces.protocol == HTTP_PROTOBUF
    requires NormalizeHttp(c, Dial.DatadogIntake(), false) == Ok(Target(cfg.traces.endpoint, cfg.traces.insecure))
    ensures outcome.Noop?
  {
    hide NormalizeHttp, Dial.Reaches;
    EverySignal(c, w, cfg);
    Dial.DocumentedIntakeIsNeverReached(c, false, cfg.traces, w.network);
    var sdk;
    var closers;
    sdk, outcome, closers := Build(c, w, cfg, opts);
  }
}
