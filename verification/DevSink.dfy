/** The development sink: a second exporter behind the primary one (devsink_lotel.go). */
module DevSink {
  import opened Values
  import opened GoText
  import opened Endpoint
  import Config
  import Url

  // ---- Its configuration --------------------------------------------------------------------

  /** The endpoint that the sink is asked for, or the gRPC default. */
  function SinkEndpoint(sink: Config.DevSink): Text {
    if Blank(sink.endpoint) then Config.DEFAULT_GRPC_ENDPOINT else Trim(sink.endpoint)
  }

  /** resolveDevSinkExporter: None means that the sink is off. */
  function ResolveSink(c: Url.Codec, primary: Config.Resolved, opts: Config.Options): Option<Config.Resolved> {
    if opts.devSink.None? || !opts.devSink.value.enabled then None
    else
      var endpoint := SinkEndpoint(opts.devSink.value);
      var protocol :=
        if HasPrefixFold(endpoint, HTTP_PREFIX) || HasPrefixFold(endpoint, HTTPS_PREFIX)
        then HTTP_PROTOBUF else GRPC;
      match Normalize(c, endpoint, protocol, true)
      case Err(_) => None
      case Ok(t) => Some(Config.Resolved(t.endpoint, protocol, None, t.insecure, primary.timeout))
  }

  /** The sink is on exactly if it is configured, enabled, and its endpoint is accepted: the one given, or
      the gRPC default if that is blank, over HTTP if it has an HTTP scheme, and over gRPC if not. */
  lemma SinkIsOn(c: Url.Codec, primary: Config.Resolved, opts: Config.Options, endpoint: Text, protocol: Text)
    requires opts.devSink.Some? ==>
      var given := Trim(opts.devSink.value.endpoint);
      endpoint == if given == [] then "localhost:4317" else given
    requires BeginsFold(endpoint, HTTP_PREFIX) || BeginsFold(endpoint, HTTPS_PREFIX) ==> protocol == "http/protobuf"
    requires !BeginsFold(endpoint, HTTP_PREFIX) && !BeginsFold(endpoint, HTTPS_PREFIX) ==> protocol == "grpc"
    ensures ResolveSink(c, primary, opts).Some? <==>
      opts.devSink.Some? && opts.devSink.value.enabled && Normalize(c, endpoint, protocol, true).Ok?
    ensures ResolveSink(c, primary, opts).Some? ==>
      var r, t := ResolveSink(c, primary, opts).value, Normalize(c, endpoint, protocol, true).value;
      r.protocol == protocol && r.endpoint == t.endpoint && r.insecure == t.insecure
  {
    hide Normalize, Trim, HasPrefixFold, BeginsFold;
    PrefixFold(endpoint, HTTP_PREFIX);
    PrefixFold(endpoint, HTTPS_PREFIX);
  }

  /** A sink that is on has a well-formed endpoint and the primary's timeout but none of its headers,
      and uses plain text unless its endpoint asks for https. */
  lemma SinkIsWellFormed(c: Url.Codec, primary: Config.Resolved, opts: Config.Options)
    requires ResolveSink(c, primary, opts).Some?
    ensures var r := ResolveSink(c, primary, opts).value;
      && WellFormed(r.protocol, Target(r.endpoint, r.insecure)) && r.headers.None?
      && (r.insecure <==> SchemeSaysInsecure(SinkEndpoint(opts.devSink.value)) != Some(false))
      && r.timeout == primary.timeout
  {
    hide Normalize, WellFormed, SchemeSaysInsecure, SinkEndpoint, HasPrefixFold;
    var r := ResolveSink(c, primary, opts).value;
    var endpoint := SinkEndpoint(opts.devSink.value);
    NormalizedIsWellFormed(c, endpoint, r.protocol, true);
    TlsAgreement(c, endpoint, r.protocol, true);
  }

  // ---- The fan-out --------------------------------------------------------------------------

  datatype Op<T> = Export(batch: T) | ForceFlush | Shutdown

  datatype Side = Primary | Dev

  /** An exporter: what it answers to a call may depend on all the calls it has received. */
  class Exporter<T> {
    const reply: seq<Op<T>> -> Option<nat>
    var calls: seq<Op<T>>

    constructor (reply: seq<Op<T>> -> Option<nat>)
      ensures calls == [] && this.reply == reply
    {
      this.reply := reply;
      calls := [];
    }

    method Call(op: Op<T>) returns (err: Option<nat>)
      modifies this
      ensures calls == old(calls) + [op] && err == reply(calls)
    {
      calls := calls + [op];
      err := reply(calls);
    }

    /** A whole run of calls on this exporter alone. */
    method Drive(ops: seq<Op<T>>) returns (errs: seq<Option<nat>>)
      modifies this
      ensures calls == old(calls) + ops
      ensures errs == Answers(reply, old(calls), ops)
    {
      errs := [];
      for i := 0 to |ops|
        invariant calls == old(calls) + ops[..i]
        invariant errs == Answers(reply, old(calls), ops[..i])
      {
        var err := Call(ops[i]);
        assert ops[..i + 1] == ops[..i] + [ops[i]] && ops[..i + 1][..i] == ops[..i];
        assert calls == old(calls) + ops[..i + 1];
        errs := errs + [err];
      }
      assert ops[..|ops|] == ops;
    }
  }

  /** The answers of an exporter to `ops` after `history`. */
  function Answers<T>(reply: seq<Op<T>> -> Option<nat>, history: seq<Op<T>>, ops: seq<Op<T>>): seq<Option<nat>> {
    if ops == [] then []
    else Answers(reply, history, ops[..|ops| - 1]) + [reply(history + ops)]
  }

  /** The multi-exporters. `order` records the calls to both sides as they happen. */
  class MultiExporter<T> {
    const primary: Exporter<T>
    const dev: Exporter<T>
    ghost var order: seq<(Side, Op<T>)>

    constructor (primary: Exporter<T>, dev: Exporter<T>)
      ensures this.primary == primary && this.dev == dev && order == []
    {
      this.primary, this.dev := primary, dev;
      order := [];
    }

    /** Export, ForceFlush and Shutdown: the primary first, and its answer only. */
    method Call(op: Op<T>) returns (err: Option<nat>)
      requires primary != dev
      modifies this, primary, dev
      ensures primary.calls == old(primary.calls) + [op]
      ensures dev.calls == old(dev.calls) + [op]
      ensures err == primary.reply(primary.calls)
      ensures order == old(order) + [(Primary, op), (Dev, op)]
    {
      err := primary.Call(op);
      order := order + [(Primary, op)];
      var _ := dev.Call(op);
      order := order + [(Dev, op)];
    }

    /** Transparency: over any run the caller gets the answers of the primary driven alone, the
        primary receives exactly that run, and so does the sink, each call right after the
        primary's, whatever the sink answers. */
    method Drive(ops: seq<Op<T>>) returns (errs: seq<Option<nat>>)
      requires primary != dev
      modifies this, primary, dev
      ensures primary.calls == old(primary.calls) + ops
      ensures dev.calls == old(dev.calls) + ops
      ensures errs == Answers(primary.reply, old(primary.calls), ops)
      ensures order == old(order) + Interleaved(ops)
    {
      errs := [];
      for i := 0 to |ops|
        invariant primary.calls == old(primary.calls) + ops[..i]
        invariant dev.calls == old(dev.calls) + ops[..i]
        invariant errs == Answers(primary.reply, old(primary.calls), ops[..i])
        invariant order == old(order) + Interleaved(ops[..i])
      {
        var err := Call(ops[i]);
        assert ops[..i + 1] == ops[..i] + [ops[i]] && ops[..i + 1][..i] == ops[..i];
        assert primary.calls == old(primary.calls) + ops[..i + 1];
        errs := errs + [err];
      }
      assert ops[..|ops|] == ops;
    }
  }

  function Interleaved<T>(ops: seq<Op<T>>): seq<(Side, Op<T>)> {
    if ops == [] then []
    else Interleaved(ops[..|ops| - 1]) + [(Primary, ops[|ops| - 1]), (Dev, ops[|ops| - 1])]
  }

  /** What one side sees of the common order. */
  function Seen<T>(side: Side, order: seq<(Side, Op<T>)>): seq<Op<T>> {
    if order == [] then []
    else
      var last := order[|order| - 1];
      Seen(side, order[..|order| - 1]) + if last.0 == side then [last.1] else []
  }

  /** Each side sees the run itself, and call k of the sink is the one right after call k of the
      primary. */
  lemma BothSidesSeeTheRun<T>(ops: seq<Op<T>>)
    ensures Seen(Primary, Interleaved(ops)) == ops && Seen(Dev, Interleaved(ops)) == ops
    ensures |Interleaved(ops)| == 2 * |ops|
    ensures forall k | 0 <= k < |ops| ::
      Interleaved(ops)[2 * k] == (Primary, ops[k]) && Interleaved(ops)[2 * k + 1] == (Dev, ops[k])
  {
    hide Seen, Interleaved;
    SeenOfInterleaved(Primary, ops);
    SeenOfInterleaved(Dev, ops);
    InterleavedAt(ops);
  }

  lemma {:induction false} InterleavedAt<T>(ops: seq<Op<T>>)
    ensures |Interleaved(ops)| == 2 * |ops|
    ensures forall k | 0 <= k < |ops| ::
      Interleaved(ops)[2 * k] == (Primary, ops[k]) && Interleaved(ops)[2 * k + 1] == (Dev, ops[k])
  {
    if ops != [] {
      InterleavedAt(ops[..|ops| - 1]);
    }
  }

  lemma SeenOfPair<T>(side: Side, order: seq<(Side, Op<T>)>, op: Op<T>)
    ensures Seen(side, order + [(Primary, op), (Dev, op)]) == Seen(side, order) + [op]
  {
    var order' := order + [(Primary, op)];
    assert order'[..|order|] == order;
    assert order + [(Primary, op), (Dev, op)] == order' + [(Dev, op)];
    assert (order' + [(Dev, op)])[..|order'|] == order';
  }

  lemma {:induction false} SeenOfInterleaved<T>(side: Side, ops: seq<Op<T>>)
    ensures Seen(side, Interleaved(ops)) == ops
  {
    if ops != [] {
      hide Seen;
      SeenOfInterleaved(side, ops[..|ops| - 1]);
      SeenOfPair(side, Interleaved(ops[..|ops| - 1]), ops[|ops| - 1]);
    }
  }
}
