/** The reachability check that decides between exporting and doing nothing (exporters.go). */
module Dial {
  import opened Values
  import opened GoText
  import opened Endpoint
  import opened Config
  import Url

  /** dialEndpoint: what is dialled; None when the endpoint does not parse. */
  function DialTarget(c: Url.Codec, r: Resolved): Option<Text> {
    if r.protocol != HTTP_PROTOBUF then Some(r.endpoint)
    else match Url.Parse(c, r.endpoint)
      case Err(_) => None
      case Ok(u) => Some(u.host)
  }

  /** A TCP dial needs an address with a port; given one, the network decides. */
  predicate Reaches(c: Url.Codec, r: Resolved, network: Text -> bool) {
    var target := DialTarget(c, r);
    target.Some? && SplitHostPort(target.value).Ok? && network(target.value)
  }

  /** exporterEndpointsReachable */
  predicate AllReachable(c: Url.Codec, cfg: ResolvedConfig, network: Text -> bool) {
    Reaches(c, cfg.traces, network) && Reaches(c, cfg.metrics, network) && Reaches(c, cfg.logs, network)
  }

  /** Every host and port that decodeHost accepts without change: no percent-encoding in them. */
  predicate Undecoded(c: Url.Codec, h: Text) {
    c.decodeHost(h) == Some(h)
  }

  // ---- gRPC ---------------------------------------------------------------------------------

  /** A resolved gRPC endpoint is dialled as it is, and can be: only the network decides. */
  lemma GrpcTarget(c: Url.Codec, sig: Signal, opts: Options, env: Env, network: Text -> bool)
    requires Resolve(c, sig, opts, env).Ok? && Resolve(c, sig, opts, env).value.protocol == GRPC
    ensures var r := Resolve(c, sig, opts, env).value;
      DialTarget(c, r) == Some(r.endpoint) && (Reaches(c, r, network) <==> network(r.endpoint))
  {
    ResolvedIsWellFormed(c, sig, opts, env);
    assert GRPC != HTTP_PROTOBUF by { assert GRPC[0] != HTTP_PROTOBUF[0]; }
  }

  // ---- HTTP, given as a URL -----------------------------------------------------------------

  /** The target of an accepted URL is the host that the URL was written with. */
  lemma UrlTarget(c: Url.Codec, endpoint: Text, insecure: bool, r: Resolved)
    requires Url.Lawful(c) && Contains(Trim(endpoint), "://")
    requires NormalizeHttp(c, endpoint, insecure).Ok?
    requires r.protocol == HTTP_PROTOBUF && r.endpoint == NormalizeHttp(c, endpoint, insecure).value.endpoint
    ensures DialTarget(c, r) == Some(Url.Parse(c, Trim(endpoint)).value.host)
  {
    hide Trim, FirstBad, Contains, PortProblem, Url.Parse, Url.Print, Url.Lawful, Url.Parsed;
    Url.ParseGivesParsed(c, Trim(endpoint));
    Url.PrintParse(c, Url.Parse(c, Trim(endpoint)).value);
  }

  /** A host written with one colon at most and without brackets. */
  predicate SimpleHost(h: Text) {
    '[' !in h && ']' !in h && (LastIndex(h, ':') >= 0 ==> ':' !in h[..LastIndex(h, ':')])
  }

  lemma SimpleHostPort(h: Text)
    requires SimpleHost(h)
    ensures SplitHostPort(h).Ok? <==> ':' in h
  {
    var i := LastIndex(h, ':');
    if i >= 0 {
      var hp := HostPort(h[..i], h[i + 1..]);
      assert h == hp.host + [':'] + hp.port;
      assert NoneOf(hp.host, {':', '[', ']'}) by {
        assert forall b | b in hp.host :: b in h;
      }
      assert NoneOf(hp.port, {':', '[', ']'}) by {
        assert forall b | b in hp.port :: b in h;
      }
      SplitPlain(hp);
    }
  }

  /** `h` is a host and a port, plain or with the host in brackets. */
  ghost predicate HasPort(h: Text) {
    exists hp :: WrittenAs(h, hp)
  }

  lemma HasPortMeansSplit(h: Text)
    ensures SplitHostPort(h).Ok? <==> HasPort(h)
  {
    hide SplitHostPort, WrittenAs;
    if SplitHostPort(h).Ok? {
      SplitHostPortExact(h, SplitHostPort(h).value);
    }
    if HasPort(h) {
      var hp :| WrittenAs(h, hp);
      SplitHostPortExact(h, hp);
    }
  }

  /** Such a URL can ever be dialled if and only if it was written with a port. The scheme's
      default port is not filled in. */
  lemma UrlNeedsPort(c: Url.Codec, endpoint: Text, insecure: bool, r: Resolved, network: Text -> bool)
    requires Url.Lawful(c) && Contains(Trim(endpoint), "://")
    requires NormalizeHttp(c, endpoint, insecure).Ok?
    requires r.protocol == HTTP_PROTOBUF && r.endpoint == NormalizeHttp(c, endpoint, insecure).value.endpoint
    ensures var host := Url.Parse(c, Trim(endpoint)).value.host;
      && (Reaches(c, r, network) <==> HasPort(host) && network(host))
      && (SimpleHost(host) ==> (HasPort(host) <==> ':' in host))
  {
    hide Trim, FirstBad, PortProblem, HostPortProblem, Url.Parse, Url.Lawful, DialTarget, HasPort, SimpleHost,
      SplitHostPort;
    UrlTarget(c, endpoint, insecure, r);
    var host := Url.Parse(c, Trim(endpoint)).value.host;
    HasPortMeansSplit(host);
    if SimpleHost(host) {
      SimpleHostPort(host);
    }
  }

  const DATADOG_HOST: Text := "otlp.datadoghq.com"
  const DATADOG_PATH: Text := "/v1/traces"

  function DatadogIntake(): Text {
    Url.Written("https", DATADOG_HOST, DATADOG_PATH)
  }

  /** The direct Datadog intake of the documentation is accepted, and never dialled on any
      network: it is written without a port. */
  lemma DocumentedIntakeIsNeverReached(c: Url.Codec, insecure: bool, r: Resolved, network: Text -> bool)
    requires Url.Lawful(c) && Undecoded(c, DATADOG_HOST) && c.tailOk(DATADOG_PATH)
    requires r.protocol == HTTP_PROTOBUF
    requires NormalizeHttp(c, DatadogIntake(), insecure).Ok? ==>
      r.endpoint == NormalizeHttp(c, DatadogIntake(), insecure).value.endpoint
    ensures NormalizeHttp(c, DatadogIntake(), insecure).Ok?
    ensures !Reaches(c, r, network)
  {
    hide Trim, FirstBad, PortProblem, HostPortProblem, SplitHostPort, Contains, DatadogIntake, Reaches, HasPort,
      SimpleHost, Undecoded, Url.Lawful, Url.Parse, Url.Print, Url.Port;
    DatadogIntakeText();
    DatadogIntakeParses(c);
    UrlNeedsPort(c, DatadogIntake(), insecure, r, network);
  }

  lemma DatadogIntakeText()
    ensures Trim(DatadogIntake()) == DatadogIntake() && FirstBad(DatadogIntake(), 0).None?
    ensures Contains(DatadogIntake(), "://")
  {
    hide Trim, FirstBad;
    var s := DatadogIntake();
    assert Printable(DATADOG_HOST) && Printable(DATADOG_PATH);
    assert Printable(s);
    PrintableIsSpaceFree(s);
    NothingBadIsClean(s);
    assert s[5..] == [':', '/', '/'] + DATADOG_HOST + DATADOG_PATH;
    assert [':', '/', '/'] <= s[5..];
  }

  predicate IsHostName(h: Text) {
    forall b | b in h :: 'a' <= b <= 'z' || b == '.'
  }

  lemma HostName(h: Text)
    requires IsHostName(h)
    ensures NoneOf(h, Url.AUTHORITY_END + {':', '@', '[', ']'}) && !Url.HasControl(h)
    ensures Url.Port(h) == [] && LastIndex(h, '@') == -1 && LastIndex(h, ':') == -1
  {
    hide Url.HasControl;
    assert ':' !in h && '@' !in h;
    NoControl(h);
  }

  lemma NoPortOk(h: Text)
    requires IsHostName(h)
    ensures Url.PortOk(h)
  {
    hide LastIndex, Url.OptionalPort;
    assert ':' !in h;
    assert h != [] ==> h[0] in h && h[0] != '[';
  }

  lemma NoControl(h: Text)
    requires IsHostName(h)
    ensures !Url.HasControl(h)
  {
  }

  lemma DatadogTail()
    ensures Url.TailShape(DATADOG_PATH) && !Url.HasControl(Url.Before(DATADOG_PATH, {'#'}))
  {
    assert Printable(DATADOG_PATH);
    assert forall b | b in Url.Before(DATADOG_PATH, {'#'}) :: b in DATADOG_PATH;
  }

  lemma DatadogIntakeParses(c: Url.Codec)
    requires Undecoded(c, DATADOG_HOST) && c.tailOk(DATADOG_PATH)
    ensures Url.Parse(c, DatadogIntake()) == Ok(Url.Url("https", None, DATADOG_HOST, DATADOG_PATH))
    ensures Url.Port(DATADOG_HOST) == [] && SimpleHost(DATADOG_HOST) && ':' !in DATADOG_HOST
  {
    hide Url.Parse, Url.HasControl, Url.Before, LastIndex, Url.TailShape, Url.Port, Url.PortOk;
    assert IsHostName(DATADOG_HOST);
    HostName(DATADOG_HOST);
    NoPortOk(DATADOG_HOST);
    DatadogTail();
    HttpsIsLower();
    Url.ParseWritten(c, "https", DATADOG_HOST, DATADOG_PATH);
    assert DATADOG_HOST[0..] == DATADOG_HOST;
  }

  lemma HttpsIsLower()
    ensures Lower("https") == "https" && Url.IsScheme("https")
  {
  }

  // ---- HTTP, given as host:port -------------------------------------------------------------

  /** The part of an authority after its last '@'. */
  function AfterUser(authority: Text): Text {
    authority[LastIndex(authority, '@') + 1..]
  }

  /** Whether the codec takes an authority, apart from its port, and the remainder behind it. */
  predicate CodecAccepts(c: Url.Codec, authority: Text, tail: Text) {
    var at := LastIndex(authority, '@');
    c.decodeHost(AfterUser(authority)).Some? && (at >= 0 ==> c.userOk(authority[..at])) && c.tailOk(tail)
  }

  /** The host of the URL that a bare endpoint becomes; None if it is refused as a URL. */
  function BareHost(c: Url.Codec, e: Text): Option<Text> {
    var a := Url.Before(e, Url.AUTHORITY_END);
    if CodecAccepts(c, a, e[|a|..]) then Url.DecodeHost(c, AfterUser(a)) else None
  }

  /** An accepted bare endpoint is dialled at the host of the URL that it becomes, if it becomes one:
      host:port validation accepts more than url.Parse. */
  lemma BareHttpTarget(c: Url.Codec, endpoint: Text, insecure: bool, r: Resolved)
    requires !Contains(Trim(endpoint), "://")
    requires NormalizeHttp(c, endpoint, insecure).Ok?
    requires r.protocol == HTTP_PROTOBUF && r.endpoint == NormalizeHttp(c, endpoint, insecure).value.endpoint
    ensures DialTarget(c, r) == BareHost(c, Trim(endpoint))
  {
    hide Trim, Contains, BareHost, HostPortProblem, Url.Before, Url.IsScheme, Url.Parse, Url.Print;
    var e := Trim(endpoint);
    PrefixText();
    BareParses(c, if insecure then "http" else "https", e);
    BareWritten(e, insecure);
  }

  lemma BareWritten(endpoint: Text, insecure: bool)
    ensures var a := Url.Before(endpoint, Url.AUTHORITY_END);
      (if insecure then HTTP_PREFIX else HTTPS_PREFIX) + endpoint
        == Url.Written(if insecure then "http" else "https", a, endpoint[|a|..])
  {
    hide Url.Before;
    var a := Url.Before(endpoint, Url.AUTHORITY_END);
    PrefixText();
    if insecure {
      WrittenText("http", a, endpoint[|a|..]);
    } else {
      WrittenText("https", a, endpoint[|a|..]);
    }
    assert a + endpoint[|a|..] == endpoint;
  }

  lemma PrefixText()
    ensures HTTP_PREFIX == "http" + [':', '/', '/'] && HTTPS_PREFIX == "https" + [':', '/', '/']
    ensures Url.IsScheme("http") && Url.IsScheme("https")
  {
  }

  lemma WrittenText(scheme: Text, authority: Text, tail: Text)
    ensures Url.Written(scheme, authority, tail) == (scheme + [':', '/', '/']) + (authority + tail)
  {
  }

  lemma BareParses(c: Url.Codec, scheme: Text, e: Text)
    requires Url.IsScheme(scheme) && HostPortProblem(e).None?
    ensures var a := Url.Before(e, Url.AUTHORITY_END);
      var u := Url.Parse(c, Url.Written(scheme, a, e[|a|..]));
      BareHost(c, e) == if u.Ok? then Some(u.value.host) else None
  {
    hide Trim, Url.Parse, Url.Before, Url.HasControl, Url.IsScheme, Url.PortOk, HostPortProblem, LastIndex,
      SplitHostPort;
    var a := Url.Before(e, Url.AUTHORITY_END);
    var tail := e[|a|..];
    HostPortAccepted(e);
    PartHasNoControl(a, e);
    PartHasNoControl(Url.Before(tail, {'#'}), e);
    Url.ParseWritten(c, scheme, a, tail);
  }

  lemma PartHasNoControl(part: Text, s: Text)
    requires !Url.HasControl(s) && forall b | b in part :: b in s
    ensures !Url.HasControl(part)
  {
  }

  // ---- When a bare endpoint can be reached --------------------------------------------------

  predicate Bracketed(s: Text) {
    ['['] <= s
  }

  /** What a bare endpoint must be to be reached, apart from the network. */
  predicate Reachable(c: Url.Codec, e: Text)
    requires SplitHostPort(e).Ok?
  {
    && NoneOf(e, Url.AUTHORITY_END) && AllDigits(SplitHostPort(e).value.port) && CodecAccepts(c, e, [])
    && (Bracketed(e) ==> SplitHostPort(c.decodeHost(AfterUser(e)).value).Ok?)
  }

  /** An accepted bare endpoint is reached exactly if no byte of it ends the authority early, its port
      is written without a sign, net/url takes its host and user-info part, and the network answers. */
  lemma BareHttpReaches(c: Url.Codec, endpoint: Text, insecure: bool, r: Resolved, network: Text -> bool)
    requires Url.Lawful(c) && !Contains(Trim(endpoint), "://")
    requires NormalizeHttp(c, endpoint, insecure).Ok?
    requires r.protocol == HTTP_PROTOBUF && r.endpoint == NormalizeHttp(c, endpoint, insecure).value.endpoint
    ensures var e := Trim(endpoint);
      SplitHostPort(e).Ok? &&
      (Reaches(c, r, network) <==> Reachable(c, e) && network(c.decodeHost(AfterUser(e)).value))
  {
    hide Trim, Contains, DialTarget, HostPortProblem, AfterUser, SplitHostPort, PlainHostPort, LooksLikeScheme,
      Bracketed, BareHost, Reachable, Url.Lawful, Url.Parse, Url.Print;
    BareHttpTarget(c, endpoint, insecure, r);
    BareHostReaches(c, Trim(endpoint));
  }

  lemma BareHostReaches(c: Url.Codec, e: Text)
    requires Url.Lawful(c) && HostPortProblem(e).None?
    ensures SplitHostPort(e).Ok?
    ensures Reachable(c, e) <==> BareHost(c, e).Some? && SplitHostPort(BareHost(c, e).value).Ok?
    ensures Reachable(c, e) ==> BareHost(c, e) == c.decodeHost(AfterUser(e))
  {
    hide HostPortProblem, AfterUser, SplitHostPort, NoneOf, AllDigits, LooksLikeScheme, Bracketed, LastIndex,
      Url.Before, Url.Lawful, Url.PortOk;
    HostPortAccepted(e);
    if BracketInUser(e) {
      BracketInUserRefused(c, e);
      return;
    }
    BareAuthority(e);
    var h := AfterUser(Url.Before(e, Url.AUTHORITY_END));
    if Url.DecodeHost(c, h).Some? && !Bracketed(h) {
      DecodedPort(c, h);
    }
  }

  /** A bracketed endpoint with an '@' in its authority: the bracket falls into the user-info part. */
  predicate BracketInUser(e: Text) {
    Bracketed(e) && '@' in Url.Before(e, Url.AUTHORITY_END)
  }

  lemma BracketInUserRefused(c: Url.Codec, e: Text)
    requires Url.Lawful(c) && SplitHostPort(e).Ok? && BracketInUser(e)
    ensures BareHost(c, e).None? && !Reachable(c, e)
  {
    hide SplitHostPort, AllDigits, Url.PortOk, Url.HostLaw, Url.TailLaw;
    var a := Url.Before(e, Url.AUTHORITY_END);
    var at := LastIndex(a, '@');
    assert a[0] == '[' && at > 0 && a[..at][0] == '[';
    assert !c.userOk(a[..at]) by {
      assert c.userOk(a[..at]) ==> Url.UserLaw(c, a[..at]);
    }
    if NoneOf(e, Url.AUTHORITY_END) {
      Url.BeforeIs(e, [], Url.AUTHORITY_END);
      assert e + [] == e;
    }
  }

  /** Decoding a host without brackets leaves its port where it is. */
  lemma DecodedPort(c: Url.Codec, h: Text)
    requires Url.Lawful(c) && Url.DecodeHost(c, h).Some? && !Bracketed(h)
    ensures SplitHostPort(Url.DecodeHost(c, h).value).Ok? <==> SplitHostPort(h).Ok?
  {
    hide SplitHostPort, Url.HostLaw, Url.UserLaw, Url.TailLaw, Url.DecodeHost;
    assert Url.PortLaw(h, Url.DecodeHost(c, h).value);
  }

  /** Of an accepted endpoint, the part that becomes the host has a port exactly if no byte ends the
      authority early; it is then written with digits only exactly if url.Parse takes it. */
  lemma BareAuthority(e: Text)
    requires HostPortProblem(e).None? && !BracketInUser(e)
    ensures var a := Url.Before(e, Url.AUTHORITY_END);
      && SplitHostPort(e).Ok?
      && (SplitHostPort(AfterUser(a)).Ok? <==> NoneOf(e, Url.AUTHORITY_END))
      && (Bracketed(AfterUser(a)) <==> Bracketed(e))
      && (NoneOf(e, Url.AUTHORITY_END) ==> (
            a == e && e[|a|..] == [] && (Url.PortOk(AfterUser(a)) <==> AllDigits(SplitHostPort(e).value.port))))
      && (Bracketed(e) && Url.PortOk(AfterUser(a)) ==> NoneOf(e, Url.AUTHORITY_END))
  {
    hide LooksLikeScheme, FirstBad, SplitHostPort, AfterUser, Url.PortOk, Url.Before, PortProblem, AllDigits;
    var hp := SplitHostPort(e).value;
    SplitSound(e);
    PortBytes(hp.port);
    var a := Url.Before(e, Url.AUTHORITY_END);
    if NoneOf(e, Url.AUTHORITY_END) {
      Url.BeforeIs(e, [], Url.AUTHORITY_END);
      assert e + [] == e;
      if Bracketed(e) {
        assert e == ['['] + hp.host + [']'] + [':'] + hp.port by {
          BracketsAreNotPlain(hp);
        }
        NoUser(e);
        BracketedPort(hp);
      } else {
        PlainPort(hp);
      }
    } else if Bracketed(e) {
      EarlyEndInBrackets(hp);
      NoUser(a);
      OpenBracketNoPort(a);
    } else {
      assert forall b | b in e :: b in hp.host || b == ':' || b in hp.port;
      assert forall b | b in a :: b in e;
      EarlyEnd(hp);
      PartAfterUser(a);
      assert AfterUser(a) != [] ==> AfterUser(a)[0] in a;
      NoColonNoPort(AfterUser(a));
    }
  }

  lemma BracketsAreNotPlain(hp: HostPort)
    requires '[' !in hp.host
    ensures !Bracketed(hp.host + [':'] + hp.port)
  {
    assert (hp.host + [':'] + hp.port)[0] == if hp.host == [] then ':' else hp.host[0];
  }

  lemma NoUser(a: Text)
    requires '@' !in a
    ensures AfterUser(a) == a
  {
    assert LastIndex(a, '@') == -1;
    assert a[0..] == a;
  }

  lemma PartAfterUser(a: Text)
    ensures forall b | b in AfterUser(a) :: b in a
  {
  }

  /** The port of a bracketed host. */
  lemma BracketedPort(hp: HostPort)
    requires NoneOf(hp.port, {':', '[', ']'}) && NoneOf(hp.host, {'[', ']'})
    ensures Url.PortOk(['['] + hp.host + [']'] + [':'] + hp.port) <==> AllDigits(hp.port)
  {
    hide LastIndex;
    var front, port := ['['] + hp.host, [':'] + hp.port;
    var s := front + [']'] + port;
    assert s == ['['] + hp.host + [']'] + [':'] + hp.port;
    LastIndexIs(front, ']', port);
    assert s[|front| + 1..] == port && port[1..] == hp.port;
  }

  /** The port of a plain host, after its user-info part. */
  lemma PlainPort(hp: HostPort)
    requires NoneOf(hp.port, {':', '[', ']', '@'}) && NoneOf(hp.host, {':', '[', ']'})
    ensures var h := AfterUser(hp.host + [':'] + hp.port);
      SplitHostPort(h).Ok? && !Bracketed(h) && (Url.PortOk(h) <==> AllDigits(hp.port))
  {
    hide LastIndex, SplitHostPort;
    AfterUserOfHost(hp);
    var host := AfterUser(hp.host);
    assert NoneOf(host, {':', '[', ']'});
    SplitPlain(HostPort(host, hp.port));
    LastIndexIs(host, ':', hp.port);
    var h := host + [':'] + hp.port;
    assert h[|host|..] == [':'] + hp.port && ([':'] + hp.port)[1..] == hp.port;
    assert h[0] == if host == [] then ':' else host[0];
  }

  lemma AfterUserIs(p: Text, s: Text)
    requires '@' !in s
    ensures AfterUser(p + ['@'] + s) == s
  {
    hide LastIndex;
    LastIndexIs(p, '@', s);
    assert (p + ['@'] + s)[|p| + 1..] == s;
  }

  lemma AfterUserOfHost(hp: HostPort)
    requires '@' !in hp.port
    ensures AfterUser(hp.host + [':'] + hp.port) == AfterUser(hp.host) + [':'] + hp.port
  {
    hide LastIndex, AfterUser;
    var s := hp.host + [':'] + hp.port;
    var i := LastIndex(hp.host, '@');
    if i >= 0 {
      var user, host := hp.host[..i], hp.host[i + 1..];
      assert hp.host == user + ['@'] + host;
      AfterUserIs(user, host);
      AfterUserIs(user, host + [':'] + hp.port);
      assert s == user + ['@'] + (host + [':'] + hp.port);
    } else {
      NoUser(s);
      NoUser(hp.host);
    }
  }

  lemma OpenBracketNoPort(s: Text)
    requires s != [] && s[0] == '[' && ']' !in s
    ensures SplitHostPort(s).Err? && !Url.PortOk(s)
  {
  }

  lemma EarlyEndInBrackets(hp: HostPort)
    requires NoneOf(hp.port, Url.AUTHORITY_END) && NoneOf(hp.host, {'[', ']'})
    requires !NoneOf(['['] + hp.host + [']'] + [':'] + hp.port, Url.AUTHORITY_END)
    ensures var p := Url.Before(['['] + hp.host + [']'] + [':'] + hp.port, Url.AUTHORITY_END);
      p != [] && p[0] == '[' && ']' !in p && p <= ['['] + hp.host + [']'] + [':'] + hp.port
  {
    hide Url.Before;
    var s := ['['] + hp.host + [']'] + [':'] + hp.port;
    var front := Url.Before(hp.host, Url.AUTHORITY_END);
    assert !NoneOf(hp.host, Url.AUTHORITY_END) by {
      assert forall b | b in s :: b == '[' || b in hp.host || b == ']' || b == ':' || b in hp.port;
    }
    assert |front| < |hp.host|;
    var rest := hp.host[|front|..] + [']'] + [':'] + hp.port;
    assert s == (['['] + front) + rest && rest[0] == hp.host[|front|];
    Url.BeforeIs(['['] + front, rest, Url.AUTHORITY_END);
    assert forall b | b in front :: b in hp.host;
  }

  lemma NoColonNoPort(s: Text)
    requires ':' !in s
    ensures SplitHostPort(s).Err?
  {
  }

  /** A port contains digits and at most a sign, so an early end lies in the host. */
  lemma EarlyEnd(hp: HostPort)
    requires NoneOf(hp.port, Url.AUTHORITY_END) && ':' !in hp.host
    requires !NoneOf(hp.host + [':'] + hp.port, Url.AUTHORITY_END)
    ensures ':' !in Url.Before(hp.host + [':'] + hp.port, Url.AUTHORITY_END)
  {
    hide Url.Before;
    var s := hp.host + [':'] + hp.port;
    var front := Url.Before(hp.host, Url.AUTHORITY_END);
    assert |front| < |hp.host| by {
      assert !NoneOf(hp.host, Url.AUTHORITY_END) by {
        assert forall b | b in s :: b in hp.host || b == ':' || b in hp.port;
      }
    }
    var rest := hp.host[|front|..] + [':'] + hp.port;
    assert s == front + rest && rest[0] == hp.host[|front|];
    Url.BeforeIs(front, rest, Url.AUTHORITY_END);
    assert forall b | b in front :: b in hp.host;
  }

  lemma PortBytes(port: Text)
    requires PortProblem(port).None?
    ensures NoneOf(port, Url.AUTHORITY_END + {'@'})
  {
    forall b | b in port ensures b !in Url.AUTHORITY_END + {'@'} {
      var i :| 0 <= i < |port| && port[i] == b;
      assert i > 0 ==> port[1..][i - 1] == b;
    }
  }

  // ---- Two inputs ---------------------------------------------------------------------------

  lemma PlainAccepted(c: Url.Codec, host: Text, port: Text, insecure: bool)
    requires Printable(host) && host != [] && NoneOf(host, {':', '[', ']'}) && host[0] == 'a'
    requires Printable(port) && NoneOf(port, {':', '[', ']', '/'}) && PortProblem(port).None?
    ensures var e := host + [':'] + port;
      && Trim(e) == e && !Contains(e, "://") && SplitHostPort(e) == Ok(HostPort(host, port))
      && NormalizeHttp(c, e, insecure) == Ok(Target((if insecure then HTTP_PREFIX else HTTPS_PREFIX) + e, insecure))
  {
    hide Trim, FirstBad, SplitHostPort, PortProblem, Url.HasControl;
    var e := host + [':'] + port;
    assert Printable(e) by {
      assert forall b | b in e :: b in host || b == ':' || b in port;
    }
    PrintableIsSpaceFree(e);
    Url.PrintableHasNoControl(e);
    NothingBadIsClean(e);
    SplitPlain(HostPort(host, port));
    NoSeparator(host, port);
    assert Lower(e)[0] == 'a';
  }

  lemma NoSeparator(host: Text, port: Text)
    requires ':' !in host && ':' !in port && '/' !in port
    ensures !Contains(host + [':'] + port, "://")
  {
    var e := host + [':'] + port;
    var sep: Text := "://";
    assert forall k | 0 <= k < |e| :: e[k] == ':' ==> k == |host|;
    assert port != [] ==> e[|host| + 1] == port[0] && port[0] in port;
    assert sep[0] == ':' && sep[1] == '/';
    assert forall i | 0 <= i <= |e| :: sep <= e[i..] ==> |e| >= i + 3 && e[i] == ':' && e[i + 1] == '/';
  }

  const SLASHED := HostPort("a/b", "80")
  const SIGNED := HostPort("a", "+80")

  function Plain(hp: HostPort): Text {
    hp.host + [':'] + hp.port
  }

  lemma PortsOfTheInputs()
    ensures PortProblem(SLASHED.port).None? && PortProblem(SIGNED.port).None? && !AllDigits(SIGNED.port)
  {
    hide Atoi;
    AtoiNumeral(80);
    AtoiSigned(80);
    assert Numeral(80) == "80" && ['+'] + Numeral(80) == "+80" by {
      assert Numeral(8) == "8";
    }
    assert '+' in SIGNED.port && !IsDigit('+');
  }

  /** A host and port that can stand on both sides of a colon. */
  predicate Simple(hp: HostPort) {
    && hp.host != [] && hp.host[0] == 'a'
    && (forall b | b in hp.host :: b == 'a' || b == 'b' || b == '/')
    && (forall b | b in hp.port :: b == '+' || IsDigit(b))
  }

  lemma InputsAreSimple()
    ensures Simple(SLASHED) && Simple(SIGNED) && '/' in SLASHED.host && '/' !in SIGNED.host
  {
    assert SLASHED.host[1] == '/';
  }

  lemma SimpleAccepted(c: Url.Codec, hp: HostPort, insecure: bool)
    requires Simple(hp) && PortProblem(hp.port).None?
    ensures var e := Plain(hp);
      Trim(e) == e && !Contains(e, "://") && SplitHostPort(e) == Ok(hp) && NormalizeHttp(c, e, insecure).Ok?
  {
    hide PortProblem;
    PlainAccepted(c, hp.host, hp.port, insecure);
  }

  /** `a/b:80` is accepted, and reached on no network: the slash ends the authority before the port. */
  lemma SlashBeforePort(c: Url.Codec, insecure: bool, network: Text -> bool, r: Resolved)
    requires Url.Lawful(c) && r.protocol == HTTP_PROTOBUF
    requires NormalizeHttp(c, Plain(SLASHED), insecure).Ok? ==>
      r.endpoint == NormalizeHttp(c, Plain(SLASHED), insecure).value.endpoint
    ensures Plain(SLASHED) == "a/b:80" && NormalizeHttp(c, Plain(SLASHED), insecure).Ok?
    ensures !Reaches(c, r, network)
  {
    hide NormalizeHttp, Reaches, PortProblem, Simple, Url.Lawful;
    PortsOfTheInputs();
    InputsAreSimple();
    EndsBeforePort(c, SLASHED, insecure, network, r);
  }

  lemma EndsBeforePort(c: Url.Codec, hp: HostPort, insecure: bool, network: Text -> bool, r: Resolved)
    requires Url.Lawful(c) && r.protocol == HTTP_PROTOBUF
    requires Simple(hp) && PortProblem(hp.port).None? && '/' in hp.host
    requires NormalizeHttp(c, Plain(hp), insecure).Ok? ==>
      r.endpoint == NormalizeHttp(c, Plain(hp), insecure).value.endpoint
    ensures NormalizeHttp(c, Plain(hp), insecure).Ok?
    ensures !Reaches(c, r, network)
  {
    hide Trim, Contains, NormalizeHttp, Reaches, PortProblem, SplitHostPort, Simple, NoneOf, Url.Lawful;
    SimpleAccepted(c, hp, insecure);
    SlashEnds(hp);
    EarlyEndIsNotReached(c, Plain(hp), insecure, network, r);
  }

  lemma SlashEnds(hp: HostPort)
    requires '/' in hp.host
    ensures !NoneOf(Plain(hp), Url.AUTHORITY_END)
  {
    assert '/' in Plain(hp);
  }

  lemma EarlyEndIsNotReached(c: Url.Codec, e: Text, insecure: bool, network: Text -> bool, r: Resolved)
    requires Url.Lawful(c) && r.protocol == HTTP_PROTOBUF
    requires Trim(e) == e && !Contains(e, "://") && NormalizeHttp(c, e, insecure).Ok?
    requires r.endpoint == NormalizeHttp(c, e, insecure).value.endpoint
    requires !NoneOf(e, Url.AUTHORITY_END)
    ensures !Reaches(c, r, network)
  {
    hide Trim, Contains, NormalizeHttp, Reaches, SplitHostPort, CodecAccepts, NoneOf, AllDigits, Url.Lawful;
    BareHttpReaches(c, e, insecure, r, network);
  }

  /** `a:+80` is accepted, and is no URL for any codec: a port has no sign there. */
  lemma SignBeforePort(c: Url.Codec, insecure: bool, r: Resolved)
    requires r.protocol == HTTP_PROTOBUF
    requires NormalizeHttp(c, Plain(SIGNED), insecure).Ok? ==>
      r.endpoint == NormalizeHttp(c, Plain(SIGNED), insecure).value.endpoint
    ensures Plain(SIGNED) == "a:+80" && NormalizeHttp(c, Plain(SIGNED), insecure).Ok?
    ensures DialTarget(c, r) == None
  {
    hide NormalizeHttp, DialTarget, PortProblem, AllDigits, Simple;
    PortsOfTheInputs();
    InputsAreSimple();
    HasSignedPort(c, SIGNED, insecure, r);
  }

  lemma HasSignedPort(c: Url.Codec, hp: HostPort, insecure: bool, r: Resolved)
    requires r.protocol == HTTP_PROTOBUF && Simple(hp) && PortProblem(hp.port).None?
    requires '/' !in hp.host && !AllDigits(hp.port)
    requires NormalizeHttp(c, Plain(hp), insecure).Ok? ==>
      r.endpoint == NormalizeHttp(c, Plain(hp), insecure).value.endpoint
    ensures NormalizeHttp(c, Plain(hp), insecure).Ok?
    ensures DialTarget(c, r) == None
  {
    hide Trim, Contains, NormalizeHttp, DialTarget, PortProblem, SplitHostPort, AllDigits, Simple, NoneOf;
    SimpleAccepted(c, hp, insecure);
    SimpleParts(hp);
    SignedTarget(c, hp, insecure, r);
  }

  lemma SimpleParts(hp: HostPort)
    requires Simple(hp) && '/' !in hp.host
    ensures NoneOf(hp.port, Url.AUTHORITY_END + {':', '[', ']', '@'})
      && NoneOf(hp.host, Url.AUTHORITY_END + {':', '[', ']'})
  {
  }

  lemma SignedTarget(c: Url.Codec, hp: HostPort, insecure: bool, r: Resolved)
    requires NoneOf(hp.port, Url.AUTHORITY_END + {':', '[', ']', '@'})
      && NoneOf(hp.host, Url.AUTHORITY_END + {':', '[', ']'})
    requires !AllDigits(hp.port) && r.protocol == HTTP_PROTOBUF
    requires var e := hp.host + [':'] + hp.port;
      && Trim(e) == e && !Contains(e, "://") && NormalizeHttp(c, e, insecure).Ok?
      && r.endpoint == NormalizeHttp(c, e, insecure).value.endpoint
    ensures DialTarget(c, r) == None
  {
    hide Trim, Contains, NormalizeHttp, DialTarget, AllDigits, CodecAccepts, SplitHostPort, AfterUser, Url.Before,
      Url.PortOk;
    var e := hp.host + [':'] + hp.port;
    BareHttpTarget(c, e, insecure, r);
    assert forall b | b in e :: b in hp.host || b == ':' || b in hp.port;
    Url.BeforeIs(e, [], Url.AUTHORITY_END);
    assert e + [] == e;
    PlainPort(hp);
  }
}
