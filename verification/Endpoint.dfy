/** Validation and normalisation of collector endpoints (env.go, config.go). */
module Endpoint {
  import opened Values
  import opened GoText
  import Url

  const GRPC: Text := "grpc"
  const HTTP_PROTOBUF: Text := "http/protobuf"
  const HTTP_PREFIX: Text := "http://"
  const HTTPS_PREFIX: Text := "https://"

  datatype Reason =
    | EndpointEmpty | WhitespaceAt(offset: nat) | ControlAt(byte: Byte, offset: nat)
    | MalformedScheme | NotHostPort(addr: AddrError) | HostEmpty
    | PortNotNumber(num: NumError) | PortOutOfRange(port: int)
    | NotUrl(url: Url.UrlError) | UnsupportedScheme(scheme: Text) | UnsupportedProtocol(protocol: Text)
    | TimeoutNotInteger(num: NumError) | TimeoutNegative

  /** The layer a setting came from; the source names it in an error by a string. */
  datatype Source = FromOption | FromVariable(name: Text) | FromPreset | FromDefault

  /** ConfigValidationError, with the field and the reason as values instead of prose. */
  datatype ConfigError = ConfigError(field: Source, value: Text, reason: Reason)

  datatype Target = Target(endpoint: Text, insecure: bool)

  /** validateNoWhitespaceOrControl from byte offset `i` on; None means there is nothing wrong. */
  function FirstBad(s: Text, i: nat): Option<Reason>
    requires i <= |s|
    decreases |s| - i
  {
    if i == |s| then None
    else if SpaceWidth(s[i..]) > 0 then Some(WhitespaceAt(i))
    else if Url.IsControl(s[i]) then Some(ControlAt(s[i], i))
    else FirstBad(s, i + 1)
  }

  ghost predicate Clean(s: Text) {
    SpaceFree(s) && !Url.HasControl(s)
  }

  predicate BadAt(s: Text, i: nat)
    requires i < |s|
  {
    SpaceWidth(s[i..]) > 0 || Url.IsControl(s[i])
  }

  lemma {:induction false} FirstBadIsFirst(s: Text, i: nat)
    requires i <= |s|
    ensures FirstBad(s, i).None? <==> forall j | i <= j < |s| :: !BadAt(s, j)
    ensures match FirstBad(s, i)
      case Some(WhitespaceAt(k)) => i <= k < |s| && BadAt(s, k) && forall j | i <= j < k :: !BadAt(s, j)
      case Some(ControlAt(b, k)) => i <= k < |s| && s[k] == b && BadAt(s, k) && forall j | i <= j < k :: !BadAt(s, j)
      case Some(_) => false
      case None => true
    decreases |s| - i
  {
    if i < |s| && !BadAt(s, i) {
      FirstBadIsFirst(s, i + 1);
    }
  }

  lemma NothingBadIsClean(s: Text)
    ensures FirstBad(s, 0).None? <==> Clean(s)
  {
    FirstBadIsFirst(s, 0);
    assert SpaceWidth(s[|s|..]) == 0;
    if FirstBad(s, 0).None? {
      forall b | b in s ensures !Url.IsControl(b) {
        var i :| 0 <= i < |s| && s[i] == b;
        assert !BadAt(s, i);
      }
      forall i | 0 <= i <= |s| ensures SpaceWidth(s[i..]) == 0 {
        assert i < |s| ==> !BadAt(s, i);
      }
    }
    if Clean(s) {
      assert forall i | 0 <= i < |s| :: s[i] in s && !BadAt(s, i);
    }
  }

  /** validatePort */
  function PortProblem(port: Text): Option<Reason> {
    match Atoi(port)
    case Err(e) => Some(PortNotNumber(e))
    case Ok(n) => if n < 1 || n > 65535 then Some(PortOutOfRange(n)) else None
  }

  predicate LooksLikeScheme(s: Text) {
    || Contains(s, "://")
    || HasPrefixFold(s, "//") || HasPrefixFold(s, "http:/") || HasPrefixFold(s, "https:/")
    || HasPrefixFold(s, "http/") || HasPrefixFold(s, "https/")
  }

  /** validateHostPortEndpoint */
  function HostPortProblem(s: Text): Option<Reason> {
    if s == [] then Some(EndpointEmpty)
    else if FirstBad(s, 0).Some? then FirstBad(s, 0)
    else if LooksLikeScheme(s) then Some(MalformedScheme)
    else
      match SplitHostPort(s)
      case Err(e) => Some(NotHostPort(e))
      case Ok(hp) => if hp.host == [] then Some(HostEmpty) else PortProblem(hp.port)
  }

  /** normalizeGRPCEndpoint */
  function NormalizeGrpc(endpoint: Text, insecure: bool): Result<Target, Reason> {
    var e := Trim(endpoint);
    var t :=
      if HasPrefixFold(e, HTTP_PREFIX) then Target(e[|HTTP_PREFIX|..], true)
      else if HasPrefixFold(e, HTTPS_PREFIX) then Target(e[|HTTPS_PREFIX|..], false)
      else Target(e, insecure);
    match HostPortProblem(t.endpoint)
    case Some(reason) => Err(reason)
    case None => Ok(t)
  }

  /** normalizeHTTPEndpoint */
  function NormalizeHttp(c: Url.Codec, endpoint: Text, insecure: bool): Result<Target, Reason> {
    var e := Trim(endpoint);
    if !Contains(e, "://") then
      match HostPortProblem(e)
      case Some(reason) => Err(reason)
      case None => Ok(Target((if insecure then HTTP_PREFIX else HTTPS_PREFIX) + e, insecure))
    else
      match Url.Parse(c, e)
      case Err(error) => Err(NotUrl(error))
      case Ok(u) =>
        if u.scheme != "http" && u.scheme != "https" then Err(UnsupportedScheme(u.scheme))
        else if u.host == [] then Err(HostEmpty)
        else if FirstBad(e, 0).Some? then Err(FirstBad(e, 0).value)
        else if Url.Port(u.host) != [] && PortProblem(Url.Port(u.host)).Some? then
          Err(PortProblem(Url.Port(u.host)).value)
        else Ok(Target(Url.Print(c, u), u.scheme == "http"))
  }

  /** normalizeEndpointForProtocol */
  function Normalize(c: Url.Codec, endpoint: Text, protocol: Text, insecure: bool): Result<Target, Reason> {
    if protocol == GRPC then NormalizeGrpc(endpoint, insecure)
    else if protocol == HTTP_PROTOBUF then NormalizeHttp(c, endpoint, insecure)
    else Err(UnsupportedProtocol(protocol))
  }

  // ---- What an accepted endpoint looks like -------------------------------------------------

  /** A host and port that can be dialled: no white space or control byte, no scheme, a host, and a
      port that strconv.Atoi reads as 1 to 65535. */
  ghost predicate PlainHostPort(s: Text) {
    && Clean(s) && !Contains(s, "://")
    && SplitHostPort(s).Ok? && SplitHostPort(s).value.host != []
    && (exists n :: Atoi(SplitHostPort(s).value.port) == Ok(n) && 1 <= n <= 65535)
  }

  ghost predicate WellFormed(protocol: Text, t: Target) {
    if protocol == GRPC then PlainHostPort(t.endpoint)
    else
      && (t.insecure <==> HTTP_PREFIX <= t.endpoint)
      && (!t.insecure <==> HTTPS_PREFIX <= t.endpoint)
  }

  /** validateHostPortEndpoint accepts exactly the plain endpoints that do not look like a URL. */
  lemma HostPortAccepted(s: Text)
    ensures HostPortProblem(s).None? <==> PlainHostPort(s) && !LooksLikeScheme(s)
    ensures HostPortProblem(s).None? <==> PlainHostPort(s) && !SchemeLike(s)
  {
    SchemeLikeBeginnings(s);
    hide SchemeLike, FirstBad, LooksLikeScheme, SplitHostPort, Clean;
    NothingBadIsClean(s);
    ContainsMeansScheme(s);
    EmptyIsNotPlain();
  }

  /** A text begins with `p` in some letter case. */
  predicate BeginsFold(s: Text, p: Text) {
    |p| <= |s| && Lower(s[..|p|]) == p
  }

  lemma PrefixFold(s: Text, p: Text)
    ensures HasPrefixFold(s, p) <==> BeginsFold(s, p)
  {
    if |p| <= |s| {
      assert Lower(s[..|p|]) == Lower(s)[..|p|];
      assert p <= Lower(s) <==> Lower(s)[..|p|] == p;
    }
  }

  /** What looks like a mistyped scheme: `://` anywhere, or one of five beginnings in any letter case. */
  predicate SchemeLike(s: Text) {
    || Contains(s, "://")
    || BeginsFold(s, "//") || BeginsFold(s, "http:/") || BeginsFold(s, "https:/")
    || BeginsFold(s, "http/") || BeginsFold(s, "https/")
  }

  lemma SchemeLikeBeginnings(s: Text)
    ensures LooksLikeScheme(s) <==> SchemeLike(s)
  {
    hide Contains, HasPrefixFold, BeginsFold;
    PrefixFold(s, "//");
    PrefixFold(s, "http:/");
    PrefixFold(s, "https:/");
    PrefixFold(s, "http/");
    PrefixFold(s, "https/");
  }

  /** Which reason is given for an endpoint that validateHostPortEndpoint refuses, in all cases. */
  lemma HostPortRefused(s: Text)
    ensures HostPortProblem(s) == Some(EndpointEmpty) <==> s == []
    ensures HostPortProblem(s) == FirstBad(s, 0) && FirstBad(s, 0).Some? <==> !Clean(s)
    ensures HostPortProblem(s) == Some(MalformedScheme) <==> s != [] && Clean(s) && LooksLikeScheme(s)
    ensures var parsed := s != [] && Clean(s) && !LooksLikeScheme(s);
      && (forall a :: HostPortProblem(s) == Some(NotHostPort(a)) <==> parsed && SplitHostPort(s) == Err(a))
      && (HostPortProblem(s) == Some(HostEmpty) <==>
            parsed && SplitHostPort(s).Ok? && SplitHostPort(s).value.host == [])
      && (forall e :: HostPortProblem(s) == Some(PortNotNumber(e)) <==>
            parsed && SplitHostPort(s).Ok? && SplitHostPort(s).value.host != []
            && Atoi(SplitHostPort(s).value.port) == Err(e))
      && (forall n :: HostPortProblem(s) == Some(PortOutOfRange(n)) <==>
            parsed && SplitHostPort(s).Ok? && SplitHostPort(s).value.host != []
            && Atoi(SplitHostPort(s).value.port) == Ok(n) && !(1 <= n <= 65535))
  {
    hide FirstBad, LooksLikeScheme, SplitHostPort, Clean, Atoi;
    NothingBadIsClean(s);
    EmptyIsClean();
    FirstBadKind(s);
  }

  lemma EmptyIsClean()
    ensures Clean([])
  {
  }

  lemma FirstBadKind(s: Text)
    ensures FirstBad(s, 0).Some? ==> FirstBad(s, 0).value.WhitespaceAt? || FirstBad(s, 0).value.ControlAt?
  {
    FirstBadIsFirst(s, 0);
  }

  lemma ContainsMeansScheme(s: Text)
    ensures !LooksLikeScheme(s) ==> !Contains(s, "://")
  {
  }

  lemma EmptyIsNotPlain()
    ensures SplitHostPort([]).Err?
  {
  }

  /** An accepted URL keeps its scheme, in lower case, when it is printed. */
  lemma HttpUrlPrinted(c: Url.Codec, u: Url.Url)
    requires u.scheme == "http" || u.scheme == "https"
    ensures WellFormed(HTTP_PROTOBUF, Target(Url.Print(c, u), u.scheme == "http"))
  {
    var front := u.scheme + [':', '/', '/'];
    var s := Url.Print(c, u);
    assert s == front + (Url.PrintUser(c, u.user) + c.encodeHost(u.host) + c.printTail(u.tail));
    assert front == if u.scheme == "http" then HTTP_PREFIX else HTTPS_PREFIX;
    PrefixesDiffer(s);
  }

  /** A host that a URL must have, and a port in range if it has one. */
  predicate HostInRange(host: Text) {
    host != [] && (Url.Port(host) != [] ==> PortProblem(Url.Port(host)).None?)
  }

  /** An HTTP endpoint is a clean URL as it is printed, or a host and port behind the scheme of the flag. */
  ghost predicate HttpFrom(c: Url.Codec, e: Text, t: Target) {
    if Contains(e, "://") then
      var u := Url.Parse(c, e);
      Clean(e) && u.Ok? && HostInRange(u.value.host) && t.endpoint == Url.Print(c, u.value)
    else
      PlainHostPort(e) && t.endpoint == (if t.insecure then HTTP_PREFIX else HTTPS_PREFIX) + e
  }

  /** Every accepted endpoint is well formed for its protocol. */
  lemma NormalizedIsWellFormed(c: Url.Codec, endpoint: Text, protocol: Text, insecure: bool)
    requires Normalize(c, endpoint, protocol, insecure).Ok?
    ensures WellFormed(protocol, Normalize(c, endpoint, protocol, insecure).value)
    ensures protocol == HTTP_PROTOBUF ==> HttpFrom(c, Trim(endpoint), Normalize(c, endpoint, protocol, insecure).value)
  {
    hide Contains, Trim, FirstBad, PortProblem, HostPortProblem, HasPrefixFold, PlainHostPort, Url.Parse,
      Url.Print, Url.Port;
    if protocol == GRPC {
      HostPortAccepted(NormalizeGrpc(endpoint, insecure).value.endpoint);
    } else {
      var e := Trim(endpoint);
      if !Contains(e, "://") {
        PrefixesDiffer((if insecure then HTTP_PREFIX else HTTPS_PREFIX) + e);
        HostPortAccepted(e);
      } else {
        HttpUrlPrinted(c, Url.Parse(c, e).value);
        NothingBadIsClean(e);
      }
    }
  }

  lemma PrefixesDiffer(s: Text)
    ensures !(HTTP_PREFIX <= s && HTTPS_PREFIX <= s)
  {
    assert HTTP_PREFIX[4] != HTTPS_PREFIX[4];
  }

  /** Under a lawful codec, an accepted URL is clean, parses to its scheme and to a host with a port in
      range if it has one, and normalising it again, with either flag, gives it and its flag back. */
  lemma HttpUrlNormalized(c: Url.Codec, endpoint: Text, insecure: bool, again: bool)
    requires Url.Lawful(c) && Contains(Trim(endpoint), "://")
    requires NormalizeHttp(c, endpoint, insecure).Ok?
    ensures var t := NormalizeHttp(c, endpoint, insecure).value;
      var u := Url.Parse(c, t.endpoint);
      && Clean(t.endpoint)
      && u.Ok? && u.value.scheme == (if t.insecure then "http" else "https") && HostInRange(u.value.host)
      && NormalizeHttp(c, t.endpoint, again) == Ok(t)
  {
    hide Trim, FirstBad, PortProblem, HostPortProblem, Contains, SpaceFree, Url.Lawful, Url.Parsed, Url.Parse,
      Url.Print, Url.Port, Url.HasControl;
    var e := Trim(endpoint);
    var u := Url.Parse(c, e).value;
    Url.ParseGivesParsed(c, e);
    Url.PrintParse(c, u);
    Url.PrintIsStable(c, u);
    PrintedIsClean(c, e);
    var s := Url.Print(c, u);
    TrimIdentity(s);
    NothingBadIsClean(s);
    PrintedHasScheme(c, u);
  }

  lemma PrintedIsClean(c: Url.Codec, e: Text)
    requires Url.Lawful(c) && FirstBad(e, 0).None?
    requires Url.Parse(c, e).Ok? && Url.Parse(c, e).value.host != [] && Url.Parse(c, e).value.scheme != []
    ensures Clean(Url.Print(c, Url.Parse(c, e).value))
  {
    hide FirstBad, Url.Lawful, Url.Parsed, Url.Parse, Url.Print;
    NothingBadIsClean(e);
    var k := Url.TailIsSuffix(c, e);
    assert forall i | 0 <= i <= |e[k..]| :: e[k..][i..] == e[k + i..];
    assert forall b | b in e[k..] :: b in e;
    Url.ParseGivesParsed(c, e);
    Url.PrintIsClean(c, Url.Parse(c, e).value);
  }

  lemma PrintedHasScheme(c: Url.Codec, u: Url.Url)
    ensures Contains(Url.Print(c, u), "://")
  {
    var s := Url.Print(c, u);
    var rest := Url.PrintUser(c, u.user) + c.encodeHost(u.host) + c.printTail(u.tail);
    assert s[|u.scheme|..] == [':', '/', '/'] + rest;
    assert [':', '/', '/'] <= s[|u.scheme|..];
  }

  // ---- Agreement with the TLS decision ------------------------------------------------------

  /** The part of resolveInsecure that looks at the endpoint: None leaves the decision to the
      options and the environment. */
  function SchemeSaysInsecure(endpoint: Text): Option<bool> {
    if HasPrefixFold(Trim(endpoint), HTTP_PREFIX) then Some(true)
    else if HasPrefixFold(Trim(endpoint), HTTPS_PREFIX) then Some(false)
    else None
  }

  /** Normalisation never disagrees with the scheme, in any letter case and for both protocols,
      and keeps the given flag when the endpoint has no scheme. */
  lemma TlsAgreement(c: Url.Codec, endpoint: Text, protocol: Text, insecure: bool)
    requires Normalize(c, endpoint, protocol, insecure).Ok?
    ensures Normalize(c, endpoint, protocol, insecure).value.insecure
      == match SchemeSaysInsecure(endpoint) { case Some(b) => b case None => insecure }
  {
    hide Contains, Trim, FirstBad, PortProblem, HostPortProblem, HasPrefixFold, Url.Parse, Url.Print, Url.Port;
    var e := Trim(endpoint);
    if protocol == HTTP_PROTOBUF {
      if Contains(e, "://") {
        UrlSchemeAgrees(c, e);
      } else {
        SchemePrefixContains(e);
      }
    }
  }

  lemma UrlSchemeAgrees(c: Url.Codec, e: Text)
    requires Url.Parse(c, e).Ok? && Url.Parse(c, e).value.host != []
    requires Url.Parse(c, e).value.scheme == "http" || Url.Parse(c, e).value.scheme == "https"
    ensures HasPrefixFold(e, HTTP_PREFIX) <==> Url.Parse(c, e).value.scheme == "http"
    ensures HasPrefixFold(e, HTTPS_PREFIX) <==> Url.Parse(c, e).value.scheme == "https"
  {
    hide Url.Parse, Lower;
    Url.HostNeedsAuthority(c, e);
    var scheme := Url.Parse(c, e).value.scheme;
    assert scheme + [':', '/', '/'] == if scheme == "http" then HTTP_PREFIX else HTTPS_PREFIX;
    PrefixesDiffer(Lower(e));
  }

  lemma SchemePrefixContains(e: Text)
    ensures HasPrefixFold(e, HTTP_PREFIX) || HasPrefixFold(e, HTTPS_PREFIX) ==> Contains(e, "://")
  {
    var sep: Text := "://";
    if HasPrefixFold(e, HTTP_PREFIX) {
      PrefixAt(e, HTTP_PREFIX, 4);
    } else if HasPrefixFold(e, HTTPS_PREFIX) {
      PrefixAt(e, HTTPS_PREFIX, 5);
    }
  }

  lemma PrefixAt(e: Text, prefix: Text, i: nat)
    requires HasPrefixFold(e, prefix)
    requires i + 3 == |prefix| && prefix[i] == ':' && prefix[i + 1] == '/' && prefix[i + 2] == '/'
    ensures Contains(e, "://")
  {
    hide Contains, Lower;
    assert |prefix| <= |e| && Lower(e)[i] == ':' && Lower(e)[i + 1] == '/' && Lower(e)[i + 2] == '/';
    ContainsAt(e, i);
  }

  lemma ContainsAt(e: Text, i: nat)
    requires i + 3 <= |e| && e[i] == ':' && e[i + 1] == '/' && e[i + 2] == '/'
    ensures Contains(e, "://")
  {
    var sep: Text := "://";
    assert e[i..][..3] == sep;
  }

  /** What gRPC accepts is all of the trimmed endpoint but its scheme, which may be in any letter case. */
  lemma GrpcKeepsTheRest(endpoint: Text, insecure: bool) returns (scheme: Text)
    requires NormalizeGrpc(endpoint, insecure).Ok?
    ensures Trim(endpoint) == scheme + NormalizeGrpc(endpoint, insecure).value.endpoint
    ensures Lower(scheme) == match SchemeSaysInsecure(endpoint)
      case Some(true) => HTTP_PREFIX
      case Some(false) => HTTPS_PREFIX
      case None => []
  {
    hide Trim, HostPortProblem;
    var e := Trim(endpoint);
    var n := if HasPrefixFold(e, HTTP_PREFIX) then |HTTP_PREFIX|
             else if HasPrefixFold(e, HTTPS_PREFIX) then |HTTPS_PREFIX| else 0;
    scheme := e[..n];
    assert Lower(scheme) == Lower(e)[..n];
  }

  /** gRPC accepts exactly what validation accepts of the rest, with the flag of the scheme, and refuses
      the others with its reason. */
  lemma GrpcAnswer(endpoint: Text, insecure: bool, scheme: Text, rest: Text)
    requires Trim(endpoint) == scheme + rest
    requires Lower(scheme) == match SchemeSaysInsecure(endpoint)
      case Some(true) => HTTP_PREFIX
      case Some(false) => HTTPS_PREFIX
      case None => []
    ensures NormalizeGrpc(endpoint, insecure) ==
      match HostPortProblem(rest)
      case Some(reason) => Err(reason)
      case None => Ok(Target(rest, if scheme == [] then insecure else SchemeSaysInsecure(endpoint) == Some(true)))
  {
    hide Trim, HostPortProblem, HasPrefixFold;
    assert (scheme + rest)[|scheme|..] == rest;
  }

  /** HTTP answers a text without `://` by host:port validation, and any other by its URL: it accepts
      exactly an http or https URL with a host, nothing unclean, and a port in range if there is one. */
  lemma HttpAnswer(c: Url.Codec, endpoint: Text, insecure: bool)
    ensures var e, r := Trim(endpoint), NormalizeHttp(c, endpoint, insecure);
      if !Contains(e, "://") then
        match HostPortProblem(e)
        case Some(reason) => r == Err(reason)
        case None => r == Ok(Target((if insecure then HTTP_PREFIX else HTTPS_PREFIX) + e, insecure))
      else
        var u := Url.Parse(c, e);
        && (r.Ok? <==> u.Ok? && u.value.scheme in ["http", "https"] && Clean(e) && HostInRange(u.value.host))
        && (forall x :: r == Err(NotUrl(x)) <==> u == Err(x))
        && (forall x :: r == Err(UnsupportedScheme(x)) <==>
              u.Ok? && u.value.scheme == x && x != "http" && x != "https")
        && (r == Err(HostEmpty) <==> u.Ok? && u.value.scheme in ["http", "https"] && u.value.host == [])
  {
    hide Trim, Contains, FirstBad, HostPortProblem, Url.Parse, Url.Print, Url.Port, PortProblem;
    var e := Trim(endpoint);
    NothingBadIsClean(e);
    FirstBadKind(e);
    if Url.Parse(c, e).Ok? {
      PortKind(Url.Port(Url.Parse(c, e).value.host));
    }
  }

  lemma PortKind(port: Text)
    ensures PortProblem(port).Some? ==>
      PortProblem(port).value.PortNotNumber? || PortProblem(port).value.PortOutOfRange?
  {
  }

  // ---- Idempotence --------------------------------------------------------------------------

  /** Normalising an accepted gRPC endpoint again, with either flag, gives it and that flag back. */
  lemma GrpcIdempotent(endpoint: Text, insecure: bool, again: bool)
    requires NormalizeGrpc(endpoint, insecure).Ok?
    ensures var e := NormalizeGrpc(endpoint, insecure).value.endpoint;
      NormalizeGrpc(e, again) == Ok(Target(e, again))
  {
    hide Trim, FirstBad, PortProblem, HasPrefixFold, SplitHostPort;
    var e := NormalizeGrpc(endpoint, insecure).value.endpoint;
    HostPortAccepted(e);
    TrimIdentity(e);
    SchemePrefixContains(e);
  }
}
