/** The part of net/url that endpoint handling relies on: scheme, authority and the remainder
  (section 3.2 of RFC 3986), in the order in which url.Parse takes them apart.

  How a host, a user-info part and a path/query/fragment are validated, decoded and printed back
  is a parameter, so the theorems hold for every such codec.
 */
module Url {
  import opened Values
  import opened GoText

  datatype Codec = Codec(
    decodeHost: Text -> Option<Text>,  // host characters and percent-decoding; the port is kept
    encodeHost: Text -> Text,
    userOk: Text -> bool,
    printUser: Text -> Text,
    tailOk: Text -> bool,              // path and fragment percent-decode; no control byte before a '#'
    printTail: Text -> Text)

  datatype UrlError =
    | ControlByte | MissingScheme | ColonInFirstSegment | BadHost | BadUser | BadTail

  datatype Url = Url(scheme: Text, user: Option<Text>, host: Text, tail: Text)

  /** The text before the first byte of `s` that is in `stops`. */
  function Before(s: Text, stops: set<Byte>): (p: Text)
    ensures p <= s && NoneOf(p, stops)
    ensures |p| < |s| ==> s[|p|] in stops
  {
    if s == [] || s[0] in stops then [] else [s[0]] + Before(s[1..], stops)
  }

  lemma {:induction false} BeforeIs(p: Text, s: Text, stops: set<Byte>)
    requires NoneOf(p, stops) && (s == [] || s[0] in stops)
    ensures Before(p + s, stops) == p
  {
    if p == [] {
      assert p + s == s;
    } else {
      assert (p + s)[1..] == p[1..] + s;
      BeforeIs(p[1..], s, stops);
    }
  }

  predicate IsControl(b: Byte) {
    b < ' ' || b as int == 0x7F
  }

  predicate HasControl(s: Text) {
    exists b | b in s :: IsControl(b)
  }

  predicate IsLetter(b: Byte) {
    'a' <= b <= 'z' || 'A' <= b <= 'Z'
  }

  /** The bytes that may follow the first one in a scheme. */
  predicate IsSchemeByte(b: Byte) {
    IsLetter(b) || IsDigit(b) || b == '+' || b == '-' || b == '.'
  }

  datatype SchemeResult = NoScheme | EmptyScheme | Scheme(length: nat)

  /** url.getScheme: the scheme is `s[..length]` and a colon follows it. */
  function GetScheme(s: Text): (r: SchemeResult)
    ensures r.Scheme? ==> 0 < r.length < |s| && s[r.length] == ':' && ':' !in s[..r.length]
  {
    var i := SchemeLength(s);
    if i == |s| || s[i] != ':' then NoScheme
    else if i == 0 then EmptyScheme
    else if !IsLetter(s[0]) then NoScheme
    else Scheme(i)
  }

  function SchemeLength(s: Text): (n: nat)
    ensures n <= |s| && forall b | b in s[..n] :: IsSchemeByte(b)
    ensures n < |s| ==> !IsSchemeByte(s[n])
  {
    if s == [] || !IsSchemeByte(s[0]) then 0
    else
      var n := SchemeLength(s[1..]);
      assert s[..n + 1] == [s[0]] + s[1..][..n];
      n + 1
  }

  lemma SchemeLengthIs(p: Text, s: Text)
    requires forall b | b in p :: IsSchemeByte(b)
    requires s != [] && !IsSchemeByte(s[0])
    ensures SchemeLength(p + s) == |p|
  {
    var n := SchemeLength(p + s);
    assert (p + s)[|p|] == s[0];
    assert forall i | 0 <= i < |p| :: (p + s)[i] == p[i] && p[i] in p;
    assert forall i | |p| < i <= |p + s| :: (p + s)[..i][|p|] == s[0];
  }

  const AUTHORITY_END: set<Byte> := {'/', '?', '#'}

  /** url.Parse */
  function Parse(c: Codec, s: Text): Result<Url, UrlError> {
    if HasControl(Before(s, {'#'})) then Err(ControlByte)
    else
      match GetScheme(s)
      case EmptyScheme => Err(MissingScheme)
      case NoScheme =>
        if ['/'] <= s then ParseRest(c, [], s)
        else if ':' in Before(s, AUTHORITY_END) then Err(ColonInFirstSegment)
        else if c.tailOk(s) then Ok(Url([], None, [], s)) else Err(BadTail)
      case Scheme(n) =>
        var rest := s[n + 1..];
        if ['/'] <= rest then ParseRest(c, Lower(s[..n]), rest)
        else if c.tailOk(rest) then Ok(Url(Lower(s[..n]), None, [], rest))  // opaque: no host
        else Err(BadTail)
  }

  function ParseRest(c: Codec, scheme: Text, rest: Text): (r: Result<Url, UrlError>)
    ensures r.Ok? ==> r.value.scheme == scheme
  {
    if ['/', '/'] <= rest && (scheme != [] || !(['/', '/', '/'] <= rest)) then
      var authority := Before(rest[2..], AUTHORITY_END);
      ParseAuthority(c, scheme, authority, rest[2 + |authority|..])
    else if c.tailOk(rest) then Ok(Url(scheme, None, [], rest))
    else Err(BadTail)
  }

  /** A port may be left out, and may be empty. */
  predicate OptionalPort(s: Text) {
    s == [] || (s[0] == ':' && AllDigits(s[1..]))
  }

  /** What follows the bracket, or the last colon, of a host must be an optional port. */
  predicate PortOk(host: Text) {
    if ['['] <= host then
      var i := LastIndex(host, ']');
      i >= 0 && OptionalPort(host[i + 1..])
    else
      var i := LastIndex(host, ':');
      i < 0 || OptionalPort(host[i..])
  }

  /** url.parseHost */
  function DecodeHost(c: Codec, host: Text): Option<Text> {
    if PortOk(host) then c.decodeHost(host) else None
  }

  /** The user-info part of an authority ends at its last '@'. */
  function ParseAuthority(c: Codec, scheme: Text, authority: Text, tail: Text): (r: Result<Url, UrlError>)
    ensures r.Ok? ==> r.value.scheme == scheme && r.value.tail == tail
  {
    var at := LastIndex(authority, '@');
    var host := DecodeHost(c, authority[at + 1..]);
    if host.None? then Err(BadHost)
    else if at >= 0 && !c.userOk(authority[..at]) then Err(BadUser)
    else if !c.tailOk(tail) then Err(BadTail)
    else Ok(Url(scheme, if at < 0 then None else Some(authority[..at]), host.value, tail))
  }

  /** `(*URL).String` for a URL with a host, the only kind that is printed. */
  function Print(c: Codec, u: Url): Text {
    u.scheme + [':', '/', '/'] + PrintUser(c, u.user) + c.encodeHost(u.host) + c.printTail(u.tail)
  }

  function PrintUser(c: Codec, user: Option<Text>): Text {
    if user.None? then [] else c.printUser(user.value) + ['@']
  }

  /** `(*URL).Port`: the digits after the last colon of the host. */
  function Port(host: Text): Text {
    var i := LastIndex(host, ':');
    if i >= 0 && AllDigits(host[i + 1..]) then host[i + 1..] else []
  }

  /** The port is what was written behind the last colon, if that is a number. */
  lemma PortIs(host: Text, port: Text)
    requires ':' !in port
    ensures Port(host + [':'] + port) == if AllDigits(port) then port else []
    ensures Port(port) == []
  {
    LastIndexIs(host, ':', port);
    assert (host + [':'] + port)[|host| + 1..] == port;
  }

  /** A control byte before the fragment is refused, and nothing else is refused as one. */
  lemma ControlIsRefused(c: Codec, s: Text)
    ensures Parse(c, s) == Err(ControlByte) <==> HasControl(Before(s, {'#'}))
  {
    hide HasControl, Before, GetScheme, LastIndex, DecodeHost;
  }

  lemma SchemePrefix(s: Text, n: nat)
    requires n + 2 < |s| && s[n] == ':' && s[n + 1] == '/' && s[n + 2] == '/'
    ensures HasPrefixFold(s, Lower(s[..n]) + [':', '/', '/'])
  {
    var p := Lower(s[..n]) + [':', '/', '/'];
    assert forall i | 0 <= i < |p| :: p[i] == Lower(s)[i];
  }

  /** A URL that has a host begins, in the text it was parsed from, with its scheme and `://`. */
  lemma HostNeedsAuthority(c: Codec, s: Text)
    requires Parse(c, s).Ok? && Parse(c, s).value.host != [] && Parse(c, s).value.scheme != []
    ensures HasPrefixFold(s, Parse(c, s).value.scheme + [':', '/', '/'])
  {
    hide SchemeLength, HasControl, Before, ParseAuthority, HasPrefixFold, Lower;
    var n := GetScheme(s).length;
    var rest := s[n + 1..];
    assert ['/', '/'] <= rest && Parse(c, s).value.scheme == Lower(s[..n]);
    assert rest[0] == '/' && rest[1] == '/';
    SchemePrefix(s, n);
  }

  // ---- Printing and parsing again -----------------------------------------------------------

  /** What printing a host, a user-info part or a remainder must promise; that decoding a host without
      brackets leaves its port where it is; and that a user-info part has no opening bracket. */
  ghost predicate Lawful(c: Codec) {
    && (forall h | DecodeHost(c, h).Some? :: HostLaw(c, DecodeHost(c, h).value) && PortLaw(h, DecodeHost(c, h).value))
    && (forall u | c.userOk(u) :: UserLaw(c, u))
    && (forall t | c.tailOk(t) && TailShape(t) :: TailLaw(c, t))
  }

  predicate HostLaw(c: Codec, h: Text) {
    && DecodeHost(c, c.encodeHost(h)) == Some(h)
    && NoneOf(c.encodeHost(h), AUTHORITY_END + {'@'}) && Printable(c.encodeHost(h))
  }

  predicate PortLaw(h: Text, decoded: Text) {
    ['['] <= h || (SplitHostPort(decoded).Ok? <==> SplitHostPort(h).Ok?)
  }

  predicate UserLaw(c: Codec, u: Text) {
    var p := c.printUser(u);
    '[' !in u && c.userOk(p) && c.printUser(p) == p && NoneOf(p, AUTHORITY_END) && Printable(p)
  }

  predicate TailShape(t: Text) {
    t == [] || t[0] in AUTHORITY_END
  }

  ghost predicate TailLaw(c: Codec, t: Text) {
    var p := c.printTail(t);
    && c.tailOk(p) && c.printTail(p) == p && TailShape(p) && !HasControl(Before(p, {'#'}))
    && (SpaceFree(t) && !HasControl(t) ==> SpaceFree(p) && !HasControl(p))
  }

  /** The codec that encodes nothing, and accepts what it can print. */
  const PLAIN := Codec(
    h => if NoneOf(h, AUTHORITY_END + {'@'}) && Printable(h) then Some(h) else None,
    h => h,
    u => NoneOf(u, AUTHORITY_END + {'['}) && Printable(u),
    u => u,
    t => TailShape(t) && !HasControl(Before(t, {'#'})),
    t => t)

  /** The laws do not contradict each other: a codec that encodes nothing meets them. */
  lemma PlainIsLawful()
    ensures Lawful(PLAIN)
  {
    hide HasControl, Before, PortOk, SplitHostPort, SpaceFree, Printable, TailShape;
    assert forall h | DecodeHost(PLAIN, h).Some? :: DecodeHost(PLAIN, h).value == h;
  }

  lemma PrintableHasNoControl(s: Text)
    requires Printable(s)
    ensures !HasControl(s)
  {
  }

  predicate IsScheme(s: Text) {
    s != [] && IsLetter(s[0]) && forall b | b in s :: IsSchemeByte(b)
  }

  /** A URL that came out of Parse, with a scheme and a host. */
  ghost predicate Parsed(c: Codec, u: Url) {
    && IsScheme(u.scheme) && Lower(u.scheme) == u.scheme
    && (exists h :: DecodeHost(c, h) == Some(u.host))
    && (u.user.Some? ==> c.userOk(u.user.value))
    && c.tailOk(u.tail) && TailShape(u.tail)
  }

  lemma LowerScheme(s: Text)
    requires IsScheme(s)
    ensures IsScheme(Lower(s)) && Lower(Lower(s)) == Lower(s)
  {
    forall b | b in Lower(s) ensures IsSchemeByte(b) {
      var i :| 0 <= i < |s| && Lower(s)[i] == b;
      assert s[i] in s;
    }
  }

  lemma ParseRestGivesParsed(c: Codec, scheme: Text, rest: Text)
    requires IsScheme(scheme) && Lower(scheme) == scheme
    requires ParseRest(c, scheme, rest).Ok? && ParseRest(c, scheme, rest).value.host != []
    ensures Parsed(c, ParseRest(c, scheme, rest).value)
    ensures ParseRest(c, scheme, rest).value.scheme == scheme
  {
    hide Before, LastIndex, Lower, IsScheme, ParseAuthority, Parsed;
    assert ['/', '/'] <= rest;
    var authority := Before(rest[2..], AUTHORITY_END);
    var tail := rest[2 + |authority|..];
    assert tail != [] ==> tail[0] == rest[2..][|authority|];
    AuthorityGivesParsed(c, scheme, authority, tail);
  }

  lemma AuthorityGivesParsed(c: Codec, scheme: Text, authority: Text, tail: Text)
    requires IsScheme(scheme) && Lower(scheme) == scheme && TailShape(tail)
    requires ParseAuthority(c, scheme, authority, tail).Ok?
    ensures Parsed(c, ParseAuthority(c, scheme, authority, tail).value)
  {
    hide Before, LastIndex, Lower, IsScheme, TailShape, PortOk;
  }

  lemma ParseGivesParsed(c: Codec, s: Text)
    requires Parse(c, s).Ok? && Parse(c, s).value.host != [] && Parse(c, s).value.scheme != []
    ensures Parsed(c, Parse(c, s).value)
  {
    match GetScheme(s)
    case Scheme(n) =>
      LowerScheme(s[..n]);
      ParseRestGivesParsed(c, Lower(s[..n]), s[n + 1..]);
    case NoScheme =>
    case EmptyScheme =>
  }

  /** A text with one scheme, `://`, an authority and a remainder. */
  function Written(scheme: Text, authority: Text, tail: Text): Text {
    scheme + [':', '/', '/'] + authority + tail
  }

  lemma {:induction false} BeforeAppend(p: Text, s: Text, stops: set<Byte>)
    requires NoneOf(p, stops)
    ensures Before(p + s, stops) == p + Before(s, stops)
  {
    if p == [] {
      assert p + s == s;
    } else {
      assert (p + s)[1..] == p[1..] + s;
      BeforeAppend(p[1..], s, stops);
    }
  }

  lemma SchemeOfWritten(scheme: Text, authority: Text, tail: Text)
    requires IsScheme(scheme)
    ensures GetScheme(Written(scheme, authority, tail)) == Scheme(|scheme|)
  {
    var s := Written(scheme, authority, tail);
    var rest := [':', '/', '/'] + authority + tail;
    assert s == scheme + rest;
    SchemeLengthIs(scheme, rest);
    assert s[|scheme|] == ':' && s[0] == scheme[0];
  }

  lemma WrittenHasNoControl(scheme: Text, authority: Text, tail: Text)
    requires IsScheme(scheme)
    requires NoneOf(authority, AUTHORITY_END) && !HasControl(authority)
    requires !HasControl(Before(tail, {'#'}))
    ensures !HasControl(Before(Written(scheme, authority, tail), {'#'}))
  {
    var front := scheme + [':', '/', '/'] + authority;
    assert forall b | b in front :: b in scheme || b in [':', '/', '/'] || b in authority;
    assert NoneOf(front, {'#'}) && !HasControl(front);
    BeforeAppend(front, tail, {'#'});
  }

  lemma SplitWritten(scheme: Text, authority: Text, tail: Text)
    ensures var s := Written(scheme, authority, tail);
      s[..|scheme|] == scheme && s[|scheme| + 1..] == ['/', '/'] + authority + tail
  {
  }

  lemma ParseWithScheme(c: Codec, s: Text, n: nat)
    requires !HasControl(Before(s, {'#'}))
    requires GetScheme(s) == Scheme(n) && ['/'] <= s[n + 1..]
    ensures Parse(c, s) == ParseRest(c, Lower(s[..n]), s[n + 1..])
  {
  }

  lemma ParseRestWritten(c: Codec, scheme: Text, authority: Text, tail: Text)
    requires scheme != [] && TailShape(tail) && NoneOf(authority, AUTHORITY_END)
    ensures ParseRest(c, scheme, ['/', '/'] + authority + tail)
         == ParseAuthority(c, scheme, authority, tail)
  {
    var rest := ['/', '/'] + authority + tail;
    assert rest[2..] == authority + tail;
    BeforeIs(authority, tail, AUTHORITY_END);
    assert rest[2 + |authority|..] == tail;
  }

  /** What stands before the first colon of a text must be a scheme, unless a '/', '?' or '#' comes first. */
  lemma ColonNeedsScheme(c: Codec, p: Text, rest: Text)
    requires NoneOf(p, AUTHORITY_END + {':'}) && !IsScheme(p)
    requires !HasControl(Before(p + [':'] + rest, {'#'}))
    ensures Parse(c, p + [':'] + rest) == Err(if p == [] then MissingScheme else ColonInFirstSegment)
  {
    hide HasControl, Before, SchemeLength;
    var s := p + [':'] + rest;
    BeforeAppend(p + [':'], rest, AUTHORITY_END);
    assert s == (p + [':']) + rest && ':' in p + [':'];
    NoSchemeBefore(p, rest);
    assert s[0] == if p == [] then ':' else p[0];
  }

  lemma NoSchemeBefore(p: Text, rest: Text)
    requires NoneOf(p, AUTHORITY_END + {':'}) && !IsScheme(p)
    ensures GetScheme(p + [':'] + rest) == if p == [] then EmptyScheme else NoScheme
  {
    var s := p + [':'] + rest;
    var n := SchemeLength(s);
    assert forall i | 0 <= i < |p| :: s[i] == p[i] && p[i] in p;
    assert s[|p|] == ':' && !IsSchemeByte(':');
    assert forall k | 0 <= k < n :: s[..n][k] == s[k] && s[..n][k] in s[..n];
    assert n <= |p|;
    assert n == |p| ==> s[..n] == p;
  }

  /** A text without such a colon, and not beginning with '/', is all remainder. */
  lemma NoColonNoScheme(c: Codec, s: Text)
    requires ':' !in Before(s, AUTHORITY_END) && !(['/'] <= s) && !HasControl(Before(s, {'#'}))
    ensures Parse(c, s) == if c.tailOk(s) then Ok(Url([], None, [], s)) else Err(BadTail)
  {
    hide HasControl, Before, GetScheme;
    NoColonSoNone(s);
  }

  lemma NoColonSoNone(s: Text)
    requires ':' !in Before(s, AUTHORITY_END)
    ensures GetScheme(s).NoScheme?
  {
    hide Before, SchemeLength;
    var p, n := Before(s, AUTHORITY_END), SchemeLength(s);
    assert |p| < |s| ==> !IsSchemeByte(s[|p|]);
    assert forall k | 0 <= k < n :: s[..n][k] == s[k] && s[..n][k] in s[..n];
    assert n <= |p|;
    assert n < |p| ==> p[n] == s[n] && p[n] in p;
  }

  /** Parsing a text written this way finds the authority and the remainder again. */
  lemma ParseWritten(c: Codec, scheme: Text, authority: Text, tail: Text)
    requires IsScheme(scheme) && TailShape(tail)
    requires NoneOf(authority, AUTHORITY_END) && !HasControl(authority)
    requires !HasControl(Before(tail, {'#'}))
    ensures Parse(c, Written(scheme, authority, tail))
         == ParseAuthority(c, Lower(scheme), authority, tail)
  {
    var s := Written(scheme, authority, tail);
    WrittenHasNoControl(scheme, authority, tail);
    SchemeOfWritten(scheme, authority, tail);
    var rest := ['/', '/'] + authority + tail;
    SplitWritten(scheme, authority, tail);
    ParseWithScheme(c, s, |scheme|);
    ParseRestWritten(c, Lower(scheme), authority, tail);
  }

  /** Under a lawful codec, printing a parsed URL and parsing it again finds the same scheme and
      the same host, and the user-info part and the remainder as they were printed. */
  lemma {:induction false} PrintParse(c: Codec, u: Url)
    requires Lawful(c) && Parsed(c, u)
    ensures Parse(c, Print(c, u)) == Ok(Reparsed(c, u))
  {
    hide HasControl, Before, LastIndex, Lower, IsScheme, Parse, TailShape;
    var tail := c.printTail(u.tail);
    assert HostLaw(c, u.host) && TailLaw(c, u.tail) && (u.user.Some? ==> UserLaw(c, u.user.value));
    PrintedAuthority(c, u.user, u.host);
    var authority := PrintUser(c, u.user) + c.encodeHost(u.host);
    assert Print(c, u) == Written(u.scheme, authority, tail);
    ParseWritten(c, u.scheme, authority, tail);
    LastAt(c, u.user, c.encodeHost(u.host));
  }

  /** The URL that printing and parsing make of `u`. */
  function Reparsed(c: Codec, u: Url): Url {
    Url(u.scheme, if u.user.None? then None else Some(c.printUser(u.user.value)), u.host, c.printTail(u.tail))
  }

  /** Printing settles everything: the URL found by parsing again is printed the same. */
  lemma PrintIsStable(c: Codec, u: Url)
    requires Lawful(c) && Parsed(c, u)
    ensures Print(c, Reparsed(c, u)) == Print(c, u)
  {
    hide HostLaw, TailShape, PortOk, Before, HasControl, SpaceFree;
    assert TailLaw(c, u.tail) && (u.user.Some? ==> UserLaw(c, u.user.value));
  }

  /** The remainder of a URL is the end of the text it was parsed from. */
  lemma TailIsSuffix(c: Codec, s: Text) returns (k: nat)
    requires Parse(c, s).Ok? && Parse(c, s).value.host != [] && Parse(c, s).value.scheme != []
    ensures k <= |s| && Parse(c, s).value.tail == s[k..]
  {
    hide Before, Lower, ParseAuthority, GetScheme, HasControl;
    var n := GetScheme(s).length;
    var rest := s[n + 1..];
    var authority := Before(rest[2..], AUTHORITY_END);
    k := n + 3 + |authority|;
    assert rest[2 + |authority|..] == s[k..];
  }

  lemma SpaceFreeAfter(front: Text, t: Text)
    requires Printable(front) && SpaceFree(t)
    ensures SpaceFree(front + t)
  {
    var s := front + t;
    forall i | 0 <= i <= |s| ensures SpaceWidth(s[i..]) == 0 {
      if i < |front| {
        assert s[i..][0] == front[i] && front[i] in front;
        PrintableStartsNoSpace(s[i..]);
      } else {
        assert s[i..] == t[i - |front|..];
      }
    }
  }

  lemma PrintableStartsNoSpace(s: Text)
    requires s != [] && '!' <= s[0] <= '~'
    ensures SpaceWidth(s) == 0
  {
  }

  /** A URL whose remainder has no white space and no control character is printed without any. */
  lemma PrintIsClean(c: Codec, u: Url)
    requires Lawful(c) && Parsed(c, u)
    requires SpaceFree(u.tail) && !HasControl(u.tail)
    ensures SpaceFree(Print(c, u)) && !HasControl(Print(c, u))
  {
    hide SpaceFree, TailShape, PortOk, Before, Lower, HasControl;
    assert HostLaw(c, u.host) && TailLaw(c, u.tail) && (u.user.Some? ==> UserLaw(c, u.user.value));
    var front := u.scheme + [':', '/', '/'] + PrintUser(c, u.user) + c.encodeHost(u.host);
    var tail := c.printTail(u.tail);
    assert Printable(front) by {
      assert Printable(u.scheme) && Printable([':', '/', '/']) && Printable(PrintUser(c, u.user));
      assert forall b | b in front ::
        b in u.scheme || b in [':', '/', '/'] || b in PrintUser(c, u.user) || b in c.encodeHost(u.host);
    }
    assert Print(c, u) == front + tail;
    SpaceFreeAfter(front, tail);
    PrintableHasNoControl(front);
    NoControlInBoth(front, tail);
  }

  lemma NoControlInBoth(a: Text, b: Text)
    requires !HasControl(a) && !HasControl(b)
    ensures !HasControl(a + b)
  {
  }

  lemma PrintedAuthority(c: Codec, user: Option<Text>, host: Text)
    requires HostLaw(c, host) && (user.Some? ==> UserLaw(c, user.value))
    ensures var authority := PrintUser(c, user) + c.encodeHost(host);
      NoneOf(authority, AUTHORITY_END) && !HasControl(authority)
  {
    var front, h := PrintUser(c, user), c.encodeHost(host);
    assert NoneOf(front, AUTHORITY_END) && !HasControl(front);
    assert forall b | b in front + h :: b in front || b in h;
  }

  lemma LastAt(c: Codec, user: Option<Text>, h: Text)
    requires '@' !in h
    ensures var authority := PrintUser(c, user) + h;
      var at := LastIndex(authority, '@');
      authority[at + 1..] == h && (if user.None? then at < 0 else at >= 0 && authority[..at] == c.printUser(user.value))
  {
    var authority := PrintUser(c, user) + h;
    if user.Some? {
      LastIndexIs(c.printUser(user.value), '@', h);
    } else {
      assert authority == h;
    }
  }
}
