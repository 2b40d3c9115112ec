/** Go strings and the standard-library operations on them that the package relies on.

  A Go string is a sequence of bytes. A byte is written as the character with that code, so
  that string literals can be used for ASCII text.
 */
module GoText {
  import opened Values

  type Byte = c: char | c as int < 256

  type Text = seq<Byte>

  // ---- White space --------------------------------------------------------------------------

  predicate IsAsciiSpace(b: Byte) {
    b == ' ' || ('\t' <= b <= '\r')
  }

  /** The UTF-8 encodings of exactly the runes for which Go's unicode.IsSpace holds. */
  predicate IsSpaceRune(w: Text): (r: bool)
    ensures r ==> 1 <= |w| <= 3
  {
    match |w|
    case 1 => IsAsciiSpace(w[0])
    case 2 => w[0] as int == 0xC2 && (w[1] as int == 0x85 || w[1] as int == 0xA0)
    case 3 =>
      var (a, b, c) := (w[0] as int, w[1] as int, w[2] as int);
      || (a == 0xE1 && b == 0x9A && c == 0x80)
      || (a == 0xE2 && b == 0x80 && (0x80 <= c <= 0x8A || c == 0xA8 || c == 0xA9 || c == 0xAF))
      || (a == 0xE2 && b == 0x81 && c == 0x9F)
      || (a == 0xE3 && b == 0x80 && c == 0x80)
    case _ => false
  }

  /** The UTF-8 encoding of a rune of the basic multilingual plane. */
  function Utf8(r: nat): (w: Text)
    requires r < 0x1_0000
    ensures 1 <= |w| <= 3
  {
    if r < 0x80 then [r as char]
    else if r < 0x800 then [(0xC0 + r / 0x40) as char, (0x80 + r % 0x40) as char]
    else [(0xE0 + r / 0x1000) as char, (0x80 + r / 0x40 % 0x40) as char, (0x80 + r % 0x40) as char]
  }

  /** The runes with the Unicode property White_Space. */
  predicate IsWhiteSpace(r: nat) {
    || 0x09 <= r <= 0x0D || r == 0x20 || r == 0x85 || r == 0xA0 || r == 0x1680 || 0x2000 <= r <= 0x200A
    || r == 0x2028 || r == 0x2029 || r == 0x202F || r == 0x205F || r == 0x3000
  }

  /** The byte patterns are exactly the encodings of the white-space runes. */
  lemma SpaceRunesAreWhiteSpace(w: Text)
    ensures IsSpaceRune(w) <==> exists r | 0 <= r < 0x1_0000 && IsWhiteSpace(r) :: w == Utf8(r)
  {
    if IsSpaceRune(w) {
      var r := RuneOf(w);
      assert IsWhiteSpace(r) && w == Utf8(r);
    }
    forall r | 0 <= r < 0x1_0000 && IsWhiteSpace(r) && w == Utf8(r) ensures IsSpaceRune(w) {
      WhiteSpacePattern(r);
    }
  }

  lemma RuneOf(w: Text) returns (r: nat)
    requires IsSpaceRune(w)
    ensures r < 0x1_0000 && IsWhiteSpace(r) && w == Utf8(r)
  {
    r := match |w|
      case 1 => w[0] as int
      case 2 => (w[0] as int - 0xC0) * 0x40 + (w[1] as int - 0x80)
      case _ => (w[0] as int - 0xE0) * 0x1000 + (w[1] as int - 0x80) * 0x40 + (w[2] as int - 0x80);
  }

  lemma WhiteSpacePattern(r: nat)
    requires r < 0x1_0000 && IsWhiteSpace(r)
    ensures IsSpaceRune(Utf8(r))
  {
  }

  /** The width of the white-space rune that `s` starts with, or 0. UTF-8 lead bytes never occur
      as continuation bytes, so matching encodings is the same as decoding runes. */
  function SpaceWidth(s: Text): (n: nat)
    ensures n <= |s|
    ensures n > 0 ==> IsSpaceRune(s[..n])
    ensures n == 0 ==> forall k | 0 <= k <= |s| :: !IsSpaceRune(s[..k])
  {
    hide IsSpaceRune;
    if |s| >= 1 && IsSpaceRune(s[..1]) then 1
    else if |s| >= 2 && IsSpaceRune(s[..2]) then 2
    else if |s| >= 3 && IsSpaceRune(s[..3]) then 3
    else 0
  }

  /** The width of the white-space rune that `s` ends with, or 0. */
  function SpaceTailWidth(s: Text): (n: nat)
    ensures n <= |s|
    ensures n > 0 ==> IsSpaceRune(s[|s| - n..])
  {
    hide IsSpaceRune;
    if |s| >= 1 && IsSpaceRune(s[|s| - 1..]) then 1
    else if |s| >= 2 && IsSpaceRune(s[|s| - 2..]) then 2
    else if |s| >= 3 && IsSpaceRune(s[|s| - 3..]) then 3
    else 0
  }

  function TrimLeft(s: Text): Text {
    if SpaceWidth(s) == 0 then s else TrimLeft(s[SpaceWidth(s)..])
  }

  function TrimRight(s: Text): Text {
    if SpaceTailWidth(s) == 0 then s else TrimRight(s[..|s| - SpaceTailWidth(s)])
  }

  /** strings.TrimSpace */
  function Trim(s: Text): Text {
    TrimRight(TrimLeft(s))
  }

  predicate Blank(s: Text) {
    Trim(s) == []
  }

  /** No white-space rune starts anywhere in `s`. */
  ghost predicate SpaceFree(s: Text) {
    forall i | 0 <= i <= |s| :: SpaceWidth(s[i..]) == 0
  }

  lemma SpaceWidthOf(w: Text, s: Text)
    requires IsSpaceRune(w)
    ensures SpaceWidth(w + s) == |w|
  {
    assert forall k | 0 <= k <= |w| :: (w + s)[..k] == w[..k];
  }

  lemma NoShorterTail(w: Text)
    requires IsSpaceRune(w)
    ensures |w| > 1 ==> !IsSpaceRune(w[|w| - 1..])
    ensures |w| > 2 ==> !IsSpaceRune(w[|w| - 2..])
  {
  }

  lemma SpaceTailWidthOf(s: Text, w: Text)
    requires IsSpaceRune(w)
    ensures SpaceTailWidth(s + w) == |w|
  {
    hide IsSpaceRune;
    NoShorterTail(w);
    var t := s + w;
    assert t[|t| - |w|..] == w;
    assert |w| > 1 ==> t[|t| - 1..] == w[|w| - 1..];
    assert |w| > 2 ==> t[|t| - 2..] == w[|w| - 2..];
  }

  lemma TrimDropsLeadingSpace(w: Text, s: Text)
    requires IsSpaceRune(w)
    ensures Trim(w + s) == Trim(s)
  {
    hide IsSpaceRune, SpaceWidth;
    SpaceWidthOf(w, s);
    assert (w + s)[|w|..] == s;
  }

  lemma SpaceWidthStable(s: Text, w: Text)
    requires s != [] && SpaceWidth(s) == 0 && IsSpaceRune(w)
    ensures SpaceWidth(s + w) == 0
  {
    assert forall n | 0 <= n <= |s| :: (s + w)[..n] == s[..n];
    // A longer rune would contain the first byte of `w` as a continuation byte.
    assert forall n | |s| < n <= |s + w| :: (s + w)[..n][|s|] == w[0];
  }

  lemma {:induction false} TrimDropsTrailingSpace(s: Text, w: Text)
    requires IsSpaceRune(w)
    ensures Trim(s + w) == Trim(s)
    decreases |s|
  {
    hide IsSpaceRune, SpaceWidth, SpaceTailWidth;
    if s == [] {
      assert s + w == w + [];
      TrimDropsLeadingSpace(w, []);
    } else if SpaceWidth(s) > 0 {
      var n := SpaceWidth(s);
      assert s == s[..n] + s[n..] && s + w == s[..n] + (s[n..] + w);
      TrimDropsLeadingSpace(s[..n], s[n..] + w);
      TrimDropsLeadingSpace(s[..n], s[n..]);
      TrimDropsTrailingSpace(s[n..], w);
    } else {
      SpaceWidthStable(s, w);
      SpaceTailWidthOf(s, w);
      assert (s + w)[..|s|] == s;
    }
  }

  lemma TrimIdentity(s: Text)
    requires SpaceFree(s)
    ensures Trim(s) == s
  {
    hide IsSpaceRune, SpaceWidth, SpaceTailWidth;
    assert s[0..] == s;
    var k := |s| - SpaceTailWidth(s);
    assert SpaceWidth(s[k..]) == 0;
    assert s[k..][..|s| - k] == s[k..];
  }

  predicate Printable(s: Text) {
    forall b | b in s :: '!' <= b <= '~'
  }

  lemma PrintableIsSpaceFree(s: Text)
    requires Printable(s)
    ensures SpaceFree(s) && Trim(s) == s
  {
    forall i | 0 <= i <= |s| ensures SpaceWidth(s[i..]) == 0 {
      assert s[i..] != [] ==> s[i..][0] in s;
    }
    TrimIdentity(s);
  }

  // ---- Searching, splitting and joining -----------------------------------------------------

  /** strings.IndexByte */
  function Index(s: Text, c: Byte): (i: int)
    ensures -1 <= i < |s|
    ensures i >= 0 ==> s[i] == c && c !in s[..i]
    ensures i < 0 ==> c !in s
  {
    if s == [] then -1
    else if s[0] == c then 0
    else
      var i := Index(s[1..], c);
      assert i >= 0 ==> s[..i + 1] == [s[0]] + s[1..][..i];
      if i < 0 then -1 else i + 1
  }

  /** strings.LastIndexByte */
  function LastIndex(s: Text, c: Byte): (i: int)
    ensures -1 <= i < |s|
    ensures i >= 0 ==> s[i] == c && c !in s[i + 1..]
    ensures i < 0 ==> c !in s
  {
    if s == [] then -1
    else if s[|s| - 1] == c then |s| - 1
    else
      var i := LastIndex(s[..|s| - 1], c);
      assert i >= 0 ==> s[i + 1..] == s[..|s| - 1][i + 1..] + [s[|s| - 1]];
      i
  }

  lemma IndexIs(p: Text, c: Byte, s: Text)
    requires c !in p
    ensures Index(p + [c] + s, c) == |p|
  {
    hide Index;
    var t := p + [c] + s;
    assert t[|p|] == c;
    assert forall i | 0 <= i < |p| :: t[i] == p[i];
    assert forall i | |p| < i <= |t| :: t[..i][|p|] == c;
  }

  /** strings.Split with a one-byte separator */
  function Split(s: Text, c: Byte): (parts: seq<Text>)
    ensures parts != []
    ensures forall p | p in parts :: c !in p
    decreases |s|
  {
    var i := Index(s, c);
    if i < 0 then [s] else [s[..i]] + Split(s[i + 1..], c)
  }

  function Join(parts: seq<Text>, c: Byte): Text {
    if parts == [] then []
    else if |parts| == 1 then parts[0]
    else parts[0] + [c] + Join(parts[1..], c)
  }

  lemma SplitHead(p: Text, c: Byte, s: Text)
    requires c !in p
    ensures Split(p + [c] + s, c) == [p] + Split(s, c)
  {
    hide Index;
    IndexIs(p, c, s);
    var t := p + [c] + s;
    assert t[..|p|] == p && t[|p| + 1..] == s;
  }

  lemma {:induction false} SplitConcat(a: Text, c: Byte, b: Text)
    ensures Split(a + [c] + b, c) == Split(a, c) + Split(b, c)
    decreases |a|
  {
    hide Index;
    var i := Index(a, c);
    if i < 0 {
      SplitHead(a, c, b);
    } else {
      var rest := a[i + 1..];
      assert a + [c] + b == a[..i] + [c] + (rest + [c] + b);
      SplitHead(a[..i], c, rest + [c] + b);
      SplitConcat(rest, c, b);
    }
  }

  lemma {:induction false} SplitJoin(parts: seq<Text>, c: Byte)
    requires parts != [] && forall p | p in parts :: c !in p
    ensures Split(Join(parts, c), c) == parts
  {
    hide Index;
    if |parts| == 1 {
      assert Index(parts[0], c) < 0 by { assert parts[0] in parts; }
    } else {
      assert parts[0] in parts;
      SplitHead(parts[0], c, Join(parts[1..], c));
      SplitJoin(parts[1..], c);
    }
  }

  lemma SplitPrepend(w: Text, s: Text, c: Byte)
    requires c !in w
    ensures Split(w + s, c) == [w + Split(s, c)[0]] + Split(s, c)[1..]
  {
    hide Index;
    var i := Index(s, c);
    if i < 0 {
      assert c !in w + s;
    } else {
      assert w + s == (w + s[..i]) + [c] + s[i + 1..];
      SplitHead(w + s[..i], c, s[i + 1..]);
    }
  }

  lemma {:induction false} SplitAppend(s: Text, w: Text, c: Byte)
    requires c !in w
    ensures var p := Split(s, c); Split(s + w, c) == p[..|p| - 1] + [p[|p| - 1] + w]
    decreases |s|
  {
    hide Index;
    var i := Index(s, c);
    if i < 0 {
      assert c !in s + w;
    } else {
      assert s + w == s[..i] + [c] + (s[i + 1..] + w);
      SplitHead(s[..i], c, s[i + 1..] + w);
      SplitAppend(s[i + 1..], w, c);
    }
  }

  predicate Contains(s: Text, sub: Text) {
    exists i | 0 <= i <= |s| :: sub <= s[i..]
  }

  // ---- Letter case --------------------------------------------------------------------------

  function LowerByte(b: Byte): Byte {
    if 'A' <= b <= 'Z' then (b as int + 32) as char else b
  }

  /** strings.ToLower, as far as it is compared here: no rune outside ASCII lowers to one of the
      letters of "http", "https", "yes", "no", "on" and "off". */
  function Lower(s: Text): (r: Text)
    ensures |r| == |s|
    ensures forall i | 0 <= i < |s| :: r[i] == LowerByte(s[i])
  {
    if s == [] then [] else [LowerByte(s[0])] + Lower(s[1..])
  }

  /** strings.HasPrefix(strings.ToLower(s), prefix) */
  predicate HasPrefixFold(s: Text, prefix: Text) {
    prefix <= Lower(s)
  }

  // ---- Numbers ------------------------------------------------------------------------------

  const MAX_INT64 := 0x7FFF_FFFF_FFFF_FFFF
  const MIN_INT64 := -0x8000_0000_0000_0000
  const MAX_UINT64 := 0xFFFF_FFFF_FFFF_FFFF

  /** The two's-complement value of the low 64 bits of `x`. */
  function Wrap64(x: int): (r: int)
    ensures MIN_INT64 <= r <= MAX_INT64
    ensures MIN_INT64 <= x <= MAX_INT64 <==> r == x
  {
    (x - MIN_INT64) % 0x1_0000_0000_0000_0000 + MIN_INT64
  }

  predicate IsDigit(b: Byte) {
    '0' <= b <= '9'
  }

  predicate AllDigits(s: Text) {
    forall b | b in s :: IsDigit(b)
  }

  function DigitValue(b: Byte): (d: nat)
    requires IsDigit(b)
    ensures d < 10
  {
    b as int - '0' as int
  }

  function Decimal(s: Text): nat
    requires AllDigits(s)
  {
    if s == [] then 0 else 10 * Decimal(s[..|s| - 1]) + DigitValue(s[|s| - 1])
  }

  /** The decimal numeral of `n`. */
  function Numeral(n: nat): (s: Text)
    ensures s != [] && AllDigits(s)
  {
    var last := [('0' as int + n % 10) as char];
    if n < 10 then last else Numeral(n / 10) + last
  }

  datatype NumError = Syntax | Range

  /** strconv.ParseUint in base 10: it stops at the first byte that is no digit, or at the first digit
      that makes the number too large. */
  function ParseDigits(s: Text): (r: Result<nat, NumError>)
    ensures r.Ok? ==> AllDigits(s) && r.value == Decimal(s)
    ensures AllDigits(s) ==> r == if Decimal(s) <= MAX_UINT64 then Ok(Decimal(s)) else Err(Range)
  {
    if s == [] then Ok(0)
    else
      var b := s[|s| - 1];
      match ParseDigits(s[..|s| - 1])
      case Err(e) => Err(e)
      case Ok(n) =>
        if !IsDigit(b) then Err(Syntax)
        else if 10 * n + DigitValue(b) > MAX_UINT64 then Err(Range)
        else Ok(10 * n + DigitValue(b))
  }

  /** What follows the place where ParseUint stops does not matter. */
  lemma {:induction false} ParseDigitsStops(s: Text, rest: Text)
    requires ParseDigits(s).Err?
    ensures ParseDigits(s + rest) == ParseDigits(s)
  {
    if rest == [] {
      assert s + rest == s;
    } else {
      assert (s + rest)[..|s + rest| - 1] == s + rest[..|rest| - 1];
      ParseDigitsStops(s, rest[..|rest| - 1]);
    }
  }

  /** strconv.Atoi on a 64-bit platform */
  function Atoi(s: Text): (r: Result<int, NumError>)
    ensures r.Ok? ==> MIN_INT64 <= r.value <= MAX_INT64
  {
    var signed := s != [] && (s[0] == '+' || s[0] == '-');
    var digits := if signed then s[1..] else s;
    if digits == [] then Err(Syntax)
    else match ParseDigits(digits)
      case Err(e) => Err(e)
      case Ok(u) =>
        var n := (if signed && s[0] == '-' then -1 else 1) * u;
        if MIN_INT64 <= n <= MAX_INT64 then Ok(n) else Err(Range)
  }

  lemma {:induction false} DecimalNumeral(n: nat)
    ensures Decimal(Numeral(n)) == n
  {
    var s := Numeral(n);
    if n < 10 {
      assert Decimal(s[..0]) == 0;
    } else {
      DecimalNumeral(n / 10);
      assert s[..|s| - 1] == Numeral(n / 10);
    }
  }

  /** Atoi reads every numeral in range back, and reports the others as out of range. */
  lemma AtoiNumeral(n: nat)
    ensures Atoi(Numeral(n)) == if n <= MAX_INT64 then Ok(n) else Err(Range)
  {
    DecimalNumeral(n);
    assert Numeral(n)[0] in Numeral(n);
  }

  /** A sign is read too, also a plus sign. */
  lemma {:induction false} AtoiSigned(n: nat)
    ensures Atoi(['+'] + Numeral(n)) == if n <= MAX_INT64 then Ok(n) else Err(Range)
    ensures Atoi(['-'] + Numeral(n)) == if n <= MAX_INT64 + 1 then Ok(-1 * n) else Err(Range)
  {
    DecimalNumeral(n);
    assert (['+'] + Numeral(n))[1..] == Numeral(n) && (['-'] + Numeral(n))[1..] == Numeral(n);
  }

  // ---- Host and port ------------------------------------------------------------------------

  datatype AddrError = MissingPort | TooManyColons | MissingBracket | UnexpectedOpen | UnexpectedClose

  datatype HostPort = HostPort(host: Text, port: Text)

  /** net.SplitHostPort */
  function SplitHostPort(s: Text): (r: Result<HostPort, AddrError>)
  {
    var i := LastIndex(s, ':');
    if i < 0 then Err(MissingPort)
    else if s[0] == '[' then
      var end := Index(s, ']');
      if end < 0 then Err(MissingBracket)
      else if end + 1 == |s| then Err(MissingPort)
      else if end + 1 != i then Err(if s[end + 1] == ':' then TooManyColons else MissingPort)
      else if '[' in s[1..] then Err(UnexpectedOpen)
      else if ']' in s[end + 1..] then Err(UnexpectedClose)
      else Ok(HostPort(s[1..end], s[i + 1..]))
    else if ':' in s[..i] then Err(TooManyColons)
    else if '[' in s then Err(UnexpectedOpen)
    else if ']' in s then Err(UnexpectedClose)
    else Ok(HostPort(s[..i], s[i + 1..]))
  }

  predicate NoneOf(s: Text, bytes: set<Byte>) {
    forall b | b in s :: b !in bytes
  }

  /** The two ways a host and a port are written together. */
  ghost predicate WrittenAs(s: Text, hp: HostPort) {
    && NoneOf(hp.port, {':', '[', ']'})
    && NoneOf(hp.host, {'[', ']'})
    && (|| (s == hp.host + [':'] + hp.port && ':' !in hp.host)
        || s == ['['] + hp.host + [']'] + [':'] + hp.port)
  }

  lemma {:induction false} LastIndexIs(p: Text, c: Byte, s: Text)
    requires c !in s
    ensures LastIndex(p + [c] + s, c) == |p|
  {
    var t := p + [c] + s;
    if s == [] {
      assert t[|t| - 1] == c;
    } else {
      assert t[|t| - 1] == s[|s| - 1];
      assert t[..|t| - 1] == p + [c] + s[..|s| - 1];
      LastIndexIs(p, c, s[..|s| - 1]);
    }
  }

  lemma SplitPlain(hp: HostPort)
    requires NoneOf(hp.port, {':', '[', ']'}) && NoneOf(hp.host, {':', '[', ']'})
    ensures SplitHostPort(hp.host + [':'] + hp.port) == Ok(hp)
  {
    hide Index, LastIndex;
    LastIndexIs(hp.host, ':', hp.port);
    var s := hp.host + [':'] + hp.port;
    assert s[..|hp.host|] == hp.host && s[|hp.host| + 1..] == hp.port;
    assert s[0] == if hp.host == [] then ':' else hp.host[0];
  }

  lemma SplitBracketed(hp: HostPort)
    requires NoneOf(hp.port, {':', '[', ']'}) && NoneOf(hp.host, {'[', ']'})
    ensures SplitHostPort(['['] + hp.host + [']'] + [':'] + hp.port) == Ok(hp)
  {
    hide Index, LastIndex;
    var s := ['['] + hp.host + [']'] + [':'] + hp.port;
    var i, end := |hp.host| + 2, |hp.host| + 1;
    assert LastIndex(s, ':') == i by { LastIndexIs(['['] + hp.host + [']'], ':', hp.port); }
    assert Index(s, ']') == end by {
      IndexIs(['['] + hp.host, ']', [':'] + hp.port);
      assert s == ['['] + hp.host + [']'] + ([':'] + hp.port);
    }
    assert s[1..end] == hp.host;
    assert s[i + 1..] == hp.port;
    assert s[1..] == hp.host + [']', ':'] + hp.port;
    assert s[end + 1..] == [':'] + hp.port;
  }

  lemma SplitSoundBracketed(s: Text)
    requires SplitHostPort(s).Ok? && s[0] == '['
    ensures WrittenAs(s, SplitHostPort(s).value)
  {
    hide Index, LastIndex;
    var i, end := LastIndex(s, ':'), Index(s, ']');
    var hp := SplitHostPort(s).value;
    assert s == ['['] + s[1..end] + [']'] + [':'] + s[i + 1..];
    assert NoneOf(hp.host, {'[', ']'}) by {
      assert s[1..] == hp.host + s[end..];
      assert s[..end] == [s[0]] + hp.host;
    }
    assert NoneOf(hp.port, {':', '[', ']'}) by {
      assert s[1..] == s[1..i + 1] + hp.port;
      assert s[end + 1..] == [s[i]] + hp.port;
    }
  }

  lemma SplitSoundPlain(s: Text)
    requires SplitHostPort(s).Ok? && s[0] != '['
    ensures WrittenAs(s, SplitHostPort(s).value)
  {
    hide Index, LastIndex;
    var i := LastIndex(s, ':');
    var hp := SplitHostPort(s).value;
    assert s == hp.host + [':'] + hp.port;
    assert NoneOf(hp.host, {'[', ']'});
    assert NoneOf(hp.port, {':', '[', ']'});
  }

  lemma SplitSound(s: Text)
    requires SplitHostPort(s).Ok?
    ensures WrittenAs(s, SplitHostPort(s).value)
  {
    hide SplitHostPort, WrittenAs;
    if s != [] && s[0] == '[' {
      SplitSoundBracketed(s);
    } else {
      EmptyHasNoPort(s);
      SplitSoundPlain(s);
    }
  }

  lemma EmptyHasNoPort(s: Text)
    requires SplitHostPort(s).Ok?
    ensures s != []
  {
  }

  /** Why a text without brackets is refused: no colon, or more than one. */
  lemma SplitHostPortRefused(s: Text)
    requires '[' !in s && ']' !in s
    ensures SplitHostPort(s) == Err(MissingPort) <==> ':' !in s
    ensures SplitHostPort(s) == Err(TooManyColons) <==> exists i, j | 0 <= i < j < |s| :: s[i] == s[j] == ':'
  {
    hide LastIndex;
    var i := LastIndex(s, ':');
    if i >= 0 {
      assert s[0] in s;
      AllBefore(s, i, ':');
    }
  }

  lemma AllBefore(s: Text, i: nat, c: Byte)
    requires i < |s| && s[i] == c && c !in s[i + 1..]
    ensures c in s[..i] <==> exists j, k | 0 <= j < k < |s| :: s[j] == s[k] == c
  {
    assert forall k | i < k < |s| :: s[k] == s[i + 1..][k - i - 1];
    if c in s[..i] {
      var j :| 0 <= j < i && s[..i][j] == c;
      assert s[j] == s[i] == c;
    }
    forall j, k | 0 <= j < k < |s| && s[j] == s[k] == c ensures c in s[..i] {
      assert s[..i][j] == c;
    }
  }

  /** SplitHostPort accepts exactly the plain and the bracketed form, and takes them apart where
      they were joined. A bracketed host need not contain a colon. */
  lemma {:induction false} SplitHostPortExact(s: Text, hp: HostPort)
    ensures SplitHostPort(s) == Ok(hp) <==> WrittenAs(s, hp)
  {
    if SplitHostPort(s).Ok? {
      SplitSound(s);
    }
    if WrittenAs(s, hp) {
      if s == hp.host + [':'] + hp.port && ':' !in hp.host {
        SplitPlain(hp);
      } else {
        SplitBracketed(hp);
      }
    }
  }
}
