/** Percent-encoding and the OTLP header list (env.go).

  `Unescape` is url.QueryUnescape: percent triplets as in section 2.1 of RFC 3986, and '+' for a
  space. `Escape` is url.QueryEscape, the printer that operators are told to write values with.
 */
module Headers {
  import opened Values
  import opened GoText

  // ---- Percent-encoding ---------------------------------------------------------------------

  predicate IsHex(b: Byte) {
    '0' <= b <= '9' || 'A' <= b <= 'F' || 'a' <= b <= 'f'
  }

  function HexValue(b: Byte): (v: nat)
    requires IsHex(b)
    ensures v < 16
  {
    if b <= '9' then b as int - '0' as int
    else if b <= 'F' then b as int - 'A' as int + 10
    else b as int - 'a' as int + 10
  }

  function HexDigit(v: nat): (b: Byte)
    requires v < 16
    ensures IsHex(b) && HexValue(b) == v
  {
    if v < 10 then ('0' as int + v) as char else ('A' as int + v - 10) as char
  }

  /** url.QueryUnescape; None is its error. */
  function Unescape(s: Text): Option<Text> {
    if s == [] then Some([])
    else if s[0] == '%' then
      if |s| < 3 || !IsHex(s[1]) || !IsHex(s[2]) then None
      else Push((16 * HexValue(s[1]) + HexValue(s[2])) as char, Unescape(s[3..]))
    else Push(if s[0] == '+' then ' ' else s[0], Unescape(s[1..]))
  }

  function Push(b: Byte, rest: Option<Text>): Option<Text> {
    if rest.None? then None else Some([b] + rest.value)
  }

  predicate IsUnreserved(b: Byte) {
    '0' <= b <= '9' || 'A' <= b <= 'Z' || 'a' <= b <= 'z' || b == '-' || b == '_' || b == '.' || b == '~'
  }

  /** The bytes that escaped text is made of. */
  predicate IsEscaped(b: Byte) {
    IsUnreserved(b) || b == '+' || b == '%'
  }

  predicate AllEscaped(s: Text) {
    forall b | b in s :: IsEscaped(b)
  }

  function EscapeByte(b: Byte): (e: Text)
    ensures e != []
    ensures AllEscaped(e)
  {
    if b == ' ' then "+"
    else if IsUnreserved(b) then [b]
    else ['%', HexDigit(b as int / 16), HexDigit(b as int % 16)]
  }

  /** url.QueryEscape */
  function Escape(s: Text): (e: Text)
    ensures e == [] <==> s == []
    ensures AllEscaped(e)
  {
    if s == [] then [] else EscapeByte(s[0]) + Escape(s[1..])
  }

  lemma {:induction false} UnescapeEscape(s: Text)
    ensures Unescape(Escape(s)) == Some(s)
  {
    if s != [] {
      var rest := Escape(s[1..]);
      UnescapeEscape(s[1..]);
      var e := EscapeByte(s[0]) + rest;
      assert e[|EscapeByte(s[0])|..] == rest;
      assert s == [s[0]] + s[1..];
    }
  }

  /** A percent sign that two hexadecimal digits follow. */
  predicate TripletAt(s: Text, i: nat)
    requires i < |s|
  {
    i + 2 < |s| && IsHex(s[i + 1]) && IsHex(s[i + 2])
  }

  /** Unescaping fails exactly if some percent sign is not the start of a triplet. */
  lemma {:induction false} UnescapeFails(s: Text)
    ensures Unescape(s).None? <==> exists i | 0 <= i < |s| :: s[i] == '%' && !TripletAt(s, i)
  {
    if s != [] {
      var n := if s[0] == '%' && TripletAt(s, 0) then 3 else 1;
      var rest := s[n..];
      UnescapeFails(rest);
      assert forall i | n <= i < |s| :: s[i] == rest[i - n] && (TripletAt(s, i) <==> TripletAt(rest, i - n));
      assert forall i | 0 <= i < |rest| :: rest[i] == s[i + n];
      assert n == 3 ==> s[1] != '%' && s[2] != '%';
      if s[0] == '%' && !TripletAt(s, 0) {
        assert Unescape(s).None?;
      } else {
        assert Unescape(s).None? <==> Unescape(rest).None?;
      }
    }
  }

  /** A triplet stands for its byte in either letter case, a plus sign for a space, and every other byte
      for itself. */
  lemma UnescapeMeans(b: Byte, upper: bool, s: Text)
    requires Unescape(s).Some?
    ensures var digits: Text := if upper then "0123456789ABCDEF" else "0123456789abcdef";
      Unescape(['%', digits[b as int / 16], digits[b as int % 16]] + s) == Some([b] + Unescape(s).value)
    ensures Unescape(['+'] + s) == Some([' '] + Unescape(s).value)
    ensures b != '%' && b != '+' ==> Unescape([b] + s) == Some([b] + Unescape(s).value)
  {
    var digits: Text := if upper then "0123456789ABCDEF" else "0123456789abcdef";
    var t := ['%', digits[b as int / 16], digits[b as int % 16]] + s;
    assert t[3..] == s;
    HexDigits(b as int / 16, upper);
    HexDigits(b as int % 16, upper);
    assert (['+'] + s)[1..] == s && ([b] + s)[1..] == s;
  }

  lemma HexDigits(v: nat, upper: bool)
    requires v < 16
    ensures var digits: Text := if upper then "0123456789ABCDEF" else "0123456789abcdef";
      IsHex(digits[v]) && HexValue(digits[v]) == v
  {
  }

  lemma EscapedIsSpaceFree(e: Text)
    requires AllEscaped(e)
    ensures Trim(e) == e
  {
    PrintableIsSpaceFree(e);
  }

  // ---- Header lists -------------------------------------------------------------------------

  type HeaderMap = map<Text, Text>

  /** One `key=value` pair: None if it is malformed. */
  function ParsePair(pair: Text): (r: Option<(Text, Text)>)
    ensures r.Some? ==> r.value.0 != []
  {
    var eq := Index(pair, '=');
    if eq <= 0 then None
    else
      var key := Unescape(Trim(pair[..eq]));
      var value := Unescape(Trim(pair[eq + 1..]));
      if key.None? || key.value == [] || value.None? then None else Some((key.value, value.value))
  }

  /** A pair is malformed exactly if it has no '=', or if its key is empty or its key or value has a bad
      escape once the white space around them is gone. */
  lemma PairIsMalformed(key: Text, value: Text)
    requires '=' !in key
    ensures ParsePair(key).None?
    ensures ParsePair(key + ['='] + value) ==
      var k, v := Unescape(Trim(key)), Unescape(Trim(value));
      if k.Some? && k.value != [] && v.Some? then Some((k.value, v.value)) else None
  {
    hide Trim, Index, Unescape;
    IndexIs(key, '=', value);
    var p := key + ['='] + value;
    assert p[..|key|] == key && p[|key| + 1..] == value;
    if key == [] {
      EmptyUnescapes();
    }
  }

  lemma EmptyUnescapes()
    ensures Trim([]) == [] && Unescape([]) == Some([])
  {
  }

  /** The map that a list of pairs stands for: malformed pairs add nothing, later pairs win. */
  function Collect(pairs: seq<Text>): HeaderMap {
    if pairs == [] then map[]
    else Store(Collect(pairs[..|pairs| - 1]), ParsePair(pairs[|pairs| - 1]))
  }

  function Store(m: HeaderMap, entry: Option<(Text, Text)>): HeaderMap {
    if entry.None? then m else m[entry.value.0 := entry.value.1]
  }

  /** What a header list means: every comma-separated pair, with no outer trimming. */
  function Meaning(raw: Text): HeaderMap {
    Collect(Split(raw, ','))
  }

  /** A nil map is None. */
  function NilIfEmpty(m: HeaderMap): Option<HeaderMap> {
    if m == map[] then None else Some(m)
  }

  function OrEmpty(m: Option<HeaderMap>): HeaderMap {
    if m.None? then map[] else m.value
  }

  /** env.go parseHeaders. The code trims the whole list first; that makes no difference. */
  method ParseHeaders(raw: Text) returns (out: Option<HeaderMap>)
    ensures out == NilIfEmpty(Meaning(raw))
  {
    OuterTrimIsRedundant(raw);
    hide Trim;
    var trimmed := Trim(raw);
    if trimmed == [] {
      BlankMeansNothing();
      return None;
    }
    var m: HeaderMap := map[];
    var pairs := Split(trimmed, ',');
    for i := 0 to |pairs|
      invariant m == Collect(pairs[..i])
    {
      CollectStep(pairs, i);
      var pair := pairs[i];
      var eq := Index(pair, '=');
      if eq > 0 {
        var key := Unescape(Trim(pair[..eq]));
        if key.Some? && key.value != [] {
          var value := Unescape(Trim(pair[eq + 1..]));
          if value.Some? {
            m := m[key.value := value.value];
          }
        }
      }
    }
    assert pairs[..|pairs|] == pairs;
    return if |m| == 0 then None else Some(m);
  }

  lemma CollectStep(pairs: seq<Text>, i: nat)
    requires i < |pairs|
    ensures Collect(pairs[..i + 1]) == Store(Collect(pairs[..i]), ParsePair(pairs[i]))
  {
    hide ParsePair;
    assert pairs[..i + 1][..i] == pairs[..i];
  }

  lemma BlankMeansNothing()
    ensures Meaning([]) == map[]
  {
    assert Split([], ',') == [[]];
    assert ParsePair([]) == None;
  }

  // ---- A header list is a homomorphism ------------------------------------------------------

  lemma {:induction false} CollectConcat(a: seq<Text>, b: seq<Text>)
    ensures Collect(a + b) == Collect(a) + Collect(b)
  {
    hide ParsePair;
    if b == [] {
      assert a + b == a;
    } else {
      assert (a + b)[..|a + b| - 1] == a + b[..|b| - 1];
      CollectConcat(a, b[..|b| - 1]);
    }
  }

  /** Two header lists, joined by a comma. */
  function Then(a: Text, b: Text): Text {
    a + [','] + b
  }

  /** The list `a,b` means `a` overridden by `b`, for all strings. */
  lemma Homomorphism(a: Text, b: Text)
    ensures Meaning(Then(a, b)) == Meaning(a) + Meaning(b)
  {
    hide Split, Collect;
    SplitConcat(a, ',', b);
    CollectConcat(Split(a, ','), Split(b, ','));
  }

  lemma MeaningOfPair(p: Text)
    requires ',' !in p
    ensures Meaning(p) == Store(map[], ParsePair(p))
  {
    hide ParsePair, Index;
    assert Split(p, ',') == [p];
    CollectOne(p);
  }

  /** A malformed pair changes nothing for the pairs around it. */
  lemma MalformedPairIsSkipped(a: Text, p: Text, b: Text)
    requires ',' !in p && ParsePair(p).None?
    ensures Meaning(Then(Then(a, p), b)) == Meaning(Then(a, b))
  {
    hide Meaning, ParsePair, Then;
    Homomorphism(Then(a, p), b);
    Homomorphism(a, p);
    Homomorphism(a, b);
    MeaningOfPair(p);
    assert Meaning(p) == map[];
    assert Meaning(a) + map[] == Meaning(a);
  }

  // ---- The outer trim is redundant ----------------------------------------------------------

  lemma SpaceRuneBytes(w: Text)
    requires IsSpaceRune(w)
    ensures ',' !in w && '=' !in w && Trim(w) == []
  {
    assert w == w + [];
    TrimDropsLeadingSpace(w, []);
  }

  lemma ParsePairDropsLeadingSpace(w: Text, p: Text)
    requires IsSpaceRune(w)
    ensures ParsePair(w + p) == ParsePair(p)
  {
    hide Trim, Index, IsSpaceRune;
    SpaceRuneBytes(w);
    var eq := Index(p, '=');
    if eq < 0 {
      assert '=' !in w + p;
    } else {
      assert w + p == (w + p[..eq]) + ['='] + p[eq + 1..];
      IndexIs(w + p[..eq], '=', p[eq + 1..]);
      assert (w + p)[..|w| + eq] == w + p[..eq] && (w + p)[|w| + eq + 1..] == p[eq + 1..];
      TrimDropsLeadingSpace(w, p[..eq]);
      assert eq == 0 ==> w + p[..eq] == w;
    }
  }

  lemma ParsePairDropsTrailingSpace(p: Text, w: Text)
    requires IsSpaceRune(w)
    ensures ParsePair(p + w) == ParsePair(p)
  {
    hide Trim, Index, Unescape, IsSpaceRune;
    SpaceRuneBytes(w);
    var eq := Index(p, '=');
    if eq < 0 {
      assert '=' !in p + w;
    } else {
      assert p + w == p[..eq] + ['='] + (p[eq + 1..] + w);
      IndexIs(p[..eq], '=', p[eq + 1..] + w);
      assert (p + w)[..eq] == p[..eq] && (p + w)[eq + 1..] == p[eq + 1..] + w;
      TrimDropsTrailingSpace(p[eq + 1..], w);
    }
  }

  lemma MeaningDropsLeadingSpace(w: Text, s: Text)
    requires IsSpaceRune(w)
    ensures Meaning(w + s) == Meaning(s)
  {
    hide ParsePair, Split, IsSpaceRune;
    SpaceRuneBytes(w);
    SplitPrepend(w, s, ',');
    var parts := Split(s, ',');
    ParsePairDropsLeadingSpace(w, parts[0]);
    CollectConcat([w + parts[0]], parts[1..]);
    CollectConcat([parts[0]], parts[1..]);
    CollectOne(w + parts[0]);
    CollectOne(parts[0]);
    assert parts == [parts[0]] + parts[1..];
  }

  lemma MeaningDropsTrailingSpace(s: Text, w: Text)
    requires IsSpaceRune(w)
    ensures Meaning(s + w) == Meaning(s)
  {
    hide ParsePair, Split, IsSpaceRune;
    SpaceRuneBytes(w);
    SplitAppend(s, w, ',');
    var parts := Split(s, ',');
    var last := parts[|parts| - 1];
    ParsePairDropsTrailingSpace(last, w);
    var parts' := parts[..|parts| - 1] + [last + w];
    assert parts'[..|parts'| - 1] == parts[..|parts| - 1];
  }

  lemma CollectOne(p: Text)
    ensures Collect([p]) == Store(map[], ParsePair(p))
  {
    hide ParsePair;
    assert [p][..0] == [];
  }

  lemma {:induction false} TrimLeftIsRedundant(s: Text)
    ensures Meaning(TrimLeft(s)) == Meaning(s)
    decreases |s|
  {
    hide Meaning, SpaceWidth, IsSpaceRune;
    var n := SpaceWidth(s);
    if n > 0 {
      TrimLeftIsRedundant(s[n..]);
      MeaningDropsLeadingSpace(s[..n], s[n..]);
      assert s == s[..n] + s[n..];
    }
  }

  lemma {:induction false} TrimRightIsRedundant(s: Text)
    ensures Meaning(TrimRight(s)) == Meaning(s)
    decreases |s|
  {
    hide Meaning, SpaceTailWidth, IsSpaceRune;
    var n := SpaceTailWidth(s);
    if n > 0 {
      TrimRightIsRedundant(s[..|s| - n]);
      MeaningDropsTrailingSpace(s[..|s| - n], s[|s| - n..]);
      assert s == s[..|s| - n] + s[|s| - n..];
    }
  }

  lemma OuterTrimIsRedundant(raw: Text)
    ensures Meaning(Trim(raw)) == Meaning(raw)
  {
    hide Meaning, TrimLeft, TrimRight;
    TrimLeftIsRedundant(raw);
    TrimRightIsRedundant(TrimLeft(raw));
  }

  // ---- Round trip ---------------------------------------------------------------------------

  function PrintPair(key: Text, value: Text): Text {
    Escape(key) + ['='] + Escape(value)
  }

  function PrintPairs(m: HeaderMap, order: seq<Text>): seq<Text>
    requires forall k | k in order :: k in m
  {
    if order == [] then [] else [PrintPair(order[0], m[order[0]])] + PrintPairs(m, order[1..])
  }

  /** The header list an operator writes for `m`, with its entries in the given order. */
  function Print(m: HeaderMap, order: seq<Text>): Text
    requires forall k | k in order :: k in m
  {
    Join(PrintPairs(m, order), ',')
  }

  lemma PrintedPairHasNoComma(key: Text, value: Text)
    ensures ',' !in PrintPair(key, value)
  {
    var k, v := Escape(key), Escape(value);
    assert !IsEscaped(',');
    assert ',' !in k && ',' !in v;
  }

  lemma ParsePrintedPair(key: Text, value: Text)
    requires key != []
    ensures ParsePair(PrintPair(key, value)) == Some((key, value))
  {
    hide Trim, Index, Escape, Unescape;
    var k, v := Escape(key), Escape(value);
    var p := k + ['='] + v;
    assert !IsEscaped('=');
    assert Index(p, '=') == |k| by { IndexIs(k, '=', v); }
    assert p[..|k|] == k && p[|k| + 1..] == v;
    assert Unescape(Trim(k)) == Some(key) by {
      EscapedIsSpaceFree(k);
      UnescapeEscape(key);
    }
    assert Unescape(Trim(v)) == Some(value) by {
      EscapedIsSpaceFree(v);
      UnescapeEscape(value);
    }
  }

  function Restrict(m: HeaderMap, order: seq<Text>): HeaderMap
    requires forall k | k in order :: k in m
  {
    map k | k in order :: m[k]
  }

  lemma RestrictStep(m: HeaderMap, order: seq<Text>)
    requires order != [] && forall k | k in order :: k in m
    ensures Restrict(m, order) == map[order[0] := m[order[0]]] + Restrict(m, order[1..])
  {
    assert forall x :: x in order <==> x == order[0] || x in order[1..];
  }

  lemma {:induction false} PrintedPairsHaveNoComma(m: HeaderMap, order: seq<Text>)
    requires forall k | k in order :: k in m
    ensures forall p | p in PrintPairs(m, order) :: ',' !in p
  {
    if order != [] {
      PrintedPairHasNoComma(order[0], m[order[0]]);
      PrintedPairsHaveNoComma(m, order[1..]);
    }
  }

  lemma {:induction false} CollectPrinted(m: HeaderMap, order: seq<Text>)
    requires forall k | k in order :: k in m && k != []
    ensures Collect(PrintPairs(m, order)) == Restrict(m, order)
  {
    hide ParsePair, PrintPair;
    if order == [] {
    } else {
      var k := order[0];
      var p := PrintPair(k, m[k]);
      assert Collect([p]) == map[k := m[k]] by {
        ParsePrintedPair(k, m[k]);
        CollectOne(p);
      }
      CollectConcat([p], PrintPairs(m, order[1..]));
      CollectPrinted(m, order[1..]);
      RestrictStep(m, order);
    }
  }

  /** Every finite map with non-empty keys comes back unchanged, in whatever order its entries
      were written; the empty map comes back as nil. */
  lemma {:induction false} RoundTrip(m: HeaderMap, order: seq<Text>)
    requires [] !in m
    requires forall k :: k in order <==> k in m
    ensures NilIfEmpty(Meaning(Print(m, order))) == if m == map[] then None else Some(m)
  {
    hide Collect, Split, ParsePair, PrintPair;
    if order == [] {
      assert m == map[];
      BlankMeansNothing();
    } else {
      assert order[0] in m;
      CollectPrinted(m, order);
      PrintedPairsHaveNoComma(m, order);
      SplitJoin(PrintPairs(m, order), ',');
      assert Restrict(m, order) == m;
    }
  }
}
