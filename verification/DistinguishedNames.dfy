/**
  `distinguished_name` and `attribute_value` of `src/x509.rs`: a DER Name as RFC 4514 text, and
  the reader of section 3 of RFC 4514 that recovers what was printed.
 */
module DistinguishedNames {
  import opened Octets
  import opened Asn1
  import opened Elements
  import opened ObjectIdentifiers

  /** The standard library calls: lossy decoding and address printing. */
  datatype Library = Library(
    utf8: seq<byte> -> string,
    utf16: seq<nat> -> string,
    ipv4: seq<byte> -> string,
    ipv6: seq<byte> -> string)

  /** One AttributeTypeAndValue, by the octets of its identifier. */
  datatype Attribute = Attribute(identifier: seq<byte>, tag: byte, value: seq<byte>)

  type Rdn = seq<Attribute>

  // ── Attribute values ───────────────────────────────────────────────────

  /** UTF8String, NumericString, PrintableString, TeletexString, IA5String and BMPString. */
  predicate IsString(tag: byte) {
    tag == 0x0c || tag == 0x12 || tag == 0x13 || tag == 0x14 || tag == 0x16 || tag == 0x1e
  }

  /** `chunks_exact(2)`: an odd last octet is dropped. */
  function Units(value: seq<byte>): seq<nat> {
    if |value| < 2 then []
    else
      var unit: nat := 256 * (value[0] as int) + value[1];
      [unit] + Units(value[2..])
  }

  function StringText(library: Library, tag: byte, value: seq<byte>): string {
    if tag == 0x1e then library.utf16(Units(value)) else library.utf8(value)
  }

  predicate Special(c: char) {
    c == '"' || c == '+' || c == ',' || c == ';' || c == '<' || c == '>' || c == '\\'
  }

  /** What is written for the character at `index`. */
  function EscapeAt(text: string, index: nat): string
    requires index < |text|
  {
    var c := text[index];
    if Special(c) then ['\\', c]
    else if (c == '#' || c == ' ') && index == 0 then ['\\', c]
    else if c == ' ' && index == |text| - 1 then "\\ "
    else if c == '\0' then "\\00"
    else [c]
  }

  function EscapedFrom(text: string, index: nat): string
    decreases |text| - index
  {
    if index >= |text| then "" else EscapeAt(text, index) + EscapedFrom(text, index + 1)
  }

  function HexText(value: seq<byte>): string {
    if value == [] then "" else [HexChar(value[0] / 16), HexChar(value[0] % 16)] + HexText(value[1..])
  }

  function ValueText(library: Library, tag: byte, value: seq<byte>): string {
    if IsString(tag) then EscapedFrom(StringText(library, tag, value), 0) else "#" + HexText(value)
  }

  method HexOf(value: seq<byte>) returns (hex: string)
    ensures hex == HexText(value)
  {
    hex := "";
    for i := 0 to |value|
      invariant hex + HexText(value[i..]) == HexText(value)
    {
      assert value[i..][1..] == value[i + 1..];
      hex := hex + [HexChar(value[i] / 16), HexChar(value[i] % 16)];
    }
    assert hex + "" == hex;
  }

  /** The escaping loop of `attribute_value`. */
  method Escape(text: string) returns (escaped: string)
    ensures escaped == EscapedFrom(text, 0)
  {
    var last := if |text| > 0 then |text| - 1 else 0;
    escaped := "";
    for index := 0 to |text|
      invariant escaped + EscapedFrom(text, index) == EscapedFrom(text, 0)
    {
      var c := text[index];
      var piece: string;
      if Special(c) {
        piece := ['\\', c];
      } else if (c == '#' || c == ' ') && index == 0 {
        piece := ['\\', c];
      } else if c == ' ' && index == last {
        piece := "\\ ";
      } else if c == '\0' {
        piece := "\\00";
      } else {
        piece := [c];
      }
      PushPiece(text, index, escaped, piece);
      escaped := escaped + piece;
    }
    assert escaped + "" == escaped;
  }

  lemma PushPiece(text: string, index: nat, escaped: string, piece: string)
    requires index < |text| && piece == EscapeAt(text, index)
    ensures escaped + EscapedFrom(text, index) == (escaped + piece) + EscapedFrom(text, index + 1)
  {
  }

  method AttributeValue(library: Library, tag: byte, value: seq<byte>) returns (r: string)
    ensures r == ValueText(library, tag, value)
  {
    if IsString(tag) {
      r := Escape(StringText(library, tag, value));
    } else {
      var hex := HexOf(value);
      r := "#" + hex;
    }
  }

  // ── Names ──────────────────────────────────────────────────────────────

  function AttributeText(library: Library, a: Attribute): string {
    TypeText(a.identifier) + ("=" + ValueText(library, a.tag, a.value))
  }

  function AttributeTexts(library: Library, rdn: Rdn): seq<string> {
    seq(|rdn|, k requires 0 <= k < |rdn| => AttributeText(library, rdn[k]))
  }

  function RdnText(library: Library, rdn: Rdn): string {
    Join(AttributeTexts(library, rdn), '+')
  }

  function RdnTexts(library: Library, name: seq<Rdn>): seq<string> {
    seq(|name|, k requires 0 <= k < |name| => RdnText(library, name[k]))
  }

  /** The text of a name: its RDNs in reverse order. */
  function NameText(library: Library, name: seq<Rdn>): string {
    Join(Reverse(RdnTexts(library, name)), ',')
  }

  function ParseAttribute(content: seq<byte>): Option<Attribute> {
    var (identifier, rest) :- ReadTagged(content, OBJECT_IDENTIFIER);
    match ReadElement(rest)
    case Taken(tag, value, _) => Some(Attribute(identifier, tag, value))
    case Refused => None
  }

  function ParseRdn(content: seq<byte>): Option<Rdn>
    decreases |content|
  {
    if content == [] then Some([])
    else
      var (inner, rest) :- ReadTagged(content, SEQUENCE);
      var attribute :- ParseAttribute(inner);
      var more :- ParseRdn(rest);
      Some([attribute] + more)
  }

  function ParseName(content: seq<byte>): Option<seq<Rdn>>
    decreases |content|
  {
    if content == [] then Some([])
    else
      var (inner, rest) :- ReadTagged(content, SET);
      var rdn :- ParseRdn(inner);
      var more :- ParseName(rest);
      Some([rdn] + more)
  }

  /** What the loops hold: `done` was read already, the rest of the input decides the rest. */
  ghost predicate Continues<T>(whole: Option<seq<T>>, done: seq<T>, rest: Option<seq<T>>) {
    whole == match rest case None => None case Some(more) => Some(done + more)
  }

  function Prepend<T>(head: T, rest: Option<seq<T>>): Option<seq<T>> {
    match rest case None => None case Some(more) => Some([head] + more)
  }

  lemma Begin<T>(whole: Option<seq<T>>)
    ensures Continues(whole, [], whole)
  {
    if whole.Some? {
      assert [] + whole.value == whole.value;
    }
  }

  lemma Advance<T>(whole: Option<seq<T>>, done: seq<T>, head: T, rest: Option<seq<T>>)
    requires Continues(whole, done, Prepend(head, rest))
    ensures Continues(whole, done + [head], rest)
  {
    if rest.Some? {
      assert done + ([head] + rest.value) == (done + [head]) + rest.value;
    }
  }

  method ReadAttribute(library: Library, content: seq<byte>) returns (r: Option<string>)
    ensures r == match ParseAttribute(content)
                 case None => None
                 case Some(a) => Some(AttributeText(library, a))
  {
    var attribute := new Cursor(content);
    var identifier := attribute.Expect(OBJECT_IDENTIFIER);
    if identifier == None { return None; }
    var element := attribute.Element();
    if element == None { return None; }
    var kind := AttributeType(identifier.value);
    var value := AttributeValue(library, element.value.tag, element.value.content);
    return Some(kind + ("=" + value));
  }

  lemma RdnStep(input: seq<byte>)
    requires input != []
    ensures match ReadTagged(input, SEQUENCE)
            case None => ParseRdn(input) == None
            case Some((inner, rest)) =>
              match ParseAttribute(inner)
              case None => ParseRdn(input) == None
              case Some(a) => ParseRdn(input) == Prepend(a, ParseRdn(rest))
  {
  }

  /** The inner loop of `distinguished_name`. */
  method ReadRdn(library: Library, content: seq<byte>) returns (r: Option<string>)
    ensures r == match ParseRdn(content)
                 case None => None
                 case Some(rdn) => Some(RdnText(library, rdn))
  {
    var rdn := new Cursor(content);
    var attributes: seq<string> := [];
    ghost var done: Rdn := [];
    ghost var whole := ParseRdn(content);
    Begin(whole);
    while rdn.input != []
      invariant Continues(whole, done, ParseRdn(rdn.input))
      invariant attributes == AttributeTexts(library, done)
      decreases |rdn.input|
    {
      RdnStep(rdn.input);
      var inner := rdn.Expect(SEQUENCE);
      if inner == None { return None; }
      var text := ReadAttribute(library, inner.value);
      if text == None { return None; }
      ghost var a := ParseAttribute(inner.value).value;
      Advance(whole, done, a, ParseRdn(rdn.input));
      attributes := attributes + [text.value];
      done := done + [a];
    }
    assert done + [] == done;
    return Some(Join(attributes, '+'));
  }

  lemma NameStep(input: seq<byte>)
    requires input != []
    ensures match ReadTagged(input, SET)
            case None => ParseName(input) == None
            case Some((inner, rest)) =>
              match ParseRdn(inner)
              case None => ParseName(input) == None
              case Some(rdn) => ParseName(input) == Prepend(rdn, ParseName(rest))
  {
  }

  method DistinguishedName(library: Library, name: seq<byte>) returns (r: Option<string>)
    ensures r == match ParseName(name)
                 case None => None
                 case Some(rdns) => Some(NameText(library, rdns))
  {
    var cursor := new Cursor(name);
    var rdns: seq<string> := [];
    ghost var done: seq<Rdn> := [];
    ghost var whole := ParseName(name);
    Begin(whole);
    while cursor.input != []
      invariant Continues(whole, done, ParseName(cursor.input))
      invariant rdns == RdnTexts(library, done)
      decreases |cursor.input|
    {
      NameStep(cursor.input);
      var inner := cursor.Expect(SET);
      if inner == None { return None; }
      var text := ReadRdn(library, inner.value);
      if text == None { return None; }
      ghost var rdn := ParseRdn(inner.value).value;
      Advance(whole, done, rdn, ParseName(cursor.input));
      rdns := rdns + [text.value];
      done := done + [rdn];
    }
    assert done + [] == done;
    return Some(Join(Reverse(rdns), ','));
  }

  // ── The encoder ────────────────────────────────────────────────────────

  function EncodeAttribute(a: Attribute): seq<byte> {
    DerOf(Sequence, DerOf(ObjectIdentifier, a.identifier) + Der(a.tag, a.value))
  }

  function EncodeAttributes(rdn: Rdn): seq<byte> {
    if rdn == [] then [] else EncodeAttribute(rdn[0]) + EncodeAttributes(rdn[1..])
  }

  function EncodeName(name: seq<Rdn>): seq<byte> {
    if name == [] then [] else DerOf(Set, EncodeAttributes(name[0])) + EncodeName(name[1..])
  }

  predicate SingleOctetTags(name: seq<Rdn>) {
    forall i, k :: 0 <= i < |name| && 0 <= k < |name[i]| ==> name[i][k].tag % 32 != 31
  }

  lemma ParseEncodedAttribute(a: Attribute)
    requires a.tag % 32 != 31
    requires |EncodeAttribute(a)| < 0x1_0000_0000
    ensures ParseAttribute(Der(OBJECT_IDENTIFIER, a.identifier) + Der(a.tag, a.value)) == Some(a)
  {
    ReaderTags();
    DerSize(SEQUENCE, Der(OBJECT_IDENTIFIER, a.identifier) + Der(a.tag, a.value));
    DerSize(OBJECT_IDENTIFIER, a.identifier);
    DerSize(a.tag, a.value);
    ReadDer(OBJECT_IDENTIFIER, a.identifier, Der(a.tag, a.value));
    ReadDer(a.tag, a.value, []);
    assert Der(a.tag, a.value) + [] == Der(a.tag, a.value);
  }

  lemma {:induction false} ParseEncodedRdn(rdn: Rdn)
    requires forall k :: 0 <= k < |rdn| ==> rdn[k].tag % 32 != 31
    requires |EncodeAttributes(rdn)| < 0x1_0000_0000
    ensures ParseRdn(EncodeAttributes(rdn)) == Some(rdn)
  {
    if rdn != [] {
      var inner := Der(OBJECT_IDENTIFIER, rdn[0].identifier) + Der(rdn[0].tag, rdn[0].value);
      var more := EncodeAttributes(rdn[1..]);
      var code := EncodeAttributes(rdn);
      assert code == Der(SEQUENCE, inner) + more by { ReaderTags(); }
      DerSize(SEQUENCE, inner);
      ReadDer(SEQUENCE, inner, more);
      ParseEncodedAttribute(rdn[0]);
      ParseEncodedRdn(rdn[1..]);
      RdnStep(code);
      assert [rdn[0]] + rdn[1..] == rdn;
    }
  }

  lemma ReadEncodedRdn(inner: seq<byte>, more: seq<byte>)
    requires |DerOf(Set, inner) + more| < 0x1_0000_0000
    ensures ReadTagged(DerOf(Set, inner) + more, SET) == Some((inner, more))
    ensures DerOf(Set, inner) + more != [] && |inner| + |more| < |DerOf(Set, inner) + more|
  {
    ReaderTags();
    DerSize(SET, inner);
    ReadDer(SET, inner, more);
  }

  /** The parser undoes the encoder for every name. */
  lemma {:induction false} ParseEncodedName(name: seq<Rdn>)
    requires SingleOctetTags(name)
    requires |EncodeName(name)| < 0x1_0000_0000
    ensures ParseName(EncodeName(name)) == Some(name)
  {
    if name != [] {
      var more := EncodeName(name[1..]);
      var inner := EncodeAttributes(name[0]);
      ReadEncodedRdn(inner, more);
      ParseEncodedRdn(name[0]);
      ParseEncodedName(name[1..]);
      NameStep(EncodeName(name));
      assert [name[0]] + name[1..] == name;
    }
  }

  // ── Reading the text back ──────────────────────────────────────────────

  /** Splitting at separators no backslash escapes. */
  function SplitUnescaped(s: string, separator: char): (parts: seq<string>)
    ensures parts != []
  {
    if s == "" then [""]
    else if s[0] == '\\' && |s| >= 2 then
      var rest := SplitUnescaped(s[2..], separator);
      [s[..2] + rest[0]] + rest[1..]
    else
      var rest := SplitUnescaped(s[1..], separator);
      if s[0] == separator then [""] + rest else [[s[0]] + rest[0]] + rest[1..]
  }

  /** Undoing the escapes: a backslash and two hexadecimal digits, or a backslash and the character. */
  function Unescape(s: string): string {
    if s == "" then ""
    else if s[0] == '\\' && |s| >= 3 && HexValue(s[1]).Some? && HexValue(s[2]).Some? then
      [(16 * HexValue(s[1]).value + HexValue(s[2]).value) as char] + Unescape(s[3..])
    else if s[0] == '\\' && |s| >= 2 then [s[1]] + Unescape(s[2..])
    else [s[0]] + Unescape(s[1..])
  }

  function ReadHex(s: string): seq<byte> {
    if |s| < 2 then []
    else
      var high := HexValue(s[0]);
      var low := HexValue(s[1]);
      [16 * (if high.Some? then high.value else 0) + (if low.Some? then low.value else 0)] + ReadHex(s[2..])
  }

  /** An attribute value as its reader sees it. */
  datatype ReadableValue = Text(text: string) | Hexadecimal(octets: seq<byte>)

  datatype Meaning = Meaning(kind: string, value: ReadableValue)

  function ReadValue(s: string): ReadableValue {
    if s != "" && s[0] == '#' then Hexadecimal(ReadHex(s[1..])) else Text(Unescape(s))
  }

  function ReadAssertion(s: string): Meaning {
    var parts := Split(s, '=');
    Meaning(parts[0], ReadValue(Join(parts[1..], '=')))
  }

  function ReadAssertions(s: string): seq<Meaning> {
    if s == "" then []
    else
      var parts := SplitUnescaped(s, '+');
      seq(|parts|, k requires 0 <= k < |parts| => ReadAssertion(parts[k]))
  }

  /** The RDNs of a printed name, in the order of the certificate. */
  function ReadName(s: string): seq<seq<Meaning>> {
    if s == "" then []
    else
      var parts := Reverse(SplitUnescaped(s, ','));
      seq(|parts|, k requires 0 <= k < |parts| => ReadAssertions(parts[k]))
  }

  /** A string of this type: two octets a UTF-16 unit in a BMPString, else UTF-8. */
  function Decoded(library: Library, t: UniversalType, value: seq<byte>): string {
    if t.BmpString? then library.utf16(Units(value)) else library.utf8(value)
  }

  /** What a value says, by its ASN.1 type: its decoded string, or its octets. */
  function SaidValue(library: Library, tag: byte, value: seq<byte>): ReadableValue {
    match StringTypeOf(tag)
    case Some(t) => Text(Decoded(library, t, value))
    case None => Hexadecimal(value)
  }

  function MeaningOf(library: Library, a: Attribute): Meaning {
    Meaning(TypeText(a.identifier), SaidValue(library, a.tag, a.value))
  }

  function MeaningsOf(library: Library, rdn: Rdn): seq<Meaning> {
    seq(|rdn|, k requires 0 <= k < |rdn| => MeaningOf(library, rdn[k]))
  }

  function NameMeaning(library: Library, name: seq<Rdn>): seq<seq<Meaning>> {
    seq(|name|, k requires 0 <= k < |name| => MeaningsOf(library, name[k]))
  }

  // Values.

  /** The tags taken for strings are those of the six string types. */
  lemma StringTypes(tag: byte)
    ensures IsString(tag) <==> StringTypeOf(tag).Some?
    ensures tag == 0x1e <==> StringTypeOf(tag) == Some(BmpString)
  {
  }

  /** UTF-16, big endian. */
  function BigEndian(units: seq<nat>): seq<byte>
    requires forall k :: 0 <= k < |units| ==> units[k] < 0x1_0000
  {
    if units == [] then [] else [units[0] / 256, units[0] % 256] + BigEndian(units[1..])
  }

  /** `Units` undoes the encoding; an odd last octet is dropped. */
  lemma {:induction false} UnitsReadBack(units: seq<nat>, odd: seq<byte>)
    requires |odd| <= 1 && forall k :: 0 <= k < |units| ==> units[k] < 0x1_0000
    ensures Units(BigEndian(units) + odd) == units
  {
    if units == [] {
      assert BigEndian(units) + odd == odd;
    } else {
      UnitsReadBack(units[1..], odd);
      assert (BigEndian(units) + odd)[2..] == BigEndian(units[1..]) + odd;
    }
  }

  /** For every tag: the escaped decoded string of a string type, else `#` and the octets. */
  lemma ValueTextMeans(library: Library, tag: byte, value: seq<byte>)
    ensures ValueText(library, tag, value)
         == match SaidValue(library, tag, value)
            case Text(text) => EscapedFrom(text, 0)
            case Hexadecimal(octets) => "#" + HexText(octets)
  {
    StringTypes(tag);
  }

  lemma UnescapeOne(text: string, index: nat, rest: string)
    requires index < |text|
    ensures Unescape(EscapeAt(text, index) + rest) == [text[index]] + Unescape(rest)
  {
    var e := EscapeAt(text, index);
    assert (e + rest)[|e|..] == rest;
  }

  lemma {:induction false} UnescapeEscaped(text: string, index: nat)
    requires index <= |text|
    ensures Unescape(EscapedFrom(text, index)) == text[index..]
    decreases |text| - index
  {
    if index < |text| {
      UnescapeEscaped(text, index + 1);
      UnescapeOne(text, index, EscapedFrom(text, index + 1));
    }
  }

  lemma ReadHexPair(high: nat, low: nat, rest: string)
    requires high < 16 && low < 16
    ensures ReadHex([HexChar(high), HexChar(low)] + rest) == [16 * high + low] + ReadHex(rest)
  {
    assert ([HexChar(high), HexChar(low)] + rest)[2..] == rest;
  }

  /** Two digits an octet, in lower case. */
  lemma {:induction false} HexTextShape(value: seq<byte>)
    ensures |HexText(value)| == 2 * |value|
    ensures forall c :: c in HexText(value) ==> '0' <= c <= '9' || 'a' <= c <= 'f'
  {
    if value != [] {
      HexTextShape(value[1..]);
    }
  }

  lemma {:induction false} ReadHexText(value: seq<byte>)
    ensures ReadHex(HexText(value)) == value
  {
    if value != [] {
      ReadHexText(value[1..]);
      ReadHexPair(value[0] / 16, value[0] % 16, HexText(value[1..]));
      assert [value[0]] + value[1..] == value;
    }
  }

  /** Unescaping recovers every string, and `#` starts a value exactly when it is not a string. */
  lemma ReadValueText(library: Library, a: Attribute)
    ensures ReadValue(ValueText(library, a.tag, a.value)) == MeaningOf(library, a).value
  {
    StringTypes(a.tag);
    if IsString(a.tag) {
      UnescapeEscaped(StringText(library, a.tag, a.value), 0);
    } else {
      ReadHexText(a.value);
      assert ("#" + HexText(a.value))[1..] == HexText(a.value);
    }
  }

  /** The characters of LUTF1, SUTF1 and TUTF1 in section 3 of RFC 4514, or of UTFMB. */
  predicate LeadChar(c: char) {
    var n := c as int;
    || 0x01 <= n <= 0x1f || n == 0x21 || 0x24 <= n <= 0x2a || 0x2d <= n <= 0x3a || n == 0x3d
    || 0x3f <= n <= 0x5b || 0x5d <= n
  }

  predicate StringChar(c: char) {
    var n := c as int;
    || 0x01 <= n <= 0x21 || 0x23 <= n <= 0x2a || 0x2d <= n <= 0x3a || n == 0x3d
    || 0x3f <= n <= 0x5b || 0x5d <= n
  }

  predicate TrailChar(c: char) {
    var n := c as int;
    || 0x01 <= n <= 0x1f || n == 0x21 || 0x23 <= n <= 0x2a || 0x2d <= n <= 0x3a || n == 0x3d
    || 0x3f <= n <= 0x5b || 0x5d <= n
  }

  /** Whether the grammar lets the character stand for itself at its place. */
  predicate StandsAsItIs(text: string, index: nat)
    requires index < |text|
  {
    if index == 0 then LeadChar(text[0])
    else if index == |text| - 1 then TrailChar(text[index])
    else StringChar(text[index])
  }

  /** A character is escaped exactly where the grammar does not let it stand, NUL by its digits. */
  lemma EscapesOnlyWhatMustBe(text: string, index: nat)
    requires index < |text|
    ensures EscapeAt(text, index)
         == if StandsAsItIs(text, index) then [text[index]]
            else if text[index] == '\0' then "\\00"
            else ['\\', text[index]]
  {
  }

  /** ESC and `special`: what a backslash may stand before. */
  predicate Escapable(c: char) {
    || c == '\\' || c == '"' || c == '+' || c == ',' || c == ';' || c == '<' || c == '>'
    || c == ' ' || c == '#' || c == '='
  }

  /** A `pair` after its backslash: a backslash, a special or a hexpair. */
  function PairLength(s: string): nat {
    if s == "" then 0
    else if Escapable(s[0]) then 1
    else if |s| >= 2 && HexValue(s[0]).Some? && HexValue(s[1]).Some? then 2
    else 0
  }

  /**
    The `string` of section 3 of RFC 4514: pairs and characters that stand for themselves; `first`
    tells a leadchar from the rest, and the last character is a trailchar.
   */
  predicate IsRfc4514String(s: string, first: bool) {
    s == ""
    || if s[0] == '\\' then
         var n := PairLength(s[1..]);
         n > 0 && IsRfc4514String(s[1 + n..], false)
       else
         && (if first then LeadChar(s[0]) else if |s| == 1 then TrailChar(s[0]) else StringChar(s[0]))
         && IsRfc4514String(s[1..], false)
  }

  lemma EscapedPieceConforms(text: string, index: nat, rest: string)
    requires index < |text|
    requires IsRfc4514String(rest, false)
    requires rest == "" ==> index == |text| - 1
    ensures IsRfc4514String(EscapeAt(text, index) + rest, index == 0)
  {
    var c := text[index];
    EscapesOnlyWhatMustBe(text, index);
    if StandsAsItIs(text, index) {
      CharacterConforms(c, rest, index == 0);
    } else if c == '\0' {
      PairConforms("00", rest, index == 0);
    } else {
      PairConforms([c], rest, index == 0);
    }
  }

  lemma CharacterConforms(c: char, rest: string, first: bool)
    requires IsRfc4514String(rest, false)
    requires if first then LeadChar(c) else if rest == "" then TrailChar(c) else StringChar(c) || TrailChar(c)
    ensures IsRfc4514String([c] + rest, first)
  {
    assert ([c] + rest)[1..] == rest;
  }

  lemma PairConforms(pair: string, rest: string, first: bool)
    requires IsRfc4514String(rest, false)
    requires pair == "00" || (|pair| == 1 && Escapable(pair[0]))
    ensures IsRfc4514String(['\\'] + pair + rest, first)
  {
    var s := ['\\'] + pair + rest;
    assert s[1..] == pair + rest;
    assert s[1 + |pair|..] == rest;
  }

  /** Every string is printed as the grammar asks: whatever has to be escaped is. */
  lemma {:induction false} EscapedConforms(text: string, index: nat)
    requires index <= |text|
    ensures IsRfc4514String(EscapedFrom(text, index), index == 0)
    ensures EscapedFrom(text, index) == "" <==> index == |text|
    decreases |text| - index
  {
    if index < |text| {
      EscapedConforms(text, index + 1);
      EscapedPieceConforms(text, index, EscapedFrom(text, index + 1));
    }
  }

  // Separators.

  /** No unescaped separator, and no backslash left open at the end. */
  predicate Sealed(s: string, separator: char) {
    s == "" || if s[0] == '\\' then |s| >= 2 && Sealed(s[2..], separator)
               else s[0] != separator && Sealed(s[1..], separator)
  }

  lemma {:induction false} SealedTogether(a: string, b: string, separator: char)
    requires Sealed(a, separator) && Sealed(b, separator)
    ensures Sealed(a + b, separator)
  {
    if a == "" {
      assert a + b == b;
    } else {
      var n := if a[0] == '\\' then 2 else 1;
      SealedTogether(a[n..], b, separator);
      assert (a + b)[n..] == a[n..] + b;
    }
  }

  /** Splitting goes over an escaped pair, or over one character that is neither. */
  lemma SplitUnescapedStep(n: nat, s: string, separator: char)
    requires n == 2 || n == 1
    requires |s| >= n
    requires if s[0] == '\\' then n == 2 else n == 1 && s[0] != separator
    ensures var rest := SplitUnescaped(s[n..], separator);
      SplitUnescaped(s, separator) == [s[..n] + rest[0]] + rest[1..]
  {
    if n == 1 {
      assert s[..1] == [s[0]];
    }
  }

  lemma {:induction false} SplitUnescapedAlone(piece: string, separator: char)
    requires Sealed(piece, separator)
    ensures SplitUnescaped(piece, separator) == [piece]
  {
    if piece != "" {
      var n := if piece[0] == '\\' then 2 else 1;
      SplitUnescapedAlone(piece[n..], separator);
      SplitUnescapedStep(n, piece, separator);
      assert piece[..n] + piece[n..] == piece;
    }
  }

  lemma {:induction false} SplitUnescapedPiece(piece: string, rest: string, separator: char)
    requires separator != '\\'
    requires Sealed(piece, separator)
    ensures SplitUnescaped(piece + ([separator] + rest), separator) == [piece] + SplitUnescaped(rest, separator)
  {
    var tail := [separator] + rest;
    var whole := piece + tail;
    if piece == "" {
      assert whole == tail && tail[1..] == rest;
    } else {
      var n := if piece[0] == '\\' then 2 else 1;
      assert whole == piece[..n] + (piece[n..] + tail);
      assert whole[n..] == piece[n..] + tail && whole[..n] == piece[..n];
      SplitUnescapedPiece(piece[n..], rest, separator);
      SplitUnescapedStep(n, whole, separator);
      assert piece[..n] + piece[n..] == piece;
    }
  }

  lemma {:induction false} SplitUnescapedJoin(parts: seq<string>, separator: char)
    requires separator != '\\'
    requires parts != []
    requires forall k :: 0 <= k < |parts| ==> Sealed(parts[k], separator)
    ensures SplitUnescaped(Join(parts, separator), separator) == parts
  {
    if |parts| == 1 {
      SplitUnescapedAlone(parts[0], separator);
    } else {
      SplitUnescapedJoin(parts[1..], separator);
      SplitUnescapedPiece(parts[0], Join(parts[1..], separator), separator);
    }
  }

  lemma {:induction false} SealedJoin(parts: seq<string>, separator: char, other: char)
    requires separator != other && separator != '\\'
    requires forall k :: 0 <= k < |parts| ==> Sealed(parts[k], other)
    ensures Sealed(Join(parts, separator), other)
  {
    if |parts| > 1 {
      SealedJoin(parts[1..], separator, other);
      var more := Join(parts[1..], separator);
      assert ([separator] + more)[1..] == more;
      SealedTogether(parts[0], [separator] + more, other);
    }
  }

  /** Letters, digits and full stops: what an attribute type is printed with. */
  predicate Plain(s: string) {
    forall c :: c in s ==> c != ',' && c != '+' && c != '=' && c != '\\'
  }

  lemma {:induction false} PlainIsSealed(s: string, separator: char)
    requires Plain(s) && (separator == ',' || separator == '+')
    ensures Sealed(s, separator)
  {
    if s != "" {
      assert s[0] in s && forall c :: c in s[1..] ==> c in s;
      PlainIsSealed(s[1..], separator);
    }
  }

  lemma {:induction false} PlainJoin(parts: seq<string>)
    requires forall k :: 0 <= k < |parts| ==> Plain(parts[k])
    ensures Plain(Join(parts, '.'))
  {
    if |parts| > 1 {
      PlainJoin(parts[1..]);
    }
  }

  lemma TypeTextIsPlain(identifier: seq<byte>)
    ensures Plain(TypeText(identifier))
  {
    if ShortName(identifier) == None {
      var decimals := Decimals(Arcs(identifier));
      forall k | 0 <= k < |decimals| ensures Plain(decimals[k]) {
        assert decimals[k] == Decimal(Arcs(identifier)[k]);
      }
      PlainJoin(decimals);
    }
  }

  lemma {:induction false} EscapedIsSealed(text: string, index: nat, separator: char)
    requires separator == ',' || separator == '+'
    ensures Sealed(EscapedFrom(text, index), separator)
    decreases |text| - index
  {
    if index < |text| {
      EscapedIsSealed(text, index + 1, separator);
      assert Sealed(EscapeAt(text, index), separator);
      SealedTogether(EscapeAt(text, index), EscapedFrom(text, index + 1), separator);
    }
  }

  lemma {:induction false} HexIsPlain(value: seq<byte>)
    ensures Plain(HexText(value))
  {
    if value != [] {
      HexIsPlain(value[1..]);
      HexDigitIsPlain(value[0] / 16);
      HexDigitIsPlain(value[0] % 16);
      assert Plain([HexChar(value[0] / 16), HexChar(value[0] % 16)]);
    }
  }

  lemma HexDigitIsPlain(n: nat)
    requires n < 16
    ensures Plain([HexChar(n)])
  {
  }

  lemma AttributeIsSealed(library: Library, a: Attribute, separator: char)
    requires separator == ',' || separator == '+'
    ensures Sealed(AttributeText(library, a), separator)
  {
    var value := ValueText(library, a.tag, a.value);
    if IsString(a.tag) {
      EscapedIsSealed(StringText(library, a.tag, a.value), 0, separator);
    } else {
      HexIsPlain(a.value);
      PlainIsSealed("#" + HexText(a.value), separator);
    }
    assert ("=" + value)[1..] == value;
    TypeTextIsPlain(a.identifier);
    PlainIsSealed(TypeText(a.identifier), separator);
    SealedTogether(TypeText(a.identifier), "=" + value, separator);
  }

  // The read-back.

  lemma ReadAttributeText(library: Library, a: Attribute)
    ensures ReadAssertion(AttributeText(library, a)) == MeaningOf(library, a)
  {
    var value := ValueText(library, a.tag, a.value);
    TypeTextIsPlain(a.identifier);
    SplitPiece(TypeText(a.identifier), value, '=');
    JoinSplit(value, '=');
    assert ([TypeText(a.identifier)] + Split(value, '='))[1..] == Split(value, '=');
    ReadValueText(library, a);
  }

  lemma JoinIsLong<T>(parts: seq<seq<T>>, separator: T)
    requires |parts| >= 2 || (|parts| == 1 && parts[0] != [])
    ensures Join(parts, separator) != []
  {
  }

  lemma ReadRdnText(library: Library, rdn: Rdn)
    ensures ReadAssertions(RdnText(library, rdn)) == MeaningsOf(library, rdn)
    ensures RdnText(library, rdn) == "" <==> rdn == []
  {
    if rdn != [] {
      var texts := AttributeTexts(library, rdn);
      JoinIsLong(texts, '+');
      forall k | 0 <= k < |rdn|
        ensures Sealed(texts[k], '+') && ReadAssertion(texts[k]) == MeaningOf(library, rdn[k])
      {
        AttributeIsSealed(library, rdn[k], '+');
        ReadAttributeText(library, rdn[k]);
      }
      SplitUnescapedJoin(texts, '+');
    }
  }

  lemma RdnIsSealed(library: Library, rdn: Rdn)
    ensures Sealed(RdnText(library, rdn), ',')
  {
    var texts := AttributeTexts(library, rdn);
    forall k | 0 <= k < |rdn| ensures Sealed(texts[k], ',') {
      AttributeIsSealed(library, rdn[k], ',');
    }
    SealedJoin(texts, '+', ',');
  }

  lemma ReadRdnTexts(library: Library, name: seq<Rdn>)
    ensures forall k :: 0 <= k < |name| ==> Sealed(RdnTexts(library, name)[k], ',')
    ensures forall k :: 0 <= k < |name| ==> ReadAssertions(RdnTexts(library, name)[k]) == MeaningsOf(library, name[k])
  {
    forall k | 0 <= k < |name|
      ensures Sealed(RdnText(library, name[k]), ',')
      ensures ReadAssertions(RdnText(library, name[k])) == MeaningsOf(library, name[k])
    {
      RdnIsSealed(library, name[k]);
      ReadRdnText(library, name[k]);
    }
  }

  lemma SplitLongName(library: Library, name: seq<Rdn>)
    requires name != [] && name != [[]]
    ensures NameText(library, name) != ""
    ensures Reverse(SplitUnescaped(NameText(library, name), ',')) == RdnTexts(library, name)
  {
    var texts := RdnTexts(library, name);
    ReadRdnTexts(library, name);
    ReadRdnText(library, name[0]);
    JoinIsLong(Reverse(texts), ',');
    SplitUnescapedJoin(Reverse(texts), ',');
    ReverseTwice(texts);
  }

  lemma ReadLongName(library: Library, name: seq<Rdn>)
    requires name != [] && name != [[]]
    ensures ReadName(NameText(library, name)) == NameMeaning(library, name)
  {
    SplitLongName(library, name);
    ReadRdnTexts(library, name);
  }

  /**
    The text of every name reads back as its RDNs, in order, but for one: the name of a single
    RDN without attributes prints like the name of no RDNs at all.
   */
  lemma NameReadsBack(library: Library, name: seq<Rdn>)
    ensures ReadName(NameText(library, name)) == NameMeaning(library, name) <==> name != [[]]
  {
    if name == [[]] {
      assert Reverse(RdnTexts(library, name)) == [""];
      assert |NameMeaning(library, name)| == 1;
    } else if name == [] {
      assert Reverse(RdnTexts(library, name)) == [];
    } else {
      ReadLongName(library, name);
    }
  }

  lemma SameMeaningSameText(library: Library, a: Attribute, b: Attribute)
    requires MeaningOf(library, a) == MeaningOf(library, b)
    ensures AttributeText(library, a) == AttributeText(library, b)
  {
    ValueTextMeans(library, a.tag, a.value);
    ValueTextMeans(library, b.tag, b.value);
  }

  lemma SameMeaningSameTexts(library: Library, a: Rdn, b: Rdn)
    requires MeaningsOf(library, a) == MeaningsOf(library, b)
    ensures AttributeTexts(library, a) == AttributeTexts(library, b)
  {
    assert |MeaningsOf(library, a)| == |MeaningsOf(library, b)|;
    forall k | 0 <= k < |a| ensures AttributeText(library, a[k]) == AttributeText(library, b[k]) {
      assert MeaningsOf(library, a)[k] == MeaningsOf(library, b)[k];
      SameMeaningSameText(library, a[k], b[k]);
    }
  }

  lemma SameNameMeaningSameText(library: Library, a: seq<Rdn>, b: seq<Rdn>)
    requires NameMeaning(library, a) == NameMeaning(library, b)
    ensures NameText(library, a) == NameText(library, b)
  {
    assert |NameMeaning(library, a)| == |NameMeaning(library, b)|;
    forall k | 0 <= k < |a| ensures RdnText(library, a[k]) == RdnText(library, b[k]) {
      assert NameMeaning(library, a)[k] == NameMeaning(library, b)[k];
      SameMeaningSameTexts(library, a[k], b[k]);
    }
    assert RdnTexts(library, a) == RdnTexts(library, b);
  }

  /** Names print alike exactly when their types, decoded strings and other octets agree. */
  lemma NamesPrintAlikeExactly(library: Library, a: seq<Rdn>, b: seq<Rdn>)
    requires a != [[]] && b != [[]]
    ensures NameText(library, a) == NameText(library, b) <==> NameMeaning(library, a) == NameMeaning(library, b)
  {
    NameReadsBack(library, a);
    NameReadsBack(library, b);
    if NameMeaning(library, a) == NameMeaning(library, b) {
      SameNameMeaningSameText(library, a, b);
    }
  }

  /** The tag of a value that is not a string is lost: an INTEGER prints like an OCTET STRING. */
  lemma TagIsNotPrinted(library: Library, identifier: seq<byte>, octets: seq<byte>)
    ensures var a := [[Attribute(identifier, INTEGER, octets)]];
      var b := [[Attribute(identifier, OCTET_STRING, octets)]];
      a != b && NameText(library, a) == NameText(library, b)
  {
    var a := [[Attribute(identifier, INTEGER, octets)]];
    var b := [[Attribute(identifier, OCTET_STRING, octets)]];
    assert a[0][0] != b[0][0];
    assert MeaningsOf(library, a[0]) == MeaningsOf(library, b[0]);
    assert NameMeaning(library, a) == NameMeaning(library, b);
    SameNameMeaningSameText(library, a, b);
  }
}
