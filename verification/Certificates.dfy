/**
  `names` and `general_names` of `src/x509.rs`: the subject, issuer and alternative names of a
  DER certificate.
 */
module Certificates {
  import opened Octets
  import opened Elements
  import opened DistinguishedNames

  /** id-ce-subjectAltName, 2.5.29.17. */
  const SUBJECT_ALT_NAME: seq<byte> := [0x55, 0x1d, 0x11]

  datatype Kind = Email | Dns | Uri | Ip

  datatype AltName = AltName(kind: Kind, value: string)

  datatype CertificateNames = CertificateNames(subject: string, issuer: string, subjectAltNames: seq<AltName>)

  // ── General names ──────────────────────────────────────────────────────

  function IpAddress(library: Library, octets: seq<byte>): Option<string> {
    if |octets| == 4 then Some(library.ipv4(octets))
    else if |octets| == 16 then Some(library.ipv6(octets))
    else None
  }

  /** The alternative name a GeneralName with this tag yields, if the form is kept. */
  function Kept(library: Library, tag: byte, content: seq<byte>): Option<AltName> {
    if tag == 0x81 then Some(AltName(Email, library.utf8(content)))
    else if tag == 0x82 then Some(AltName(Dns, library.utf8(content)))
    else if tag == 0x86 then Some(AltName(Uri, library.utf8(content)))
    else if tag == 0x87 then
      match IpAddress(library, content)
      case Some(address) => Some(AltName(Ip, address))
      case None => None
    else None
  }

  function CollectNames(library: Library, input: seq<byte>): Option<seq<AltName>>
    decreases |input|
  {
    if input == [] then Some([])
    else
      match ReadElement(input)
      case Refused => None
      case Taken(tag, content, rest) =>
        match Kept(library, tag, content)
        case Some(name) => Prepend(name, CollectNames(library, rest))
        case None => CollectNames(library, rest)
  }

  function ParseGeneralNames(library: Library, value: seq<byte>): Option<seq<AltName>> {
    var (names, _) :- ReadTagged(value, SEQUENCE);
    CollectNames(library, names)
  }

  method GeneralNames(library: Library, value: seq<byte>) returns (r: Option<seq<AltName>>)
    ensures r == ParseGeneralNames(library, value)
  {
    var input := new Cursor(value);
    var content := input.Expect(SEQUENCE);
    if content == None { return None; }
    var names := new Cursor(content.value);
    var found: seq<AltName> := [];
    ghost var whole := CollectNames(library, content.value);
    Begin(whole);
    while names.input != []
      invariant Continues(whole, found, CollectNames(library, names.input))
      decreases |names.input|
    {
      var element := names.Element();
      if element == None { return None; }
      var Tlv(tag, octets) := element.value;
      var kept := Kept(library, tag, octets);
      if kept.Some? {
        Advance(whole, found, kept.value, CollectNames(library, names.input));
        found := found + [kept.value];
      }
    }
    assert found + [] == found;
    return Some(found);
  }

  // ── The certificate ────────────────────────────────────────────────────

  /** Past an optional field that starts with `tag`. */
  function SkipOptional(input: seq<byte>, tag: byte): (r: Option<seq<byte>>)
    ensures r.Some? ==> |r.value| <= |input|
  {
    if input != [] && input[0] == tag then
      match ReadElement(input)
      case Taken(_, _, rest) => Some(rest)
      case Refused => None
    else Some(input)
  }

  /** One Extension: its identifier and value. */
  function ParseExtension(content: seq<byte>): Option<(seq<byte>, seq<byte>)> {
    var (identifier, afterIdentifier) :- ReadTagged(content, OBJECT_IDENTIFIER);
    var afterCritical :- SkipOptional(afterIdentifier, BOOLEAN);
    var (value, _) :- ReadTagged(afterCritical, OCTET_STRING);
    Some((identifier, value))
  }

  /** The alternative names after the extensions in `input`, when `names` were found before them. */
  function ParseExtensions(library: Library, input: seq<byte>, names: seq<AltName>): Option<seq<AltName>>
    decreases |input|
  {
    if input == [] then Some(names)
    else
      var (content, rest) :- ReadTagged(input, SEQUENCE);
      var (identifier, value) :- ParseExtension(content);
      var found :- if identifier == SUBJECT_ALT_NAME then ParseGeneralNames(library, value) else Some(names);
      ParseExtensions(library, rest, found)
  }

  /** The fields after subjectPublicKeyInfo. */
  function ParseTail(library: Library, input: seq<byte>, names: seq<AltName>): Option<seq<AltName>>
    decreases |input|
  {
    if input == [] then Some(names)
    else
      match ReadElement(input)
      case Refused => None
      case Taken(tag, content, rest) =>
        if tag != EXTENSIONS then ParseTail(library, rest, names)
        else
          var (extensions, _) :- ReadTagged(content, SEQUENCE);
          var found :- ParseExtensions(library, extensions, names);
          ParseTail(library, rest, found)
  }

  datatype Header = Header(issuer: string, subject: string, rest: seq<byte>)

  function PrintName(library: Library, content: seq<byte>): Option<string> {
    var rdns :- ParseName(content);
    Some(NameText(library, rdns))
  }

  /** The fields of TBSCertificate up to subjectPublicKeyInfo. */
  function ParseHeader(library: Library, tbs: seq<byte>): Option<Header> {
    var afterVersion :- SkipOptional(tbs, VERSION);
    var (_, afterSerial) :- ReadTagged(afterVersion, INTEGER);
    var (_, afterSignature) :- ReadTagged(afterSerial, SEQUENCE);
    var (issuer, afterIssuer) :- ReadTagged(afterSignature, SEQUENCE);
    var issuerText :- PrintName(library, issuer);
    var (_, afterValidity) :- ReadTagged(afterIssuer, SEQUENCE);
    var (subject, afterSubject) :- ReadTagged(afterValidity, SEQUENCE);
    var subjectText :- PrintName(library, subject);
    var (_, rest) :- ReadTagged(afterSubject, SEQUENCE);
    Some(Header(issuerText, subjectText, rest))
  }

  function ParseNames(library: Library, certificate: seq<byte>): Option<CertificateNames> {
    var (content, _) :- ReadTagged(certificate, SEQUENCE);
    var (tbs, _) :- ReadTagged(content, SEQUENCE);
    var header :- ParseHeader(library, tbs);
    var names :- ParseTail(library, header.rest, []);
    Some(CertificateNames(header.subject, header.issuer, names))
  }

  method SkipField(cursor: Cursor, tag: byte) returns (ok: bool)
    modifies cursor
    ensures ok == SkipOptional(old(cursor.input), tag).Some?
    ensures ok ==> cursor.input == SkipOptional(old(cursor.input), tag).value
  {
    if cursor.input != [] && cursor.input[0] == tag {
      var element := cursor.Element();
      return element.Some?;
    }
    return true;
  }

  method ReadExtension(content: seq<byte>) returns (r: Option<(seq<byte>, seq<byte>)>)
    ensures r == ParseExtension(content)
  {
    var extension := new Cursor(content);
    var identifier := extension.Expect(OBJECT_IDENTIFIER);
    if identifier == None { return None; }
    var ok := SkipField(extension, BOOLEAN);
    if !ok { return None; }
    var value := extension.Expect(OCTET_STRING);
    if value == None { return None; }
    return Some((identifier.value, value.value));
  }

  /** The inner loop of `names`: a later subjectAltName replaces what an earlier one held. */
  method ReadExtensions(library: Library, content: seq<byte>, names: seq<AltName>)
    returns (r: Option<seq<AltName>>)
    ensures r == ParseExtensions(library, content, names)
  {
    var extensions := new Cursor(content);
    var found := names;
    while extensions.input != []
      invariant ParseExtensions(library, extensions.input, found) == ParseExtensions(library, content, names)
      decreases |extensions.input|
    {
      var inner := extensions.Expect(SEQUENCE);
      if inner == None { return None; }
      var extension := ReadExtension(inner.value);
      if extension == None { return None; }
      if extension.value.0 == SUBJECT_ALT_NAME {
        var general := GeneralNames(library, extension.value.1);
        if general == None { return None; }
        found := general.value;
      }
    }
    return Some(found);
  }

  /** The outer loop of `names`. */
  method ReadTail(library: Library, tail: seq<byte>) returns (r: Option<seq<AltName>>)
    ensures r == ParseTail(library, tail, [])
  {
    var tbs := new Cursor(tail);
    var found: seq<AltName> := [];
    while tbs.input != []
      invariant ParseTail(library, tbs.input, found) == ParseTail(library, tail, [])
      decreases |tbs.input|
    {
      var element := tbs.Element();
      if element == None { return None; }
      var Tlv(tag, content) := element.value;
      if tag != EXTENSIONS { continue; }
      var wrapper := new Cursor(content);
      var extensions := wrapper.Expect(SEQUENCE);
      if extensions == None { return None; }
      var names := ReadExtensions(library, extensions.value, found);
      if names == None { return None; }
      found := names.value;
    }
    return Some(found);
  }

  method ReadHeader(library: Library, fields: seq<byte>) returns (r: Option<Header>)
    ensures r == ParseHeader(library, fields)
  {
    var tbs := new Cursor(fields);
    var ok := SkipField(tbs, VERSION);
    if !ok { return None; }
    var serial := tbs.Expect(INTEGER);
    if serial == None { return None; }
    var signature := tbs.Expect(SEQUENCE);
    if signature == None { return None; }
    var issuer := tbs.Expect(SEQUENCE);
    if issuer == None { return None; }
    var issuerText := DistinguishedName(library, issuer.value);
    if issuerText == None { return None; }
    var validity := tbs.Expect(SEQUENCE);
    if validity == None { return None; }
    var subject := tbs.Expect(SEQUENCE);
    if subject == None { return None; }
    var subjectText := DistinguishedName(library, subject.value);
    if subjectText == None { return None; }
    var key := tbs.Expect(SEQUENCE);
    if key == None { return None; }
    return Some(Header(issuerText.value, subjectText.value, tbs.input));
  }

  method ReadNames(library: Library, certificate: seq<byte>) returns (r: Option<CertificateNames>)
    ensures r == ParseNames(library, certificate)
  {
    var input := new Cursor(certificate);
    var content := input.Expect(SEQUENCE);
    if content == None { return None; }
    var outer := new Cursor(content.value);
    var tbs := outer.Expect(SEQUENCE);
    if tbs == None { return None; }
    var header := ReadHeader(library, tbs.value);
    if header == None { return None; }
    var names := ReadTail(library, header.value.rest);
    if names == None { return None; }
    return Some(CertificateNames(header.value.subject, header.value.issuer, names.value));
  }

  // ── Nothing is read past the input ─────────────────────────────────────

  /** Octets after the outer SEQUENCE change nothing, accepted or not. */
  lemma TrailingOctetsAreIgnored(library: Library, certificate: seq<byte>, more: seq<byte>)
    requires ReadElement(certificate).Taken?
    ensures ParseNames(library, certificate + more) == ParseNames(library, certificate)
  {
    ElementIgnoresWhatFollows(certificate, more);
  }

  /** A prefix that ends inside the outer SEQUENCE is refused. */
  lemma TruncatedIsRefused(library: Library, certificate: seq<byte>, cut: nat)
    requires ReadElement(certificate).Taken?
    requires cut < |certificate| - |ReadElement(certificate).rest|
    ensures ParseNames(library, certificate[..cut]) == None
  {
    ElementNeedsAllOfIt(certificate, cut);
  }
}
