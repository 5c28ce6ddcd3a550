/**
  Abstract certificates (section 4.1 of RFC 5280), their DER encoding, and the theorem that
  `names` returns exactly what a certificate says.
 */
module CertificateEncoding {
  import opened Octets
  import opened Asn1
  import opened Elements
  import opened ObjectIdentifiers
  import opened DistinguishedNames
  import opened Certificates

  datatype TypeAndValue = TypeAndValue(arcs: seq<nat>, tag: byte, value: seq<byte>)

  type DirectoryName = seq<seq<TypeAndValue>>

  /** The forms of GeneralName (section 4.2.1.6 of RFC 5280). */
  datatype GeneralName =
    | OtherName(octets: seq<byte>)
    | Rfc822Name(octets: seq<byte>)
    | DnsName(octets: seq<byte>)
    | X400Address(octets: seq<byte>)
    | Directory(octets: seq<byte>)
    | EdiPartyName(octets: seq<byte>)
    | UniformResourceIdentifier(octets: seq<byte>)
    | IpAddressName(octets: seq<byte>)
    | RegisteredId(octets: seq<byte>)

  /** What an extension holds: GeneralNames, or anything else. */
  datatype ExtensionBody = AlternativeNames(names: seq<GeneralName>) | Anything(octets: seq<byte>)

  /** `critical` is the content of the BOOLEAN, when it is written. */
  datatype Extension = Extension(arcs: seq<nat>, critical: Option<seq<byte>>, body: ExtensionBody)

  /** id-ce-subjectAltName (section 4.2.1.6 of RFC 5280). */
  const SUBJECT_ALT_NAME_ARCS: seq<nat> := [2, 5, 29, 17]

  /** Fields `names` does not look into are their content octets. */
  datatype Certificate = Certificate(
    version: Option<seq<byte>>,
    serial: seq<byte>,
    signature: seq<byte>,
    issuer: DirectoryName,
    validity: seq<byte>,
    subject: DirectoryName,
    publicKey: seq<byte>,
    issuerUniqueId: Option<seq<byte>>,
    subjectUniqueId: Option<seq<byte>>,
    extensions: Option<seq<Extension>>,
    signed: seq<byte>)

  // ── What a certificate says ────────────────────────────────────────────

  /** Section 2.3 of RFC 4514: the short name, or the dotted-decimal form. */
  function TypeName(arcs: seq<nat>): string {
    match KnownName(arcs) case Some(name) => name case None => DottedText(arcs)
  }

  /** Section 2.2 of RFC 4514, for any way to write a value. */
  function RdnString(rdn: seq<TypeAndValue>, value: TypeAndValue -> string): string {
    if rdn == [] then ""
    else
      var first := TypeName(rdn[0].arcs) + ("=" + value(rdn[0]));
      if |rdn| == 1 then first else first + ("+" + RdnString(rdn[1..], value))
  }

  /** Section 2.1 of RFC 4514: starting with the last RDN and moving backwards. */
  function NameString(name: DirectoryName, value: TypeAndValue -> string): string {
    if name == [] then ""
    else
      var last := RdnString(name[|name| - 1], value);
      if |name| == 1 then last else last + ("," + NameString(name[..|name| - 1], value))
  }

  /** Section 2.4 of RFC 4514 has a string for a string value whose type has a short name. */
  predicate HasStringForm(a: TypeAndValue) {
    KnownName(a.arcs).Some? && StringTypeOf(a.tag).Some?
  }

  /** Section 2.4 of RFC 4514: that string, or else `#` and the BER encoding in hexadecimal. */
  function RfcValue(library: Library): TypeAndValue -> string {
    (a: TypeAndValue) =>
      if HasStringForm(a) then EscapedFrom(Decoded(library, StringTypeOf(a.tag).value, a.value), 0)
      else "#" + HexText(Der(a.tag, a.value))
  }

  /** What the reader writes instead: the type's name plays no part, and the hexadecimal has no header. */
  function PrintedValue(library: Library): TypeAndValue -> string {
    (a: TypeAndValue) => ValueText(library, a.tag, a.value)
  }

  predicate AllStringForms(name: DirectoryName) {
    forall i, k :: 0 <= i < |name| && 0 <= k < |name[i]| ==> HasStringForm(name[i][k])
  }

  /** The four forms a script can compare with, in order; an address of another size is dropped. */
  function SaidNames(library: Library, names: seq<GeneralName>): seq<AltName> {
    if names == [] then []
    else
      var rest := SaidNames(library, names[1..]);
      match names[0]
      case Rfc822Name(octets) => [AltName(Email, library.utf8(octets))] + rest
      case DnsName(octets) => [AltName(Kind.Dns, library.utf8(octets))] + rest
      case UniformResourceIdentifier(octets) => [AltName(Uri, library.utf8(octets))] + rest
      case IpAddressName(octets) =>
        if |octets| == 4 then [AltName(Ip, library.ipv4(octets))] + rest
        else if |octets| == 16 then [AltName(Ip, library.ipv6(octets))] + rest
        else rest
      case _ => rest
  }

  predicate IsSubjectAltName(e: Extension) {
    e.arcs == SUBJECT_ALT_NAME_ARCS && e.body.AlternativeNames?
  }

  /** The names of the last subjectAltName extension, or `default` without one. */
  function LastNames(library: Library, extensions: seq<Extension>, default: seq<AltName>): seq<AltName> {
    if extensions == [] then default
    else
      var last := extensions[|extensions| - 1];
      if IsSubjectAltName(last) then SaidNames(library, last.body.names)
      else LastNames(library, extensions[..|extensions| - 1], default)
  }

  function NamesWith(library: Library, c: Certificate, value: TypeAndValue -> string): CertificateNames {
    CertificateNames(NameString(c.subject, value), NameString(c.issuer, value),
                     if c.extensions.Some? then LastNames(library, c.extensions.value, []) else [])
  }

  /** What a certificate says, in the terms of RFC 4514 and RFC 5280. */
  function Said(library: Library, c: Certificate): CertificateNames {
    NamesWith(library, c, RfcValue(library))
  }

  /** What is read of it. */
  function Printed(library: Library, c: Certificate): CertificateNames {
    NamesWith(library, c, PrintedValue(library))
  }

  predicate WellFormedName(name: DirectoryName) {
    forall i, k :: 0 <= i < |name| && 0 <= k < |name[i]| ==>
      var a := name[i][k]; a.tag % 32 != 31 && ValidArcs(a.arcs) && Fit64(SubidentifiersOf(a.arcs))
  }

  /** Identifiers in names are within 64 bits, and a subjectAltName holds GeneralNames. */
  predicate WellFormed(c: Certificate) {
    && WellFormedName(c.issuer) && WellFormedName(c.subject)
    && (c.extensions.Some? ==> WellFormedExtensions(c.extensions.value))
  }

  predicate WellFormedExtensions(extensions: seq<Extension>) {
    forall k :: 0 <= k < |extensions| ==>
      && ValidArcs(extensions[k].arcs)
      && (extensions[k].arcs == SUBJECT_ALT_NAME_ARCS ==> extensions[k].body.AlternativeNames?)
  }

  // ── The encoder ────────────────────────────────────────────────────────

  function EncodeOptional(tag: byte, content: Option<seq<byte>>): seq<byte> {
    match content case None => [] case Some(octets) => Der(tag, octets)
  }

  function CodedRdn(rdn: seq<TypeAndValue>): Rdn
    requires forall k :: 0 <= k < |rdn| ==> ValidArcs(rdn[k].arcs)
  {
    seq(|rdn|, k requires 0 <= k < |rdn| => Attribute(EncodeArcs(rdn[k].arcs), rdn[k].tag, rdn[k].value))
  }

  function CodedName(name: DirectoryName): seq<Rdn>
    requires WellFormedName(name)
  {
    seq(|name|, i requires 0 <= i < |name| => CodedRdn(name[i]))
  }

  function GeneralTag(name: GeneralName): byte {
    match name
    case OtherName(_) => ContextOctet(true, 0)
    case Rfc822Name(_) => ContextOctet(false, 1)
    case DnsName(_) => ContextOctet(false, 2)
    case X400Address(_) => ContextOctet(true, 3)
    case Directory(_) => ContextOctet(true, 4)
    case EdiPartyName(_) => ContextOctet(true, 5)
    case UniformResourceIdentifier(_) => ContextOctet(false, 6)
    case IpAddressName(_) => ContextOctet(false, 7)
    case RegisteredId(_) => ContextOctet(false, 8)
  }

  function EncodeGeneralNames(names: seq<GeneralName>): seq<byte> {
    if names == [] then []
    else Der(GeneralTag(names[0]), names[0].octets) + EncodeGeneralNames(names[1..])
  }

  function ExtensionValue(body: ExtensionBody): seq<byte> {
    match body
    case AlternativeNames(names) => DerOf(Sequence, EncodeGeneralNames(names))
    case Anything(octets) => octets
  }

  function ExtensionContent(e: Extension): seq<byte>
    requires ValidArcs(e.arcs)
  {
    DerOf(ObjectIdentifier, EncodeArcs(e.arcs))
    + (EncodeOptional(TypeOctet(Boolean), e.critical) + DerOf(OctetString, ExtensionValue(e.body)))
  }

  function EncodeExtensions(extensions: seq<Extension>): seq<byte>
    requires WellFormedExtensions(extensions)
  {
    if extensions == [] then []
    else DerOf(Sequence, ExtensionContent(extensions[0])) + EncodeExtensions(extensions[1..])
  }

  /** issuerUniqueID [1] and subjectUniqueID [2], implicit BIT STRINGs. */
  const ISSUER_UNIQUE_ID: byte := ContextOctet(false, 1)
  const SUBJECT_UNIQUE_ID: byte := ContextOctet(false, 2)

  function EncodeTail(c: Certificate): seq<byte>
    requires WellFormed(c)
  {
    EncodeOptional(ISSUER_UNIQUE_ID, c.issuerUniqueId)
    + (EncodeOptional(SUBJECT_UNIQUE_ID, c.subjectUniqueId)
       + match c.extensions
         case None => []
         case Some(extensions) => Der(ContextOctet(true, 3), DerOf(Sequence, EncodeExtensions(extensions))))
  }

  function EncodeKeyAndTail(c: Certificate): seq<byte>
    requires WellFormed(c)
  {
    DerOf(Sequence, c.publicKey) + EncodeTail(c)
  }

  function EncodeTbs(c: Certificate): seq<byte>
    requires WellFormed(c)
  {
    EncodeOptional(ContextOctet(true, 0), c.version)
    + (DerOf(Integer, c.serial)
       + (DerOf(Sequence, c.signature)
          + (DerOf(Sequence, EncodeName(CodedName(c.issuer)))
             + (DerOf(Sequence, c.validity)
                + (DerOf(Sequence, EncodeName(CodedName(c.subject)))
                   + EncodeKeyAndTail(c))))))
  }

  function EncodeCertificate(c: Certificate): seq<byte>
    requires WellFormed(c)
  {
    DerOf(Sequence, DerOf(Sequence, EncodeTbs(c)) + c.signed)
  }

  // ── Reading it back ────────────────────────────────────────────────────

  /** `ReadDer`, sized by the whole input. */
  lemma ReadField(tag: byte, content: seq<byte>, rest: seq<byte>)
    requires tag % 32 != 31
    requires |Der(tag, content) + rest| < 0x1_0000_0000
    ensures ReadElement(Der(tag, content) + rest) == Taken(tag, content, rest)
    ensures ReadTagged(Der(tag, content) + rest, tag) == Some((content, rest))
    ensures (Der(tag, content) + rest)[0] == tag
    ensures |content| + |rest| + 2 <= |Der(tag, content) + rest|
  {
    DerSize(tag, content);
    ReadDer(tag, content, rest);
  }

  lemma SkipEncoded(tag: byte, content: Option<seq<byte>>, rest: seq<byte>)
    requires tag % 32 != 31
    requires |EncodeOptional(tag, content) + rest| < 0x1_0000_0000
    requires rest == [] || rest[0] != tag
    ensures SkipOptional(EncodeOptional(tag, content) + rest, tag) == Some(rest)
    ensures |rest| <= |EncodeOptional(tag, content) + rest|
  {
    match content
    case None => assert [] + rest == rest;
    case Some(octets) => ReadField(tag, octets, rest);
  }

  lemma {:induction false} RdnStringIsText(library: Library, rdn: seq<TypeAndValue>)
    requires forall k :: 0 <= k < |rdn| ==> ValidArcs(rdn[k].arcs) && Fit64(SubidentifiersOf(rdn[k].arcs))
    ensures RdnText(library, CodedRdn(rdn)) == RdnString(rdn, PrintedValue(library))
  {
    if rdn != [] {
      var coded := CodedRdn(rdn);
      TypeTextOfEncoded(rdn[0].arcs);
      RdnStringIsText(library, rdn[1..]);
      assert coded[1..] == CodedRdn(rdn[1..]);
      assert AttributeTexts(library, coded)[1..] == AttributeTexts(library, coded[1..]);
    }
  }

  lemma {:induction false} NameStringIsText(library: Library, name: DirectoryName)
    requires WellFormedName(name)
    ensures NameText(library, CodedName(name)) == NameString(name, PrintedValue(library))
  {
    if name != [] {
      var n := |name| - 1;
      var texts := RdnTexts(library, CodedName(name));
      RdnStringIsText(library, name[n]);
      NameStringIsText(library, name[..n]);
      assert RdnTexts(library, CodedName(name[..n])) == texts[..n];
      ReverseLast(texts);
    }
  }

  lemma {:induction false} ReverseLast<T>(s: seq<T>)
    requires s != []
    ensures var n := |s| - 1; Reverse(s)[0] == s[n] && Reverse(s)[1..] == Reverse(s[..n])
  {
    var n := |s| - 1;
    if n > 0 {
      ReverseLast(s[1..]);
      assert s[..n][1..] == s[1..][..n - 1];
    }
  }

  lemma PrintEncodedName(library: Library, name: DirectoryName)
    requires WellFormedName(name)
    requires |EncodeName(CodedName(name))| < 0x1_0000_0000
    ensures PrintName(library, EncodeName(CodedName(name))) == Some(NameString(name, PrintedValue(library)))
  {
    ParseEncodedName(CodedName(name));
    NameStringIsText(library, name);
  }

  lemma {:induction false} CollectEncoded(library: Library, names: seq<GeneralName>)
    requires |EncodeGeneralNames(names)| < 0x1_0000_0000
    ensures CollectNames(library, EncodeGeneralNames(names)) == Some(SaidNames(library, names))
  {
    if names != [] {
      ReadField(GeneralTag(names[0]), names[0].octets, EncodeGeneralNames(names[1..]));
      CollectEncoded(library, names[1..]);
    }
  }

  lemma ReadGeneralNames(library: Library, names: seq<GeneralName>)
    requires |DerOf(Sequence, EncodeGeneralNames(names))| < 0x1_0000_0000
    ensures ParseGeneralNames(library, DerOf(Sequence, EncodeGeneralNames(names))) == Some(SaidNames(library, names))
  {
    ReaderTags();
    var content := EncodeGeneralNames(names);
    assert Der(SEQUENCE, content) + [] == Der(SEQUENCE, content);
    ReadField(SEQUENCE, content, []);
    CollectEncoded(library, names);
  }

  lemma ReadEncodedExtension(e: Extension)
    requires ValidArcs(e.arcs)
    requires |ExtensionContent(e)| < 0x1_0000_0000
    ensures ParseExtension(ExtensionContent(e)) == Some((EncodeArcs(e.arcs), ExtensionValue(e.body)))
    ensures |ExtensionValue(e.body)| < 0x1_0000_0000
  {
    ReaderTags();
    var value := Der(OCTET_STRING, ExtensionValue(e.body));
    assert value + [] == value;
    ReadField(OBJECT_IDENTIFIER, EncodeArcs(e.arcs), EncodeOptional(BOOLEAN, e.critical) + value);
    DerSize(OCTET_STRING, ExtensionValue(e.body));
    SkipEncoded(BOOLEAN, e.critical, value);
    ReadField(OCTET_STRING, ExtensionValue(e.body), []);
  }

  /** Of all identifiers only 2.5.29.17 is written with the octets the reader looks for. */
  lemma SubjectAltNameOctets(arcs: seq<nat>)
    requires ValidArcs(arcs)
    ensures EncodeArcs(arcs) == SUBJECT_ALT_NAME <==> arcs == SUBJECT_ALT_NAME_ARCS
  {
    OneOctet(17, []);
    OneOctet(29, [17]);
    OneOctet(85, [29, 17]);
    assert [85] + [29, 17] == [85, 29, 17];
    assert SubidentifiersOf(SUBJECT_ALT_NAME_ARCS) == [85, 29, 17];
    if EncodeArcs(arcs) == SUBJECT_ALT_NAME {
      SameOctetsSameArcs(arcs, SUBJECT_ALT_NAME_ARCS);
    }
  }

  /** Looking from the end for the last extension is carrying the names found from the front. */
  lemma {:induction false} LastNamesFromFront(library: Library, extensions: seq<Extension>, default: seq<AltName>)
    requires extensions != []
    ensures LastNames(library, extensions, default)
         == LastNames(library, extensions[1..],
                      if IsSubjectAltName(extensions[0]) then SaidNames(library, extensions[0].body.names)
                      else default)
  {
    var n := |extensions| - 1;
    if n > 0 {
      LastNamesFromFront(library, extensions[..n], default);
      assert extensions[..n][1..] == extensions[1..][..n - 1];
    }
  }

  lemma {:induction false} ReadEncodedExtensions(library: Library, extensions: seq<Extension>, default: seq<AltName>)
    requires WellFormedExtensions(extensions)
    requires |EncodeExtensions(extensions)| < 0x1_0000_0000
    ensures ParseExtensions(library, EncodeExtensions(extensions), default)
         == Some(LastNames(library, extensions, default))
  {
    if extensions != [] {
      var e := extensions[0];
      ReaderTags();
      ReadField(SEQUENCE, ExtensionContent(e), EncodeExtensions(extensions[1..]));
      ReadEncodedExtension(e);
      SubjectAltNameOctets(e.arcs);
      LastNamesFromFront(library, extensions, default);
      if e.arcs == SUBJECT_ALT_NAME_ARCS {
        ReadGeneralNames(library, e.body.names);
        ReadEncodedExtensions(library, extensions[1..], SaidNames(library, e.body.names));
      } else {
        ReadEncodedExtensions(library, extensions[1..], default);
      }
    }
  }

  lemma PassUniqueId(library: Library, tag: byte, content: Option<seq<byte>>, rest: seq<byte>)
    requires tag == ISSUER_UNIQUE_ID || tag == SUBJECT_UNIQUE_ID
    requires |EncodeOptional(tag, content) + rest| < 0x1_0000_0000
    ensures ParseTail(library, EncodeOptional(tag, content) + rest, []) == ParseTail(library, rest, [])
    ensures |rest| <= |EncodeOptional(tag, content) + rest|
  {
    match content
    case None => assert [] + rest == rest;
    case Some(octets) => ReadField(tag, octets, rest);
  }

  lemma ReadWrappedExtensions(library: Library, extensions: seq<Extension>)
    requires WellFormedExtensions(extensions)
    requires |Der(EXTENSIONS, Der(SEQUENCE, EncodeExtensions(extensions)))| < 0x1_0000_0000
    ensures ParseTail(library, Der(EXTENSIONS, Der(SEQUENCE, EncodeExtensions(extensions))), [])
         == Some(LastNames(library, extensions, []))
  {
    var inner := EncodeExtensions(extensions);
    var wrapper := Der(SEQUENCE, inner);
    assert Der(EXTENSIONS, wrapper) + [] == Der(EXTENSIONS, wrapper);
    assert wrapper + [] == wrapper;
    ReadField(EXTENSIONS, wrapper, []);
    ReadField(SEQUENCE, inner, []);
    ReadEncodedExtensions(library, extensions, []);
    var found := LastNames(library, extensions, []);
    assert ParseTail(library, [], found) == Some(found);
  }

  lemma ReadEncodedTail(library: Library, c: Certificate)
    requires WellFormed(c)
    requires |EncodeTail(c)| < 0x1_0000_0000
    ensures ParseTail(library, EncodeTail(c), []) == Some(Printed(library, c).subjectAltNames)
  {
    ReaderTags();
    var last := match c.extensions
      case None => []
      case Some(extensions) => Der(EXTENSIONS, Der(SEQUENCE, EncodeExtensions(extensions)));
    var rest := EncodeOptional(SUBJECT_UNIQUE_ID, c.subjectUniqueId) + last;
    PassUniqueId(library, ISSUER_UNIQUE_ID, c.issuerUniqueId, rest);
    PassUniqueId(library, SUBJECT_UNIQUE_ID, c.subjectUniqueId, last);
    if c.extensions.Some? {
      ReadWrappedExtensions(library, c.extensions.value);
    }
  }

  lemma ReadEncodedHeader(library: Library, c: Certificate)
    requires WellFormed(c)
    requires |EncodeTbs(c)| < 0x1_0000_0000
    ensures ParseHeader(library, EncodeTbs(c))
         == Some(Header(Printed(library, c).issuer, Printed(library, c).subject, EncodeTail(c)))
    ensures |EncodeTail(c)| < 0x1_0000_0000
  {
    ReaderTags();
    var issuer := EncodeName(CodedName(c.issuer));
    var subject := EncodeName(CodedName(c.subject));
    var s7 := EncodeKeyAndTail(c);
    var s6 := Der(SEQUENCE, subject) + s7;
    var s5 := Der(SEQUENCE, c.validity) + s6;
    var s4 := Der(SEQUENCE, issuer) + s5;
    var s3 := Der(SEQUENCE, c.signature) + s4;
    var s2 := Der(INTEGER, c.serial) + s3;
    DerSize(INTEGER, c.serial);
    SkipEncoded(VERSION, c.version, s2);
    ReadField(INTEGER, c.serial, s3);
    ReadField(SEQUENCE, c.signature, s4);
    ReadField(SEQUENCE, issuer, s5);
    ReadField(SEQUENCE, c.validity, s6);
    ReadField(SEQUENCE, subject, s7);
    ReadField(SEQUENCE, c.publicKey, EncodeTail(c));
    PrintEncodedName(library, c.issuer);
    PrintEncodedName(library, c.subject);
  }

  /**
    For every certificate and any octets after it, `names` of the encoding is the subject and
    issuer as the reader prints them, and the alternative names of the last subjectAltName.
   */
  lemma NamesOfEncoded(library: Library, c: Certificate, trailing: seq<byte>)
    requires WellFormed(c)
    requires |EncodeCertificate(c)| < 0x1_0000_0000
    ensures ParseNames(library, EncodeCertificate(c) + trailing) == Some(Printed(library, c))
  {
    ReaderTags();
    var tbs := EncodeTbs(c);
    var content := Der(SEQUENCE, tbs) + c.signed;
    DerSize(SEQUENCE, content);
    ReadDer(SEQUENCE, content, trailing);
    ReadField(SEQUENCE, tbs, c.signed);
    ReadEncodedHeader(library, c);
    ReadEncodedTail(library, c);
  }
}
