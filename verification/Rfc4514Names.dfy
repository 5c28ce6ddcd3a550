/**
  Where the names `src/x509.rs` prints are those of RFC 4514, and where they are not.
 */
module Rfc4514Names {
  import opened Octets
  import opened Asn1
  import opened Elements
  import opened ObjectIdentifiers
  import opened DistinguishedNames
  import opened Certificates
  import opened CertificateEncoding

  // ── One value ──────────────────────────────────────────────────────────

  lemma {:induction false} HexLength(value: seq<byte>)
    ensures |HexText(value)| == 2 * |value|
  {
    if value != [] {
      HexLength(value[1..]);
    }
  }

  lemma EscapedIsNotHexadecimal(text: string)
    ensures EscapedFrom(text, 0) == "" || EscapedFrom(text, 0)[0] != '#'
  {
  }

  /** The printed value is that of section 2.4 exactly for a string value of a type with a short name. */
  lemma ValueConforms(library: Library, a: TypeAndValue)
    ensures PrintedValue(library)(a) == RfcValue(library)(a) <==> HasStringForm(a)
  {
    StringTypes(a.tag);
    if StringTypeOf(a.tag) == None {
      HexLength(a.value);
      HexLength(Der(a.tag, a.value));
      DerSize(a.tag, a.value);
    } else if KnownName(a.arcs) == None {
      EscapedIsNotHexadecimal(Decoded(library, StringTypeOf(a.tag).value, a.value));
      assert RfcValue(library)(a)[0] == '#';
    }
  }

  // ── Names as joined strings ────────────────────────────────────────────

  function AssertionString(a: TypeAndValue, value: TypeAndValue -> string): string {
    TypeName(a.arcs) + ("=" + value(a))
  }

  function AssertionStrings(rdn: seq<TypeAndValue>, value: TypeAndValue -> string): seq<string> {
    seq(|rdn|, k requires 0 <= k < |rdn| => AssertionString(rdn[k], value))
  }

  function RdnStrings(name: DirectoryName, value: TypeAndValue -> string): seq<string> {
    seq(|name|, i requires 0 <= i < |name| => RdnString(name[i], value))
  }

  lemma {:induction false} RdnStringIsJoin(rdn: seq<TypeAndValue>, value: TypeAndValue -> string)
    ensures RdnString(rdn, value) == Join(AssertionStrings(rdn, value), '+')
  {
    if rdn != [] {
      RdnStringIsJoin(rdn[1..], value);
      assert AssertionStrings(rdn, value)[1..] == AssertionStrings(rdn[1..], value);
    }
  }

  lemma {:induction false} NameStringIsJoin(name: DirectoryName, value: TypeAndValue -> string)
    ensures NameString(name, value) == Join(Reverse(RdnStrings(name, value)), ',')
  {
    if name != [] {
      var n := |name| - 1;
      NameStringIsJoin(name[..n], value);
      var texts := RdnStrings(name, value);
      assert RdnStrings(name[..n], value) == texts[..n];
      var reversed := Reverse(texts);
      assert reversed[0] == texts[n];
      assert reversed[1..] == Reverse(texts[..n]);
    }
  }

  /** Joining as many strings that hold no unescaped separator is injective. */
  lemma JoinDetermines(a: seq<string>, b: seq<string>, separator: char)
    requires separator != '\\' && |a| == |b|
    requires forall k :: 0 <= k < |a| ==> Sealed(a[k], separator) && Sealed(b[k], separator)
    requires Join(a, separator) == Join(b, separator)
    ensures a == b
  {
    if a != [] {
      SplitUnescapedJoin(a, separator);
      SplitUnescapedJoin(b, separator);
    }
  }

  // ── Both ways to write a value keep the separators apart ────────────────

  ghost predicate SealsValues(value: TypeAndValue -> string) {
    forall a: TypeAndValue :: Sealed(value(a), ',') && Sealed(value(a), '+')
  }

  lemma HexadecimalIsSealed(octets: seq<byte>, separator: char)
    requires separator == ',' || separator == '+'
    ensures Sealed("#" + HexText(octets), separator)
  {
    HexIsPlain(octets);
    PlainIsSealed("#" + HexText(octets), separator);
  }

  lemma PrintedSeals(library: Library)
    ensures SealsValues(PrintedValue(library))
  {
    forall a: TypeAndValue ensures Sealed(PrintedValue(library)(a), ',') && Sealed(PrintedValue(library)(a), '+') {
      ValueTextMeans(library, a.tag, a.value);
      match SaidValue(library, a.tag, a.value) {
        case Text(text) =>
          EscapedIsSealed(text, 0, ',');
          EscapedIsSealed(text, 0, '+');
        case Hexadecimal(_) =>
      }
      HexadecimalIsSealed(a.value, ',');
      HexadecimalIsSealed(a.value, '+');
    }
  }

  lemma RfcSeals(library: Library)
    ensures SealsValues(RfcValue(library))
  {
    forall a: TypeAndValue ensures Sealed(RfcValue(library)(a), ',') && Sealed(RfcValue(library)(a), '+') {
      if HasStringForm(a) {
        EscapedIsSealed(Decoded(library, StringTypeOf(a.tag).value, a.value), 0, ',');
        EscapedIsSealed(Decoded(library, StringTypeOf(a.tag).value, a.value), 0, '+');
      }
      HexadecimalIsSealed(Der(a.tag, a.value), ',');
      HexadecimalIsSealed(Der(a.tag, a.value), '+');
    }
  }

  lemma TypeNameIsPlain(arcs: seq<nat>)
    ensures Plain(TypeName(arcs))
  {
    if KnownName(arcs) == None {
      var decimals := Decimals(arcs);
      forall k | 0 <= k < |decimals| ensures Plain(decimals[k]) {
        assert decimals[k] == Decimal(arcs[k]);
      }
      PlainJoin(decimals);
    }
  }

  lemma AssertionIsSealed(a: TypeAndValue, value: TypeAndValue -> string, separator: char)
    requires SealsValues(value) && (separator == ',' || separator == '+')
    ensures Sealed(AssertionString(a, value), separator)
  {
    var text := value(a);
    assert ("=" + text)[1..] == text;
    TypeNameIsPlain(a.arcs);
    PlainIsSealed(TypeName(a.arcs), separator);
    SealedTogether(TypeName(a.arcs), "=" + text, separator);
  }

  lemma RdnStringIsSealed(rdn: seq<TypeAndValue>, value: TypeAndValue -> string)
    requires SealsValues(value)
    ensures Sealed(RdnString(rdn, value), ',')
  {
    forall k | 0 <= k < |rdn| ensures Sealed(AssertionStrings(rdn, value)[k], ',') {
      AssertionIsSealed(rdn[k], value, ',');
    }
    RdnStringIsJoin(rdn, value);
    SealedJoin(AssertionStrings(rdn, value), '+', ',');
  }

  /** An RDN's string determines the strings of its values. */
  lemma RdnStringDetermines(rdn: seq<TypeAndValue>, one: TypeAndValue -> string, other: TypeAndValue -> string)
    requires SealsValues(one) && SealsValues(other)
    requires RdnString(rdn, one) == RdnString(rdn, other)
    ensures forall k :: 0 <= k < |rdn| ==> one(rdn[k]) == other(rdn[k])
  {
    var a, b := AssertionStrings(rdn, one), AssertionStrings(rdn, other);
    RdnStringIsJoin(rdn, one);
    RdnStringIsJoin(rdn, other);
    forall k | 0 <= k < |rdn| ensures Sealed(a[k], '+') && Sealed(b[k], '+') {
      AssertionIsSealed(rdn[k], one, '+');
      AssertionIsSealed(rdn[k], other, '+');
    }
    JoinDetermines(a, b, '+');
    forall k | 0 <= k < |rdn| ensures one(rdn[k]) == other(rdn[k]) {
      assert a[k] == b[k];
      AssertionDetermines(rdn[k], one, other);
    }
  }

  lemma AssertionDetermines(a: TypeAndValue, one: TypeAndValue -> string, other: TypeAndValue -> string)
    requires AssertionString(a, one) == AssertionString(a, other)
    ensures one(a) == other(a)
  {
    var n := |TypeName(a.arcs)| + 1;
    assert AssertionString(a, one)[n..] == one(a);
    assert AssertionString(a, other)[n..] == other(a);
  }

  lemma RdnStringsSealed(name: DirectoryName, value: TypeAndValue -> string)
    requires SealsValues(value)
    ensures forall i :: 0 <= i < |name| ==> Sealed(Reverse(RdnStrings(name, value))[i], ',')
  {
    var strings := RdnStrings(name, value);
    forall i | 0 <= i < |name| ensures Sealed(strings[i], ',') {
      RdnStringIsSealed(name[i], value);
    }
  }

  /** A name's string determines the strings of its RDNs. */
  lemma NameStringDetermines(name: DirectoryName, one: TypeAndValue -> string, other: TypeAndValue -> string)
    requires SealsValues(one) && SealsValues(other)
    requires NameString(name, one) == NameString(name, other)
    ensures forall i :: 0 <= i < |name| ==> RdnString(name[i], one) == RdnString(name[i], other)
  {
    var a, b := RdnStrings(name, one), RdnStrings(name, other);
    NameStringIsJoin(name, one);
    NameStringIsJoin(name, other);
    RdnStringsSealed(name, one);
    RdnStringsSealed(name, other);
    JoinDetermines(Reverse(a), Reverse(b), ',');
    ReverseTwice(a);
    ReverseTwice(b);
    forall i | 0 <= i < |name| ensures RdnString(name[i], one) == RdnString(name[i], other) {
      assert a[i] == b[i];
    }
  }

  lemma SameValuesSameString(name: DirectoryName, one: TypeAndValue -> string, other: TypeAndValue -> string)
    requires forall i, k :: 0 <= i < |name| && 0 <= k < |name[i]| ==> one(name[i][k]) == other(name[i][k])
    ensures NameString(name, one) == NameString(name, other)
  {
    forall i | 0 <= i < |name| ensures RdnString(name[i], one) == RdnString(name[i], other) {
      RdnStringIsJoin(name[i], one);
      RdnStringIsJoin(name[i], other);
      assert AssertionStrings(name[i], one) == AssertionStrings(name[i], other);
    }
    NameStringIsJoin(name, one);
    NameStringIsJoin(name, other);
    assert RdnStrings(name, one) == RdnStrings(name, other);
  }

  // ── The result ─────────────────────────────────────────────────────────

  /**
    The printed name is the RFC 4514 string exactly when every value is of a string type and every
    type has a short name.
   */
  lemma PrintedNameConforms(library: Library, name: DirectoryName)
    ensures NameString(name, PrintedValue(library)) == NameString(name, RfcValue(library)) <==> AllStringForms(name)
  {
    var one, other := PrintedValue(library), RfcValue(library);
    PrintedSeals(library);
    RfcSeals(library);
    if NameString(name, one) == NameString(name, other) {
      NameStringDetermines(name, one, other);
      forall i, k | 0 <= i < |name| && 0 <= k < |name[i]| ensures HasStringForm(name[i][k]) {
        RdnStringDetermines(name[i], one, other);
        ValueConforms(library, name[i][k]);
      }
    }
    if AllStringForms(name) {
      forall i, k | 0 <= i < |name| && 0 <= k < |name[i]| ensures one(name[i][k]) == other(name[i][k]) {
        ValueConforms(library, name[i][k]);
      }
      SameValuesSameString(name, one, other);
    }
  }

  /**
    For every certificate and any octets after it, `names` of the encoding is what the certificate
    says in the terms of RFC 4514 exactly when that holds of its subject and its issuer.
   */
  lemma NamesAreWhatIsSaid(library: Library, c: Certificate, trailing: seq<byte>)
    requires WellFormed(c)
    requires |EncodeCertificate(c)| < 0x1_0000_0000
    ensures ParseNames(library, EncodeCertificate(c) + trailing) == Some(Said(library, c))
       <==> AllStringForms(c.subject) && AllStringForms(c.issuer)
  {
    NamesOfEncoded(library, c, trailing);
    PrintedNameConforms(library, c.subject);
    PrintedNameConforms(library, c.issuer);
  }

  lemma OneValueName(a: TypeAndValue, value: TypeAndValue -> string)
    ensures NameString([[a]], value) == TypeName(a.arcs) + ("=" + value(a))
  {
    assert RdnString([a], value) == TypeName(a.arcs) + ("=" + value(a));
  }

  lemma JoinDecimal(n: nat, text: string, rest: seq<nat>)
    requires rest != [] && Decimal(n) == text
    ensures DottedText([n] + rest) == text + ("." + DottedText(rest))
  {
    var decimals := Decimals([n] + rest);
    assert decimals[1..] == Decimals(rest);
  }

  lemma OrganizationIdentifierText()
    ensures TypeName([2, 5, 4, 97]) == "2.5.4.97"
  {
    assert Decimal(97) == Decimal(9) + "7" == "97";
    assert Decimals([97]) == ["97"];
    JoinDecimal(4, "4", [97]);
    assert [4] + [97] == [4, 97];
    JoinDecimal(5, "5", [4, 97]);
    assert [5] + [4, 97] == [5, 4, 97];
    JoinDecimal(2, "2", [5, 4, 97]);
    assert [2] + [5, 4, 97] == [2, 5, 4, 97];
  }

  lemma OneValueConforms(library: Library, a: TypeAndValue)
    ensures NameString([[a]], PrintedValue(library)) == NameString([[a]], RfcValue(library)) <==> HasStringForm(a)
  {
    PrintedNameConforms(library, [[a]]);
    assert AllStringForms([[a]]) <==> HasStringForm([[a]][0][0]);
  }

  /** organizationIdentifier as a UTF8String: a dotted type asks for `#` and the encoding, not for text. */
  lemma DottedTypePrintsText(library: Library, value: seq<byte>)
    ensures var a := TypeAndValue([2, 5, 4, 97], 0x0c, value);
      && NameString([[a]], PrintedValue(library)) == "2.5.4.97" + ("=" + EscapedFrom(library.utf8(value), 0))
      && NameString([[a]], RfcValue(library)) == "2.5.4.97" + ("=" + ("#" + HexText(Der(0x0c, value))))
      && NameString([[a]], PrintedValue(library)) != NameString([[a]], RfcValue(library))
  {
    var a := TypeAndValue([2, 5, 4, 97], 0x0c, value);
    OrganizationIdentifierText();
    OneValueName(a, PrintedValue(library));
    OneValueName(a, RfcValue(library));
    OneValueConforms(library, a);
  }

  lemma HexOfOneInteger()
    ensures HexText([1]) == "01" && HexText(Der(INTEGER, [1])) == "020101"
  {
    assert Der(INTEGER, [1]) == [2, 1, 1];
    assert HexText([1]) == "01";
    assert HexText([1, 1]) == "0101";
    assert [2, 1, 1][1..] == [1, 1];
  }

  lemma OneIntegerValue(library: Library, arcs: seq<nat>)
    ensures PrintedValue(library)(TypeAndValue(arcs, INTEGER, [1])) == "#01"
    ensures RfcValue(library)(TypeAndValue(arcs, INTEGER, [1])) == "#020101"
  {
    HexOfOneInteger();
  }

  lemma CommonNameText()
    ensures TypeName([2, 5, 4, 3]) == "CN"
  {
  }

  /** A commonName that is an INTEGER: the content without its header. */
  lemma OtherValuePrintsNoHeader(library: Library)
    ensures var name := [[TypeAndValue([2, 5, 4, 3], INTEGER, [1])]];
      && NameString(name, PrintedValue(library)) == "CN=#01"
      && NameString(name, RfcValue(library)) == "CN=#020101"
  {
    var a := TypeAndValue([2, 5, 4, 3], INTEGER, [1]);
    CommonNameText();
    OneIntegerValue(library, a.arcs);
    OneValueName(a, PrintedValue(library));
    OneValueName(a, RfcValue(library));
  }
}
