/**
  Which names `distinguished_name` of `src/x509.rs` prints alike, over the arcs of their types.
 */
module DistinctNames {
  import opened Octets
  import opened ObjectIdentifiers
  import opened DistinguishedNames
  import opened CertificateEncoding

  /** What an attribute states: its type, and its decoded string or its octets. */
  datatype Statement = Statement(arcs: seq<nat>, value: ReadableValue)

  function StatementOf(library: Library, a: TypeAndValue): Statement {
    Statement(a.arcs, SaidValue(library, a.tag, a.value))
  }

  function RdnStatements(library: Library, rdn: seq<TypeAndValue>): seq<Statement> {
    seq(|rdn|, k requires 0 <= k < |rdn| => StatementOf(library, rdn[k]))
  }

  function NameStatements(library: Library, name: DirectoryName): seq<seq<Statement>> {
    seq(|name|, i requires 0 <= i < |name| => RdnStatements(library, name[i]))
  }

  // ── A type's name determines its arcs ──────────────────────────────────

  /** The arcs a short name stands for. */
  function ArcsNamed(name: string): seq<nat> {
    if name == "CN" then [2, 5, 4, 3]
    else if name == "serialNumber" then [2, 5, 4, 5]
    else if name == "C" then [2, 5, 4, 6]
    else if name == "L" then [2, 5, 4, 7]
    else if name == "ST" then [2, 5, 4, 8]
    else if name == "STREET" then [2, 5, 4, 9]
    else if name == "O" then [2, 5, 4, 10]
    else if name == "OU" then [2, 5, 4, 11]
    else if name == "DC" then [0, 9, 2342, 19200300, 100, 1, 25]
    else if name == "UID" then [0, 9, 2342, 19200300, 100, 1, 1]
    else [1, 2, 840, 113549, 1, 9, 1]
  }

  lemma KnownNameDetermines(arcs: seq<nat>)
    requires KnownName(arcs).Some?
    ensures ArcsNamed(KnownName(arcs).value) == arcs
    ensures KnownName(arcs).value != "" && KnownName(arcs).value[0] >= 'A'
  {
  }

  lemma DottedBegins(arcs: seq<nat>)
    requires arcs != []
    ensures DottedText(arcs) != "" && '0' <= DottedText(arcs)[0] <= '9'
  {
    var first := Decimal(arcs[0]);
    assert Decimals(arcs)[0] == first && first[0] in first;
  }

  lemma TypeNameDetermines(one: seq<nat>, other: seq<nat>)
    requires one != [] && other != []
    ensures TypeName(one) == TypeName(other) <==> one == other
  {
    DottedBegins(one);
    DottedBegins(other);
    DottedReadBack(one);
    DottedReadBack(other);
    if KnownName(one).Some? {
      KnownNameDetermines(one);
    }
    if KnownName(other).Some? {
      KnownNameDetermines(other);
    }
  }

  // ── Names ──────────────────────────────────────────────────────────────

  lemma SameMeaning(library: Library, one: TypeAndValue, other: TypeAndValue)
    requires ValidArcs(one.arcs) && Fit64(SubidentifiersOf(one.arcs))
    requires ValidArcs(other.arcs) && Fit64(SubidentifiersOf(other.arcs))
    ensures MeaningOf(library, CodedRdn([one])[0]) == MeaningOf(library, CodedRdn([other])[0])
       <==> StatementOf(library, one) == StatementOf(library, other)
  {
    TypeTextOfEncoded(one.arcs);
    TypeTextOfEncoded(other.arcs);
    TypeNameDetermines(one.arcs, other.arcs);
  }

  lemma SameMeanings(library: Library, one: seq<TypeAndValue>, other: seq<TypeAndValue>)
    requires forall k :: 0 <= k < |one| ==> ValidArcs(one[k].arcs) && Fit64(SubidentifiersOf(one[k].arcs))
    requires forall k :: 0 <= k < |other| ==> ValidArcs(other[k].arcs) && Fit64(SubidentifiersOf(other[k].arcs))
    ensures MeaningsOf(library, CodedRdn(one)) == MeaningsOf(library, CodedRdn(other))
       <==> RdnStatements(library, one) == RdnStatements(library, other)
  {
    var a, b := MeaningsOf(library, CodedRdn(one)), MeaningsOf(library, CodedRdn(other));
    var c, d := RdnStatements(library, one), RdnStatements(library, other);
    if |one| == |other| {
      forall k | 0 <= k < |one| ensures a[k] == b[k] <==> c[k] == d[k] {
        SameMeaning(library, one[k], other[k]);
      }
    } else {
      assert |a| != |b| && |c| != |d|;
    }
  }

  lemma SameNameMeanings(library: Library, one: DirectoryName, other: DirectoryName)
    requires WellFormedName(one) && WellFormedName(other)
    ensures NameMeaning(library, CodedName(one)) == NameMeaning(library, CodedName(other))
       <==> NameStatements(library, one) == NameStatements(library, other)
  {
    var a, b := NameMeaning(library, CodedName(one)), NameMeaning(library, CodedName(other));
    var c, d := NameStatements(library, one), NameStatements(library, other);
    if |one| == |other| {
      forall i | 0 <= i < |one| ensures a[i] == b[i] <==> c[i] == d[i] {
        SameMeanings(library, one[i], other[i]);
      }
    } else {
      assert |a| != |b| && |c| != |d|;
    }
  }

  /** Two names print alike exactly when their arcs, decoded strings and other octets agree. */
  lemma DirectoryNamesPrintAlikeExactly(library: Library, one: DirectoryName, other: DirectoryName)
    requires WellFormedName(one) && WellFormedName(other)
    requires one != [[]] && other != [[]]
    ensures NameString(one, PrintedValue(library)) == NameString(other, PrintedValue(library))
       <==> NameStatements(library, one) == NameStatements(library, other)
  {
    NameStringIsText(library, one);
    NameStringIsText(library, other);
    CodedIsLong(one);
    CodedIsLong(other);
    NamesPrintAlikeExactly(library, CodedName(one), CodedName(other));
    SameNameMeanings(library, one, other);
  }

  lemma CodedIsLong(name: DirectoryName)
    requires WellFormedName(name) && name != [[]]
    ensures CodedName(name) != [[]]
  {
    if |name| == 1 {
      assert |CodedName(name)[0]| == |name[0]| > 0;
    }
  }
}
