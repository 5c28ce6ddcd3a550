/**
  Object identifiers: `dotted` and `attribute_type` of `src/x509.rs` over the octets of an
  identifier, and the encoding of section 8.19 of X.690 they undo. Arcs are `u64`, so the shift
  that accumulates one drops what does not fit 64 bits.
 */
module ObjectIdentifiers {
  import opened Octets

  /** `(arc << 7) | (octet & 0x7f)` on a 64-bit word. */
  function Accumulate(arc: nat, octet: byte): nat {
    (arc * 128) % U64 + octet % 128
  }

  /** The subidentifiers in `octets`, when `arc` has been accumulated already; an unfinished one is lost. */
  function Subidentifiers(octets: seq<byte>, arc: nat): seq<nat> {
    if octets == [] then []
    else
      var next := Accumulate(arc, octets[0]);
      if octets[0] >= 128 then Subidentifiers(octets[1..], next)
      else [next] + Subidentifiers(octets[1..], 0)
  }

  /** The first subidentifier holds two arcs (section 8.19.4 of X.690). */
  function SplitFirst(subidentifier: nat): seq<nat> {
    var first := if subidentifier / 40 < 2 then subidentifier / 40 else 2;
    [first, subidentifier - first * 40]
  }

  function ArcsOf(subidentifiers: seq<nat>): seq<nat> {
    if subidentifiers == [] then [] else SplitFirst(subidentifiers[0]) + subidentifiers[1..]
  }

  /** The arcs `dotted` prints. */
  function Arcs(identifier: seq<byte>): seq<nat> {
    ArcsOf(Subidentifiers(identifier, 0))
  }

  function Decimals(arcs: seq<nat>): seq<string> {
    seq(|arcs|, k requires 0 <= k < |arcs| => Decimal(arcs[k]))
  }

  function DottedText(arcs: seq<nat>): string {
    Join(Decimals(arcs), '.')
  }

  /** The loop of `dotted`. No accumulated arc leaves 64 bits and splitting the first never underflows. */
  method Dotted(identifier: seq<byte>) returns (text: string)
    ensures text == DottedText(Arcs(identifier))
  {
    var arcs: seq<nat> := [];
    var arc: nat := 0;
    ghost var done: seq<nat> := [];
    for i := 0 to |identifier|
      invariant arc < U64
      invariant arcs == ArcsOf(done)
      invariant done + Subidentifiers(identifier[i..], arc) == Subidentifiers(identifier, 0)
    {
      var octet := identifier[i];
      OctetStep(done, identifier, i, arc);
      AccumulateFits(arc, octet);
      arc := Accumulate(arc, octet);
      if octet >= 128 { continue; }
      NextArc(done, arc);
      arcs := Push(arcs, arc);
      done := done + [arc];
      arc := 0;
    }
    assert done + [] == done;
    text := Join(Decimals(arcs), '.');
  }

  lemma OctetStep(done: seq<nat>, identifier: seq<byte>, i: nat, arc: nat)
    requires i < |identifier|
    ensures var next := Accumulate(arc, identifier[i]);
      done + Subidentifiers(identifier[i..], arc)
      == if identifier[i] >= 128 then done + Subidentifiers(identifier[i + 1..], next)
         else (done + [next]) + Subidentifiers(identifier[i + 1..], 0)
  {
    assert identifier[i..][1..] == identifier[i + 1..];
  }

  /** The first subidentifier is pushed as two arcs, any other as one. */
  method Push(arcs: seq<nat>, arc: nat) returns (pushed: seq<nat>)
    ensures pushed == if arcs == [] then SplitFirst(arc) else arcs + [arc]
  {
    pushed := arcs;
    if pushed == [] {
      var first: nat := if arc / 40 < 2 then arc / 40 else 2;
      pushed := pushed + [first];
      pushed := pushed + [arc - first * 40];
    } else {
      pushed := pushed + [arc];
    }
  }

  lemma NextArc(done: seq<nat>, next: nat)
    ensures ArcsOf(done + [next]) == if ArcsOf(done) == [] then SplitFirst(next) else ArcsOf(done) + [next]
  {
    if done != [] {
      assert (done + [next])[1..] == done[1..] + [next];
    }
  }

  lemma AccumulateFits(arc: nat, octet: byte)
    ensures Accumulate(arc, octet) < U64
  {
    var q := arc * 128 / U64;
    assert arc * 128 - q * U64 == 128 * (arc - q * (U64 / 128));
  }

  // ── The encoder ────────────────────────────────────────────────────────

  /** The high groups of a subidentifier, each with the continuation bit. */
  function Groups(n: nat): seq<byte> {
    if n == 0 then [] else Groups(n / 128) + [128 + n % 128]
  }

  function EncodeSubidentifier(n: nat): seq<byte> {
    Groups(n / 128) + [n % 128]
  }

  function EncodeSubidentifiers(subidentifiers: seq<nat>): seq<byte> {
    if subidentifiers == [] then []
    else EncodeSubidentifier(subidentifiers[0]) + EncodeSubidentifiers(subidentifiers[1..])
  }

  /** At least two arcs; below roots 0 and 1 the second arc stops at 39 (section 8.19.4 of X.690). */
  predicate ValidArcs(arcs: seq<nat>) {
    |arcs| >= 2 && arcs[0] <= 2 && (arcs[0] < 2 ==> arcs[1] < 40)
  }

  function SubidentifiersOf(arcs: seq<nat>): seq<nat>
    requires ValidArcs(arcs)
  {
    [40 * arcs[0] + arcs[1]] + arcs[2..]
  }

  function EncodeArcs(arcs: seq<nat>): seq<byte>
    requires ValidArcs(arcs)
  {
    EncodeSubidentifiers(SubidentifiersOf(arcs))
  }

  predicate Fit64(subidentifiers: seq<nat>) {
    forall k :: 0 <= k < |subidentifiers| ==> subidentifiers[k] < 0x1_0000_0000_0000_0000
  }

  function Wrapped(subidentifiers: seq<nat>): seq<nat> {
    seq(|subidentifiers|, k requires 0 <= k < |subidentifiers| => subidentifiers[k] % U64)
  }

  lemma AccumulateWraps(n: nat)
    ensures Accumulate((n / 128) % U64, n % 128) == n % U64
  {
    var a := n / 128;
    var r := a % U64;
    var q := a / U64;
    var k := r * 128 / U64;
    var m := (r * 128) % U64;
    assert m == 128 * (r - k * (U64 / 128));
    AccumulateFits(r, n % 128);
    assert n == (q * 128 + k) * U64 + (m + n % 128);
    WrapIs(q * 128 + k, m + n % 128);
  }

  lemma WrapIs(q: nat, m: nat)
    requires m < U64
    ensures (q * U64 + m) % U64 == m
  {
  }

  lemma {:induction false} ReadGroups(n: nat, rest: seq<byte>)
    ensures Subidentifiers(Groups(n) + rest, 0) == Subidentifiers(rest, n % U64)
  {
    if n == 0 {
      assert Groups(n) + rest == rest;
    } else {
      var tail := [128 + n % 128] + rest;
      ReadGroups(n / 128, tail);
      assert Groups(n) + rest == Groups(n / 128) + tail;
      assert tail[1..] == rest;
      AccumulateWraps(n);
    }
  }

  /** Every encoded subidentifier is read back modulo 2^64. */
  lemma {:induction false} ReadSubidentifiers(subidentifiers: seq<nat>)
    ensures Subidentifiers(EncodeSubidentifiers(subidentifiers), 0) == Wrapped(subidentifiers)
  {
    if subidentifiers != [] {
      var n, more := subidentifiers[0], EncodeSubidentifiers(subidentifiers[1..]);
      var tail := [n % 128] + more;
      ReadSubidentifiers(subidentifiers[1..]);
      ReadGroups(n / 128, tail);
      assert EncodeSubidentifiers(subidentifiers) == Groups(n / 128) + tail;
      assert tail[1..] == more;
      AccumulateWraps(n);
      WrappedFirst(subidentifiers);
    }
  }

  lemma WrappedFirst(subidentifiers: seq<nat>)
    requires subidentifiers != []
    ensures Wrapped(subidentifiers) == [subidentifiers[0] % U64] + Wrapped(subidentifiers[1..])
  {
  }

  lemma SplitFirstJoins(n: nat)
    ensures 40 * SplitFirst(n)[0] + SplitFirst(n)[1] == n
    ensures ValidArcs(SplitFirst(n))
  {
  }

  lemma ArcsOfSubidentifiers(arcs: seq<nat>)
    requires ValidArcs(arcs)
    ensures ArcsOf(SubidentifiersOf(arcs)) == arcs
  {
    var n := 40 * arcs[0] + arcs[1];
    assert n / 40 == arcs[0] || (arcs[0] == 2 && n / 40 >= 2);
    assert SplitFirst(n) == arcs[..2];
  }

  lemma WrapChanges(given: seq<nat>, k: nat)
    requires k < |given| && given[k] >= U64
    ensures ArcsOf(Wrapped(given)) != ArcsOf(given)
  {
    var wrapped := Wrapped(given);
    assert wrapped[k] < given[k];
    SplitFirstJoins(wrapped[0]);
    SplitFirstJoins(given[0]);
    if k == 0 {
      assert ArcsOf(wrapped)[..2] == SplitFirst(wrapped[0]);
      assert ArcsOf(given)[..2] == SplitFirst(given[0]);
    } else {
      assert ArcsOf(wrapped)[k + 1] == wrapped[k];
      assert ArcsOf(given)[k + 1] == given[k];
    }
  }

  lemma WrapIsExact(given: seq<nat>)
    ensures ArcsOf(Wrapped(given)) == ArcsOf(given) <==> Fit64(given)
  {
    if Fit64(given) {
      assert Wrapped(given) == given;
    } else {
      var k :| 0 <= k < |given| && given[k] >= U64;
      WrapChanges(given, k);
    }
  }

  /** `dotted` undoes the encoding exactly when every subidentifier fits 64 bits. */
  lemma ArcsReadBack(arcs: seq<nat>)
    requires ValidArcs(arcs)
    ensures Arcs(EncodeArcs(arcs)) == arcs <==> Fit64(SubidentifiersOf(arcs))
  {
    ReadSubidentifiers(SubidentifiersOf(arcs));
    ArcsOfSubidentifiers(arcs);
    WrapIsExact(SubidentifiersOf(arcs));
  }

  /** The arc 2^64 is read as 0: two identifiers are printed alike. */
  lemma LargeArcIsLost()
    ensures Arcs(EncodeArcs([2, 5, U64])) == Arcs(EncodeArcs([2, 5, 0])) == [2, 5, 0]
  {
    ReadSubidentifiers([85, U64]);
    assert SubidentifiersOf([2, 5, U64]) == [85, U64];
    assert Wrapped([85, U64]) == [85, 0];
    ArcsReadBack([2, 5, 0]);
  }

  // ── The dotted text read back ──────────────────────────────────────────

  function ReadDecimal(s: string): nat {
    if s == "" then 0
    else 10 * ReadDecimal(s[..|s| - 1]) + (if '0' <= s[|s| - 1] <= '9' then s[|s| - 1] as int - '0' as int else 0)
  }

  lemma {:induction false} DecimalReadBack(n: nat)
    ensures ReadDecimal(Decimal(n)) == n
  {
    var s := Decimal(n);
    if n < 10 {
      assert s[..0] == "";
    } else {
      DecimalReadBack(n / 10);
      assert s[..|s| - 1] == Decimal(n / 10);
    }
  }

  function ReadDotted(text: string): seq<nat> {
    var parts := Split(text, '.');
    seq(|parts|, k requires 0 <= k < |parts| => ReadDecimal(parts[k]))
  }

  /** The dotted text determines the arcs. */
  lemma DottedReadBack(arcs: seq<nat>)
    requires arcs != []
    ensures ReadDotted(DottedText(arcs)) == arcs
  {
    var parts := Decimals(arcs);
    SplitJoin(parts, '.');
    forall k | 0 <= k < |arcs| ensures ReadDecimal(parts[k]) == arcs[k] {
      DecimalReadBack(arcs[k]);
    }
  }

  // ── Attribute types ────────────────────────────────────────────────────

  /** The table of `attribute_type`, over the encoded identifier. */
  function ShortName(identifier: seq<byte>): Option<string> {
    if identifier == [0x55, 0x04, 0x03] then Some("CN")
    else if identifier == [0x55, 0x04, 0x05] then Some("serialNumber")
    else if identifier == [0x55, 0x04, 0x06] then Some("C")
    else if identifier == [0x55, 0x04, 0x07] then Some("L")
    else if identifier == [0x55, 0x04, 0x08] then Some("ST")
    else if identifier == [0x55, 0x04, 0x09] then Some("STREET")
    else if identifier == [0x55, 0x04, 0x0a] then Some("O")
    else if identifier == [0x55, 0x04, 0x0b] then Some("OU")
    else if identifier == [0x09, 0x92, 0x26, 0x89, 0x93, 0xf2, 0x2c, 0x64, 0x01, 0x19] then Some("DC")
    else if identifier == [0x09, 0x92, 0x26, 0x89, 0x93, 0xf2, 0x2c, 0x64, 0x01, 0x01] then Some("UID")
    else if identifier == [0x2a, 0x86, 0x48, 0x86, 0xf7, 0x0d, 0x01, 0x09, 0x01] then Some("emailAddress")
    else None
  }

  function TypeText(identifier: seq<byte>): string {
    match ShortName(identifier)
    case Some(name) => name
    case None => DottedText(Arcs(identifier))
  }

  method AttributeType(identifier: seq<byte>) returns (text: string)
    ensures text == TypeText(identifier)
  {
    match ShortName(identifier)
    case Some(name) => text := name;
    case None => text := Dotted(identifier);
  }

  /** The short names by their arcs (section 3 of RFC 4514, RFC 4519 and RFC 2985). */
  function KnownName(arcs: seq<nat>): Option<string> {
    if arcs == [2, 5, 4, 3] then Some("CN")
    else if arcs == [2, 5, 4, 5] then Some("serialNumber")
    else if arcs == [2, 5, 4, 6] then Some("C")
    else if arcs == [2, 5, 4, 7] then Some("L")
    else if arcs == [2, 5, 4, 8] then Some("ST")
    else if arcs == [2, 5, 4, 9] then Some("STREET")
    else if arcs == [2, 5, 4, 10] then Some("O")
    else if arcs == [2, 5, 4, 11] then Some("OU")
    else if arcs == [0, 9, 2342, 19200300, 100, 1, 25] then Some("DC")
    else if arcs == [0, 9, 2342, 19200300, 100, 1, 1] then Some("UID")
    else if arcs == [1, 2, 840, 113549, 1, 9, 1] then Some("emailAddress")
    else None
  }

  /** The octets in the table are those of one identifier only. */
  lemma OnlyEncodes(arcs: seq<nat>, known: seq<nat>)
    requires ValidArcs(arcs) && Fit64(SubidentifiersOf(arcs))
    requires ValidArcs(known) && Fit64(SubidentifiersOf(known))
    ensures EncodeArcs(arcs) == EncodeArcs(known) <==> arcs == known
  {
    ArcsReadBack(arcs);
    ArcsReadBack(known);
  }

  lemma {:induction false} EncodedIsLong(subidentifiers: seq<nat>)
    ensures |EncodeSubidentifiers(subidentifiers)| >= |subidentifiers|
    ensures |EncodeSubidentifiers(subidentifiers)| == |subidentifiers| ==>
              forall k :: 0 <= k < |subidentifiers| ==> subidentifiers[k] < 128
  {
    if subidentifiers != [] {
      EncodedIsLong(subidentifiers[1..]);
      forall k | 0 <= k < |subidentifiers| && |EncodeSubidentifiers(subidentifiers)| == |subidentifiers|
        ensures subidentifiers[k] < 128
      {
        if k > 0 {
          assert subidentifiers[1..][k - 1] == subidentifiers[k];
        }
      }
    }
  }

  /** An identifier written with one octet a subidentifier shares its octets with no other, however large. */
  lemma SameOctetsSameArcs(arcs: seq<nat>, short: seq<nat>)
    requires ValidArcs(arcs) && ValidArcs(short)
    requires Fit64(SubidentifiersOf(short)) && |EncodeArcs(short)| == |SubidentifiersOf(short)|
    requires EncodeArcs(arcs) == EncodeArcs(short)
    ensures arcs == short
  {
    ReadSubidentifiers(SubidentifiersOf(arcs));
    ReadSubidentifiers(SubidentifiersOf(short));
    EncodedIsLong(SubidentifiersOf(arcs));
    assert |Wrapped(SubidentifiersOf(arcs))| == |Wrapped(SubidentifiersOf(short))|;
    ArcsReadBack(arcs);
    ArcsReadBack(short);
  }

  lemma OneOctet(n: nat, rest: seq<nat>)
    requires n < 128
    ensures EncodeSubidentifiers([n] + rest) == [n] + EncodeSubidentifiers(rest)
  {
    assert EncodeSubidentifier(n) == [n];
    assert ([n] + rest)[1..] == rest;
  }

  lemma SomeOctets(n: nat, rest: seq<nat>)
    ensures EncodeSubidentifiers([n] + rest) == EncodeSubidentifier(n) + EncodeSubidentifiers(rest)
  {
    assert ([n] + rest)[1..] == rest;
  }

  lemma EncodeDirectoryType(last: nat)
    requires last < 128
    ensures EncodeArcs([2, 5, 4, last]) == [0x55, 0x04, last]
  {
    OneOctet(last, []);
    OneOctet(4, [last]);
    OneOctet(85, [4, last]);
    assert SubidentifiersOf([2, 5, 4, last]) == [85] + [4, last];
  }

  lemma EncodeDomainName(last: nat)
    requires last < 128
    ensures EncodeArcs([0, 9, 2342, 19200300, 100, 1, last])
         == [0x09, 0x92, 0x26, 0x89, 0x93, 0xf2, 0x2c, 0x64, 0x01, last]
  {
    OneOctet(last, []);
    OneOctet(1, [last]);
    OneOctet(100, [1, last]);
    SomeOctets(19200300, [100, 1, last]);
    LargeArcs();
    SomeOctets(2342, [19200300, 100, 1, last]);
    OneOctet(9, [2342, 19200300, 100, 1, last]);
    assert SubidentifiersOf([0, 9, 2342, 19200300, 100, 1, last]) == [9] + [2342, 19200300, 100, 1, last];
  }

  lemma LargeArcs()
    ensures EncodeSubidentifier(2342) == [0x92, 0x26]
    ensures EncodeSubidentifier(19200300) == [0x89, 0x93, 0xf2, 0x2c]
    ensures EncodeSubidentifier(840) == [0x86, 0x48]
    ensures EncodeSubidentifier(113549) == [0x86, 0xf7, 0x0d]
  {
    assert Groups(1171) == [0x89, 0x93];
    assert Groups(150002) == [0x89, 0x93, 0xf2];
    assert Groups(887) == [0x86, 0xf7];
  }

  lemma EncodeEmailAddress()
    ensures EncodeArcs([1, 2, 840, 113549, 1, 9, 1]) == [0x2a, 0x86, 0x48, 0x86, 0xf7, 0x0d, 0x01, 0x09, 0x01]
  {
    OneOctet(1, []);
    OneOctet(9, [1]);
    OneOctet(1, [9, 1]);
    SomeOctets(113549, [1, 9, 1]);
    LargeArcs();
    SomeOctets(840, [113549, 1, 9, 1]);
    OneOctet(42, [840, 113549, 1, 9, 1]);
    assert SubidentifiersOf([1, 2, 840, 113549, 1, 9, 1]) == [42] + [840, 113549, 1, 9, 1];
  }

  lemma ShortNameOfEncoded(arcs: seq<nat>)
    requires ValidArcs(arcs) && Fit64(SubidentifiersOf(arcs))
    ensures ShortName(EncodeArcs(arcs)) == KnownName(arcs)
  {
    DirectoryTypes(arcs, 3);
    DirectoryTypes(arcs, 5);
    DirectoryTypes(arcs, 6);
    DirectoryTypes(arcs, 7);
    DirectoryTypes(arcs, 8);
    DirectoryTypes(arcs, 9);
    DirectoryTypes(arcs, 10);
    DirectoryTypes(arcs, 11);
    DomainNameTypes(arcs, 25);
    DomainNameTypes(arcs, 1);
    EmailAddressType(arcs);
  }

  lemma DomainNameTypes(arcs: seq<nat>, last: nat)
    requires ValidArcs(arcs) && Fit64(SubidentifiersOf(arcs))
    requires last < 128
    ensures EncodeArcs(arcs) == [0x09, 0x92, 0x26, 0x89, 0x93, 0xf2, 0x2c, 0x64, 0x01, last]
       <==> arcs == [0, 9, 2342, 19200300, 100, 1, last]
  {
    EncodeDomainName(last);
    OnlyEncodes(arcs, [0, 9, 2342, 19200300, 100, 1, last]);
  }

  lemma EmailAddressType(arcs: seq<nat>)
    requires ValidArcs(arcs) && Fit64(SubidentifiersOf(arcs))
    ensures EncodeArcs(arcs) == [0x2a, 0x86, 0x48, 0x86, 0xf7, 0x0d, 0x01, 0x09, 0x01]
       <==> arcs == [1, 2, 840, 113549, 1, 9, 1]
  {
    EncodeEmailAddress();
    OnlyEncodes(arcs, [1, 2, 840, 113549, 1, 9, 1]);
  }

  /** The attribute type printed for an encoded identifier is its short name, or its arcs in dotted form. */
  lemma TypeTextOfEncoded(arcs: seq<nat>)
    requires ValidArcs(arcs) && Fit64(SubidentifiersOf(arcs))
    ensures TypeText(EncodeArcs(arcs))
         == match KnownName(arcs) case Some(name) => name case None => DottedText(arcs)
  {
    ArcsReadBack(arcs);
    ShortNameOfEncoded(arcs);
  }

  lemma DirectoryTypes(arcs: seq<nat>, last: nat)
    requires ValidArcs(arcs) && Fit64(SubidentifiersOf(arcs))
    requires last < 128
    ensures EncodeArcs(arcs) == [0x55, 0x04, last] <==> arcs == [2, 5, 4, last]
  {
    EncodeDirectoryType(last);
    OnlyEncodes(arcs, [2, 5, 4, last]);
  }
}
