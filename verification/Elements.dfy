/**
  The DER cursor of `src/x509.rs`: `element` and `expect` over an input that each call
  advances, and the encoder of section 8.1 of X.690 they undo.
 */
module Elements {
  import opened Octets
  import opened Asn1

  const SEQUENCE: byte := 0x30
  const SET: byte := 0x31
  const INTEGER: byte := 0x02
  const OCTET_STRING: byte := 0x04
  const OBJECT_IDENTIFIER: byte := 0x06
  const BOOLEAN: byte := 0x01
  const VERSION: byte := 0xa0
  const EXTENSIONS: byte := 0xa3

  /** The constants are the identifier octets of their types. */
  lemma ReaderTags()
    ensures SEQUENCE == TypeOctet(Sequence) && SET == TypeOctet(Set) && INTEGER == TypeOctet(Integer)
    ensures OCTET_STRING == TypeOctet(OctetString) && OBJECT_IDENTIFIER == TypeOctet(ObjectIdentifier)
    ensures BOOLEAN == TypeOctet(Boolean)
    ensures VERSION == ContextOctet(true, 0) && EXTENSIONS == ContextOctet(true, 3)
  {
  }

  /** What `element` makes of the front of an input. */
  datatype Read = Refused | Taken(tag: byte, content: seq<byte>, rest: seq<byte>)

  /** A tag and its content. */
  datatype Tlv = Tlv(tag: byte, content: seq<byte>)

  /** Big-endian base 256. */
  function Number(octets: seq<byte>): nat {
    if octets == [] then 0
    else 256 * Number(octets[..|octets| - 1]) + octets[|octets| - 1]
  }

  function Take(tag: byte, length: nat, rest: seq<byte>): Read
  {
    if |rest| < length then Refused else Taken(tag, rest[..length], rest[length..])
  }

  /** The specification of `Cursor.Element`. */
  function ReadElement(input: seq<byte>): (r: Read)
    ensures r.Taken? ==> |r.rest| + 2 + |r.content| <= |input|
  {
    if |input| < 2 || input[0] % 32 == 31 then Refused
    else if input[1] < 128 then Take(input[0], input[1], input[2..])
    else
      var count := input[1] - 128;
      if count == 0 || count > 4 || |input| < 2 + count then Refused
      else Take(input[0], Number(input[2..2 + count]), input[2 + count..])
  }

  /** The specification of `Cursor.Expect`: the content and what is left, for the given tag only. */
  function ReadTagged(input: seq<byte>, tag: byte): (r: Option<(seq<byte>, seq<byte>)>)
    ensures r.Some? ==> |r.value.1| + 2 + |r.value.0| <= |input|
  {
    match ReadElement(input)
    case Taken(found, content, rest) => if found == tag then Some((content, rest)) else None
    case Refused => None
  }

  /** The length of an accepted element is a 32-bit number, so `usize` holds it. */
  lemma {:induction false} NumberBound(octets: seq<byte>)
    requires |octets| <= 4
    ensures Number(octets) <
              if |octets| == 0 then 1
              else if |octets| == 1 then 0x100
              else if |octets| == 2 then 0x1_0000
              else if |octets| == 3 then 0x100_0000
              else 0x1_0000_0000
  {
    if octets != [] {
      NumberBound(octets[..|octets| - 1]);
    }
  }

  /** The `fold` over the length octets: every value on the way fits 32 bits. */
  method FoldLength(octets: seq<byte>) returns (length: nat)
    requires |octets| <= 4
    ensures length == Number(octets)
    ensures length <= 0xffff_ffff
  {
    length := 0;
    for i := 0 to |octets|
      invariant length == Number(octets[..i])
    {
      assert octets[..i + 1][..i] == octets[..i];
      length := length * 256 + octets[i];
      NumberBound(octets[..i + 1]);
    }
    assert octets[..|octets|] == octets;
    NumberBound(octets);
  }

  /** The `&mut &[u8]` the parser advances. */
  class Cursor {
    var input: seq<byte>

    constructor (input: seq<byte>)
      ensures this.input == input
    {
      this.input := input;
    }

    /** Read one element off the front. A refusal leaves the cursor where it was. */
    method Element() returns (r: Option<Tlv>)
      modifies this
      ensures match ReadElement(old(input))
              case Refused => r == None && input == old(input)
              case Taken(tag, content, rest) =>
                r == Some(Tlv(tag, content)) && input == rest && |rest| + 2 + |content| <= |old(input)|
    {
      if input == [] { return None; }
      var tag, rest := input[0], input[1..];
      if tag % 32 == 31 { return None; }
      if rest == [] { return None; }
      var first: nat := rest[0];
      rest := rest[1..];
      assert rest == input[2..];
      var length := first;
      if first >= 128 {
        var count := first % 128;
        if count == 0 || count > 4 || |rest| < count { return None; }
        assert rest[..count] == input[2..2 + count];
        length := FoldLength(rest[..count]);
        rest := rest[count..];
        assert rest == input[2 + count..];
      }
      if |rest| < length { return None; }
      input := rest[length..];
      return Some(Tlv(tag, rest[..length]));
    }

    /** The content of the next element, which must have `tag`. A wrong tag still advances. */
    method Expect(tag: byte) returns (r: Option<seq<byte>>)
      modifies this
      ensures match ReadTagged(old(input), tag)
              case None => r == None
              case Some((content, rest)) =>
                r == Some(content) && input == rest && |rest| + 2 + |content| <= |old(input)|
    {
      var element := Element();
      match element
      case None => return None;
      case Some(Tlv(found, content)) =>
        if found == tag { return Some(content); }
        return None;
    }
  }

  /** The two ways X.690 section 8.1.3 writes a definite length. */
  datatype LengthForm = Short | Long(octets: seq<byte>)

  predicate Writes(form: LengthForm, length: nat) {
    match form
    case Short => length < 128
    case Long(octets) => 1 <= |octets| <= 4 && Number(octets) == length
  }

  /** The first length octet of the long form; 255 is the value X.690 reserves. */
  function LengthOctet(count: nat): byte {
    if count < 127 then 128 + count else 255
  }

  function LengthOctets(form: LengthForm, length: nat): seq<byte> {
    match form
    case Short => [if length < 128 then length else 127]
    case Long(octets) => [LengthOctet(|octets|)] + octets
  }

  function Encode(tag: byte, form: LengthForm, content: seq<byte>): seq<byte> {
    [tag] + (LengthOctets(form, |content|) + content)
  }

  lemma ReadShort(tag: byte, content: seq<byte>, rest: seq<byte>)
    requires tag % 32 != 31
    requires |content| < 128
    ensures ReadElement(Encode(tag, Short, content) + rest) == Taken(tag, content, rest)
  {
    var input := Encode(tag, Short, content) + rest;
    assert input == [tag, |content|] + (content + rest);
    assert input[2..] == content + rest;
  }

  lemma LongShape(tag: byte, octets: seq<byte>, content: seq<byte>, rest: seq<byte>)
    requires 1 <= |octets| <= 4
    ensures var input := Encode(tag, Long(octets), content) + rest;
      && |input| == 2 + |octets| + |content| + |rest|
      && input[0] == tag && input[1] == 128 + |octets|
      && input[2..2 + |octets|] == octets
      && input[2 + |octets|..] == content + rest
  {
    var input := Encode(tag, Long(octets), content) + rest;
    assert input == [tag, 128 + |octets|] + octets + (content + rest);
  }

  lemma ReadLong(tag: byte, octets: seq<byte>, content: seq<byte>, rest: seq<byte>)
    requires tag % 32 != 31
    requires 1 <= |octets| <= 4 && Number(octets) == |content|
    ensures ReadElement(Encode(tag, Long(octets), content) + rest) == Taken(tag, content, rest)
  {
    LongShape(tag, octets, content, rest);
  }

  /** `element` reads back every encoding of a single-octet tag, minimal or not. */
  lemma ReadEncoded(tag: byte, form: LengthForm, content: seq<byte>, rest: seq<byte>)
    requires tag % 32 != 31
    requires Writes(form, |content|)
    ensures ReadElement(Encode(tag, form, content) + rest) == Taken(tag, content, rest)
  {
    match form
    case Short => ReadShort(tag, content, rest);
    case Long(octets) => ReadLong(tag, octets, content, rest);
  }

  /** The form in which an accepted input writes its length. */
  function FormOf(input: seq<byte>): LengthForm
    requires ReadElement(input).Taken?
  {
    if input[1] < 128 then Short else Long(input[2..input[1] - 126])
  }

  /** An accepted input is the encoding of what was read, then what is left. */
  lemma ReadWrites(input: seq<byte>)
    requires ReadElement(input).Taken?
    ensures var r := ReadElement(input);
      && r.tag % 32 != 31
      && Writes(FormOf(input), |r.content|)
      && input == Encode(r.tag, FormOf(input), r.content) + r.rest
  {
    if input[1] < 128 {
      Cut(input, []);
    } else {
      LongWrites(input);
    }
  }

  lemma LongWrites(input: seq<byte>)
    requires ReadElement(input).Taken? && input[1] >= 128
    ensures var r := ReadElement(input);
      Writes(FormOf(input), |r.content|) && input == Encode(r.tag, FormOf(input), r.content) + r.rest
  {
    var r := ReadElement(input);
    var octets := input[2..2 + (input[1] - 128)];
    assert input[2 + |octets|..] == r.content + r.rest;
    Cut(input, octets);
  }

  lemma Cut(input: seq<byte>, octets: seq<byte>)
    requires 2 <= 2 + |octets| <= |input| && octets == input[2..2 + |octets|]
    ensures input == [input[0]] + ([input[1]] + octets + input[2 + |octets|..])
  {
  }

  /**
    Both directions: an input is accepted exactly when it is the encoding of a single-octet tag
    and a length of at most four octets, followed by what is left on the cursor.
   */
  lemma ElementExact(input: seq<byte>, tag: byte, content: seq<byte>, rest: seq<byte>)
    ensures ReadElement(input) == Taken(tag, content, rest)
       <==> tag % 32 != 31
            && exists form :: Writes(form, |content|) && input == Encode(tag, form, content) + rest
  {
    if tag % 32 != 31 && exists form :: Writes(form, |content|) && input == Encode(tag, form, content) + rest {
      var form :| Writes(form, |content|) && input == Encode(tag, form, content) + rest;
      ReadEncoded(tag, form, content, rest);
    }
    if ReadElement(input) == Taken(tag, content, rest) {
      ReadWrites(input);
    }
  }

  lemma ReadAppended(tag: byte, form: LengthForm, content: seq<byte>, rest: seq<byte>, more: seq<byte>)
    requires tag % 32 != 31 && Writes(form, |content|)
    ensures ReadElement((Encode(tag, form, content) + rest) + more) == Taken(tag, content, rest + more)
  {
    ReadEncoded(tag, form, content, rest + more);
    Associate(Encode(tag, form, content), rest, more);
  }

  lemma Associate(a: seq<byte>, b: seq<byte>, c: seq<byte>)
    ensures (a + b) + c == a + (b + c)
  {
  }

  /** What follows an accepted element has no part in it. */
  lemma ElementIgnoresWhatFollows(input: seq<byte>, more: seq<byte>)
    requires ReadElement(input).Taken?
    ensures var r := ReadElement(input); ReadElement(input + more) == Taken(r.tag, r.content, r.rest + more)
  {
    var r := ReadElement(input);
    ReadWrites(input);
    ReadAppended(r.tag, FormOf(input), r.content, r.rest, more);
  }

  /** No prefix that ends inside an accepted element is accepted. */
  lemma ElementNeedsAllOfIt(input: seq<byte>, cut: nat)
    requires ReadElement(input).Taken?
    requires cut < |input| - |ReadElement(input).rest|
    ensures ReadElement(input[..cut]) == Refused
  {
    if ReadElement(input[..cut]).Taken? {
      assert input == input[..cut] + input[cut..];
      ElementIgnoresWhatFollows(input[..cut], input[cut..]);
    }
  }

  /** The shortest big-endian base 256 form of a positive number. */
  function Base256(n: nat): seq<byte> {
    if n == 0 then [] else Base256(n / 256) + [n % 256]
  }

  lemma {:induction false} NumberOfBase256(n: nat)
    ensures Number(Base256(n)) == n
  {
    if n != 0 {
      NumberOfBase256(n / 256);
      assert Base256(n)[..|Base256(n)| - 1] == Base256(n / 256);
    }
  }

  lemma Base256Size(n: nat)
    requires n < 0x1_0000_0000
    ensures |Base256(n)| <= 4
    ensures n > 0 ==> 1 <= |Base256(n)|
  {
    var a := n / 256;
    var b := a / 256;
    var c := b / 256;
    assert c / 256 == 0;
    assert |Base256(c)| <= 1;
    assert |Base256(b)| <= 2;
    assert |Base256(a)| <= 3;
  }

  /** The one form DER allows (section 10.1 of X.690). */
  function Minimal(length: nat): LengthForm {
    if length < 128 then Short else Long(Base256(length))
  }

  function Der(tag: byte, content: seq<byte>): seq<byte> {
    Encode(tag, Minimal(|content|), content)
  }

  /** A value of a universal type. */
  function DerOf(t: UniversalType, content: seq<byte>): seq<byte> {
    Der(TypeOctet(t), content)
  }

  lemma DerSize(tag: byte, content: seq<byte>)
    ensures |Der(tag, content)| >= 2 + |content|
    ensures Der(tag, content)[0] == tag
  {
  }

  /** `element` undoes DER for every single-octet tag and content shorter than 2^32 octets. */
  lemma ReadDer(tag: byte, content: seq<byte>, rest: seq<byte>)
    requires tag % 32 != 31
    requires |content| < 0x1_0000_0000
    ensures ReadElement(Der(tag, content) + rest) == Taken(tag, content, rest)
    ensures ReadTagged(Der(tag, content) + rest, tag) == Some((content, rest))
    ensures (Der(tag, content) + rest)[0] == tag
  {
    if |content| >= 128 {
      NumberOfBase256(|content|);
      Base256Size(|content|);
    }
    ReadEncoded(tag, Minimal(|content|), content, rest);
  }
}
