/**
  `urldecode` of `src/parse.rs` and the percent-encoding (section 2.1 of RFC 3986) it undoes. The
  source pushes one character per octet, so text is modelled as octets throughout.
 */
module Percent {
  import opened Octets

  const PERCENT: byte := 0x25
  const PLUS: byte := 0x2b
  const SPACE: byte := 0x20

  /** `u8::from_str_radix(_, 16)` on two octets: a leading `+` is a sign, so `+5` is five. */
  function FromHex(high: byte, low: byte): Option<byte> {
    if high == PLUS then HexValue(low as char)
    else
      var h :- HexValue(high as char);
      var l :- HexValue(low as char);
      Some(16 * h + l)
  }

  /** Whether `s` starts with an escape `urldecode` decodes. */
  predicate Escaped(s: seq<byte>) {
    |s| > 2 && s[0] == PERCENT && FromHex(s[1], s[2]).Some?
  }

  /** The specification of `Urldecode`. */
  function Decode(s: seq<byte>): seq<byte> {
    if s == [] then []
    else if Escaped(s) then [FromHex(s[1], s[2]).value] + Decode(s[3..])
    else [if s[0] == PLUS then SPACE else s[0]] + Decode(s[1..])
  }

  /** What is left to decode at index `i`, in terms of the octets there. */
  lemma DecodeAt(s: seq<byte>, i: nat)
    requires i < |s|
    ensures Decode(s[i..])
         == if s[i] == PERCENT && i + 2 < |s| && FromHex(s[i + 1], s[i + 2]).Some?
            then [FromHex(s[i + 1], s[i + 2]).value] + Decode(s[i + 3..])
            else [if s[i] == PLUS then SPACE else s[i]] + Decode(s[i + 1..])
  {
    assert s[i..][1..] == s[i + 1..];
    if i + 2 < |s| {
      assert s[i..][3..] == s[i + 3..];
    }
  }

  lemma Push(out: seq<byte>, octet: byte, rest: seq<byte>)
    ensures out + ([octet] + rest) == (out + [octet]) + rest
  {
  }

  method Urldecode(s: seq<byte>) returns (out: seq<byte>)
    ensures out == Decode(s)
  {
    out := [];
    var i := 0;
    while i < |s|
      invariant i <= |s|
      invariant out + Decode(s[i..]) == Decode(s)
    {
      DecodeAt(s, i);
      if s[i] == PERCENT && i + 2 < |s| {
        var octet := FromHex(s[i + 1], s[i + 2]);
        if octet.Some? {
          Push(out, octet.value, Decode(s[i + 3..]));
          out := out + [octet.value];
          i := i + 3;
          continue;
        }
      } else if s[i] == PLUS {
        Push(out, SPACE, Decode(s[i + 1..]));
        out := out + [SPACE];
        i := i + 1;
        continue;
      }
      Push(out, s[i], Decode(s[i + 1..]));
      out := out + [s[i]];
      i := i + 1;
    }
    assert out + [] == out;
  }

  /** The escapes `urldecode` decodes in `s`, from the left. */
  function Escapes(s: seq<byte>): nat {
    if s == [] then 0 else if Escaped(s) then 1 + Escapes(s[3..]) else Escapes(s[1..])
  }

  /** Each decoded escape takes two octets off the length, and nothing else does. */
  lemma {:induction false} DecodedLength(s: seq<byte>)
    ensures |Decode(s)| + 2 * Escapes(s) == |s|
  {
    if s != [] {
      DecodedLength(if Escaped(s) then s[3..] else s[1..]);
    }
  }

  /** Text is left as it is exactly when it holds no plus sign and no escape. */
  lemma {:induction false} DecodeIsIdentity(s: seq<byte>)
    ensures Decode(s) == s <==> Ascii('+') !in s && Escapes(s) == 0
  {
    DecodedLength(s);
    if s != [] && Escapes(s) == 0 {
      DecodeIsIdentity(s[1..]);
      assert s == [s[0]] + s[1..];
      assert Decode(s)[1..] == Decode(s[1..]);
    }
  }

  // ── What is an escape ──────────────────────────────────────────────────

  /** The octet of an ASCII character. */
  function Ascii(c: char): byte
    requires c < 128 as char
  {
    c as int
  }

  predicate HexDigit(octet: byte) {
    || Ascii('0') <= octet <= Ascii('9') || Ascii('a') <= octet <= Ascii('f') || Ascii('A') <= octet <= Ascii('F')
  }

  /** A percent sign and two hexadecimal digits, of which the first may be a plus sign. */
  lemma EscapedMeans(s: seq<byte>)
    ensures Escaped(s) <==>
              && |s| >= 3 && s[0] == Ascii('%') && HexDigit(s[2])
              && (HexDigit(s[1]) || s[1] == Ascii('+'))
  {
  }

  /** The plus sign stands for no digit: `%+5` is the octet 5. */
  lemma SignedEscape(n: nat, upper: bool, rest: seq<byte>)
    requires n < 16
    ensures Decode([Ascii('%'), Ascii('+'), DigitOctet(n, upper)] + rest) == [n] + Decode(rest)
  {
    DigitReadsBack(n, upper);
    assert ([Ascii('%'), Ascii('+'), DigitOctet(n, upper)] + rest)[3..] == rest;
  }

  // ── The encoder ────────────────────────────────────────────────────────

  /** How one octet is written; the flags pick the case of each digit. */
  datatype Form = Literal | Plus | Escape(upperHigh: bool, upperLow: bool)

  function DigitOctet(n: nat, upper: bool): byte
    requires n < 16
  {
    if n < 10 then Ascii('0') + n else if upper then Ascii('A') + n - 10 else Ascii('a') + n - 10
  }

  predicate Legal(octet: byte, form: Form) {
    match form
    case Literal => octet != Ascii('%') && octet != Ascii('+')
    case Plus => octet == Ascii(' ')
    case Escape(_, _) => true
  }

  predicate AllLegal(plain: seq<byte>, forms: seq<Form>) {
    |forms| == |plain| && forall k :: 0 <= k < |plain| ==> Legal(plain[k], forms[k])
  }

  function WriteOctet(octet: byte, form: Form): seq<byte> {
    match form
    case Literal => [octet]
    case Plus => [Ascii('+')]
    case Escape(upperHigh, upperLow) =>
      [Ascii('%'), DigitOctet(octet / 16, upperHigh), DigitOctet(octet % 16, upperLow)]
  }

  function Write(plain: seq<byte>, forms: seq<Form>): seq<byte>
    requires |forms| == |plain|
  {
    if plain == [] then [] else WriteOctet(plain[0], forms[0]) + Write(plain[1..], forms[1..])
  }

  lemma DigitReadsBack(n: nat, upper: bool)
    requires n < 16
    ensures HexValue(DigitOctet(n, upper) as char) == Some(n)
    ensures DigitOctet(n, upper) != PLUS
  {
  }

  lemma DecodeOne(octet: byte, form: Form, rest: seq<byte>)
    requires Legal(octet, form)
    ensures Decode(WriteOctet(octet, form) + rest) == [octet] + Decode(rest)
  {
    var s := WriteOctet(octet, form) + rest;
    match form
    case Literal => assert s[1..] == rest;
    case Plus => assert s[1..] == rest;
    case Escape(upperHigh, upperLow) =>
      DigitReadsBack(octet / 16, upperHigh);
      DigitReadsBack(octet % 16, upperLow);
      assert s[3..] == rest;
  }

  /** Every percent-encoding of every octet sequence decodes to it. */
  lemma {:induction false} DecodeWritten(plain: seq<byte>, forms: seq<Form>)
    requires AllLegal(plain, forms)
    ensures Decode(Write(plain, forms)) == plain
  {
    if plain != [] {
      DecodeWritten(plain[1..], forms[1..]);
      DecodeOne(plain[0], forms[0], Write(plain[1..], forms[1..]));
    }
  }
}
