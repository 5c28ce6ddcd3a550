/** Octets, optional values and the sequence helpers every parser here uses. */
module Octets {

  type byte = x: int | 0 <= x < 256

  /** One past the greatest 64-bit word. */
  const U64: nat := 0x1_0000_0000_0000_0000

  datatype Option<+T> = None | Some(value: T) {
    predicate IsFailure() { None? }

    function PropagateFailure<U>(): Option<U>
      requires None?
    {
      None
    }

    function Extract(): T
      requires Some?
    {
      value
    }
  }

  /** The parts of `parts`, with `separator` between each two (Rust's `join`). */
  function Join<T>(parts: seq<seq<T>>, separator: T): seq<T> {
    if parts == [] then []
    else if |parts| == 1 then parts[0]
    else parts[0] + ([separator] + Join(parts[1..], separator))
  }

  /** The pieces of `s` between the occurrences of `separator` (Rust's `split`): never empty. */
  function Split<T(==)>(s: seq<T>, separator: T): (parts: seq<seq<T>>)
    ensures parts != []
  {
    if s == [] then [[]]
    else
      var rest := Split(s[1..], separator);
      if s[0] == separator then [[]] + rest
      else [[s[0]] + rest[0]] + rest[1..]
  }

  /** Splitting takes a leading piece that is free of the separator off in one go. */
  lemma {:induction false} SplitPiece<T>(piece: seq<T>, rest: seq<T>, separator: T)
    requires separator !in piece
    ensures Split(piece, separator) == [piece]
    ensures Split(piece + ([separator] + rest), separator) == [piece] + Split(rest, separator)
  {
    if piece == [] {
      assert piece + ([separator] + rest) == [separator] + rest;
    } else {
      SplitPiece(piece[1..], rest, separator);
      assert (piece + ([separator] + rest))[1..] == piece[1..] + ([separator] + rest);
      assert [piece[0]] + piece[1..] == piece;
    }
  }

  /** `split` undoes `join` for at least one piece, none of which holds the separator. */
  lemma {:induction false} SplitJoin<T>(parts: seq<seq<T>>, separator: T)
    requires parts != []
    requires forall k :: 0 <= k < |parts| ==> separator !in parts[k]
    ensures Split(Join(parts, separator), separator) == parts
  {
    if |parts| == 1 {
      SplitPiece(parts[0], [], separator);
    } else {
      SplitJoin(parts[1..], separator);
      SplitPiece(parts[0], Join(parts[1..], separator), separator);
      assert parts == [parts[0]] + parts[1..];
    }
  }

  /** `join` undoes `split` for every input. */
  lemma {:induction false} JoinSplit<T>(s: seq<T>, separator: T)
    ensures Join(Split(s, separator), separator) == s
  {
    if s != [] {
      JoinSplit(s[1..], separator);
      var rest := Split(s[1..], separator);
      if s[0] == separator {
        assert ([[]] + rest)[1..] == rest;
      } else {
        assert ([[s[0]] + rest[0]] + rest[1..])[1..] == rest[1..];
      }
    }
  }

  function Reverse<T>(s: seq<T>): (r: seq<T>)
    ensures |r| == |s|
    ensures forall k :: 0 <= k < |s| ==> r[k] == s[|s| - 1 - k]
  {
    if s == [] then [] else Reverse(s[1..]) + [s[0]]
  }

  lemma ReverseTwice<T>(s: seq<T>)
    ensures Reverse(Reverse(s)) == s
  {
    var r := Reverse(s);
    var t := Reverse(r);
    forall k | 0 <= k < |s| ensures t[k] == s[k] {
      assert t[k] == r[|r| - 1 - k];
    }
  }

  /** The decimal digits of `n`. */
  function Decimal(n: nat): (s: string)
    ensures s != ""
    ensures forall c :: c in s ==> '0' <= c <= '9'
  {
    var digit := ('0' as int + n % 10) as char;
    if n < 10 then [digit] else Decimal(n / 10) + [digit]
  }

  /** One lower-case hexadecimal digit. */
  function HexChar(n: nat): (c: char)
    requires n < 16
    ensures HexValue(c) == Some(n)
  {
    if n < 10 then ('0' as int + n) as char else ('a' as int + n - 10) as char
  }

  /** The value of one hexadecimal digit, in either case. */
  function HexValue(c: char): (r: Option<nat>)
    ensures r.Some? ==> r.value < 16
  {
    if '0' <= c <= '9' then Some(c as int - '0' as int)
    else if 'a' <= c <= 'f' then Some(c as int - 'a' as int + 10)
    else if 'A' <= c <= 'F' then Some(c as int - 'A' as int + 10)
    else None
  }
}
