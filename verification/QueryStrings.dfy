/** `parse_query` of `src/parse.rs` and the query strings it undoes. */
module QueryStrings {
  import opened Octets
  import opened Percent

  const AMPERSAND: byte := 0x26
  const EQUALS: byte := 0x3d

  type Params = map<seq<byte>, seq<byte>>

  /** `split_once`: what is before and after the first `separator`. */
  function SplitOnce(s: seq<byte>, separator: byte): Option<(seq<byte>, seq<byte>)> {
    if s == [] then None
    else if s[0] == separator then Some(([], s[1..]))
    else
      var (before, after) :- SplitOnce(s[1..], separator);
      Some(([s[0]] + before, after))
  }

  /** The key and value one piece between ampersands stands for. */
  function PairOf(piece: seq<byte>): (seq<byte>, seq<byte>) {
    match SplitOnce(piece, EQUALS)
    case Some((key, value)) => (Decode(key), Decode(value))
    case None => (Decode(piece), [])
  }

  function Insert(params: Params, pair: (seq<byte>, seq<byte>)): Params {
    params[pair.0 := pair.1]
  }

  function InsertAll(params: Params, pieces: seq<seq<byte>>): Params
    decreases |pieces|
  {
    if pieces == [] then params else InsertAll(Insert(params, PairOf(pieces[0])), pieces[1..])
  }

  /** The specification of `ParseQuery`. */
  function Parsed(query: seq<byte>): Params {
    if query == [] then map[] else InsertAll(map[], Split(query, AMPERSAND))
  }

  method ParseQuery(query: seq<byte>) returns (out: Params)
    ensures out == Parsed(query)
  {
    out := map[];
    if query == [] { return; }
    var pieces := Split(query, AMPERSAND);
    for i := 0 to |pieces|
      invariant InsertAll(out, pieces[i..]) == InsertAll(map[], pieces)
    {
      assert pieces[i..][1..] == pieces[i + 1..];
      match SplitOnce(pieces[i], EQUALS) {
        case Some((k, v)) =>
          var key := Urldecode(k);
          var value := Urldecode(v);
          out := out[key := value];
        case None =>
          var key := Urldecode(pieces[i]);
          out := out[key := []];
      }
    }
  }

  // ── The encoder ────────────────────────────────────────────────────────

  /** A key and value with the way each octet is written; `bare` leaves out the `=` of an empty value. */
  datatype Written = Written(key: seq<byte>, keyForms: seq<Form>, value: seq<byte>, valueForms: seq<Form>, bare: bool)

  /** Keys hide `=` and `&`, values hide `&`, and only an empty value is left out. */
  predicate WellWritten(w: Written) {
    && AllLegal(w.key, w.keyForms) && AllLegal(w.value, w.valueForms)
    && Ascii('&') !in Write(w.key, w.keyForms) && Ascii('=') !in Write(w.key, w.keyForms)
    && Ascii('&') !in Write(w.value, w.valueForms)
    && (w.bare ==> w.value == [])
  }

  function PieceText(w: Written): seq<byte>
    requires WellWritten(w)
  {
    if w.bare then Write(w.key, w.keyForms)
    else Write(w.key, w.keyForms) + ([Ascii('=')] + Write(w.value, w.valueForms))
  }

  function PieceTexts(pairs: seq<Written>): seq<seq<byte>>
    requires forall k :: 0 <= k < |pairs| ==> WellWritten(pairs[k])
  {
    seq(|pairs|, k requires 0 <= k < |pairs| => PieceText(pairs[k]))
  }

  function QueryText(pairs: seq<Written>): seq<byte>
    requires forall k :: 0 <= k < |pairs| ==> WellWritten(pairs[k])
  {
    Join(PieceTexts(pairs), Ascii('&'))
  }

  /** The map in which the last pair of each key wins. */
  function LastWins(pairs: seq<Written>): Params {
    if pairs == [] then map[]
    else
      var last := pairs[|pairs| - 1];
      LastWins(pairs[..|pairs| - 1])[last.key := last.value]
  }

  lemma {:induction false} SplitOnceAt(before: seq<byte>, after: seq<byte>, separator: byte)
    requires separator !in before
    ensures SplitOnce(before, separator) == None
    ensures SplitOnce(before + ([separator] + after), separator) == Some((before, after))
  {
    var s := before + ([separator] + after);
    if before == [] {
      assert s[1..] == after;
    } else {
      SplitOnceAt(before[1..], after, separator);
      assert s[1..] == before[1..] + ([separator] + after);
      assert [before[0]] + before[1..] == before;
    }
  }

  lemma PieceReadsBack(w: Written)
    requires WellWritten(w)
    ensures PairOf(PieceText(w)) == (w.key, w.value)
    ensures AMPERSAND !in PieceText(w)
  {
    DecodeWritten(w.key, w.keyForms);
    DecodeWritten(w.value, w.valueForms);
    SplitOnceAt(Write(w.key, w.keyForms), Write(w.value, w.valueForms), EQUALS);
  }

  lemma {:induction false} InsertAllExtends(params: Params, pieces: seq<seq<byte>>)
    requires pieces != []
    ensures var n := |pieces| - 1;
      InsertAll(params, pieces) == Insert(InsertAll(params, pieces[..n]), PairOf(pieces[n]))
    decreases |pieces|
  {
    var n := |pieces| - 1;
    if n > 0 {
      InsertAllExtends(Insert(params, PairOf(pieces[0])), pieces[1..]);
      assert pieces[1..][..n - 1] == pieces[..n][1..];
    }
  }

  lemma {:induction false} InsertAllLastWins(pairs: seq<Written>)
    requires forall k :: 0 <= k < |pairs| ==> WellWritten(pairs[k])
    ensures InsertAll(map[], PieceTexts(pairs)) == LastWins(pairs)
  {
    if pairs != [] {
      var n := |pairs| - 1;
      var pieces := PieceTexts(pairs);
      InsertAllLastWins(pairs[..n]);
      InsertAllExtends(map[], pieces);
      assert pieces[..n] == PieceTexts(pairs[..n]);
      assert pieces[n] == PieceText(pairs[n]);
      PieceReadsBack(pairs[n]);
    }
  }

  /** The one list whose text says nothing: a single bare empty key. */
  predicate OneEmptyKey(pairs: seq<Written>) {
    |pairs| == 1 && pairs[0].bare && pairs[0].key == []
  }

  lemma TextIsLong(pairs: seq<Written>)
    requires forall k :: 0 <= k < |pairs| ==> WellWritten(pairs[k])
    requires pairs != [] && !OneEmptyKey(pairs)
    ensures QueryText(pairs) != []
  {
    if |pairs| == 1 {
      assert QueryText(pairs) == PieceText(pairs[0]);
      if pairs[0].bare {
        assert |Write(pairs[0].key, pairs[0].keyForms)| > 0;
      }
    }
  }

  lemma SplitPieces(pairs: seq<Written>)
    requires forall k :: 0 <= k < |pairs| ==> WellWritten(pairs[k])
    requires pairs != []
    ensures Split(QueryText(pairs), AMPERSAND) == PieceTexts(pairs)
  {
    forall k | 0 <= k < |pairs| ensures AMPERSAND !in PieceTexts(pairs)[k] {
      PieceReadsBack(pairs[k]);
    }
    SplitJoin(PieceTexts(pairs), AMPERSAND);
  }

  /** `parse_query` gives the last-wins map of every list of pairs but the one of a bare empty key. */
  lemma QueryReadsBack(pairs: seq<Written>)
    requires forall k :: 0 <= k < |pairs| ==> WellWritten(pairs[k])
    ensures Parsed(QueryText(pairs)) == LastWins(pairs) <==> !OneEmptyKey(pairs)
  {
    if pairs == [] {
    } else if OneEmptyKey(pairs) {
      assert LastWins(pairs) == LastWins(pairs[..0])[[] := pairs[0].value];
      assert [] in LastWins(pairs);
    } else {
      TextIsLong(pairs);
      SplitPieces(pairs);
      InsertAllLastWins(pairs);
    }
  }

  /** What last-wins means: exactly the keys given, each with the value of its last pair. */
  lemma {:induction false} LastWinsMeans(pairs: seq<Written>)
    ensures forall key :: key in LastWins(pairs) <==> exists i :: 0 <= i < |pairs| && pairs[i].key == key
    ensures forall i :: 0 <= i < |pairs| && (forall j :: i < j < |pairs| ==> pairs[j].key != pairs[i].key) ==>
                          LastWins(pairs)[pairs[i].key] == pairs[i].value
  {
    if pairs != [] {
      var n := |pairs| - 1;
      var before := pairs[..n];
      LastWinsMeans(before);
      forall i | 0 <= i < |pairs| && (forall j :: i < j < |pairs| ==> pairs[j].key != pairs[i].key)
        ensures pairs[i].key in LastWins(pairs) && LastWins(pairs)[pairs[i].key] == pairs[i].value
      {
        if i < n {
          assert before[i] == pairs[i];
          assert forall j :: i < j < |before| ==> before[j] == pairs[j];
        }
      }
      forall key ensures key in LastWins(pairs) <==> exists i :: 0 <= i < |pairs| && pairs[i].key == key {
        if key in LastWins(before) {
          var i :| 0 <= i < |before| && before[i].key == key;
          assert pairs[i].key == key;
        }
        if i :| 0 <= i < |pairs| && pairs[i].key == key && i < n {
          assert before[i].key == key;
        }
      }
    }
  }
}
