/**
  When `extract_path_params` of `src/parse.rs` gives back what a route template was filled with:
  both texts lose every slash they start with, and so the empty segments in front.
 */
module FilledTemplates {
  import opened Octets
  import opened Percent
  import opened QueryStrings
  import opened PathParams

  /** How many empty segments in front the trimming takes: the last segment stays. */
  function Lead(segments: seq<seq<byte>>): (n: nat)
    ensures n <= |segments| && (segments != [] ==> n < |segments|)
    ensures forall k :: 0 <= k < n ==> segments[k] == []
    ensures n + 1 < |segments| ==> segments[n] != []
  {
    if |segments| > 1 && segments[0] == [] then 1 + Lead(segments[1..]) else 0
  }

  lemma {:induction false} LeadBehind(segments: seq<seq<byte>>, k: nat)
    requires k < |segments| && forall j :: 0 <= j < k ==> segments[j] == []
    ensures Lead(segments) == k + Lead(segments[k..])
    ensures segments[k..][Lead(segments[k..])..] == segments[Lead(segments)..]
  {
    if k > 0 {
      LeadBehind(segments[1..], k - 1);
      assert segments[1..][k - 1..] == segments[k..];
    } else {
      assert segments[0..] == segments;
    }
  }

  predicate StartsWithSlash(s: seq<byte>) {
    s != [] && s[0] == SLASH
  }

  /** Trimming slashes is dropping empty segments. */
  lemma {:induction false} SplitTrimmed(s: seq<byte>)
    ensures var segments := Split(s, SLASH); Split(TrimSlashes(s), SLASH) == segments[Lead(segments)..]
  {
    if StartsWithSlash(s) {
      SplitTrimmed(s[1..]);
      assert Split(s, SLASH)[1..] == Split(s[1..], SLASH);
    }
  }

  /** The segments of the filled path behind its first slash. */
  function PathPieces(parts: seq<Part>): seq<seq<byte>>
    requires WellFormed(parts)
  {
    Split(Join(PathSegments(parts), SLASH), SLASH)
  }

  lemma SplitBehindSlash(s: seq<byte>)
    ensures var segments := Split(s, SLASH);
      Split(TrimSlashes([SLASH] + s), SLASH) == segments[Lead(segments)..]
  {
    assert ([SLASH] + s)[1..] == s;
    SplitTrimmed(s);
  }

  /** The parts behind the leading empty segments of the template. */
  function Behind(parts: seq<Part>): (behind: seq<Part>)
    requires WellFormed(parts) && parts != []
    ensures WellFormed(behind) && behind != []
  {
    parts[Lead(TemplateSegments(parts))..]
  }

  /** What the template's parts take from the path when only the path's empty segments are dropped. */
  function Found(parts: seq<Part>): Params
    requires WellFormed(parts)
  {
    var pieces := PathPieces(parts);
    Extract(TemplateSegments(parts), pieces[Lead(pieces)..], 0, map[])
  }

  lemma ExtractedIsFound(parts: seq<Part>)
    requires WellFormed(parts) && parts != []
    ensures Extracted(TemplateText(parts), PathText(parts)) == Found(Behind(parts))
  {
    ExtractedBehindLead(parts);
    PiecesBehindLead(parts);
  }

  lemma ExtractedBehindLead(parts: seq<Part>)
    requires WellFormed(parts) && parts != []
    ensures var pieces := PathPieces(parts);
      && Assigned(parts, map[]) == Assigned(Behind(parts), map[])
      && Extracted(TemplateText(parts), PathText(parts))
      == Extract(TemplateSegments(Behind(parts)), pieces[Lead(pieces)..], 0, map[])
  {
    var ts := TemplateSegments(parts);
    SplitTemplate(parts);
    SplitBehindSlash(Join(ts, SLASH));
    SplitBehindSlash(Join(PathSegments(parts), SLASH));
    LeadingPartsEmpty(parts);
    FixedAssignNothing(parts, Lead(ts));
  }

  lemma SplitTemplate(parts: seq<Part>)
    requires WellFormed(parts) && parts != []
    ensures var ts := TemplateSegments(parts);
      Split(Join(ts, SLASH), SLASH) == ts && TemplateSegments(parts[Lead(ts)..]) == ts[Lead(ts)..]
  {
    var ts := TemplateSegments(parts);
    forall k | 0 <= k < |parts| ensures SLASH !in ts[k] {
      TemplateSegmentHasNoSlash(parts[k]);
    }
    SplitJoin(ts, SLASH);
    assert TemplateSegments(parts[Lead(ts)..]) == ts[Lead(ts)..];
  }

  lemma LeadingPartsEmpty(parts: seq<Part>)
    ensures forall k :: 0 <= k < Lead(TemplateSegments(parts)) ==> TemplateSegment(parts[k]) == []
  {
    assert forall k :: 0 <= k < Lead(TemplateSegments(parts)) ==>
                         TemplateSegments(parts)[k] == TemplateSegment(parts[k]);
  }

  lemma {:induction false} FixedAssignNothing(parts: seq<Part>, n: nat)
    requires n <= |parts| && forall k :: 0 <= k < n ==> TemplateSegment(parts[k]) == []
    ensures Assigned(parts, map[]) == Assigned(parts[n..], map[])
  {
    if n > 0 {
      assert TemplateSegment(parts[0]) == [];
      FixedAssignNothing(parts[1..], n - 1);
      assert parts[1..][n - 1..] == parts[n..];
    } else {
      assert parts[0..] == parts;
    }
  }

  /** The path has at least the leading empty segments of the template; behind those, it is the rest filled. */
  lemma PiecesBehindLead(parts: seq<Part>)
    requires WellFormed(parts) && parts != []
    ensures var n, pieces := Lead(TemplateSegments(parts)), PathPieces(parts);
      && n < |pieces|
      && PathPieces(Behind(parts)) == pieces[n..]
      && Lead(pieces) == n + Lead(pieces[n..])
      && pieces[n..][Lead(pieces[n..])..] == pieces[Lead(pieces)..]
  {
    var n := Lead(TemplateSegments(parts));
    PiecesBehind(parts, n);
    LeadingPiecesEmpty(parts, n);
    LeadBehind(PathPieces(parts), n);
  }

  lemma SegmentsBehind(parts: seq<Part>, n: nat)
    requires WellFormed(parts) && n < |parts|
    ensures WellFormed(parts[n..]) && PathSegments(parts[n..]) == PathSegments(parts)[n..]
  {
  }

  lemma {:induction false} SplitJoinBehind(segments: seq<seq<byte>>, n: nat)
    requires n < |segments| && forall k :: 0 <= k < n ==> SLASH !in segments[k]
    ensures var pieces := Split(Join(segments, SLASH), SLASH);
      n < |pieces| && pieces[n..] == Split(Join(segments[n..], SLASH), SLASH)
  {
    if n == 0 {
      assert segments[0..] == segments;
    } else {
      SplitPiece(segments[0], Join(segments[1..], SLASH), SLASH);
      SplitJoinBehind(segments[1..], n - 1);
      assert segments[1..][n - 1..] == segments[n..];
    }
  }

  lemma PiecesBehind(parts: seq<Part>, n: nat)
    requires WellFormed(parts) && n < |parts|
    ensures n < |PathPieces(parts)| && WellFormed(parts[n..]) && PathPieces(parts[n..]) == PathPieces(parts)[n..]
  {
    SegmentsBehind(parts, n);
    SplitJoinBehind(PathSegments(parts), n);
  }

  lemma LeadingPiecesEmpty(parts: seq<Part>, n: nat)
    requires WellFormed(parts) && n < |parts| && n <= Lead(TemplateSegments(parts)) && n < |PathPieces(parts)|
    ensures forall k :: 0 <= k < n ==> PathPieces(parts)[k] == []
  {
    SplitPath(parts);
    forall k | 0 <= k < n ensures PathPieces(parts)[k] == [] {
      assert TemplateSegments(parts)[k] == TemplateSegment(parts[k]);
      assert PathPieces(parts)[k] == PathSegments(parts)[k];
    }
  }

  /**
    `extract_path_params` returns the assignment a template was filled with, provided the template
    and the path begin with as many empty segments, which trimming takes.
   */
  lemma FillingReadsBack(parts: seq<Part>)
    requires WellFormed(parts)
    requires Lead(TemplateSegments(parts)) == Lead(PathPieces(parts))
    ensures Extracted(TemplateText(parts), PathText(parts)) == Assigned(parts, map[])
  {
    if parts == [] {
      assert TemplateText(parts)[1..] == [] && PathText(parts)[1..] == [];
      assert TrimSlashes(TemplateText(parts)) == TrimSlashes(PathText(parts)) == [];
      assert Extract([[]], [[]], 1, map[]) == map[];
    } else {
      var behind := Behind(parts);
      ExtractedBehindLead(parts);
      ExtractedIsFound(parts);
      PiecesBehindLead(parts);
      ExtractFilled(behind, PathPieces(behind), 0, map[]);
      assert behind[0..] == behind && PathPieces(behind)[0..] == PathPieces(behind);
    }
  }

  /** If the path has more of them, a parameter comes first behind those of the template, and its segment is empty. */
  lemma MoreEmptySegments(parts: seq<Part>)
    requires WellFormed(parts) && Lead(TemplateSegments(parts)) != Lead(PathPieces(parts))
    ensures parts != [] && !Behind(parts)[0].Fixed? && Lead(PathPieces(Behind(parts))) > 0
  {
    assert parts != [];
    var n := Lead(TemplateSegments(parts));
    PiecesBehindLead(parts);
    SplitPath(Behind(parts));
    assert Behind(parts)[0] == parts[n] && TemplateSegments(parts)[n] == TemplateSegment(parts[n]);
  }

  lemma {:induction false} TrimmedDecodesShorter(s: seq<byte>)
    ensures |Decode(TrimSlashes(s))| <= |Decode(s)|
    ensures StartsWithSlash(s) ==> |Decode(TrimSlashes(s))| < |Decode(s)|
  {
    if StartsWithSlash(s) {
      TrimmedDecodesShorter(s[1..]);
      assert Decode(s) == [SLASH] + Decode(s[1..]);
    }
  }

  /** A catch-all loses the slashes its text starts with. */
  lemma CatchAllLosesSlashes(p: Part)
    requires WellFormedPart(p) && p.Rest? && Lead(PathPieces([p])) > 0
    ensures Found([p]) != Assigned([p], map[])
  {
    var text := PathSegment(p);
    assert PathSegments([p]) == [text];
    SplitTrimmed(text);
    CatchAllTakesRest(p, TrimSlashes(text));
    TrimmedDecodesShorter(text);
    DecodeWritten(p.value, p.forms);
    assert StartsWithSlash(text);
    assert Assigned([p], map[]) == Assigned([p][1..], map[][p.name := p.value]);
    assert Assigned([p], map[])[p.name] == p.value;
  }

  lemma CatchAllTakesRest(p: Part, text: seq<byte>)
    requires WellFormedPart(p) && p.Rest?
    ensures var found := Extract(TemplateSegments([p]), Split(text, SLASH), 0, map[]);
      p.name in found && found[p.name] == Decode(text)
  {
    TemplateSegmentShape(p);
    JoinSplit(text, SLASH);
    assert Split(text, SLASH)[0..] == Split(text, SLASH);
  }

  lemma {:induction false} ExtractKeeps(parts: seq<Part>, actual: seq<seq<byte>>, i: nat, out: Params, name: seq<byte>)
    requires forall k :: 0 <= k < |parts| ==> WellFormedPart(parts[k])
    requires forall k :: i <= k < |parts| && !parts[k].Fixed? ==> parts[k].name != name
    ensures var r := Extract(TemplateSegments(parts), actual, i, out);
      (name in r <==> name in out) && (name in r ==> r[name] == out[name])
    decreases |parts| - i
  {
    if i < |parts| {
      TemplateSegmentShape(parts[i]);
      if parts[i].Single? && i < |actual| {
        ExtractKeeps(parts, actual, i + 1, out[parts[i].name := Decode(actual[i])], name);
      } else if !parts[i].Rest? {
        ExtractKeeps(parts, actual, i + 1, out, name);
      }
    }
  }

  lemma FirstSingleTakes(parts: seq<Part>, actual: seq<seq<byte>>)
    requires WellFormed(parts) && DistinctNames(parts) && parts != [] && parts[0].Single? && actual != []
    ensures var found := Extract(TemplateSegments(parts), actual, 0, map[]);
      parts[0].name in found && found[parts[0].name] == Decode(actual[0])
  {
    TemplateSegmentShape(parts[0]);
    var empty: Params := map[];
    ExtractKeeps(parts, actual, 1, empty[parts[0].name := Decode(actual[0])], parts[0].name);
  }

  /** Then the first parameter takes the first segment that is not empty, or the last of the path. */
  lemma EmptyFirstValueShifts(parts: seq<Part>)
    requires WellFormed(parts) && DistinctNames(parts)
    requires Lead(TemplateSegments(parts)) != Lead(PathPieces(parts))
    requires parts[Lead(TemplateSegments(parts))].Single?
    ensures var p := parts[Lead(TemplateSegments(parts))];
      var found := Extracted(TemplateText(parts), PathText(parts));
      p.name in found && found[p.name] == Decode(PathPieces(parts)[Lead(PathPieces(parts))])
  {
    var pieces := PathPieces(parts);
    ExtractedBehindLead(parts);
    FirstSingleTakes(Behind(parts), pieces[Lead(pieces)..]);
  }

  predicate DistinctNames(parts: seq<Part>) {
    forall i, k :: 0 <= i < k < |parts| && !parts[i].Fixed? && !parts[k].Fixed? ==> parts[i].name != parts[k].name
  }

  predicate Binds(parts: seq<Part>, name: seq<byte>) {
    exists k :: 0 <= k < |parts| && !parts[k].Fixed? && parts[k].name == name
  }

  /** With distinct names the assignment holds exactly the names, each with its value. */
  lemma {:induction false} AssignedMeans(parts: seq<Part>, out: Params)
    requires DistinctNames(parts)
    ensures forall k :: 0 <= k < |parts| && !parts[k].Fixed? ==>
                          parts[k].name in Assigned(parts, out) && Assigned(parts, out)[parts[k].name] == parts[k].value
    ensures forall name :: !Binds(parts, name) ==>
                             && (name in Assigned(parts, out) <==> name in out)
                             && (name in out ==> Assigned(parts, out)[name] == out[name])
  {
    if parts != [] {
      var next := if parts[0].Fixed? then out else out[parts[0].name := parts[0].value];
      AssignedMeans(parts[1..], next);
      assert forall k :: 0 <= k < |parts[1..]| ==> parts[1..][k] == parts[k + 1];
      assert forall name :: !Binds(parts, name) ==> !Binds(parts[1..], name);
      forall k | 0 <= k < |parts| && !parts[k].Fixed?
        ensures parts[k].name in Assigned(parts, out) && Assigned(parts, out)[parts[k].name] == parts[k].value
      {
        if k > 0 {
          assert parts[1..][k - 1] == parts[k];
        } else {
          assert !Binds(parts[1..], parts[0].name);
        }
      }
    }
  }

  predicate AllEmpty(segments: seq<seq<byte>>) {
    forall k :: 0 <= k < |segments| ==> segments[k] == []
  }

  /** Every segment of the path is empty, and at most one parameter takes a single segment. */
  predicate NothingToShift(parts: seq<Part>)
    requires WellFormed(parts)
  {
    && AllEmpty(PathSegments(parts))
    && (forall i, k :: 0 <= i < k < |parts| && parts[i].Single? ==> !parts[k].Single?)
  }

  /** Behind the end of the path only a catch-all is bound, to nothing. */
  lemma {:induction false} ExtractBeyond(parts: seq<Part>, actual: seq<seq<byte>>, i: nat, out: Params)
    requires WellFormed(parts) && parts != [] && |actual| <= i <= |parts|
    ensures var last := parts[|parts| - 1];
      Extract(TemplateSegments(parts), actual, i, out)
      == if i < |parts| && last.Rest? then out[last.name := []] else out
    decreases |parts| - i
  {
    if i < |parts| {
      TemplateSegmentShape(parts[i]);
      if !parts[i].Rest? {
        ExtractBeyond(parts, actual, i + 1, out);
      } else {
        assert Join(if i <= |actual| then actual[i..] else [], SLASH) == [];
      }
    }
  }

  lemma {:induction false} NoSinglesAssign(parts: seq<Part>, out: Params)
    requires WellFormed(parts) && forall k :: 0 <= k < |parts| ==> !parts[k].Single?
    ensures Assigned(parts, out)
         == if parts != [] && parts[|parts| - 1].Rest? then out[parts[|parts| - 1].name := parts[|parts| - 1].value]
            else out
  {
    if |parts| == 1 && parts[0].Rest? {
      var more := out[parts[0].name := parts[0].value];
      assert Assigned(parts[1..], more) == more;
    } else if parts != [] {
      assert !parts[0].Rest?;
      NoSinglesAssign(parts[1..], out);
    }
  }

  lemma DecodeIsEmpty(s: seq<byte>)
    ensures Decode(s) == [] <==> s == []
  {
    DecodedLength(s);
  }

  lemma ValueEmptyWithText(p: Part)
    requires WellFormedPart(p) && !p.Fixed?
    ensures p.value == [] <==> PathSegment(p) == []
  {
    DecodeWritten(p.value, p.forms);
    DecodedLength(PathSegment(p));
  }

  lemma EmptyPieces(parts: seq<Part>)
    requires WellFormed(parts) && parts != []
    ensures AllEmpty(PathSegments(parts)) ==> AllEmpty(PathPieces(parts))
    ensures AllEmpty(PathPieces(parts)) ==>
              AllEmpty(PathSegments(parts)[..if parts[|parts| - 1].Rest? then |parts| - 1 else |parts|])
  {
    var n := |parts| - 1;
    var segments := PathSegments(parts);
    SplitPath(parts);
    EmptySum(segments[..n], Split(segments[n], SLASH));
  }

  lemma EmptySum(a: seq<seq<byte>>, b: seq<seq<byte>>)
    ensures AllEmpty(a + b) <==> AllEmpty(a) && AllEmpty(b)
  {
    if AllEmpty(a + b) {
      assert forall k :: 0 <= k < |a| ==> a[k] == (a + b)[k];
      assert forall k :: 0 <= k < |b| ==> b[k] == (a + b)[|a| + k];
    }
  }

  /** One empty segment only: the first parameter takes it, and a catch-all behind it nothing. */
  lemma ExtractEmpty(parts: seq<Part>)
    requires WellFormed(parts) && parts != [] && parts[0].Single?
    ensures var last := parts[|parts| - 1];
      Extract(TemplateSegments(parts), [[]], 0, map[])
      == if last.Rest? then map[parts[0].name := []][last.name := []] else map[parts[0].name := []]
  {
    TemplateSegmentShape(parts[0]);
    var empty: Params := map[];
    assert Decode([]) == [];
    ExtractBeyond(parts, [[]], 1, empty[parts[0].name := []]);
  }

  lemma NoOtherSingle(parts: seq<Part>)
    requires WellFormed(parts) && parts != [] && AllEmpty(PathPieces(parts)) && parts[0].Single?
    requires forall k :: 1 <= k < |parts| ==> !parts[k].Single?
    ensures var last := parts[|parts| - 1];
      && parts[0].value == []
      && (NothingToShift(parts) <==> (last.Rest? ==> last.value == []))
  {
    EmptyButLast(parts);
    ValueEmptyWithText(parts[0]);
    if parts[|parts| - 1].Rest? {
      ValueEmptyWithText(parts[|parts| - 1]);
    }
  }

  /** When all pieces of the path are empty, so are all segments but a catch-all's, whose slashes make pieces. */
  lemma EmptyButLast(parts: seq<Part>)
    requires WellFormed(parts) && parts != [] && AllEmpty(PathPieces(parts)) && !parts[0].Rest?
    ensures var last := parts[|parts| - 1];
      && PathSegment(parts[0]) == []
      && (AllEmpty(PathSegments(parts)) <==> (last.Rest? ==> PathSegment(last) == []))
  {
    var n := |parts| - 1;
    var segments := PathSegments(parts);
    EmptyPieces(parts);
    PieceAt(parts, 0);
    EmptyLast(segments);
    assert segments[n] == PathSegment(parts[n]);
    assert segments[..|parts|] == segments;
  }

  lemma EmptyLast(segments: seq<seq<byte>>)
    requires segments != []
    ensures var n := |segments| - 1;
      AllEmpty(segments) <==> AllEmpty(segments[..n]) && segments[n] == []
  {
    var n := |segments| - 1;
    assert AllEmpty([segments[n]]) <==> [segments[n]][0] == [];
    assert segments == segments[..n] + [segments[n]];
    EmptySum(segments[..n], [segments[n]]);
  }

  lemma AssignedEmpty(parts: seq<Part>)
    requires WellFormed(parts) && parts != [] && parts[0].Single? && parts[0].value == []
    requires forall k :: 1 <= k < |parts| ==> !parts[k].Single?
    ensures var last := parts[|parts| - 1];
      Assigned(parts, map[])
      == if last.Rest? then map[parts[0].name := []][last.name := last.value] else map[parts[0].name := []]
  {
    var empty: Params := map[];
    var out := empty[parts[0].name := []];
    assert Assigned(parts, map[]) == Assigned(parts[1..], out);
    NoSinglesAssign(parts[1..], out);
  }

  lemma SameUpdate(out: Params, name: seq<byte>, v: seq<byte>, w: seq<byte>)
    ensures out[name := v] == out[name := w] <==> v == w
  {
    assert out[name := v][name] == v && out[name := w][name] == w;
  }

  lemma NoOtherSingleReadsBack(parts: seq<Part>)
    requires WellFormed(parts) && parts != [] && AllEmpty(PathPieces(parts)) && parts[0].Single?
    requires forall k :: 1 <= k < |parts| ==> !parts[k].Single?
    ensures Extract(TemplateSegments(parts), [[]], 0, map[]) == Assigned(parts, map[]) <==> NothingToShift(parts)
  {
    NoOtherSingle(parts);
    ExtractEmpty(parts);
    AssignedEmpty(parts);
    var last := parts[|parts| - 1];
    if last.Rest? {
      SameUpdate(map[parts[0].name := []], last.name, [], last.value);
    }
  }

  lemma OtherSingle(parts: seq<Part>, k: nat)
    requires WellFormed(parts) && DistinctNames(parts) && parts != [] && parts[0].Single?
    requires 1 <= k < |parts| && parts[k].Single?
    ensures Extract(TemplateSegments(parts), [[]], 0, map[]) != Assigned(parts, map[])
  {
    ExtractEmpty(parts);
    AssignedMeans(parts, map[]);
    assert parts[k].name in Assigned(parts, map[]);
  }

  /** The same for the parts behind the template's leading empty segments. */
  lemma ShiftReadsBack(parts: seq<Part>)
    requires WellFormed(parts) && DistinctNames(parts) && parts != [] && parts[0].Single?
    requires Lead(PathPieces(parts)) > 0
    ensures Found(parts) == Assigned(parts, map[]) <==> NothingToShift(parts)
  {
    var pieces := PathPieces(parts);
    var actual := pieces[Lead(pieces)..];
    if actual[0] == [] {
      assert actual == [[]];
      assert forall k :: 0 <= k < |pieces| - 1 ==> pieces[k] == [];
      if k :| 1 <= k < |parts| && parts[k].Single? {
        OtherSingle(parts, k);
      } else {
        NoOtherSingleReadsBack(parts);
      }
    } else {
      ShiftChanges(parts);
    }
  }

  lemma ShiftChanges(parts: seq<Part>)
    requires WellFormed(parts) && DistinctNames(parts) && parts != [] && parts[0].Single?
    requires var pieces := PathPieces(parts); Lead(pieces) > 0 && pieces[Lead(pieces)] != []
    ensures !NothingToShift(parts) && Found(parts) != Assigned(parts, map[])
  {
    var pieces := PathPieces(parts);
    var actual := pieces[Lead(pieces)..];
    EmptyPieces(parts);
    SplitPath(parts);
    assert pieces[0] == PathSegment(parts[0]);
    ValueEmptyWithText(parts[0]);
    AssignedMeans(parts, map[]);
    DecodeIsEmpty(actual[0]);
    FirstSingleTakes(parts, actual);
  }

  lemma NothingToShiftBehind(parts: seq<Part>, n: nat)
    requires WellFormed(parts) && n < |parts|
    requires forall k :: 0 <= k < n ==> TemplateSegment(parts[k]) == []
    ensures WellFormed(parts[n..]) && (NothingToShift(parts) <==> NothingToShift(parts[n..]))
  {
    SegmentsBehind(parts, n);
    EmptyBehind(parts, n);
    assert forall k :: 0 <= k < n ==> !parts[k].Single?;
    assert forall k :: n <= k < |parts| ==> parts[k] == parts[n..][k - n];
  }

  lemma EmptyBehind(parts: seq<Part>, n: nat)
    requires WellFormed(parts) && n < |parts|
    requires forall k :: 0 <= k < n ==> TemplateSegment(parts[k]) == []
    ensures AllEmpty(PathSegments(parts)) <==> AllEmpty(PathSegments(parts)[n..])
  {
    var segments := PathSegments(parts);
    assert forall k :: 0 <= k < n ==> segments[k] == PathSegment(parts[k]) == [];
    assert segments == segments[..n] + segments[n..];
    EmptySum(segments[..n], segments[n..]);
  }

  lemma NothingToShiftBehindLead(parts: seq<Part>)
    requires WellFormed(parts) && parts != []
    ensures NothingToShift(parts) <==> NothingToShift(Behind(parts))
  {
    LeadingPartsEmpty(parts);
    NothingToShiftBehind(parts, Lead(TemplateSegments(parts)));
  }

  lemma CatchAllReadsBack(parts: seq<Part>)
    requires WellFormed(parts) && parts != [] && parts[0].Rest? && Lead(PathPieces(parts)) > 0
    ensures Found(parts) != Assigned(parts, map[]) && !NothingToShift(parts)
  {
    assert parts == [parts[0]];
    CatchAllLosesSlashes(parts[0]);
    SplitPath(parts);
  }

  /**
    With distinct names, the assignment comes back exactly when the template and the path begin with
    as many empty segments, or the path is empty and at most one parameter takes a single segment.
   */
  lemma FillingReadsBackExactly(parts: seq<Part>)
    requires WellFormed(parts) && DistinctNames(parts)
    ensures Extracted(TemplateText(parts), PathText(parts)) == Assigned(parts, map[])
       <==> Lead(TemplateSegments(parts)) == Lead(PathPieces(parts)) || NothingToShift(parts)
  {
    if Lead(TemplateSegments(parts)) == Lead(PathPieces(parts)) {
      FillingReadsBack(parts);
    } else {
      MoreEmptySegments(parts);
      ExtractedIsFound(parts);
      ExtractedBehindLead(parts);
      NothingToShiftBehindLead(parts);
      if Behind(parts)[0].Rest? {
        CatchAllReadsBack(Behind(parts));
      } else {
        ShiftReadsBack(Behind(parts));
      }
    }
  }

  /**
    Every template whose first segment is filled with something is read back exactly, but for a
    catch-all that comes first and whose text itself starts with a slash: that slash is lost.
   */
  lemma FilledTemplateReadsBack(parts: seq<Part>)
    requires WellFormed(parts) && parts != []
    requires TemplateSegment(parts[0]) != [] && PathSegment(parts[0]) != []
    ensures Extracted(TemplateText(parts), PathText(parts)) == Assigned(parts, map[])
       <==> !(parts[0].Rest? && StartsWithSlash(PathSegment(parts[0])))
  {
    FirstSegments(parts);
    if parts[0].Rest? && StartsWithSlash(PathSegment(parts[0])) {
      ExtractedIsFound(parts);
      assert Behind(parts) == parts;
      CatchAllReadsBack(parts);
    } else {
      FillingReadsBack(parts);
    }
  }

  lemma FirstSegments(parts: seq<Part>)
    requires WellFormed(parts) && parts != []
    requires TemplateSegment(parts[0]) != [] && PathSegment(parts[0]) != []
    ensures Lead(TemplateSegments(parts)) == 0
    ensures Lead(PathPieces(parts)) > 0 <==> parts[0].Rest? && StartsWithSlash(PathSegment(parts[0]))
  {
    var text := PathSegment(parts[0]);
    assert TemplateSegments(parts)[0] != [];
    SplitPath(parts);
    if parts[0].Rest? {
      assert PathPieces(parts) == Split(text, SLASH);
      assert StartsWithSlash(text) <==> Split(text, SLASH)[0] == [];
    } else {
      assert PathPieces(parts)[0] == PathSegments(parts)[0] == text;
    }
  }
}
