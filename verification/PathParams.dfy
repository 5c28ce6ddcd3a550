/** `extract_path_params` of `src/parse.rs` and the filling of a route template it undoes. */
module PathParams {
  import opened Octets
  import opened Percent
  import opened QueryStrings

  const SLASH: byte := 0x2f
  const OPEN: byte := 0x7b
  const CLOSE: byte := 0x7d
  const STAR: byte := 0x2a
  const COLON: byte := 0x3a

  /** `trim_start_matches('/')`: every leading slash goes. */
  function TrimSlashes(s: seq<byte>): seq<byte> {
    if s != [] && s[0] == SLASH then TrimSlashes(s[1..]) else s
  }

  predicate Braced(segment: seq<byte>) {
    |segment| >= 2 && segment[0] == OPEN && segment[|segment| - 1] == CLOSE
  }

  /** `{*name}`; the closing brace is not the star, so three octets at least. */
  predicate CatchAll(segment: seq<byte>) {
    Braced(segment) && segment[1] == STAR
  }

  /** What `{name}` and `{name:...}` bind. */
  function NameIn(segment: seq<byte>): seq<byte>
    requires Braced(segment)
  {
    var inner := segment[1..|segment| - 1];
    match SplitOnce(inner, COLON)
    case Some((name, _)) => name
    case None => inner
  }

  /** The loop of `extract_path_params` from segment `i` on. */
  function Extract(template: seq<seq<byte>>, actual: seq<seq<byte>>, i: nat, out: Params): Params
    decreases |template| - i
  {
    if i >= |template| then out
    else
      var t := template[i];
      if CatchAll(t) then
        out[t[2..|t| - 1] := Decode(if i <= |actual| then Join(actual[i..], SLASH) else [])]
      else if Braced(t) && i < |actual| then
        Extract(template, actual, i + 1, out[NameIn(t) := Decode(actual[i])])
      else Extract(template, actual, i + 1, out)
  }

  /** The specification of `ExtractPathParams`. */
  function Extracted(template: seq<byte>, actual: seq<byte>): Params {
    Extract(Split(TrimSlashes(template), SLASH), Split(TrimSlashes(actual), SLASH), 0, map[])
  }

  method ExtractPathParams(template: seq<byte>, actual: seq<byte>) returns (out: Params)
    ensures out == Extracted(template, actual)
  {
    var ts := Split(TrimSlashes(template), SLASH);
    var segments := Split(TrimSlashes(actual), SLASH);
    out := map[];
    for i := 0 to |ts|
      invariant Extract(ts, segments, i, out) == Extracted(template, actual)
    {
      var t := ts[i];
      if |t| >= 2 && t[..2] == [OPEN, STAR] && t[|t| - 1] == CLOSE {
        var name := t[2..|t| - 1];
        var rest := if i <= |segments| then Join(segments[i..], SLASH) else [];
        var value := Urldecode(rest);
        out := out[name := value];
        return;
      } else if |t| >= 1 && t[0] == OPEN && t[|t| - 1] == CLOSE {
        var name := t[1..|t| - 1];
        var once := SplitOnce(name, COLON);
        if once.Some? { name := once.value.0; }
        if i < |segments| {
          var value := Urldecode(segments[i]);
          out := out[name := value];
        }
      }
    }
  }

  // ── Filling a template ─────────────────────────────────────────────────

  /** A template segment together with what the path has there. */
  datatype Part =
    | Fixed(text: seq<byte>)
    | Single(name: seq<byte>, pattern: Option<seq<byte>>, value: seq<byte>, forms: seq<Form>)
    | Rest(name: seq<byte>, value: seq<byte>, forms: seq<Form>)

  predicate WellFormedPart(p: Part) {
    match p
    case Fixed(text) =>
      && Ascii('/') !in text
      && !(|text| >= 2 && text[0] == Ascii('{') && text[|text| - 1] == Ascii('}'))
    case Single(name, pattern, value, forms) =>
      && Ascii('/') !in name && Ascii(':') !in name && (name == [] || name[0] != Ascii('*'))
      && (pattern.Some? ==> Ascii('/') !in pattern.value)
      && AllLegal(value, forms) && Ascii('/') !in Write(value, forms)
    case Rest(name, value, forms) => Ascii('/') !in name && AllLegal(value, forms)
  }

  /** Only the last part may be a catch-all. */
  predicate WellFormed(parts: seq<Part>) {
    && (forall k :: 0 <= k < |parts| ==> WellFormedPart(parts[k]))
    && (forall k :: 0 <= k < |parts| - 1 ==> !parts[k].Rest?)
  }

  function TemplateSegment(p: Part): seq<byte> {
    match p
    case Fixed(text) => text
    case Single(name, None, _, _) => [Ascii('{')] + name + [Ascii('}')]
    case Single(name, Some(pattern), _, _) => [Ascii('{')] + (name + ([Ascii(':')] + pattern)) + [Ascii('}')]
    case Rest(name, _, _) => [Ascii('{'), Ascii('*')] + name + [Ascii('}')]
  }

  function PathSegment(p: Part): seq<byte>
    requires WellFormedPart(p)
  {
    match p
    case Fixed(text) => text
    case Single(_, _, value, forms) => Write(value, forms)
    case Rest(_, value, forms) => Write(value, forms)
  }

  function TemplateSegments(parts: seq<Part>): seq<seq<byte>> {
    seq(|parts|, k requires 0 <= k < |parts| => TemplateSegment(parts[k]))
  }

  function PathSegments(parts: seq<Part>): seq<seq<byte>>
    requires WellFormed(parts)
  {
    seq(|parts|, k requires 0 <= k < |parts| => PathSegment(parts[k]))
  }

  function TemplateText(parts: seq<Part>): seq<byte> {
    [Ascii('/')] + Join(TemplateSegments(parts), Ascii('/'))
  }

  function PathText(parts: seq<Part>): seq<byte>
    requires WellFormed(parts)
  {
    [Ascii('/')] + Join(PathSegments(parts), Ascii('/'))
  }

  /** The values the parts assign to their names, on top of `out`. */
  function Assigned(parts: seq<Part>, out: Params): Params {
    if parts == [] then out
    else if parts[0].Fixed? then Assigned(parts[1..], out)
    else Assigned(parts[1..], out[parts[0].name := parts[0].value])
  }

  // Segments of the two texts.

  lemma {:induction false} SplitJoinLast(parts: seq<seq<byte>>, last: seq<byte>)
    requires forall k :: 0 <= k < |parts| ==> SLASH !in parts[k]
    ensures Split(Join(parts + [last], SLASH), SLASH) == parts + Split(last, SLASH)
  {
    if parts == [] {
      assert parts + [last] == [last];
    } else {
      var all := parts + [last];
      var rest := parts[1..] + [last];
      assert all[1..] == rest;
      assert Join(all, SLASH) == parts[0] + ([SLASH] + Join(rest, SLASH));
      SplitJoinLast(parts[1..], last);
      SplitPiece(parts[0], Join(rest, SLASH), SLASH);
      assert [parts[0]] + (parts[1..] + Split(last, SLASH)) == parts + Split(last, SLASH);
    }
  }

  lemma TemplateSegmentHasNoSlash(p: Part)
    requires WellFormedPart(p)
    ensures SLASH !in TemplateSegment(p)
  {
  }

  lemma TemplateSegmentShape(p: Part)
    requires WellFormedPart(p)
    ensures CatchAll(TemplateSegment(p)) <==> p.Rest?
    ensures Braced(TemplateSegment(p)) <==> !p.Fixed?
    ensures p.Single? ==> NameIn(TemplateSegment(p)) == p.name
    ensures p.Rest? ==> var t := TemplateSegment(p); t[2..|t| - 1] == p.name
  {
    var t := TemplateSegment(p);
    match p
    case Fixed(_) =>
    case Single(name, None, _, _) =>
      assert t[1..|t| - 1] == name;
      SplitOnceAt(name, [], COLON);
    case Single(name, Some(pattern), _, _) =>
      assert t[1..|t| - 1] == name + ([COLON] + pattern);
      SplitOnceAt(name, pattern, COLON);
    case Rest(name, _, _) =>
      assert t[2..|t| - 1] == name;
  }

  /** The segments of the path: one a part, then those a catch-all's own slashes make. */
  lemma SplitPath(parts: seq<Part>)
    requires WellFormed(parts) && parts != []
    ensures var n := |parts| - 1;
      Split(Join(PathSegments(parts), SLASH), SLASH)
        == PathSegments(parts)[..n] + Split(PathSegment(parts[n]), SLASH)
    ensures !parts[|parts| - 1].Rest? ==> Split(Join(PathSegments(parts), SLASH), SLASH) == PathSegments(parts)
  {
    var n := |parts| - 1;
    var segments := PathSegments(parts);
    assert segments == segments[..n] + [segments[n]];
    SplitJoinLast(segments[..n], segments[n]);
    if !parts[n].Rest? {
      SplitPiece(segments[n], [], SLASH);
    }
  }

  lemma ExtractRest(parts: seq<Part>, actual: seq<seq<byte>>, i: nat, out: Params)
    requires WellFormed(parts) && i < |parts| && parts[i].Rest?
    requires actual == Split(Join(PathSegments(parts), SLASH), SLASH)
    ensures Extract(TemplateSegments(parts), actual, i, out) == Assigned(parts[i..], out)
  {
    var p := parts[i];
    var text := Write(p.value, p.forms);
    SplitPath(parts);
    TemplateSegmentShape(p);
    assert actual[i..] == Split(text, SLASH);
    JoinSplit(text, SLASH);
    DecodeWritten(p.value, p.forms);
    assert parts[i..] == [p];
    assert Assigned([p][1..], out[p.name := p.value]) == out[p.name := p.value];
  }

  lemma ExtractSingle(parts: seq<Part>, actual: seq<seq<byte>>, i: nat, out: Params)
    requires WellFormed(parts) && i < |parts| && parts[i].Single?
    requires actual == Split(Join(PathSegments(parts), SLASH), SLASH)
    ensures Extract(TemplateSegments(parts), actual, i, out)
         == Extract(TemplateSegments(parts), actual, i + 1, out[parts[i].name := parts[i].value])
  {
    PieceAt(parts, i);
    SingleSegment(parts[i]);
    assert TemplateSegments(parts)[i] == TemplateSegment(parts[i]);
  }

  lemma PieceAt(parts: seq<Part>, i: nat)
    requires WellFormed(parts) && i < |parts| && !parts[i].Rest?
    ensures var pieces := Split(Join(PathSegments(parts), SLASH), SLASH);
      i < |pieces| && pieces[i] == PathSegment(parts[i])
  {
    SplitJoinAt(PathSegments(parts), i);
  }

  lemma {:induction false} SplitJoinAt(segments: seq<seq<byte>>, i: nat)
    requires i < |segments| && forall k :: 0 <= k <= i ==> SLASH !in segments[k]
    ensures var pieces := Split(Join(segments, SLASH), SLASH); i < |pieces| && pieces[i] == segments[i]
  {
    if |segments| == 1 {
      SplitPiece(segments[0], [], SLASH);
    } else {
      SplitPiece(segments[0], Join(segments[1..], SLASH), SLASH);
      if i > 0 {
        SplitJoinAt(segments[1..], i - 1);
      }
    }
  }

  lemma SingleSegment(p: Part)
    requires WellFormedPart(p) && p.Single?
    ensures var t := TemplateSegment(p);
      !CatchAll(t) && Braced(t) && NameIn(t) == p.name && Decode(PathSegment(p)) == p.value
  {
    TemplateSegmentShape(p);
    DecodeWritten(p.value, p.forms);
  }

  lemma {:induction false} ExtractFilled(parts: seq<Part>, actual: seq<seq<byte>>, i: nat, out: Params)
    requires WellFormed(parts) && parts != [] && i <= |parts|
    requires actual == Split(Join(PathSegments(parts), SLASH), SLASH)
    ensures Extract(TemplateSegments(parts), actual, i, out) == Assigned(parts[i..], out)
    decreases |parts| - i
  {
    if i < |parts| {
      var p := parts[i];
      assert parts[i..][0] == p && parts[i..][1..] == parts[i + 1..];
      match p
      case Fixed(_) =>
        TemplateSegmentShape(p);
        ExtractFilled(parts, actual, i + 1, out);
      case Single(name, _, value, _) =>
        ExtractSingle(parts, actual, i, out);
        ExtractFilled(parts, actual, i + 1, out[name := value]);
      case Rest(_, _, _) =>
        ExtractRest(parts, actual, i, out);
    }
  }
}
