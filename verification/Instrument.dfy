/**
  Instrumenting template source for coverage: a marker is spliced into the bytes in front of every
  located statement.  The result is the source of the trees with markers, so rendering is unchanged, and
  each counter tells how often the statements of its line were reached.
 */
module Instrument {
  import opened Wrappers
  import opened Sequences
  import opened Strings
  import opened TemplateTrees

  // ----- bytes

  function Opening(t: Tag): string {
    if t.trimLeft then "{{-" else "{{"
  }

  function TagBytes(t: Tag): string {
    Opening(t) + t.gap + t.content + (if t.trimRight then "-}}" else "}}")
  }

  const HIT := "__templateCoverageHit"

  /** `key` needs no escaping: it is a path and a line number. */
  function MarkerBytes(key: string, dashed: bool): string {
    if dashed then "{{- " + HIT + " " + ['"'] + key + ['"'] + " -}}" else "{{" + HIT + " " + ['"'] + key + ['"'] + "}}"
  }

  /** The marker function applied to the quoted key. */
  function HitCall(key: string): string {
    HIT + " " + ['"'] + key + ['"']
  }

  /** A tag with `call` in it, inside dashes and blanks if `dashed`. */
  function CallTag(call: string, dashed: bool): Tag {
    var blank := if dashed then " " else "";
    Tag(dashed, blank, call + blank, dashed)
  }

  lemma CallTagBytes(call: string, dashed: bool)
    ensures TagBytes(CallTag(call, dashed)) == if dashed then "{{- " + call + " -}}" else "{{" + call + "}}"
  {
    if dashed {
      assert "{{-" + " " == "{{- " && " " + "-}}" == " -}}";
      Regroup("{{- " + call, " ", "-}}");
      Regroup("{{- ", call, " ");
    } else {
      assert "{{" + "" == "{{" && call + "" == call;
    }
  }

  lemma CallTagEdges(call: string, dashed: bool)
    ensures var t := CallTag(call, dashed);
            && t.trimLeft == t.trimRight == dashed && AllSpace(t.gap)
            && call <= t.content && AllSpace(t.content[|call|..])
            && (dashed ==> t.gap != "" && t.content != call)
  {
    var t := CallTag(call, dashed);
    assert t.content[|call|..] == if dashed then " " else "";
    assert dashed ==> |t.content| == |call| + 1;
  }

  lemma MarkerIsCall(key: string, dashed: bool)
    ensures MarkerBytes(key, dashed) == TagBytes(CallTag(HitCall(key), dashed))
  {
    CallTagBytes(HitCall(key), dashed);
    var h, k := HIT + " ", ['"'] + key + ['"'];
    Regroup(HIT, " ", k);
    Regroup(h, ['"'], key);
    Regroup(h + ['"'], key, ['"']);
  }

  /**
    The bytes of a marker are those of a tag with a call of the marker function on the quoted key, with
    only blanks around it, which trims its surroundings exactly as the marker of the tree does.
   */
  lemma MarkerIsTag(key: string, dashed: bool) returns (t: Tag)
    ensures MarkerBytes(key, dashed) == TagBytes(t)
    ensures t.trimLeft == LeftDash(Marker(key, dashed)) && t.trimRight == RightDash(Marker(key, dashed))
    ensures AllSpace(t.gap) && HitCall(key) <= t.content && AllSpace(t.content[|HitCall(key)|..])
    ensures dashed ==> t.gap != "" && t.content != HitCall(key)
  {
    t := CallTag(HitCall(key), dashed);
    MarkerIsCall(key, dashed);
    CallTagEdges(HitCall(key), dashed);
  }

  /** Where in its tag the parser places a leaf. */
  function Offset(tag: Tag, action: Action): nat {
    |Opening(tag)| + |tag.gap| + (if action.TemplateCall? then action.nameAt else 0)
  }

  /** A source in reading order: leaf statements, each with its marker if it is located, and other bytes. */
  datatype Pieces =
    | End
    | Raw(bytes: string, rest: Pieces)
    | Point(bytes: string, offset: nat, key: string, line: nat, mark: string, rest: Pieces)

  function LeafPiece(tag: Tag, action: Action, key: string, line: nat, rest: Pieces): Pieces {
    Point(TagBytes(tag), Offset(tag, action), key, line, if Located(action) then MarkerBytes(key, tag.trimLeft) else "", rest)
  }

  /** The pieces of the nodes, followed by `rest`. */
  function ListPieces(nodes: seq<Node>, rest: Pieces): Pieces
    decreases nodes, 1
  {
    if nodes == [] then rest else NodePieces(nodes[0], ListPieces(nodes[1..], rest))
  }

  function NodePieces(n: Node, rest: Pieces): Pieces
    decreases n, 1
  {
    match n
    case Text(text) => Raw(text, rest)
    case Comment(tag) => Raw(TagBytes(tag), rest)
    case Marker(key, dashed) => Raw(MarkerBytes(key, dashed), rest)
    case Leaf(tag, action, key, line) => LeafPiece(tag, action, key, line, rest)
    case Block(_, _, head, body, alt) => Raw(TagBytes(head), ListPieces(body, AltPieces(alt, rest)))
    case Define(_, head, body, end) => Raw(TagBytes(head), ListPieces(body, Raw(TagBytes(end), rest)))
  }

  function AltPieces(alt: Alt, rest: Pieces): Pieces
    decreases alt, 1
  {
    match alt
    case NoElse(end) => Raw(TagBytes(end), rest)
    case Else(tag, nodes, end) => Raw(TagBytes(tag), ListPieces(nodes, Raw(TagBytes(end), rest)))
    case ElseIf(chain) => NodePieces(chain, rest)
  }

  function Source(nodes: seq<Node>): Pieces {
    ListPieces(nodes, End)
  }

  function Bytes(ps: Pieces): string {
    if ps.End? then "" else ps.bytes + Bytes(ps.rest)
  }

  /** The source with a marker in front of every located statement. */
  function Spliced(ps: Pieces): string {
    match ps
    case End => ""
    case Raw(bytes, rest) => bytes + Spliced(rest)
    case Point(bytes, _, _, _, mark, rest) => mark + (bytes + Spliced(rest))
  }

  datatype CoverPoint = CoverPoint(pos: nat, key: string, line: nat)

  /** The points the parser reports, in order of position. */
  function Points(ps: Pieces, base: nat): seq<CoverPoint> {
    match ps
    case End => []
    case Raw(bytes, rest) => Points(rest, base + |bytes|)
    case Point(bytes, offset, key, line, _, rest) => [CoverPoint(base + offset, key, line)] + Points(rest, base + |bytes|)
  }

  // ----- locating a tag from the position of its content

  function BackOver(src: string, i: nat): (r: nat)
    requires i <= |src|
    ensures r <= i && (r > 0 ==> !IsSpace(src[r - 1]))
  {
    if i > 0 && IsSpace(src[i - 1]) then BackOver(src, i - 1) else i
  }

  datatype Delim = Delim(start: nat, dashed: bool)

  /** The bytes before `i` are "{{". */
  predicate Braces(src: string, i: nat)
    requires i <= |src|
  {
    i >= 2 && src[i - 2] == '{' && src[i - 1] == '{'
  }

  function OpenDelim(src: string, contentPos: nat): (r: Option<Delim>)
    ensures r.Some? ==> r.value.start <= |src|
  {
    if contentPos > |src| then None
    else
      var i := BackOver(src, contentPos);
      if i > 0 && src[i - 1] == '-' && Braces(src, i - 1) then Some(Delim(i - 3, true))
      else if Braces(src, i) then Some(Delim(i - 2, false))
      else None
  }

  method FindOpenDelim(src: string, contentPos: nat) returns (r: Option<Delim>)
    ensures r == OpenDelim(src, contentPos)
  {
    if contentPos > |src| {
      return None;
    }
    var i: nat := contentPos;
    while i > 0 && IsSpace(src[i - 1])
      invariant i <= |src|
      invariant BackOver(src, contentPos) == BackOver(src, i)
    {
      i := i - 1;
    }
    if i > 0 && src[i - 1] == '-' && Braces(src, i - 1) {
      return Some(Delim(i - 3, true));
    }
    if Braces(src, i) {
      return Some(Delim(i - 2, false));
    }
    return None;
  }

  lemma {:induction false} BackOverSpaces(src: string, lo: nat, hi: nat)
    requires lo <= hi <= |src|
    requires AllSpace(src[lo..hi]) && (lo > 0 ==> !IsSpace(src[lo - 1]))
    ensures BackOver(src, hi) == lo
    decreases hi
  {
    if lo < hi {
      assert src[lo..hi][hi - lo - 1] == src[hi - 1];
      assert src[lo..hi - 1] == src[lo..hi][..hi - lo - 1];
      BackOverSpaces(src, lo, hi - 1);
    }
  }

  predicate At(src: string, pos: nat, part: string) {
    pos + |part| <= |src| && src[pos..pos + |part|] == part
  }

  lemma PartsAt(src: string, pos: nat, a: string, b: string)
    requires At(src, pos, a + b)
    ensures At(src, pos, a) && At(src, pos + |a|, b)
  {
    var n := pos + |a| + |b|;
    assert src[pos..n][..|a|] == a && src[pos..n][|a|..] == b;
    assert src[pos..n][..|a|] == src[pos..pos + |a|];
    assert src[pos..n][|a|..] == src[pos + |a|..n];
  }

  lemma TagAt(src: string, base: nat, tag: Tag)
    requires At(src, base, TagBytes(tag))
    ensures At(src, base, Opening(tag)) && At(src, base + |Opening(tag)|, tag.gap)
    ensures At(src, base + |Opening(tag)| + |tag.gap|, tag.content)
  {
    PartsAt(src, base, Opening(tag) + tag.gap + tag.content, if tag.trimRight then "-}}" else "}}");
    PartsAt(src, base, Opening(tag) + tag.gap, tag.content);
    PartsAt(src, base, Opening(tag), tag.gap);
  }

  lemma OpeningFound(src: string, base: nat, tag: Tag)
    requires At(src, base, Opening(tag))
    ensures var i := base + |Opening(tag)|;
            && !IsSpace(src[i - 1])
            && (if tag.trimLeft then src[i - 1] == '-' && Braces(src, i - 1) else src[i - 1] != '-' && Braces(src, i))
  {
    AtIndex(src, base, Opening(tag), 0);
    AtIndex(src, base, Opening(tag), 1);
    if tag.trimLeft {
      AtIndex(src, base, Opening(tag), 2);
    }
  }

  lemma AtIndex(src: string, pos: nat, part: string, k: nat)
    requires At(src, pos, part) && k < |part|
    ensures src[pos + k] == part[k]
  {
    assert src[pos + k] == src[pos..pos + |part|][k];
  }

  /** From the start of a statement's content the scan finds the statement's own delimiter, with its dash. */
  lemma StatementLocated(src: string, base: nat, tag: Tag, action: Action)
    requires ValidPoint(tag, action) && Located(action) && At(src, base, TagBytes(tag))
    ensures OpenDelim(src, base + Offset(tag, action)) == Some(Delim(base, tag.trimLeft))
  {
    TagAt(src, base, tag);
    OpeningFound(src, base, tag);
    BackOverSpaces(src, base + |Opening(tag)|, base + Offset(tag, action));
  }

  lemma InsideAt(src: string, pos: nat, part: string, lo: nat, hi: nat)
    requires At(src, pos, part) && lo <= hi <= |part|
    ensures src[pos + lo..pos + hi] == part[lo..hi]
    ensures lo > 0 ==> src[pos + lo - 1] == part[lo - 1]
  {
    assert forall k :: 0 <= k < |part| ==> src[pos + k] == src[pos..pos + |part|][k] == part[k];
  }

  lemma NoDelim(src: string, pos: nat, i: nat)
    requires pos <= |src| && BackOver(src, pos) == i && i > 0 && 'a' <= src[i - 1] <= 'z'
    ensures OpenDelim(src, pos) == None
  {
  }

  /** Going back from a name over white space ends at the keyword. */
  lemma BackToKeyword(src: string, pos: nat, tag: Tag, action: Action)
    requires ValidPoint(tag, action) && !Located(action) && At(src, pos, tag.content)
    ensures var i := pos + action.keyword;
            && 0 < i <= pos + action.nameAt <= |src| && 'a' <= src[i - 1] <= 'z'
            && BackOver(src, pos + action.nameAt) == i
  {
    InsideAt(src, pos, tag.content, action.keyword, action.nameAt);
    BackOverSpaces(src, pos + action.keyword, pos + action.nameAt);
  }

  lemma NothingBeforeName(src: string, pos: nat, tag: Tag, action: Action)
    requires ValidPoint(tag, action) && !Located(action) && At(src, pos, tag.content)
    ensures OpenDelim(src, pos + action.nameAt) == None
  {
    BackToKeyword(src, pos, tag, action);
    NoDelim(src, pos + action.nameAt, pos + action.keyword);
  }

  /** From a {{template}} call's name the scan stops at the keyword and finds nothing. */
  lemma CallNotLocated(src: string, base: nat, tag: Tag, action: Action)
    requires ValidPoint(tag, action) && !Located(action) && At(src, base, TagBytes(tag))
    ensures OpenDelim(src, base + Offset(tag, action)) == None
  {
    TagAt(src, base, tag);
    NothingBeforeName(src, base + |Opening(tag)| + |tag.gap|, tag, action);
  }

  // ----- the splicing loop

  /** Markers in front of the tags found from the points on, the source copied from `last`. */
  function SpliceAt(raw: string, last: nat, points: seq<CoverPoint>): string
    requires last <= |raw|
    decreases |points|
  {
    if points == [] then raw[last..]
    else
      match OpenDelim(raw, points[0].pos)
      case None => SpliceAt(raw, last, points[1..])
      case Some(d) =>
        if d.start < last then SpliceAt(raw, last, points[1..])
        else raw[last..d.start] + MarkerBytes(points[0].key, d.dashed) + SpliceAt(raw, d.start, points[1..])
  }

  /** The points a marker is placed for. */
  function Placed(raw: string, last: nat, points: seq<CoverPoint>): seq<CoverPoint>
    decreases |points|
  {
    if points == [] then []
    else
      match OpenDelim(raw, points[0].pos)
      case None => Placed(raw, last, points[1..])
      case Some(d) =>
        if d.start < last then Placed(raw, last, points[1..])
        else [points[0]] + Placed(raw, d.start, points[1..])
  }

  /** The points of located statements. */
  function LocatedPoints(ps: Pieces, base: nat): seq<CoverPoint> {
    match ps
    case End => []
    case Raw(bytes, rest) => LocatedPoints(rest, base + |bytes|)
    case Point(bytes, offset, key, line, mark, rest) =>
      (if mark != "" then [CoverPoint(base + offset, key, line)] else []) + LocatedPoints(rest, base + |bytes|)
  }

  lemma Cut(raw: string, last: nat, pre: nat, bytes: string, rest: string)
    requires last <= pre <= |raw| && raw[pre..] == bytes + rest
    ensures At(raw, pre, bytes) && raw[pre + |bytes|..] == rest
    ensures raw[last..pre + |bytes|] == raw[last..pre] + bytes
  {
    assert raw[pre..][..|bytes|] == bytes && raw[pre..][|bytes|..] == rest;
    assert raw[pre..][..|bytes|] == raw[pre..pre + |bytes|];
    assert raw[pre..][|bytes|..] == raw[pre + |bytes|..];
  }

  /** Wherever the piece lies in a source, the scan from its position finds its start, or nothing if it has no marker. */
  ghost predicate Proper(p: Pieces) {
    p.Point? ==> forall src: string, base: nat :: At(src, base, p.bytes) ==> ScanFinds(src, base, p)
  }

  predicate ScanFinds(src: string, base: nat, p: Pieces)
    requires p.Point?
  {
    match OpenDelim(src, base + p.offset)
    case None => p.mark == ""
    case Some(d) => d.start == base && p.mark != "" && p.mark == MarkerBytes(p.key, d.dashed)
  }

  ghost predicate AllProper(ps: Pieces) {
    Proper(ps) && (!ps.End? ==> AllProper(ps.rest))
  }

  lemma LeafProper(tag: Tag, action: Action, key: string, line: nat, rest: Pieces)
    requires ValidPoint(tag, action)
    ensures Proper(LeafPiece(tag, action, key, line, rest))
  {
    var p := LeafPiece(tag, action, key, line, rest);
    forall src: string, base: nat | At(src, base, p.bytes)
      ensures ScanFinds(src, base, p)
    {
      if Located(action) {
        StatementLocated(src, base, tag, action);
      } else {
        CallNotLocated(src, base, tag, action);
      }
    }
  }

  lemma {:induction false} ListProper(nodes: seq<Node>, rest: Pieces)
    requires AreSource(nodes) && AllProper(rest)
    ensures AllProper(ListPieces(nodes, rest))
    decreases nodes, 1
  {
    if nodes != [] {
      ListProper(nodes[1..], rest);
      NodeProper(nodes[0], ListPieces(nodes[1..], rest));
    }
  }

  lemma {:induction false} NodeProper(n: Node, rest: Pieces)
    requires IsSource(n) && AllProper(rest)
    ensures AllProper(NodePieces(n, rest))
    decreases n, 1
  {
    if n.Leaf? {
      LeafProper(n.tag, n.action, n.key, n.line, rest);
    } else if n.Block? {
      AltProper(n.alt, rest);
      ListProper(n.body, AltPieces(n.alt, rest));
    } else if n.Define? {
      ListProper(n.body, Raw(TagBytes(n.end), rest));
    }
  }

  lemma {:induction false} AltProper(alt: Alt, rest: Pieces)
    requires IsSourceAlt(alt) && AllProper(rest)
    ensures AllProper(AltPieces(alt, rest))
    decreases alt, 1
  {
    match alt
    case NoElse(_) =>
    case Else(_, nodes, end) => ListProper(nodes, Raw(TagBytes(end), rest));
    case ElseIf(chain) => NodeProper(chain, rest);
  }

  predicate SplicesAll(raw: string, last: nat, pre: nat, points: seq<CoverPoint>, ps: Pieces)
    requires last <= pre <= |raw|
  {
    && SpliceAt(raw, last, points) == raw[last..pre] + Spliced(ps)
    && Placed(raw, last, points) == LocatedPoints(ps, pre)
  }

  predicate Marked(p: Pieces) {
    p.Point? && p.mark != ""
  }

  /** The pieces lie in the source from `pre` on. */
  predicate LieAt(raw: string, pre: nat, ps: Pieces) {
    pre <= |raw| && raw[pre..] == Bytes(ps)
  }

  lemma FirstLies(raw: string, last: nat, pre: nat, ps: Pieces)
    requires !ps.End? && LieAt(raw, pre, ps) && last <= pre
    ensures At(raw, pre, ps.bytes) && LieAt(raw, pre + |ps.bytes|, ps.rest)
    ensures raw[last..pre + |ps.bytes|] == raw[last..pre] + ps.bytes
  {
    Cut(raw, last, pre, ps.bytes, Bytes(ps.rest));
  }

  lemma RestLies(raw: string, pre: nat, ps: Pieces)
    requires !ps.End? && LieAt(raw, pre, ps)
    ensures LieAt(raw, pre + |ps.bytes|, ps.rest)
  {
    FirstLies(raw, pre, pre, ps);
  }

  lemma {:induction false} SpliceAtPieces(raw: string, pre: nat, last: nat, ps: Pieces)
    requires AllProper(ps) && LieAt(raw, pre, ps) && last <= pre
    ensures SplicesAll(raw, last, pre, Points(ps, pre), ps)
    decreases ps
  {
    if ps.End? {
      AllCopied(raw, last, pre);
    } else {
      var next := pre + |ps.bytes|;
      RestLies(raw, pre, ps);
      SpliceAtPieces(raw, next, if Marked(ps) then pre else last, ps.rest);
      PieceSpliced(raw, pre, last, ps);
    }
  }

  lemma PieceSpliced(raw: string, pre: nat, last: nat, ps: Pieces)
    requires !ps.End? && AllProper(ps) && LieAt(raw, pre, ps) && LieAt(raw, pre + |ps.bytes|, ps.rest) && last <= pre
    requires var next := pre + |ps.bytes|;
             SplicesAll(raw, if Marked(ps) then pre else last, next, Points(ps.rest, next), ps.rest)
    ensures SplicesAll(raw, last, pre, Points(ps, pre), ps)
  {
    var points := Points(ps.rest, pre + |ps.bytes|);
    match ps
    case Raw(_, _) =>
      RawSpliced(raw, pre, last, ps, points);
      assert Points(ps, pre) == points;
    case Point(_, offset, key, line, _, _) =>
      PointSpliced(raw, pre, last, ps, points);
      assert Points(ps, pre) == [CoverPoint(pre + offset, key, line)] + points;
  }

  lemma AllCopied(raw: string, last: nat, pre: nat)
    requires last <= pre && LieAt(raw, pre, End)
    ensures SplicesAll(raw, last, pre, [], End)
  {
    assert raw[last..] == raw[last..pre] + raw[pre..];
  }

  lemma RawSpliced(raw: string, pre: nat, last: nat, p: Pieces, points: seq<CoverPoint>)
    requires p.Raw? && last <= pre && LieAt(raw, pre, p) && LieAt(raw, pre + |p.bytes|, p.rest)
    requires SplicesAll(raw, last, pre + |p.bytes|, points, p.rest)
    ensures SplicesAll(raw, last, pre, points, p)
  {
    FirstLies(raw, last, pre, p);
    Regroup(raw[last..pre], p.bytes, Spliced(p.rest));
  }

  lemma PointSpliced(raw: string, pre: nat, last: nat, p: Pieces, points: seq<CoverPoint>)
    requires p.Point? && Proper(p) && last <= pre && LieAt(raw, pre, p) && LieAt(raw, pre + |p.bytes|, p.rest)
    requires SplicesAll(raw, if Marked(p) then pre else last, pre + |p.bytes|, points, p.rest)
    ensures SplicesAll(raw, last, pre, [CoverPoint(pre + p.offset, p.key, p.line)] + points, p)
  {
    if Marked(p) {
      MarkedSpliced(raw, pre, last, p, points);
    } else {
      UnmarkedSpliced(raw, pre, last, p, points);
    }
  }

  lemma MarkedSpliced(raw: string, pre: nat, last: nat, p: Pieces, points: seq<CoverPoint>)
    requires p.Point? && Proper(p) && Marked(p) && last <= pre && LieAt(raw, pre, p) && LieAt(raw, pre + |p.bytes|, p.rest)
    requires SplicesAll(raw, pre, pre + |p.bytes|, points, p.rest)
    ensures SplicesAll(raw, last, pre, [CoverPoint(pre + p.offset, p.key, p.line)] + points, p)
  {
    FirstLies(raw, last, pre, p);
    assert ScanFinds(raw, pre, p);
    Place(raw, pre, last, CoverPoint(pre + p.offset, p.key, p.line), p.mark, points);
    Regroup(raw[last..pre], p.mark, p.bytes + Spliced(p.rest));
  }

  lemma UnmarkedSpliced(raw: string, pre: nat, last: nat, p: Pieces, points: seq<CoverPoint>)
    requires p.Point? && Proper(p) && !Marked(p) && last <= pre && LieAt(raw, pre, p) && LieAt(raw, pre + |p.bytes|, p.rest)
    requires SplicesAll(raw, last, pre + |p.bytes|, points, p.rest)
    ensures SplicesAll(raw, last, pre, [CoverPoint(pre + p.offset, p.key, p.line)] + points, p)
  {
    FirstLies(raw, last, pre, p);
    assert ScanFinds(raw, pre, p);
    Skip(raw, last, CoverPoint(pre + p.offset, p.key, p.line), points);
    Regroup(raw[last..pre], p.bytes, Spliced(p.rest));
    assert "" + (p.bytes + Spliced(p.rest)) == p.bytes + Spliced(p.rest);
  }

  lemma Skip(raw: string, last: nat, p: CoverPoint, points: seq<CoverPoint>)
    requires last <= |raw| && OpenDelim(raw, p.pos) == None
    ensures SpliceAt(raw, last, [p] + points) == SpliceAt(raw, last, points)
    ensures Placed(raw, last, [p] + points) == Placed(raw, last, points)
  {
    assert ([p] + points)[1..] == points;
  }

  lemma Place(raw: string, pre: nat, last: nat, p: CoverPoint, mark: string, points: seq<CoverPoint>)
    requires last <= pre <= |raw|
    requires var d := OpenDelim(raw, p.pos);
             d.Some? && d.value.start == pre && mark == MarkerBytes(p.key, d.value.dashed)
    ensures SpliceAt(raw, last, [p] + points) == raw[last..pre] + mark + SpliceAt(raw, pre, points)
    ensures Placed(raw, last, [p] + points) == [p] + Placed(raw, pre, points)
  {
    assert ([p] + points)[1..] == points;
  }

  // ----- the instrumented bytes are those of the instrumented tree

  /** The second source, without looking for points, has the bytes of the first with its markers. */
  predicate SameBytes(source: Pieces, instrumented: Pieces) {
    Bytes(instrumented) == Spliced(source)
  }

  lemma {:induction false} ListBytes(nodes: seq<Node>, rest: Pieces, rest': Pieces)
    requires AreSource(nodes) && SameBytes(rest, rest')
    ensures SameBytes(ListPieces(nodes, rest), ListPieces(InstrumentList(nodes), rest'))
    decreases nodes, 1
  {
    if nodes != [] {
      var n, more := nodes[0], InstrumentList(nodes[1..]);
      ListBytes(nodes[1..], rest, rest');
      if n.Leaf? && Located(n.action) {
        MarkedBytes(n, more, rest');
        assert InstrumentList(nodes) == [Marker(n.key, n.tag.trimLeft)] + ([n] + more);
      } else {
        NodeBytes(n, ListPieces(nodes[1..], rest), ListPieces(more, rest'));
        assert InstrumentList(nodes) == [InstrumentNode(n)] + more;
        assert ([InstrumentNode(n)] + more)[1..] == more;
      }
    }
  }

  lemma MarkedBytes(n: Node, more: seq<Node>, rest: Pieces)
    requires n.Leaf?
    ensures ListPieces([Marker(n.key, n.tag.trimLeft)] + ([n] + more), rest) ==
            Raw(MarkerBytes(n.key, n.tag.trimLeft), LeafPiece(n.tag, n.action, n.key, n.line, ListPieces(more, rest)))
  {
    var mark := Marker(n.key, n.tag.trimLeft);
    assert ([n] + more)[1..] == more;
    assert ListPieces([n] + more, rest) == NodePieces(n, ListPieces(more, rest));
    assert ([mark] + ([n] + more))[1..] == [n] + more;
  }

  lemma {:induction false} NodeBytes(n: Node, rest: Pieces, rest': Pieces)
    requires IsSource(n) && SameBytes(rest, rest') && !(n.Leaf? && Located(n.action))
    ensures SameBytes(NodePieces(n, rest), NodePieces(InstrumentNode(n), rest'))
    decreases n, 1
  {
    if n.Leaf? {
      NoMark(LeafPiece(n.tag, n.action, n.key, n.line, rest), LeafPiece(n.tag, n.action, n.key, n.line, rest'));
    } else if n.Block? {
      AltBytes(n.alt, rest, rest');
      ListBytes(n.body, AltPieces(n.alt, rest), AltPieces(InstrumentAlt(n.alt), rest'));
    } else if n.Define? {
      ListBytes(n.body, Raw(TagBytes(n.end), rest), Raw(TagBytes(n.end), rest'));
    }
  }

  lemma NoMark(p: Pieces, p': Pieces)
    requires p.Point? && p.mark == "" && p'.Point? && p'.bytes == p.bytes && SameBytes(p.rest, p'.rest)
    ensures SameBytes(p, p')
  {
    assert "" + (p.bytes + Spliced(p.rest)) == p.bytes + Spliced(p.rest);
  }

  lemma {:induction false} AltBytes(alt: Alt, rest: Pieces, rest': Pieces)
    requires IsSourceAlt(alt) && SameBytes(rest, rest')
    ensures SameBytes(AltPieces(alt, rest), AltPieces(InstrumentAlt(alt), rest'))
    decreases alt, 1
  {
    match alt
    case NoElse(end) =>
    case Else(tag, nodes, end) => ListBytes(nodes, Raw(TagBytes(end), rest), Raw(TagBytes(end), rest'));
    case ElseIf(chain) => NodeBytes(chain, rest, rest');
  }

  // ----- the order of the points

  function InsertPoint(p: CoverPoint, points: seq<CoverPoint>): seq<CoverPoint> {
    if points == [] || p.pos <= points[0].pos then [p] + points else [points[0]] + InsertPoint(p, points[1..])
  }

  /** sort.Slice by position. */
  function SortPoints(points: seq<CoverPoint>): seq<CoverPoint> {
    if points == [] then [] else InsertPoint(points[0], SortPoints(points[1..]))
  }

  predicate Ascending(points: seq<CoverPoint>) {
    forall i, j :: 0 <= i < j < |points| ==> points[i].pos < points[j].pos
  }

  lemma AscendingTail(points: seq<CoverPoint>)
    requires Ascending(points) && points != []
    ensures Ascending(points[1..])
  {
  }

  lemma {:induction false} InsertAscending(p: CoverPoint, before: seq<CoverPoint>, after: seq<CoverPoint>)
    requires Ascending(before + [p] + after)
    ensures InsertPoint(p, before + after) == before + [p] + after
  {
    var all := before + [p] + after;
    if before == [] {
      assert before + after == after && all == [p] + after;
      assert after != [] ==> all[0].pos < all[1].pos;
    } else {
      AscendingTail(all);
      assert all[1..] == before[1..] + [p] + after;
      InsertAscending(p, before[1..], after);
      assert all[0] == before[0] && all[|before|] == p;
      assert (before + after)[1..] == before[1..] + after;
      assert all == [all[0]] + all[1..];
    }
  }

  lemma AscendingWithout(before: seq<CoverPoint>, p: CoverPoint, after: seq<CoverPoint>)
    requires Ascending(before + [p] + after)
    ensures Ascending(before + after)
  {
    var all, some := before + [p] + after, before + after;
    forall i, j | 0 <= i < j < |some|
      ensures some[i].pos < some[j].pos
    {
      var i', j' := if i < |before| then i else i + 1, if j < |before| then j else j + 1;
      assert some[i] == all[i'] && some[j] == all[j'];
    }
  }

  /** However the points were collected, sorting gives the one ascending order. */
  lemma {:induction false} SortedPoints(points: seq<CoverPoint>, ascending: seq<CoverPoint>)
    requires multiset(points) == multiset(ascending) && Ascending(ascending)
    ensures SortPoints(points) == ascending
    decreases |points|
  {
    if points == [] {
      assert |multiset(ascending)| == |multiset(points)|;
    } else {
      var p, rest := points[0], points[1..];
      var i := Find(ascending, p, points);
      var before, after := ascending[..i], ascending[i + 1..];
      assert ascending == before + [p] + after;
      AscendingWithout(before, p, after);
      assert points == [p] + rest;
      assert multiset(ascending) == multiset(rest + [p]);
      RemoveOne(ascending, i, rest);
      SortedPoints(rest, before + after);
      InsertAscending(p, before, after);
    }
  }

  lemma Find(ascending: seq<CoverPoint>, p: CoverPoint, points: seq<CoverPoint>) returns (i: nat)
    requires multiset(points) == multiset(ascending) && p in points
    ensures i < |ascending| && ascending[i] == p
  {
    SameElements(points, ascending);
    i :| 0 <= i < |ascending| && ascending[i] == p;
  }

  /** Every point lies inside its tag. */
  predicate InTags(ps: Pieces) {
    !ps.End? ==> InTags(ps.rest) && (ps.Point? ==> 0 < ps.offset <= |ps.bytes|)
  }

  lemma {:induction false} PointsAscend(ps: Pieces, base: nat)
    requires InTags(ps)
    ensures Ascending(Points(ps, base)) && forall i :: 0 <= i < |Points(ps, base)| ==> base < Points(ps, base)[i].pos
  {
    if !ps.End? {
      PointsAscend(ps.rest, base + |ps.bytes|);
      var rest := Points(ps.rest, base + |ps.bytes|);
      if ps.Point? {
        var all := Points(ps, base);
        assert all == [CoverPoint(base + ps.offset, ps.key, ps.line)] + rest;
        assert forall i :: 1 <= i < |all| ==> all[i] == rest[i - 1];
      }
    }
  }

  lemma {:induction false} ListInTags(nodes: seq<Node>, rest: Pieces)
    requires AreSource(nodes) && InTags(rest)
    ensures InTags(ListPieces(nodes, rest))
    decreases nodes, 1
  {
    if nodes != [] {
      ListInTags(nodes[1..], rest);
      NodeInTags(nodes[0], ListPieces(nodes[1..], rest));
    }
  }

  lemma {:induction false} NodeInTags(n: Node, rest: Pieces)
    requires IsSource(n) && InTags(rest)
    ensures InTags(NodePieces(n, rest))
    decreases n, 1
  {
    if n.Block? {
      AltInTags(n.alt, rest);
      ListInTags(n.body, AltPieces(n.alt, rest));
    } else if n.Define? {
      ListInTags(n.body, Raw(TagBytes(n.end), rest));
    }
  }

  lemma {:induction false} AltInTags(alt: Alt, rest: Pieces)
    requires IsSourceAlt(alt) && InTags(rest)
    ensures InTags(AltPieces(alt, rest))
    decreases alt, 1
  {
    match alt
    case NoElse(_) =>
    case Else(_, nodes, end) => ListInTags(nodes, Raw(TagBytes(end), rest));
    case ElseIf(chain) => NodeInTags(chain, rest);
  }

  // ----- the recorder

  /** The length of each line without its newline; nothing stands for line 0. */
  function LineLengths(raw: string): seq<nat> {
    [0] + Lengths(Split(raw, '\n'))
  }

  function Lengths(lines: seq<string>): seq<nat> {
    seq(|lines|, i requires 0 <= i < |lines| => |lines[i]|)
  }

  function LineLength(lengths: seq<nat>, line: nat): nat {
    if line < |lengths| then lengths[line] else 1
  }

  function Registered(hits: map<string, nat>, points: seq<CoverPoint>): map<string, nat>
    decreases |points|
  {
    if points == [] then hits
    else Registered(if points[0].key in hits then hits else hits[points[0].key := 0], points[1..])
  }

  function Measured(lineLen: map<string, nat>, points: seq<CoverPoint>, lengths: seq<nat>): map<string, nat>
    decreases |points|
  {
    if points == [] then lineLen
    else Measured(lineLen[points[0].key := LineLength(lengths, points[0].line)], points[1..], lengths)
  }

  function CountOf(hits: map<string, nat>, key: string): nat {
    if key in hits then hits[key] else 0
  }

  /** The counters after the markers of `keys` run, in that order. */
  function Recorded(hits: map<string, nat>, keys: seq<string>): map<string, nat>
    decreases |keys|
  {
    if keys == [] then hits
    else Recorded(hits[keys[0] := CountOf(hits, keys[0]) + 1], keys[1..])
  }

  class TemplateCoverageRecorder {
    var hits: map<string, nat>
    var lineLen: map<string, nat>

    constructor ()
      ensures hits == map[] && lineLen == map[]
    {
      hits, lineLen := map[], map[];
    }

    method Register(key: string, length: nat)
      modifies this
      ensures hits == if key in old(hits) then old(hits) else old(hits)[key := 0]
      ensures lineLen == old(lineLen)[key := length]
    {
      if key !in hits {
        hits := hits[key := 0];
      }
      lineLen := lineLen[key := length];
    }

    /** What the marker function does when a template runs. */
    method Hit(key: string) returns (text: string)
      modifies this
      ensures hits == Recorded(old(hits), [key]) && lineLen == old(lineLen) && text == ""
    {
      hits := hits[key := CountOf(hits, key) + 1];
      text := "";
    }

    /** The points come in whatever order they were collected. */
    method InstrumentTemplateSource(raw: string, collected: seq<CoverPoint>) returns (out: string)
      modifies this
      ensures var points := SortPoints(collected);
              && out == SpliceAt(raw, 0, points)
              && hits == Registered(old(hits), Placed(raw, 0, points))
              && lineLen == Measured(old(lineLen), Placed(raw, 0, points), LineLengths(raw))
    {
      var points := SortPoints(collected);
      var lineLens := LineLengths(raw);
      out := "";
      var last: nat := 0;
      assert points[0..] == points && out + SpliceAt(raw, 0, points) == SpliceAt(raw, 0, points);
      for n := 0 to |points|
        invariant last <= |raw|
        invariant out + SpliceAt(raw, last, points[n..]) == SpliceAt(raw, 0, points)
        invariant Registered(hits, Placed(raw, last, points[n..])) == Registered(old(hits), Placed(raw, 0, points))
        invariant Measured(lineLen, Placed(raw, last, points[n..]), lineLens) == Measured(old(lineLen), Placed(raw, 0, points), lineLens)
      {
        var p := points[n];
        assert points[n..][1..] == points[n + 1..];
        var d := FindOpenDelim(raw, p.pos);
        if d.None? || d.value.start < last {
          continue;
        }
        Register(p.key, LineLength(lineLens, p.line));
        Regroup(out, raw[last..d.value.start] + MarkerBytes(p.key, d.value.dashed), SpliceAt(raw, d.value.start, points[n + 1..]));
        out := out + (raw[last..d.value.start] + MarkerBytes(p.key, d.value.dashed));
        last := d.value.start;
      }
      out := out + raw[last..];
    }
  }

  lemma {:induction false} RegisteredKeeps(hits: map<string, nat>, points: seq<CoverPoint>)
    ensures Registered(hits, points).Keys == hits.Keys + (set p | p in points :: p.key)
    ensures forall k :: CountOf(Registered(hits, points), k) == CountOf(hits, k)
    decreases |points|
  {
    if points != [] {
      RegisteredKeeps(if points[0].key in hits then hits else hits[points[0].key := 0], points[1..]);
      assert forall p :: p in points <==> p == points[0] || p in points[1..];
    }
  }

  lemma {:induction false} RecordedCounts(hits: map<string, nat>, keys: seq<string>, key: string)
    ensures CountOf(Recorded(hits, keys), key) == CountOf(hits, key) + multiset(keys)[key]
    decreases |keys|
  {
    if keys != [] {
      RecordedCounts(hits[keys[0] := CountOf(hits, keys[0]) + 1], keys[1..], key);
      assert keys == [keys[0]] + keys[1..];
    }
  }

  // ----- the whole transformation

  /**
    One file: splicing at the points the parser reports, collected in any order, gives the bytes of the
    tree with markers; a marker is placed for every located statement and no other; and erasing the
    markers gives the file back.
   */
  lemma FileSpliced(nodes: seq<Node>, collected: seq<CoverPoint>)
    requires AreSource(nodes) && multiset(collected) == multiset(Points(Source(nodes), 0))
    ensures var raw := Bytes(Source(nodes));
            && SpliceAt(raw, 0, SortPoints(collected)) == Bytes(Source(InstrumentList(nodes)))
            && Placed(raw, 0, SortPoints(collected)) == LocatedPoints(Source(nodes), 0)
    ensures EraseList(InstrumentList(nodes)) == nodes
  {
    var ps := Source(nodes);
    var raw := Bytes(ps);
    ListInTags(nodes, End);
    PointsAscend(ps, 0);
    SortedPoints(collected, Points(ps, 0));
    assert raw[0..] == raw;
    ListProper(nodes, End);
    SpliceAtPieces(raw, 0, 0, ps);
    assert raw[0..0] + Spliced(ps) == Spliced(ps);
    ListBytes(nodes, End, End);
    ErasedList(nodes);
  }

  /**
    All files: for every meaning of their statements and any template of theirs, the instrumented files
    render the same text, leave the same world and end the same way, through every {{template}} call and
    every include; and each counter grows by the number of times a located statement with its key is
    reached, in that template and all it calls and includes.
   */
  lemma InstrumentationIsTransparent<W>(
      sem: Semantics<W>, files: seq<File>, name: string, w: W, fuel: nat, before: map<string, nat>, key: string)
    requires forall i :: 0 <= i < |files| ==> AreSource(files[i].nodes)
    ensures var plain, marked := Execute(sem, TableOf(files), name, w, fuel), Execute(sem, TableOf(InstrumentFiles(files)), name, w, fuel);
            && marked.text == plain.text && marked.world == plain.world && marked.signal == plain.signal
            && CountOf(Recorded(before, marked.hits), key) == CountOf(before, key) + multiset(plain.reached)[key]
  {
    TableOfInstrumented(files);
    InstrumentedTemplate(sem, TableOf(files), name, w, fuel);
    RecordedCounts(before, Execute(sem, TableOf(InstrumentFiles(files)), name, w, fuel).hits, key);
  }
}
