/**
 The generated region of an integration file: creation, merging, and the laws that make the merge a
 lens between the user's file and the generator's render.
 */
module Region {
  import opened Digests

  datatype MergeSpec = MergeSpec(strategy: string, regionId: string, commentPrefix: string)

  // ---------------------------------------------------------------- byte searches

  predicate OccursAt(s: Bytes, token: Bytes, i: int) {
    0 <= i && i + |token| <= |s| && s[i..i + |token|] == token
  }

  predicate Occurs(s: Bytes, token: Bytes) {
    exists i | 0 <= i <= |s| :: OccursAt(s, token, i)
  }

  /** First occurrence at or after `from`, or -1. */
  function IndexFrom(s: Bytes, token: Bytes, from: nat): (r: int)
    ensures r == -1 || (from <= r && OccursAt(s, token, r))
    ensures forall i :: from <= i && OccursAt(s, token, i) ==> 0 <= r <= i
    decreases |s| - from
  {
    if from + |token| > |s| then -1
    else if OccursAt(s, token, from) then from
    else IndexFrom(s, token, from + 1)
  }

  /** Number of non-overlapping occurrences, scanning from the left. */
  function CountFrom(s: Bytes, token: Bytes, from: nat): nat
    requires token != ""
    decreases |s| - from
  {
    var i := IndexFrom(s, token, from);
    if i < 0 || i + |token| > |s| then 0 else 1 + CountFrom(s, token, i + |token|)
  }

  // ---------------------------------------------------------------- merge specification and markers

  predicate IdentifierChar(c: char) {
    'a' <= c <= 'z' || '0' <= c <= '9'
  }

  /** A lower-case identifier whose words are separated by single '.', '_' or '-'. */
  predicate StableIdentifier(s: string) {
    s != "" && 'a' <= s[0] <= 'z' && IdentifierChar(s[|s| - 1]) &&
    forall i | 0 <= i < |s| ::
      IdentifierChar(s[i]) || (s[i] in "._-" && 0 < i && IdentifierChar(s[i - 1]))
  }

  predicate ValidMergeSpec(merge: Option<MergeSpec>) {
    merge.Some? && merge.value.strategy == "generated_region_v1" && StableIdentifier(merge.value.regionId) &&
    (merge.value.commentPrefix == "//" || merge.value.commentPrefix == "#")
  }

  function BeginMarker(m: MergeSpec): Bytes {
    m.commentPrefix + " <platform-generated:" + m.regionId + ">"
  }

  function EndMarker(m: MergeSpec): Bytes {
    m.commentPrefix + " </platform-generated:" + m.regionId + ">"
  }

  // ---------------------------------------------------------------- text normalisation

  function ReplaceAll(s: Bytes, old_: Bytes, new_: Bytes): Bytes
    requires old_ != ""
    decreases |s|
  {
    if s == "" then ""
    else if OccursAt(s, old_, 0) then new_ + ReplaceAll(s[|old_|..], old_, new_)
    else [s[0]] + ReplaceAll(s[1..], old_, new_)
  }

  function NormalizeText(s: Bytes): Bytes {
    ReplaceAll(ReplaceAll(s, "\r\n", "\n"), "\r", "\n")
  }

  function NormalizedRegionBody(s: Bytes): Bytes {
    var v := NormalizeText(s);
    if v == "" || v[|v| - 1] != '\n' then v + "\n" else v
  }

  // ---------------------------------------------------------------- creating and merging

  datatype NewRegion = NewRejected | NewFile(file: Bytes, generated: Digest)

  datatype Merged = MergeRejected | Merged(file: Bytes, current: Digest, generated: Digest)

  function CreateIntegrationFile(rendered: Bytes, merge: Option<MergeSpec>): NewRegion {
    if !ValidMergeSpec(merge) then NewRejected
    else
      var body := NormalizedRegionBody(rendered);
      NewFile(BeginMarker(merge.value) + "\n" + body + EndMarker(merge.value) + "\n", Sha256(body))
  }

  predicate LineBoundaryBefore(s: Bytes, i: nat)
    requires i <= |s|
  {
    i == 0 || s[i - 1] == '\n'
  }

  predicate LineBoundaryAfter(s: Bytes, i: nat)
    requires i <= |s|
  {
    i == |s| || s[i] == '\n' || s[i] == '\r'
  }

  /** Index just after the line ending at `i`, or -1. */
  function AfterLineEnding(s: Bytes, i: nat): (r: int)
    requires i <= |s|
    ensures r <= |s|
  {
    if i == |s| then i
    else if s[i] == '\n' then i + 1
    else if s[i] == '\r' && i + 1 < |s| && s[i + 1] == '\n' then i + 2
    else -1
  }

  function MergeIntegrationRegion(current: Bytes, rendered: Bytes, merge: Option<MergeSpec>): Merged {
    if !ValidMergeSpec(merge) then MergeRejected
    else MergeBetween(current, rendered, BeginMarker(merge.value), EndMarker(merge.value))
  }

  function MergeBetween(current: Bytes, rendered: Bytes, begin: Bytes, end: Bytes): Merged
    requires begin != "" && end != ""
  {
    if CountFrom(current, begin, 0) != 1 || CountFrom(current, end, 0) != 1 then MergeRejected
    else
      var beginAt, endAt := IndexFrom(current, begin, 0), IndexFrom(current, end, 0);
      if beginAt < 0 || endAt <= beginAt ||
         !LineBoundaryBefore(current, beginAt) || !LineBoundaryAfter(current, beginAt + |begin|) ||
         !LineBoundaryBefore(current, endAt) || !LineBoundaryAfter(current, endAt + |end|) then MergeRejected
      else
        var bodyStart := AfterLineEnding(current, beginAt + |begin|);
        if bodyStart < 0 || bodyStart > endAt then MergeRejected
        else
          var body := NormalizedRegionBody(rendered);
          Merged(current[..bodyStart] + body + current[endAt..], Sha256(current[bodyStart..endAt]), Sha256(body))
  }

  // ---------------------------------------------------------------- the abstract document

  /** A file as the user sees it: text before the region, the begin line's ending, the region, text after it. */
  datatype Doc = Doc(prefix: Bytes, eol: Bytes, body: Bytes, suffix: Bytes)

  function Unparse(d: Doc, begin: Bytes, end: Bytes): Bytes {
    d.prefix + begin + d.eol + d.body + end + d.suffix
  }

  function BodyAt(d: Doc, begin: Bytes): nat { |d.prefix| + |begin| + |d.eol| }

  function EndAt(d: Doc, begin: Bytes): nat { BodyAt(d, begin) + |d.body| }

  /** Both markers stand on lines of their own. */
  predicate WellShaped(d: Doc) {
    EndsLine(d.prefix) && EndsLine(d.body) && (d.eol == "\n" || d.eol == "\r\n") &&
    (d.suffix == "" || d.suffix[0] == '\n' || d.suffix[0] == '\r')
  }

  predicate EndsLine(s: Bytes) {
    s == "" || s[|s| - 1] == '\n'
  }

  predicate MarkerFree(s: Bytes, begin: Bytes, end: Bytes) {
    !Occurs(s, begin) && !Occurs(s, end)
  }

  /** `file` is well-shaped around exactly one region, namely `d`. */
  predicate Carries(file: Bytes, begin: Bytes, end: Bytes, d: Doc) {
    WellShaped(d) && MarkerFree(d.prefix, begin, end) && MarkerFree(d.body, begin, end) &&
    MarkerFree(d.suffix, begin, end) && file == Unparse(d, begin, end)
  }

  // ---------------------------------------------------------------- markers do not overlap or straddle lines

  /** A marker text: one line, closed by its only '>'. */
  predicate Token(t: Bytes) {
    |t| >= 3 && t[|t| - 1] == '>' && forall i | 0 <= i < |t| ::
      t[i] != '\n' && t[i] != '\r' && (t[i] == '>' ==> i == |t| - 1)
  }

  ghost predicate Markers(begin: Bytes, end: Bytes) {
    Token(begin) && Token(end) && forall i :: !OccursAt(end, begin, i) && !OccursAt(begin, end, i)
  }

  /** The characters of an occurrence, by position in the text. */
  lemma CharsOf(s: Bytes, token: Bytes, i: int)
    requires OccursAt(s, token, i)
    ensures forall p {:trigger s[p]} | i <= p < i + |token| :: s[p] == token[p - i]
  {
    forall p | i <= p < i + |token|
      ensures s[p] == token[p - i]
    {
      assert s[i..i + |token|][p - i] == s[p];
    }
  }

  predicate Plain(c: char) { c != '>' && c != '\n' && c != '\r' }

  lemma TokenOf(head: Bytes, id: Bytes)
    requires forall c | c in head + id :: Plain(c)
    requires |head| >= 2
    ensures Token(head + id + ">")
  {
    var t := head + id + ">";
    forall i | 0 <= i < |t| - 1
      ensures Plain(t[i])
    {
      assert t[i] == (head + id)[i];
    }
  }

  lemma SpecTokens(m: MergeSpec)
    requires ValidMergeSpec(Some(m))
    ensures Token(BeginMarker(m)) && Token(EndMarker(m))
  {
    var id := m.regionId;
    forall c | c in id
      ensures Plain(c)
    {
      var i :| 0 <= i < |id| && id[i] == c;
      assert IdentifierChar(id[i]) || id[i] in "._-";
    }
    var b, e := m.commentPrefix + " <platform-generated:", m.commentPrefix + " </platform-generated:";
    assert forall c | c in m.commentPrefix :: Plain(c);
    assert forall c | c in " <platform-generated:" :: Plain(c);
    assert forall c | c in " </platform-generated:" :: Plain(c);
    TokenOf(b, id);
    TokenOf(e, id);
  }

  lemma SpecMarkers(m: MergeSpec)
    requires ValidMergeSpec(Some(m))
    ensures Markers(BeginMarker(m), EndMarker(m))
  {
    SpecTokens(m);
    var begin, end, c := BeginMarker(m), EndMarker(m), |m.commentPrefix|;
    assert begin[c] == ' ' && begin[c + 1] == '<' && begin[c + 2] == 'p';
    assert end[c - 1] == begin[c - 1] && end[c] == ' ' && end[c + 1] == '<' && end[c + 2] == '/';
    assert |end| == |begin| + 1;
    forall i
      ensures !OccursAt(end, begin, i)
    {
      NoShift(begin, end, c, i);
    }
  }

  lemma NoShift(begin: Bytes, end: Bytes, c: nat, i: int)
    requires 1 <= c <= 2 && |end| == |begin| + 1 && |begin| > c + 2
    requires begin[c] == ' ' && begin[c + 2] == 'p'
    requires end[c + 1] == '<' && end[c + 2] == '/'
    ensures !OccursAt(end, begin, i)
  {
    if OccursAt(end, begin, i) {
      var a, b := end[c + 1], end[c + 2];
      CharsOf(end, begin, i);
    }
  }

  /** Two occurrences of a marker in one text are disjoint. */
  lemma TokensDisjoint(s: Bytes, token: Bytes, i: int, j: int)
    requires Token(token) && OccursAt(s, token, i) && OccursAt(s, token, j) && i < j
    ensures i + |token| <= j
  {
    var last := i + |token| - 1;
    var c := s[last];
    CharsOf(s, token, i);
    CharsOf(s, token, j);
  }

  /** The scanning count is one exactly when there is exactly one occurrence. */
  lemma CountIsOne(s: Bytes, token: Bytes)
    requires Token(token)
    ensures CountFrom(s, token, 0) == 1 <==>
            IndexFrom(s, token, 0) >= 0 && forall j :: OccursAt(s, token, j) ==> j == IndexFrom(s, token, 0)
  {
    var i := IndexFrom(s, token, 0);
    if i >= 0 {
      var j := IndexFrom(s, token, i + |token|);
      forall k | OccursAt(s, token, k) && k != i
        ensures j >= 0
      {
        TokensDisjoint(s, token, i, k);
      }
    }
  }

  /** A marker that occurs in a text cut at a line break occurs on one side of the cut. */
  lemma CutAtBreak(left: Bytes, right: Bytes, token: Bytes, i: int)
    requires Token(token) && OccursAt(left + right, token, i)
    requires EndsLine(left) || right == "" || right[0] == '\n' || right[0] == '\r'
    ensures OccursAt(left, token, i) || OccursAt(right, token, i - |left|)
  {
    var s := left + right;
    var before, after := if left == "" then '\n' else s[|left| - 1], if right == "" then '\n' else s[|left|];
    CharsOf(s, token, i);
    if i + |token| <= |left| {
      assert s[i..i + |token|] == left[i..i + |token|];
    } else if |left| <= i {
      assert s[i..i + |token|] == right[i - |left|..i - |left| + |token|];
    }
  }

  /** In the tail `marker line, rest`, a token that the rest lacks can only be the marker itself, at the start. */
  lemma AtMarkerLine(marker: Bytes, rest: Bytes, token: Bytes, i: int)
    requires Token(marker) && Token(token) && OccursAt(marker + rest, token, i)
    requires rest == "" || rest[0] == '\n' || rest[0] == '\r'
    requires token == marker || forall j :: !OccursAt(marker, token, j)
    ensures (token == marker && i == 0) || OccursAt(rest, token, i - |marker|)
  {
    CutAtBreak(marker, rest, token, i);
  }

  lemma InTail(d: Doc, begin: Bytes, end: Bytes, token: Bytes, i: int)
    requires Markers(begin, end) && (token == begin || token == end)
    requires WellShaped(d) && MarkerFree(d.body, begin, end) && MarkerFree(d.suffix, begin, end)
    requires OccursAt(Tail(d, end), token, i)
    ensures token == end && i == |d.eol| + |d.body|
  {
    CutAtBreak(d.eol, d.body + (end + d.suffix), token, i);
    assert !OccursAt(d.eol, token, i);
    var j := i - |d.eol|;
    CutAtBreak(d.body, end + d.suffix, token, j);
    assert !OccursAt(d.body, token, j);
    AtMarkerLine(end, d.suffix, token, j - |d.body|);
    assert !OccursAt(d.suffix, token, j - |d.body| - |end|);
  }

  /** In a carried document each marker occurs once, at its own place. */
  lemma OnlyOwnPlace(d: Doc, begin: Bytes, end: Bytes, token: Bytes, i: int)
    requires Markers(begin, end) && (token == begin || token == end)
    requires Carries(Unparse(d, begin, end), begin, end, d) && OccursAt(Unparse(d, begin, end), token, i)
    ensures (token == begin && i == |d.prefix|) || (token == end && i == EndAt(d, begin))
  {
    var tail := Tail(d, end);
    UnparseTail(d, begin, end);
    CutAtBreak(d.prefix, begin + tail, token, i);
    assert !OccursAt(d.prefix, token, i);
    var j := i - |d.prefix|;
    AtMarkerLine(begin, tail, token, j);
    if OccursAt(tail, token, j - |begin|) {
      InTail(d, begin, end, token, j - |begin|);
    }
  }

  function Tail(d: Doc, end: Bytes): Bytes {
    d.eol + (d.body + (end + d.suffix))
  }

  lemma UnparseTail(d: Doc, begin: Bytes, end: Bytes)
    ensures Unparse(d, begin, end) == d.prefix + (begin + Tail(d, end))
    ensures WellShaped(d) ==> Tail(d, end) != "" && Tail(d, end)[0] == d.eol[0]
  {
  }

  /** Where everything stands in the bytes of a document. */
  lemma Layout(d: Doc, begin: Bytes, end: Bytes)
    requires WellShaped(d)
    ensures var s := Unparse(d, begin, end);
            var b, e := BodyAt(d, begin), EndAt(d, begin);
            |s| == e + |end| + |d.suffix| &&
            s[..|d.prefix|] == d.prefix && s[..b] == d.prefix + begin + d.eol &&
            s[b..e] == d.body && s[e..] == end + d.suffix && s[e + |end|..] == d.suffix &&
            s[|d.prefix|..|d.prefix| + |begin|] == begin && s[|d.prefix| + |begin|..b] == d.eol &&
            s[e..e + |end|] == end
  {
  }

  lemma MarkersFound(d: Doc, begin: Bytes, end: Bytes)
    requires Markers(begin, end) && Carries(Unparse(d, begin, end), begin, end, d)
    ensures var s := Unparse(d, begin, end);
            CountFrom(s, begin, 0) == 1 && CountFrom(s, end, 0) == 1 &&
            IndexFrom(s, begin, 0) == |d.prefix| && IndexFrom(s, end, 0) == EndAt(d, begin)
  {
    var s := Unparse(d, begin, end);
    Layout(d, begin, end);
    assert OccursAt(s, begin, |d.prefix|) && OccursAt(s, end, EndAt(d, begin));
    forall token, i | (token == begin || token == end) && OccursAt(s, token, i)
      ensures (token == begin && i == |d.prefix|) || (token == end && i == EndAt(d, begin))
    {
      OnlyOwnPlace(d, begin, end, token, i);
    }
    assert !OccursAt(end, begin, 0);
    CountIsOne(s, begin);
    CountIsOne(s, end);
  }

  // ---------------------------------------------------------------- what the merge accepts and returns

  /** What the merge reads off its input when it succeeds, and what it then returns. */
  ghost predicate Accepts(s: Bytes, begin: Bytes, end: Bytes, beginAt: nat, bodyStart: nat, endAt: nat)
    requires begin != "" && end != ""
  {
    CountFrom(s, begin, 0) == 1 && CountFrom(s, end, 0) == 1 &&
    IndexFrom(s, begin, 0) == beginAt && IndexFrom(s, end, 0) == endAt && beginAt < endAt &&
    beginAt + |begin| <= |s| && endAt + |end| <= |s| &&
    LineBoundaryBefore(s, beginAt) && LineBoundaryAfter(s, beginAt + |begin|) &&
    LineBoundaryBefore(s, endAt) && LineBoundaryAfter(s, endAt + |end|) &&
    AfterLineEnding(s, beginAt + |begin|) == bodyStart <= endAt
  }

  lemma MergeWhenAccepted(s: Bytes, rendered: Bytes, begin: Bytes, end: Bytes, beginAt: nat, bodyStart: nat, endAt: nat)
    requires begin != "" && end != "" && Accepts(s, begin, end, beginAt, bodyStart, endAt)
    ensures MergeBetween(s, rendered, begin, end) ==
            Merged(s[..bodyStart] + NormalizedRegionBody(rendered) + s[endAt..], Sha256(s[bodyStart..endAt]), Sha256(NormalizedRegionBody(rendered)))
  {
  }

  lemma AcceptedWhenMerged(s: Bytes, rendered: Bytes, begin: Bytes, end: Bytes) returns (beginAt: nat, bodyStart: nat, endAt: nat)
    requires begin != "" && end != "" && MergeBetween(s, rendered, begin, end).Merged?
    ensures Accepts(s, begin, end, beginAt, bodyStart, endAt)
  {
    beginAt, endAt := IndexFrom(s, begin, 0), IndexFrom(s, end, 0);
    bodyStart := AfterLineEnding(s, beginAt + |begin|);
  }

  lemma Reassemble(d: Doc, begin: Bytes, end: Bytes, body: Bytes)
    requires WellShaped(d)
    ensures var s := Unparse(d, begin, end);
            s[..BodyAt(d, begin)] + body + s[EndAt(d, begin)..] == Unparse(d.(body := body), begin, end)
  {
    Layout(d, begin, end);
  }

  /** On a carried document the merge succeeds and replaces the body only. */
  lemma MergeOfCarried(d: Doc, begin: Bytes, end: Bytes, rendered: Bytes)
    requires Markers(begin, end) && Carries(Unparse(d, begin, end), begin, end, d)
    ensures MergeBetween(Unparse(d, begin, end), rendered, begin, end) ==
            Merged(Unparse(d.(body := NormalizedRegionBody(rendered)), begin, end),
                   Sha256(d.body), Sha256(NormalizedRegionBody(rendered)))
  {
    CarriedAccepted(d, begin, end);
    MergeWhenAccepted(Unparse(d, begin, end), rendered, begin, end, |d.prefix|, BodyAt(d, begin), EndAt(d, begin));
    Reassemble(d, begin, end, NormalizedRegionBody(rendered));
    Layout(d, begin, end);
  }

  lemma CarriedAccepted(d: Doc, begin: Bytes, end: Bytes)
    requires Markers(begin, end) && Carries(Unparse(d, begin, end), begin, end, d)
    ensures Accepts(Unparse(d, begin, end), begin, end, |d.prefix|, BodyAt(d, begin), EndAt(d, begin))
  {
    MarkersFound(d, begin, end);
    Boundaries(d, begin, end);
  }

  lemma Boundaries(d: Doc, begin: Bytes, end: Bytes)
    requires WellShaped(d)
    ensures var s := Unparse(d, begin, end);
            LineBoundaryBefore(s, |d.prefix|) && LineBoundaryAfter(s, |d.prefix| + |begin|) &&
            LineBoundaryBefore(s, EndAt(d, begin)) && LineBoundaryAfter(s, EndAt(d, begin) + |end|) &&
            AfterLineEnding(s, |d.prefix| + |begin|) == BodyAt(d, begin)
  {
    var s, a, b, e := Unparse(d, begin, end), |d.prefix| + |begin|, BodyAt(d, begin), EndAt(d, begin);
    assert |d.prefix| > 0 ==> s[|d.prefix| - 1] == d.prefix[|d.prefix| - 1];
    assert s[a] == d.eol[0] && s[b - 1] == d.eol[|d.eol| - 1];
    assert d.body != "" ==> s[e - 1] == d.body[|d.body| - 1];
    assert d.suffix != "" ==> s[e + |end|] == d.suffix[0];
  }

  function DocAt(s: Bytes, begin: Bytes, end: Bytes, beginAt: nat, bodyStart: nat, endAt: nat): Doc
    requires beginAt + |begin| <= bodyStart <= endAt && endAt + |end| <= |s|
  {
    Doc(s[..beginAt], s[beginAt + |begin|..bodyStart], s[bodyStart..endAt], s[endAt + |end|..])
  }

  /** Whatever the merge accepts is a carried document. */
  lemma AcceptedIsCarried(s: Bytes, begin: Bytes, end: Bytes, rendered: Bytes) returns (d: Doc)
    requires Markers(begin, end) && MergeBetween(s, rendered, begin, end).Merged?
    ensures Carries(s, begin, end, d)
  {
    var beginAt, bodyStart, endAt := AcceptedWhenMerged(s, rendered, begin, end);
    OnlyOccurrences(s, begin, end, beginAt, bodyStart, endAt);
    InOrder(s, begin, end, beginAt, bodyStart, endAt);
    d := DocAt(s, begin, end, beginAt, bodyStart, endAt);
    CarriedWhereFound(s, begin, end, beginAt, bodyStart, endAt);
  }

  lemma OnlyOccurrences(s: Bytes, begin: Bytes, end: Bytes, beginAt: nat, bodyStart: nat, endAt: nat)
    requires Markers(begin, end) && Accepts(s, begin, end, beginAt, bodyStart, endAt)
    ensures OccursAt(s, begin, beginAt) && OccursAt(s, end, endAt)
    ensures forall i :: OccursAt(s, begin, i) ==> i == beginAt
    ensures forall i :: OccursAt(s, end, i) ==> i == endAt
  {
    CountIsOne(s, begin);
    CountIsOne(s, end);
  }

  lemma CarriedWhereFound(s: Bytes, begin: Bytes, end: Bytes, beginAt: nat, bodyStart: nat, endAt: nat)
    requires Token(begin) && Token(end) && OccursAt(s, begin, beginAt) && OccursAt(s, end, endAt)
    requires forall i :: OccursAt(s, begin, i) ==> i == beginAt
    requires forall i :: OccursAt(s, end, i) ==> i == endAt
    requires beginAt + |begin| <= bodyStart <= endAt && AfterLineEnding(s, beginAt + |begin|) == bodyStart
    requires LineBoundaryBefore(s, beginAt) && LineBoundaryBefore(s, endAt) && LineBoundaryAfter(s, endAt + |end|)
    requires beginAt + |begin| < |s|
    ensures Carries(s, begin, end, DocAt(s, begin, end, beginAt, bodyStart, endAt))
  {
    DocAtShape(s, begin, end, beginAt, bodyStart, endAt);
    SliceMarkerFree(s, begin, end, beginAt, endAt, 0, beginAt);
    SliceMarkerFree(s, begin, end, beginAt, endAt, bodyStart, endAt);
    SliceMarkerFree(s, begin, end, beginAt, endAt, endAt + |end|, |s|);
  }

  lemma InOrder(s: Bytes, begin: Bytes, end: Bytes, beginAt: nat, bodyStart: nat, endAt: nat)
    requires Markers(begin, end) && Accepts(s, begin, end, beginAt, bodyStart, endAt)
    ensures beginAt + |begin| <= bodyStart && beginAt + |begin| < |s|
  {
  }

  lemma DocAtShape(s: Bytes, begin: Bytes, end: Bytes, beginAt: nat, bodyStart: nat, endAt: nat)
    requires OccursAt(s, begin, beginAt) && OccursAt(s, end, endAt)
    requires beginAt + |begin| <= endAt && AfterLineEnding(s, beginAt + |begin|) == bodyStart <= endAt
    requires LineBoundaryBefore(s, beginAt) && LineBoundaryBefore(s, endAt) && LineBoundaryAfter(s, endAt + |end|)
    requires beginAt + |begin| < |s|
    ensures var d := DocAt(s, begin, end, beginAt, bodyStart, endAt);
            WellShaped(d) && s == Unparse(d, begin, end) &&
            d.prefix == s[0..beginAt] && d.body == s[bodyStart..endAt] && d.suffix == s[endAt + |end|..|s|]
  {
    DocAtWhole(s, begin, end, beginAt, bodyStart, endAt);
  }

  /** The parts put together again are the file. */
  lemma DocAtWhole(s: Bytes, begin: Bytes, end: Bytes, beginAt: nat, bodyStart: nat, endAt: nat)
    requires OccursAt(s, begin, beginAt) && OccursAt(s, end, endAt) && beginAt + |begin| <= bodyStart <= endAt
    ensures s == Unparse(DocAt(s, begin, end, beginAt, bodyStart, endAt), begin, end)
  {
    assert s == s[..beginAt] + s[beginAt..beginAt + |begin|] + s[beginAt + |begin|..bodyStart] + s[bodyStart..endAt] +
                s[endAt..endAt + |end|] + s[endAt + |end|..];
  }

  lemma SliceMarkerFree(s: Bytes, begin: Bytes, end: Bytes, beginAt: int, endAt: int, lo: nat, hi: nat)
    requires lo <= hi <= |s| && Token(begin) && Token(end)
    requires forall i :: OccursAt(s, begin, i) ==> i == beginAt
    requires forall i :: OccursAt(s, end, i) ==> i == endAt
    requires !(lo <= beginAt && beginAt + |begin| <= hi) && !(lo <= endAt && endAt + |end| <= hi)
    ensures MarkerFree(s[lo..hi], begin, end)
  {
    forall token, i | (token == begin || token == end) && OccursAt(s[lo..hi], token, i)
      ensures OccursAt(s, token, lo + i)
    {
      OccursInSlice(s, lo, hi, token, i);
    }
  }

  lemma OccursInSlice(s: Bytes, lo: nat, hi: nat, token: Bytes, i: int)
    requires lo <= hi <= |s| && OccursAt(s[lo..hi], token, i)
    ensures OccursAt(s, token, lo + i)
  {
    var t := s[lo..hi];
    CharsOf(t, token, i);
    forall k | 0 <= k < |token|
      ensures s[lo + i + k] == token[k]
    {
      assert t[i + k] == s[lo + i + k];
    }
  }

  /** A file carries at most one document. */
  lemma CarriedUnique(file: Bytes, begin: Bytes, end: Bytes, d: Doc, e: Doc)
    requires Markers(begin, end) && Carries(file, begin, end, d) && Carries(file, begin, end, e)
    ensures d == e
  {
    MarkersFound(d, begin, end);
    MarkersFound(e, begin, end);
    Layout(d, begin, end);
    Layout(e, begin, end);
    Boundaries(d, begin, end);
    Boundaries(e, begin, end);
  }

  /** The merge accepts exactly the files that carry one well-shaped region. */
  lemma MergeAcceptsExactly(current: Bytes, m: MergeSpec, rendered: Bytes)
    requires ValidMergeSpec(Some(m))
    ensures MergeIntegrationRegion(current, rendered, Some(m)).Merged? <==>
            exists d :: Carries(current, BeginMarker(m), EndMarker(m), d)
  {
    SpecMarkers(m);
    var begin, end := BeginMarker(m), EndMarker(m);
    if MergeBetween(current, rendered, begin, end).Merged? {
      var d := AcceptedIsCarried(current, begin, end, rendered);
    }
    if d :| Carries(current, begin, end, d) {
      MergeOfCarried(d, begin, end, rendered);
    }
  }

  /** The file carries one well-shaped region, whose body has this digest. */
  ghost predicate RegionHolds(file: Bytes, m: MergeSpec, sha: Digest) {
    ValidMergeSpec(Some(m)) && exists d :: Carries(file, BeginMarker(m), EndMarker(m), d) && Sha256(d.body) == sha
  }

  /** Whatever is merged in, the merge succeeds and reports this digest exactly if the region holds it. */
  lemma RegionHoldsExactly(file: Bytes, m: MergeSpec, rendered: Bytes, sha: Digest)
    ensures var merged := MergeIntegrationRegion(file, rendered, Some(m));
            merged.Merged? && merged.current == sha <==> RegionHolds(file, m, sha)
  {
    if ValidMergeSpec(Some(m)) {
      SpecMarkers(m);
      var begin, end := BeginMarker(m), EndMarker(m);
      if MergeBetween(file, rendered, begin, end).Merged? {
        var d := AcceptedIsCarried(file, begin, end, rendered);
        MergeOfCarried(d, begin, end, rendered);
      }
      if d :| Carries(file, begin, end, d) && Sha256(d.body) == sha {
        MergeOfCarried(d, begin, end, rendered);
      }
    }
  }

  // ---------------------------------------------------------------- normalised bodies

  lemma {:induction false} ReplaceKeepsPrefix(s: Bytes, old_: Bytes, token: Bytes)
    requires old_ != ""
    requires forall k | 0 <= k < |token| :: token[k] != '\n'
    requires OccursAt(ReplaceAll(s, old_, "\n"), token, 0)
    ensures OccursAt(s, token, 0)
    decreases |s|
  {
    if token != "" {
      var out := ReplaceAll(s, old_, "\n");
      assert out[0] == token[0];
      assert out[1..][..|token| - 1] == token[1..];
      ReplaceKeepsPrefix(s[1..], old_, token[1..]);
      assert s[..|token|] == [s[0]] + s[1..][..|token| - 1];
      assert token == [token[0]] + token[1..];
    }
  }

  /** Replacing line breaks by line breaks does not create an occurrence of a token without line breaks. */
  lemma {:induction false} ReplaceAddsNoToken(s: Bytes, old_: Bytes, token: Bytes, i: int)
    requires old_ != "" && token != ""
    requires forall k | 0 <= k < |token| :: token[k] != '\n'
    requires OccursAt(ReplaceAll(s, old_, "\n"), token, i)
    ensures Occurs(s, token)
    decreases |s|
  {
    var out := ReplaceAll(s, old_, "\n");
    if i == 0 {
      ReplaceKeepsPrefix(s, old_, token);
    } else {
      var skip := if OccursAt(s, old_, 0) then |old_| else 1;
      assert out[1..] == ReplaceAll(s[skip..], old_, "\n");
      assert out[1..][i - 1..i - 1 + |token|] == out[i..i + |token|];
      ReplaceAddsNoToken(s[skip..], old_, token, i - 1);
      var j :| 0 <= j <= |s[skip..]| && OccursAt(s[skip..], token, j);
      assert s[skip..][j..j + |token|] == s[skip + j..skip + j + |token|];
      assert OccursAt(s, token, skip + j);
    }
  }

  lemma NormalizedMarkerFree(s: Bytes, begin: Bytes, end: Bytes)
    requires Markers(begin, end) && MarkerFree(s, begin, end)
    ensures MarkerFree(NormalizedRegionBody(s), begin, end)
  {
    NormalizedLacks(s, begin);
    NormalizedLacks(s, end);
  }

  lemma NormalizedLacks(s: Bytes, token: Bytes)
    requires Token(token)
    ensures Occurs(NormalizedRegionBody(s), token) ==> Occurs(s, token)
  {
    var once := ReplaceAll(s, "\r\n", "\n");
    var v := ReplaceAll(once, "\r", "\n");
    if i :| 0 <= i <= |NormalizedRegionBody(s)| && OccursAt(NormalizedRegionBody(s), token, i) {
      if NormalizedRegionBody(s) != v {
        CutAtBreak(v, "\n", token, i);
        assert !OccursAt("\n", token, i - |v|);
      }
      ReplaceAddsNoToken(once, "\r", token, i);
      var j :| 0 <= j <= |once| && OccursAt(once, token, j);
      ReplaceAddsNoToken(s, "\r\n", token, j);
    }
  }

  lemma {:induction false} ReplaceAbsent(s: Bytes, old_: Bytes)
    requires old_ != "" && old_[0] == '\r' && '\r' !in s
    ensures ReplaceAll(s, old_, "\n") == s
  {
    if s != "" {
      assert !OccursAt(s, old_, 0);
      ReplaceAbsent(s[1..], old_);
    }
  }

  /** A CR-free text that ends in a newline is its own normal form. */
  lemma NormalizedFixpoint(s: Bytes)
    requires '\r' !in s && s != "" && s[|s| - 1] == '\n'
    ensures NormalizedRegionBody(s) == s
  {
    ReplaceAbsent(s, "\r\n");
    ReplaceAbsent(s, "\r");
  }

  // ---------------------------------------------------------------- what normalising does to lines

  /** The lines of a text, each of "\r\n", "\r" and "\n" ending one. */
  function Lines(s: Bytes): (r: seq<Bytes>)
    ensures r != []
    decreases |s|
  {
    if s == "" then [""]
    else if s[0] == '\r' && |s| > 1 && s[1] == '\n' then [""] + Lines(s[2..])
    else if s[0] == '\r' || s[0] == '\n' then [""] + Lines(s[1..])
    else
      var rest := Lines(s[1..]);
      [[s[0]] + rest[0]] + rest[1..]
  }

  /** One line break at a time. */
  lemma NormalizeHead(s: Bytes)
    requires s != ""
    ensures NormalizeText(s) == if s[0] == '\r' && |s| > 1 && s[1] == '\n' then "\n" + NormalizeText(s[2..])
                                else if s[0] == '\r' then "\n" + NormalizeText(s[1..])
                                else [s[0]] + NormalizeText(s[1..])
  {
    var crlf := s[0] == '\r' && |s| > 1 && s[1] == '\n';
    var head, rest := if crlf then '\n' else s[0], if crlf then s[2..] else s[1..];
    assert OccursAt(s, "\r\n", 0) <==> crlf by {
      if crlf { assert s[0..2] == "\r\n"; }
    }
    var once := ReplaceAll(s, "\r\n", "\n");
    assert once == [head] + ReplaceAll(rest, "\r\n", "\n");
    assert once[1..] == ReplaceAll(rest, "\r\n", "\n");
    assert OccursAt(once, "\r", 0) <==> head == '\r' by {
      assert once[0..1] == [head];
    }
  }

  /** No carriage return is left, and the lines are those of the source. */
  lemma {:induction false} NormalizedLines(s: Bytes)
    ensures '\r' !in NormalizeText(s) && Lines(NormalizeText(s)) == Lines(s)
    decreases |s|
  {
    if s != "" {
      var rest := if s[0] == '\r' && |s| > 1 && s[1] == '\n' then s[2..] else s[1..];
      NormalizeHead(s);
      NormalizedLines(rest);
      assert NormalizeText(s)[1..] == NormalizeText(rest);
    }
  }

  lemma {:induction false} OneMoreLine(s: Bytes)
    requires '\r' !in s
    ensures Lines(s + "\n") == Lines(s) + [""]
    decreases |s|
  {
    var longer := s + "\n";
    assert longer[|s|..] == "\n";
    if s == "" {
      assert longer[1..] == "";
    } else {
      OneMoreLine(s[1..]);
      assert longer[1..] == s[1..] + "\n" && longer[0] == s[0] != '\r';
    }
  }

  lemma {:induction false} LastLine(s: Bytes)
    requires '\r' !in s
    ensures Lines(s)[|Lines(s)| - 1] == "" <==> EndsLine(s)
    decreases |s|
  {
    if s != "" {
      LastLine(s[1..]);
      assert s[0] != '\r';
      if |s| > 1 {
        assert s[1..][|s[1..]| - 1] == s[|s| - 1];
      } else {
        assert s[1..] == "";
      }
    }
  }

  lemma EndedLines(v: Bytes, body: Bytes)
    requires '\r' !in v && body == if v == "" || v[|v| - 1] != '\n' then v + "\n" else v
    ensures '\r' !in body && body != "" && body[|body| - 1] == '\n'
    ensures Lines(body) == if v != "" && Lines(v)[|Lines(v)| - 1] == "" then Lines(v) else Lines(v) + [""]
  {
    OneMoreLine(v);
    LastLine(v);
  }

  /** The body written to a region has the lines of its rendering, the last of them ended. */
  lemma BodyLines(rendered: Bytes)
    ensures var body, lines := NormalizedRegionBody(rendered), Lines(rendered);
            '\r' !in body && body != "" && body[|body| - 1] == '\n' &&
            Lines(body) == if rendered != "" && lines[|lines| - 1] == "" then lines else lines + [""]
  {
    EndedBody(rendered, NormalizeText(rendered));
  }

  lemma EndedBody(rendered: Bytes, v: Bytes)
    requires v == NormalizeText(rendered)
    ensures var body, lines := NormalizedRegionBody(rendered), Lines(rendered);
            '\r' !in body && body != "" && body[|body| - 1] == '\n' &&
            Lines(body) == if rendered != "" && lines[|lines| - 1] == "" then lines else lines + [""]
  {
    var body := NormalizedRegionBody(rendered);
    NormalizedLines(rendered);
    NormalizesEmpty(rendered);
    EndedLines(v, body);
  }

  lemma NormalizesEmpty(s: Bytes)
    ensures NormalizeText(s) == "" <==> s == ""
  {
    if s != "" {
      NormalizeHead(s);
    }
  }

  // ---------------------------------------------------------------- lens laws

  /** After a merge of a marker-free render the region holds the normalised render, inside the user's own text. */
  lemma PutGet(d: Doc, begin: Bytes, end: Bytes, rendered: Bytes)
    requires Markers(begin, end) && Carries(Unparse(d, begin, end), begin, end, d) && MarkerFree(rendered, begin, end)
    ensures var merged := MergeBetween(Unparse(d, begin, end), rendered, begin, end);
            merged.Merged? && Carries(merged.file, begin, end, d.(body := NormalizedRegionBody(rendered)))
  {
    MergeOfCarried(d, begin, end, rendered);
    NormalizedMarkerFree(rendered, begin, end);
  }

  /** A second merge overwrites the first. */
  lemma PutPut(current: Bytes, begin: Bytes, end: Bytes, first: Bytes, second: Bytes)
    requires Markers(begin, end) && MarkerFree(first, begin, end)
    requires MergeBetween(current, first, begin, end).Merged?
    ensures var once := MergeBetween(current, first, begin, end);
            var twice := MergeBetween(once.file, second, begin, end);
            twice.Merged? && twice.current == once.generated &&
            MergeBetween(current, second, begin, end) == twice.(current := once.current)
  {
    var d := AcceptedIsCarried(current, begin, end, first);
    PutGet(d, begin, end, first);
    MergeOfCarried(d, begin, end, first);
    MergeOfCarried(d, begin, end, second);
    MergeOfCarried(d.(body := NormalizedRegionBody(first)), begin, end, second);
  }

  /** Merging a region's own non-empty CR-free body back in changes nothing. */
  lemma GetPut(d: Doc, begin: Bytes, end: Bytes)
    requires Markers(begin, end) && Carries(Unparse(d, begin, end), begin, end, d)
    requires d.body != "" && '\r' !in d.body
    ensures MergeBetween(Unparse(d, begin, end), d.body, begin, end) ==
            Merged(Unparse(d, begin, end), Sha256(d.body), Sha256(d.body))
  {
    MergeOfCarried(d, begin, end, d.body);
    NormalizedFixpoint(d.body);
  }

  function NewDoc(rendered: Bytes): Doc {
    Doc("", "\n", NormalizedRegionBody(rendered), "\n")
  }

  /** A created file carries its render between empty user texts. */
  lemma CreatedIsCarried(rendered: Bytes, m: MergeSpec)
    requires ValidMergeSpec(Some(m)) && MarkerFree(rendered, BeginMarker(m), EndMarker(m))
    ensures Carries(CreateIntegrationFile(rendered, Some(m)).file, BeginMarker(m), EndMarker(m), NewDoc(rendered))
  {
    SpecMarkers(m);
    NewDocCarried(rendered, BeginMarker(m), EndMarker(m));
    assert CreateIntegrationFile(rendered, Some(m)).file == Unparse(NewDoc(rendered), BeginMarker(m), EndMarker(m));
  }

  lemma NewDocCarried(rendered: Bytes, begin: Bytes, end: Bytes)
    requires Markers(begin, end) && MarkerFree(rendered, begin, end)
    ensures Carries(Unparse(NewDoc(rendered), begin, end), begin, end, NewDoc(rendered))
  {
    NormalizedMarkerFree(rendered, begin, end);
    assert MarkerFree("", begin, end) && MarkerFree("\n", begin, end);
  }

  lemma CreatedFile(rendered: Bytes, m: MergeSpec)
    requires ValidMergeSpec(Some(m))
    ensures CreateIntegrationFile(rendered, Some(m)) ==
            NewFile(Unparse(NewDoc(rendered), BeginMarker(m), EndMarker(m)), Sha256(NewDoc(rendered).body))
  {
  }

  /** Merging into a freshly created file gives the file that creation from the new render gives. */
  lemma MergeAfterCreate(first: Bytes, second: Bytes, m: MergeSpec)
    requires ValidMergeSpec(Some(m)) && MarkerFree(first, BeginMarker(m), EndMarker(m))
    ensures var made := CreateIntegrationFile(first, Some(m));
            var again := CreateIntegrationFile(second, Some(m));
            MergeIntegrationRegion(made.file, second, Some(m)) == Merged(again.file, made.generated, again.generated)
  {
    var begin, end := BeginMarker(m), EndMarker(m);
    SpecMarkers(m);
    CreatedFile(first, m);
    CreatedFile(second, m);
    NewDocMerge(first, second, begin, end);
  }

  lemma NewDocMerge(first: Bytes, second: Bytes, begin: Bytes, end: Bytes)
    requires Markers(begin, end) && MarkerFree(first, begin, end)
    ensures MergeBetween(Unparse(NewDoc(first), begin, end), second, begin, end) ==
            Merged(Unparse(NewDoc(second), begin, end), Sha256(NewDoc(first).body), Sha256(NewDoc(second).body))
  {
    NewDocCarried(first, begin, end);
    MergeOfCarried(NewDoc(first), begin, end, second);
  }

  // ---------------------------------------------------------------- upgrade chains

  /** One round: the user leaves the file as `edited`, then the generator merges `render` into it. */
  datatype Round = Round(edited: Bytes, render: Bytes)

  /** A user edit that leaves both marker lines and the region's body alone. */
  ghost predicate EditedOutsideRegion(before: Bytes, after: Bytes, begin: Bytes, end: Bytes) {
    exists d, e :: Carries(before, begin, end, d) && Carries(after, begin, end, e) && d.body == e.body
  }

  function MergedFile(round: Round, begin: Bytes, end: Bytes): Bytes
    requires begin != "" && end != ""
  {
    var merged := MergeBetween(round.edited, round.render, begin, end);
    if merged.Merged? then merged.file else round.edited
  }

  /** The rounds follow one another: each edit starts from the file the previous merge wrote. */
  ghost predicate History(file: Bytes, rounds: seq<Round>, begin: Bytes, end: Bytes)
    requires begin != "" && end != ""
    decreases |rounds|
  {
    rounds == [] ||
    (EditedOutsideRegion(file, rounds[0].edited, begin, end) && MarkerFree(rounds[0].render, begin, end) &&
     History(MergedFile(rounds[0], begin, end), rounds[1..], begin, end))
  }

  /** A round succeeds, reports the previous body as the current one, and keeps the user's text around the new body. */
  ghost predicate RoundSucceeds(round: Round, previousBody: Bytes, begin: Bytes, end: Bytes)
    requires begin != "" && end != ""
  {
    var merged := MergeBetween(round.edited, round.render, begin, end);
    merged.Merged? && merged.current == Sha256(previousBody) &&
    exists d :: Carries(round.edited, begin, end, d) &&
                merged.file == Unparse(d.(body := NormalizedRegionBody(round.render)), begin, end)
  }

  function PreviousBody(lastBody: Bytes, rounds: seq<Round>, n: nat): Bytes
    requires n < |rounds|
  {
    if n == 0 then lastBody else NormalizedRegionBody(rounds[n - 1].render)
  }

  /** Every round of an upgrade chain succeeds, whatever the user wrote around the region in between. */
  lemma {:induction false} UpgradeChain(file: Bytes, lastBody: Bytes, rounds: seq<Round>, begin: Bytes, end: Bytes, n: nat)
    requires Markers(begin, end) && History(file, rounds, begin, end) && n < |rounds|
    requires exists d :: Carries(file, begin, end, d) && d.body == lastBody
    ensures RoundSucceeds(rounds[n], PreviousBody(lastBody, rounds, n), begin, end)
    decreases |rounds|
  {
    var e := EditedDoc(file, lastBody, rounds[0].edited, begin, end);
    OneRound(e, rounds[0], begin, end);
    if n > 0 {
      var rest := rounds[1..];
      UpgradeChain(MergedFile(rounds[0], begin, end), NormalizedRegionBody(rounds[0].render), rest, begin, end, n - 1);
      assert rest[n - 1] == rounds[n] && (n > 1 ==> rest[n - 2] == rounds[n - 1]);
    }
  }

  lemma OneRound(e: Doc, round: Round, begin: Bytes, end: Bytes)
    requires Markers(begin, end) && Carries(round.edited, begin, end, e) && MarkerFree(round.render, begin, end)
    ensures RoundSucceeds(round, e.body, begin, end)
    ensures Carries(MergedFile(round, begin, end), begin, end, e.(body := NormalizedRegionBody(round.render)))
  {
    MergeOfCarried(e, begin, end, round.render);
    PutGet(e, begin, end, round.render);
  }

  lemma EditedDoc(file: Bytes, lastBody: Bytes, edited: Bytes, begin: Bytes, end: Bytes) returns (e: Doc)
    requires Markers(begin, end) && EditedOutsideRegion(file, edited, begin, end)
    requires exists d :: Carries(file, begin, end, d) && d.body == lastBody
    ensures Carries(edited, begin, end, e) && e.body == lastBody
  {
    var d0 :| Carries(file, begin, end, d0) && d0.body == lastBody;
    var d, e0 :| Carries(file, begin, end, d) && Carries(edited, begin, end, e0) && d.body == e0.body;
    CarriedUnique(file, begin, end, d0, d);
    e := e0;
  }
}
