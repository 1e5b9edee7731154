/**
 Strict templates: literals and placeholders "{{kind:path}}", substituted in one pass.
 */
module Template {
  import opened Digests
  import opened Region

  // ---------------------------------------------------------------- values

  /** A decoded JSON value, as far as templates look at it; `Other` is any value that is neither object nor string. */
  datatype Value = Object(fields: map<string, Value>) | Text(text: string) | Other(json: Bytes)

  /** The parts of a dotted path. */
  function SplitDots(path: string): (r: seq<string>)
    ensures r != []
  {
    if path == "" then [""] else Prepend(path[0], SplitDots(path[1..]))
  }

  /** One more character in front: a dot begins a new part. */
  function Prepend(c: char, parts: seq<string>): (r: seq<string>)
    requires parts != []
    ensures r != []
  {
    if c == '.' then [""] + parts else [[c] + parts[0]] + parts[1..]
  }

  lemma PrependAppends(c: char, a: seq<string>, b: seq<string>)
    requires a != []
    ensures Prepend(c, a + b) == Prepend(c, a) + b
  {
  }

  /** The parts put together with dots. */
  function JoinDots(parts: seq<string>): string
    requires parts != []
  {
    if |parts| == 1 then parts[0] else parts[0] + "." + JoinDots(parts[1..])
  }

  /** Splitting is what joining undoes: the parts, none of which has a dot, joined with dots are the path. */
  lemma {:induction false} SplitJoins(path: string)
    ensures JoinDots(SplitDots(path)) == path && forall part | part in SplitDots(path) :: '.' !in part
  {
    if path != "" {
      SplitJoins(path[1..]);
      var rest := SplitDots(path[1..]);
      var parts := SplitDots(path);
      if path[0] == '.' {
        assert parts[1..] == rest && path == "" + "." + path[1..];
      } else {
        assert parts[1..] == rest[1..] && [path[0]] + path[1..] == path;
        assert rest[0] in rest;
        if |rest| > 1 {
          assert [path[0]] + (rest[0] + "." + JoinDots(rest[1..])) == [path[0]] + rest[0] + "." + JoinDots(rest[1..]);
        }
      }
    }
  }

  /** A part without a dot is not split. */
  lemma {:induction false} SplitPart(part: string)
    requires '.' !in part
    ensures SplitDots(part) == [part]
  {
    if part != "" {
      SplitPart(part[1..]);
      assert part[0] in part && [part[0]] + part[1..] == part;
    }
  }

  /** A longer path has the parts of its parts. */
  lemma {:induction false} SplitAppends(a: string, b: string)
    ensures SplitDots(a + "." + b) == SplitDots(a) + SplitDots(b)
  {
    var path := a + "." + b;
    if a == "" {
      assert path[1..] == b;
    } else {
      SplitAppends(a[1..], b);
      assert path[1..] == a[1..] + "." + b && path[0] == a[0];
      PrependAppends(a[0], SplitDots(a[1..]), SplitDots(b));
    }
  }

  /** And the other way round: parts without dots are found again. */
  lemma {:induction false} JoinSplits(parts: seq<string>)
    requires parts != [] && forall part | part in parts :: '.' !in part
    ensures SplitDots(JoinDots(parts)) == parts
  {
    assert parts[0] in parts;
    SplitPart(parts[0]);
    if |parts| > 1 {
      JoinSplits(parts[1..]);
      SplitAppends(parts[0], JoinDots(parts[1..]));
      assert [parts[0]] + parts[1..] == parts;
    }
  }

  /** Walks down the objects. */
  function Lookup(value: Value, segments: seq<string>): Option<Value> {
    if segments == [] then Some(value)
    else if value.Object? && segments[0] in value.fields then Lookup(value.fields[segments[0]], segments[1..])
    else None
  }

  /** The value at a dotted path. */
  function ValueAt(value: Value, path: string): Option<Value> {
    Lookup(value, SplitDots(path))
  }

  /** Looking up a longer path is looking up its parts one after the other, and a part is a key of an object. */
  lemma LookupComposes(value: Value, a: string, b: string)
    ensures ValueAt(value, a + "." + b) == if ValueAt(value, a).Some? then ValueAt(ValueAt(value, a).value, b) else None
    ensures '.' !in a ==>
              ValueAt(value, a) == if value.Object? && a in value.fields then Some(value.fields[a]) else None
  {
    SplitAppends(a, b);
    PartsCompose(value, SplitDots(a), SplitDots(b));
    if '.' !in a {
      SplitPart(a);
    }
  }

  lemma {:induction false} PartsCompose(value: Value, a: seq<string>, b: seq<string>)
    ensures Lookup(value, a + b) == if Lookup(value, a).Some? then Lookup(Lookup(value, a).value, b) else None
  {
    if a == [] {
      assert a + b == b;
    } else {
      assert (a + b)[1..] == a[1..] + b;
      if value.Object? && a[0] in value.fields {
        PartsCompose(value.fields[a[0]], a[1..], b);
      }
    }
  }

  method LookupTemplateValue(context: Value, path: string) returns (r: Option<Value>)
    ensures r == ValueAt(context, path)
  {
    var segments := SplitDots(path);
    var current := context;
    for i := 0 to |segments|
      invariant Lookup(context, segments) == Lookup(current, segments[i..])
    {
      if !current.Object? || segments[i] !in current.fields {
        return None;
      }
      current := current.fields[segments[i]];
    }
    return Some(current);
  }

  // ---------------------------------------------------------------- placeholders

  datatype Kind = Json | Identifier

  datatype Hole = Hole(kind: Kind, path: string)

  function Opening(kind: Kind): string {
    if kind == Json then "{{json:" else "{{identifier:"
  }

  function HoleText(h: Hole): string {
    Opening(h.kind) + h.path + "}}"
  }

  predicate LowerLetter(c: char) { 'a' <= c <= 'z' }

  predicate PathChar(c: char) {
    LowerLetter(c) || '0' <= c <= '9' || c == '_' || c == '.'
  }

  predicate PathCharAt(path: string, i: nat)
    requires i < |path|
  {
    PathChar(path[i]) && (path[i] == '.' ==> i + 1 < |path| && LowerLetter(path[i + 1]))
  }

  /** What a path is like, its first character aside. */
  predicate Dotted(path: string) {
    forall i | 0 <= i < |path| :: PathCharAt(path, i)
  }

  /** Dot-separated words, each starting with a letter. */
  predicate ValidPath(path: string) {
    path != "" && LowerLetter(path[0]) && Dotted(path)
  }

  /** A well-formed placeholder stands at this place. */
  predicate Stands(s: Bytes, i: int, h: Hole) {
    ValidPath(h.path) && OccursAt(s, HoleText(h), i)
  }

  /** Where the run of path characters from `from` on ends. */
  function PathEnd(s: Bytes, from: nat): (end: nat)
    requires from <= |s|
    ensures from <= end <= |s| && (forall i | from <= i < end :: PathChar(s[i])) && (end < |s| ==> !PathChar(s[end]))
    decreases |s| - from
  {
    if from < |s| && PathChar(s[from]) then PathEnd(s, from + 1) else from
  }

  /** The path after an opening at `i`, if a placeholder of this kind stands there. */
  function PathAt(s: Bytes, i: nat, opening: string): Option<string> {
    var from := i + |opening|;
    if !OccursAt(s, opening, i) then None
    else
      var end := PathEnd(s, from);
      if ValidPath(s[from..end]) && OccursAt(s, "}}", end) then Some(s[from..end]) else None
  }

  lemma PathAtStands(s: Bytes, i: nat, opening: string, path: string)
    requires PathAt(s, i, opening) == Some(path)
    ensures ValidPath(path) && OccursAt(s, opening + path + "}}", i)
  {
    var from, end := i + |opening|, i + |opening| + |path|;
    assert s[i..end + 2] == s[i..from] + s[from..end] + s[end..end + 2];
  }

  /** The pieces of a text that stands at some place. */
  lemma PiecesStand(s: Bytes, i: nat, a: Bytes, b: Bytes)
    requires OccursAt(s, a + b, i)
    ensures OccursAt(s, a, i) && OccursAt(s, b, i + |a|)
  {
    assert s[i..i + |a|] == s[i..i + |a + b|][..|a|] == a;
    assert s[i + |a|..i + |a| + |b|] == s[i..i + |a + b|][|a|..] == b;
  }

  lemma StandsPathAt(s: Bytes, i: nat, opening: string, path: string)
    requires ValidPath(path) && OccursAt(s, opening + path + "}}", i)
    ensures PathAt(s, i, opening) == Some(path)
  {
    var from, end := i + |opening|, i + |opening| + |path|;
    PiecesStand(s, i, opening + path, "}}");
    PiecesStand(s, i, opening, path);
    assert s[from..end] == path && forall k | from <= k < end :: s[k] == path[k - from];
    forall k | from <= k < end
      ensures PathChar(s[k])
    {
      assert PathCharAt(path, k - from);
    }
    assert s[end] == s[end..end + 2][0] == '}';
    assert PathEnd(s, from) == end;
  }

  /** A placeholder begins with two braces and a letter, the first of its kind. */
  lemma HoleBegins(s: Bytes, i: int, h: Hole)
    requires OccursAt(s, HoleText(h), i)
    ensures i + 2 < |s| && s[i] == '{' && s[i + 1] == '{' && s[i + 2] == if h.kind == Json then 'j' else 'i'
  {
    var text := HoleText(h);
    assert text[0] == '{' && text[1] == '{' && text[2] == if h.kind == Json then 'j' else 'i';
    assert s[i..i + |text|][0] == s[i] && s[i..i + |text|][1] == s[i + 1] && s[i..i + |text|][2] == s[i + 2];
  }

  /** The placeholder that stands at `i`, if one does. */
  function HoleAt(s: Bytes, i: nat): (r: Option<Hole>)
    ensures forall h :: r == Some(h) <==> Stands(s, i, h)
  {
    var json, identifier := PathAt(s, i, Opening(Json)), PathAt(s, i, Opening(Identifier));
    assert forall h :: Stands(s, i, h) <==> (if h.kind == Json then json else identifier) == Some(h.path) by {
      forall h
        ensures Stands(s, i, h) <==> (if h.kind == Json then json else identifier) == Some(h.path)
      {
        assert h == Hole(h.kind, h.path);
        if Stands(s, i, h) {
          StandsPathAt(s, i, Opening(h.kind), h.path);
        }
        if PathAt(s, i, Opening(h.kind)) == Some(h.path) {
          PathAtStands(s, i, Opening(h.kind), h.path);
        }
      }
    }
    assert json.None? || identifier.None? by {
      if json.Some? && identifier.Some? {
        PathAtStands(s, i, Opening(Json), json.value);
        PathAtStands(s, i, Opening(Identifier), identifier.value);
        HoleBegins(s, i, Hole(Json, json.value));
        HoleBegins(s, i, Hole(Identifier, identifier.value));
      }
    }
    if json.Some? then Some(Hole(Json, json.value))
    else if identifier.Some? then Some(Hole(Identifier, identifier.value))
    else None
  }

  datatype Match = NoMatch | Match(at: nat, hole: Hole)

  /** The leftmost placeholder from `from` on. */
  function NextHole(s: Bytes, from: nat): (r: Match)
    ensures r.Match? ==> from <= r.at && Stands(s, r.at, r.hole)
    ensures forall i, h | from <= i < |s| && (r.Match? ==> i < r.at) :: !Stands(s, i, h)
    decreases |s| - from
  {
    if from >= |s| then NoMatch
    else
      var here := HoleAt(s, from);
      if here.Some? then Match(from, here.value) else NextHole(s, from + 1)
  }

  /** A literal may not contain a double brace. */
  predicate Free(s: Bytes) {
    !Occurs(s, "{{") && !Occurs(s, "}}")
  }

  // ---------------------------------------------------------------- the parse of a template

  /** Literals and placeholders in turn, ending with a literal. */
  datatype Parsed = Last(literal: Bytes) | More(literal: Bytes, hole: Hole, rest: Parsed)

  predicate WellFormed(p: Parsed) {
    Free(p.literal) && (p.More? ==> ValidPath(p.hole.path) && WellFormed(p.rest))
  }

  function Unparse(p: Parsed): Bytes {
    if p.Last? then p.literal else p.literal + HoleText(p.hole) + Unparse(p.rest)
  }

  function Parse(s: Bytes): Option<Parsed>
    decreases |s|
  {
    match NextHole(s, 0)
    case NoMatch => if Free(s) then Some(Last(s)) else None
    case Match(at, hole) =>
      var rest := Parse(s[at + |HoleText(hole)|..]);
      if Free(s[..at]) && rest.Some? then Some(More(s[..at], hole, rest.value)) else None
  }

  /** What is parsed is a split of the source. */
  lemma {:induction false} ParseSound(s: Bytes)
    requires Parse(s).Some?
    ensures WellFormed(Parse(s).value) && Unparse(Parse(s).value) == s
    decreases |s|
  {
    var next := NextHole(s, 0);
    if next.Match? {
      var end := next.at + |HoleText(next.hole)|;
      ParseSound(s[end..]);
      assert s == s[..next.at] + s[next.at..end] + s[end..];
    }
  }

  /** Neither in a literal nor across its end can a placeholder begin that is not the one after the literal. */
  lemma NoHoleInLiteral(literal: Bytes, tail: Bytes, i: nat, h: Hole)
    requires Free(literal) && i < |literal| && (tail == "" || tail[0] == '{')
    requires |tail| >= 2 ==> tail[1] == '{'
    ensures !Stands(literal + tail, i, h)
  {
    var s := literal + tail;
    if i + 1 < |literal| {
      NoDoubleBrace(literal, i);
    }
    if OccursAt(s, HoleText(h), i) {
      HoleBegins(s, i, h);
    }
  }

  lemma NoDoubleBrace(s: Bytes, i: nat)
    requires Free(s) && i + 1 < |s|
    ensures s[i] != '{' || s[i + 1] != '{'
  {
    assert !OccursAt(s, "{{", i);
    assert s[i..i + 2] == [s[i], s[i + 1]];
  }

  /** After its literal, the leftmost placeholder is the split's own. */
  lemma NextIsOwn(literal: Bytes, hole: Hole, rest: Bytes)
    requires Free(literal) && ValidPath(hole.path)
    ensures NextHole(literal + HoleText(hole) + rest, 0) == Match(|literal|, hole)
  {
    var tail := HoleText(hole) + rest;
    var s := literal + tail;
    assert literal + HoleText(hole) + rest == s;
    assert OccursAt(tail, HoleText(hole), 0);
    HoleBegins(tail, 0, hole);
    forall i: nat, h | i < |literal|
      ensures !Stands(s, i, h)
    {
      NoHoleInLiteral(literal, tail, i, h);
    }
    assert Stands(s, |literal|, hole);
    var here := HoleAt(s, |literal|);
    assert here == Some(hole);
    var next := NextHole(s, 0);
    assert next.Match? && next.at == |literal|;
    assert here == Some(next.hole);
  }

  /** Every well-formed split is found again: the parse of a source is the only split there is. */
  lemma {:induction false} ParseOfUnparse(p: Parsed)
    requires WellFormed(p)
    ensures Parse(Unparse(p)) == Some(p)
  {
    var s := Unparse(p);
    if p.Last? {
      forall i: nat, h | i < |s|
        ensures !Stands(s, i, h)
      {
        NoHoleInLiteral(s, "", i, h);
        assert s + "" == s;
      }
      assert NextHole(s, 0).NoMatch?;
    } else {
      NextIsOwn(p.literal, p.hole, Unparse(p.rest));
      ParseOfUnparse(p.rest);
      assert s[..|p.literal|] == p.literal;
      assert s[|p.literal| + |HoleText(p.hole)|..] == Unparse(p.rest);
    }
  }

  /** A template splits in at most one way, and is accepted exactly if it splits at all. */
  lemma UniqueParse(p: Parsed, q: Parsed)
    requires WellFormed(p) && WellFormed(q) && Unparse(p) == Unparse(q)
    ensures p == q
  {
    ParseOfUnparse(p);
    ParseOfUnparse(q);
  }

  // ---------------------------------------------------------------- rendering

  datatype TemplateError = TemplateInvalid | TemplateValue

  predicate IdentifierText(s: string) {
    s != "" && !('0' <= s[0] <= '9') &&
    forall i | 0 <= i < |s| :: 'A' <= s[i] <= 'Z' || 'a' <= s[i] <= 'z' || '0' <= s[i] <= '9' || s[i] == '_'
  }

  /** The text a placeholder stands for; `canonical` is the canonical JSON of a value, if it has one. */
  function TextOf(h: Hole, context: Value, canonical: Value -> Option<Bytes>): Option<Bytes> {
    var value := ValueAt(context, h.path);
    if value.None? then None
    else if h.kind == Json then canonical(value.value)
    else if value.value.Text? && IdentifierText(value.value.text) then Some(value.value.text)
    else None
  }

  /** Literals copied, each placeholder replaced by its text, once. */
  function Substitute(p: Parsed, context: Value, canonical: Value -> Option<Bytes>): Option<Bytes> {
    if p.Last? then Some(p.literal)
    else
      var text, rest := TextOf(p.hole, context, canonical), Substitute(p.rest, context, canonical);
      if text.Some? && rest.Some? then Some(p.literal + text.value + rest.value) else None
  }

  /** Some well-formed split of the source renders to this. */
  ghost predicate RendersTo(s: Bytes, context: Value, canonical: Value -> Option<Bytes>, r: Bytes) {
    exists p :: WellFormed(p) && Unparse(p) == s && Substitute(p, context, canonical) == Some(r)
  }

  /** Rendering from the cursor on, as the loop goes. */
  function RenderRest(s: Bytes, context: Value, canonical: Value -> Option<Bytes>): Result<Bytes, TemplateError>
    decreases |s|
  {
    match NextHole(s, 0)
    case NoMatch => if Free(s) then Ok(s) else Err(TemplateInvalid)
    case Match(at, hole) =>
      if !Free(s[..at]) then Err(TemplateInvalid)
      else
        var text := TextOf(hole, context, canonical);
        if text.None? then Err(TemplateValue)
        else Prefixed(s[..at] + text.value, RenderRest(s[at + |HoleText(hole)|..], context, canonical))
  }

  function Prefixed(output: Bytes, r: Result<Bytes, TemplateError>): Result<Bytes, TemplateError> {
    if r.Ok? then Ok(output + r.value) else r
  }

  /** What can be rendered can be parsed. */
  lemma {:induction false} RenderedParses(s: Bytes, context: Value, canonical: Value -> Option<Bytes>)
    requires RenderRest(s, context, canonical).Ok?
    ensures Parse(s).Some?
    decreases |s|
  {
    var next := NextHole(s, 0);
    if next.Match? {
      RenderedParses(s[next.at + |HoleText(next.hole)|..], context, canonical);
    }
  }

  function Substituted(p: Parsed, context: Value, canonical: Value -> Option<Bytes>): Result<Bytes, TemplateError> {
    var text := Substitute(p, context, canonical);
    if text.Some? then Ok(text.value) else Err(TemplateValue)
  }

  /** A well-formed split is rendered by substitution. */
  lemma {:induction false} RenderOfUnparse(p: Parsed, context: Value, canonical: Value -> Option<Bytes>)
    requires WellFormed(p)
    ensures RenderRest(Unparse(p), context, canonical) == Substituted(p, context, canonical)
  {
    var s := Unparse(p);
    if p.Last? {
      forall i: nat, h | i < |s|
        ensures !Stands(s, i, h)
      {
        NoHoleInLiteral(s, "", i, h);
        assert s + "" == s;
      }
      assert NextHole(s, 0).NoMatch?;
    } else {
      NextIsOwn(p.literal, p.hole, Unparse(p.rest));
      RenderOfUnparse(p.rest, context, canonical);
      assert s[..|p.literal|] == p.literal;
      assert s[|p.literal| + |HoleText(p.hole)|..] == Unparse(p.rest);
    }
  }

  /** Rendering means substituting into a well-formed split, which is then the only one. */
  lemma RenderMeaning(s: Bytes, context: Value, canonical: Value -> Option<Bytes>)
    ensures RenderRest(s, context, canonical).Ok? ==> RendersTo(s, context, canonical, RenderRest(s, context, canonical).value)
    ensures forall r :: RendersTo(s, context, canonical, r) ==> RenderRest(s, context, canonical) == Ok(r)
    ensures RenderRest(s, context, canonical) == Err(TemplateInvalid) ==> forall p | WellFormed(p) :: Unparse(p) != s
  {
    forall p | WellFormed(p) && Unparse(p) == s
      ensures RenderRest(s, context, canonical) == Substituted(p, context, canonical)
    {
      RenderOfUnparse(p, context, canonical);
    }
    if RenderRest(s, context, canonical).Ok? {
      RenderedParses(s, context, canonical);
      ParseSound(s);
    }
  }

  /** A source without double braces is copied; any other is rendered placeholder by placeholder. */
  method RenderStrictTemplate(source: Bytes, context: Value, canonical: Value -> Option<Bytes>) returns (r: Result<Bytes, TemplateError>)
    ensures r.Ok? ==> RendersTo(source, context, canonical, r.value)
    ensures forall text :: RendersTo(source, context, canonical, text) ==> r == Ok(text)
    ensures r == Err(TemplateInvalid) ==> forall p | WellFormed(p) :: Unparse(p) != source
  {
    RenderMeaning(source, context, canonical);
    if Free(source) {
      FreeRendersItself(source, context, canonical);
      return Ok(source);
    }
    ghost var meaning := (s: Bytes) => RenderRest(s, context, canonical);
    r := RenderPlaceholders(source, context, canonical, meaning);
  }

  datatype Progress = Finished(result: Result<Bytes, TemplateError>) | Advanced(text: Bytes, length: nat)

  /** `meaning` is the rendering of every source, as a value to reason with. */
  ghost predicate IsMeaning(meaning: Bytes -> Result<Bytes, TemplateError>, context: Value, canonical: Value -> Option<Bytes>) {
    forall s {:trigger RenderRest(s, context, canonical)} :: meaning(s) == RenderRest(s, context, canonical)
  }

  /** The cursor loop over the placeholders. */
  method RenderPlaceholders(source: Bytes, context: Value, canonical: Value -> Option<Bytes>,
                            ghost meaning: Bytes -> Result<Bytes, TemplateError>)
    returns (r: Result<Bytes, TemplateError>)
    requires IsMeaning(meaning, context, canonical)
    ensures r == meaning(source)
  {
    var cursor, output := 0, "";
    assert source[0..] == source;
    PrefixedByNothing(meaning(source));
    while true
      invariant 0 <= cursor <= |source|
      invariant meaning(source) == Prefixed(output, meaning(source[cursor..]))
      decreases |source| - cursor
    {
      var step := RenderNext(source[cursor..], context, canonical, meaning);
      if step.Finished? {
        return Prefixed(output, step.result);
      }
      assert source[cursor..][step.length..] == source[cursor + step.length..];
      PrefixedTwice(output, step.text, meaning(source[cursor + step.length..]));
      output := output + step.text;
      cursor := cursor + step.length;
    }
  }

  lemma PrefixedByNothing(r: Result<Bytes, TemplateError>)
    ensures Prefixed("", r) == r
  {
    assert r.Ok? ==> "" + r.value == r.value;
  }

  lemma PrefixedTwice(a: Bytes, b: Bytes, r: Result<Bytes, TemplateError>)
    ensures Prefixed(a, Prefixed(b, r)) == Prefixed(a + b, r)
  {
    assert r.Ok? ==> a + (b + r.value) == a + b + r.value;
  }

  /** The literal up to the next placeholder and the placeholder's value, or the end of the source. */
  method RenderNext(rest: Bytes, context: Value, canonical: Value -> Option<Bytes>,
                    ghost meaning: Bytes -> Result<Bytes, TemplateError>)
    returns (step: Progress)
    requires IsMeaning(meaning, context, canonical)
    ensures step.Finished? ==> step.result == meaning(rest)
    ensures step.Advanced? ==> 0 < step.length <= |rest| && meaning(rest) == Prefixed(step.text, meaning(rest[step.length..]))
  {
    ghost var whole := RenderRest(rest, context, canonical);
    match NextHole(rest, 0) {
      case NoMatch =>
        return Finished(if Free(rest) then Ok(rest) else Err(TemplateInvalid));
      case Match(at, hole) =>
        if !Free(rest[..at]) {
          return Finished(Err(TemplateInvalid));
        }
        var text := RenderHole(hole, context, canonical);
        if text.None? {
          return Finished(Err(TemplateValue));
        }
        var length := at + |HoleText(hole)|;
        assert meaning(rest[length..]) == RenderRest(rest[length..], context, canonical);
        return Advanced(rest[..at] + text.value, length);
    }
  }

  /** The value of one placeholder, as text. */
  method RenderHole(hole: Hole, context: Value, canonical: Value -> Option<Bytes>) returns (text: Option<Bytes>)
    ensures text == TextOf(hole, context, canonical)
  {
    var value := LookupTemplateValue(context, hole.path);
    if value.None? {
      return None;
    }
    match hole.kind {
      case Json =>
        return canonical(value.value);
      case Identifier =>
        return if value.value.Text? && IdentifierText(value.value.text) then Some(value.value.text) else None;
    }
  }

  lemma FreeRendersItself(s: Bytes, context: Value, canonical: Value -> Option<Bytes>)
    requires Free(s)
    ensures RenderRest(s, context, canonical) == Ok(s)
  {
    RenderOfUnparse(Last(s), context, canonical);
  }

  lemma LastIsItself(p: Parsed, context: Value, canonical: Value -> Option<Bytes>)
    requires p.Last?
    ensures Unparse(p) == p.literal && Substitute(p, context, canonical) == Some(p.literal)
    ensures Free(p.literal) ==> WellFormed(p)
  {
  }

  /** A substituted value is never looked at again, even if it reads like a placeholder itself. */
  lemma ValuesAreNotExpanded(before: Bytes, hole: Hole, after: Bytes, context: Value, canonical: Value -> Option<Bytes>, text: Bytes)
    requires Free(before) && Free(after) && ValidPath(hole.path) && TextOf(hole, context, canonical) == Some(text)
    ensures RendersTo(before + HoleText(hole) + after, context, canonical, before + text + after)
    ensures forall r :: RendersTo(before + HoleText(hole) + after, context, canonical, r) ==> r == before + text + after
  {
    var rest := Last(after);
    var p := More(before, hole, rest);
    LastIsItself(rest, context, canonical);
    assert WellFormed(p) && Unparse(p) == before + HoleText(hole) + after;
    assert Substitute(p, context, canonical) == Some(before + text + after);
    RenderMeaning(before + HoleText(hole) + after, context, canonical);
  }
}
