/**
 The pure renderer: from a request, its plan and the locked template sources to the bytes of every desired output.
 */
module Renderer {
  import opened Digests
  import opened Ordering
  import opened Region
  import opened Model
  import opened Template
  import opened Artifacts

  // ---------------------------------------------------------------- dependency checksums

  predicate ValidChecksum(s: string) {
    |s| == 71 && s[..7] == "sha256:" && forall i | 7 <= i < 71 :: '0' <= s[i] <= '9' || 'a' <= s[i] <= 'f'
  }

  function DependencyKey(d: Dependency): string { d.id + "\0" + d.version }

  predicate Pinned(d: Dependency) {
    d.id != "" && d.version != "" && ValidChecksum(d.checksum)
  }

  function ApplicationTemplates(applications: seq<PlanApplication>): (r: seq<Dependency>)
    ensures |r| == |applications| && forall i | 0 <= i < |r| :: r[i] == applications[i].template
  {
    seq(|applications|, i requires 0 <= i < |applications| => applications[i].template)
  }

  /** Everything is pinned, no package version is listed twice, and one version never has two checksums. */
  ghost predicate ChecksumsConsistent(packages: seq<Dependency>, templates: seq<Dependency>) {
    (forall d | d in packages + templates :: Pinned(d)) && DistinctKeys(packages, DependencyKey) &&
    forall a, b | a in packages + templates && b in packages + templates && DependencyKey(a) == DependencyKey(b) :: a.checksum == b.checksum
  }

  /** The map holds exactly the checksums of the listed dependencies. */
  ghost predicate HoldsChecksums(values: map<string, string>, list: seq<Dependency>) {
    (forall d | d in list :: DependencyKey(d) in values && values[DependencyKey(d)] == d.checksum) &&
    forall k | k in values :: exists d :: d in list && DependencyKey(d) == k
  }

  lemma HoldsOneMore(values: map<string, string>, list: seq<Dependency>, d: Dependency)
    requires HoldsChecksums(values, list)
    requires DependencyKey(d) in values ==> values[DependencyKey(d)] == d.checksum
    ensures HoldsChecksums(values[DependencyKey(d) := d.checksum], list + [d])
  {
    var more := values[DependencyKey(d) := d.checksum];
    forall k | k in more
      ensures exists e :: e in list + [d] && DependencyKey(e) == k
    {
      if k == DependencyKey(d) {
        assert d in list + [d];
      } else {
        var e :| e in list && DependencyKey(e) == k;
        assert e in list + [d];
      }
    }
  }

  method DependencyChecksums(packages: seq<Dependency>, templates: seq<Dependency>) returns (r: Option<map<string, string>>)
    ensures r.Some? <==> ChecksumsConsistent(packages, templates)
    ensures r.Some? ==> HoldsChecksums(r.value, packages + templates)
  {
    var values: map<string, string> := map[];
    for i := 0 to |packages|
      invariant HoldsChecksums(values, packages[..i])
      invariant (forall d | d in packages[..i] :: Pinned(d)) && DistinctKeys(packages[..i], DependencyKey)
    {
      var item := packages[i];
      assert packages[..i + 1] == packages[..i] + [item];
      assert item in packages + templates;
      if !Pinned(item) {
        return None;
      }
      if DependencyKey(item) in values {
        RepeatedKey(values, packages, i);
        return None;
      }
      forall j | 0 <= j < i
        ensures DependencyKey(packages[j]) != DependencyKey(item)
      {
        assert packages[..i][j] in packages[..i];
      }
      HoldsOneMore(values, packages[..i], item);
      values := values[DependencyKey(item) := item.checksum];
    }
    assert packages[..|packages|] == packages && packages + templates[..0] == packages;
    for i := 0 to |templates|
      invariant HoldsChecksums(values, packages + templates[..i])
      invariant forall d | d in packages + templates[..i] :: Pinned(d)
    {
      var item := templates[i];
      assert packages + templates[..i + 1] == packages + templates[..i] + [item];
      assert item in packages + templates;
      if !Pinned(item) {
        return None;
      }
      if DependencyKey(item) in values && values[DependencyKey(item)] != item.checksum {
        var d :| d in packages + templates[..i] && DependencyKey(d) == DependencyKey(item);
        assert d in packages + templates;
        return None;
      }
      HoldsOneMore(values, packages + templates[..i], item);
      values := values[DependencyKey(item) := item.checksum];
    }
    assert templates[..|templates|] == templates;
    return Some(values);
  }

  lemma RepeatedKey(values: map<string, string>, packages: seq<Dependency>, i: nat)
    requires i < |packages| && HoldsChecksums(values, packages[..i]) && DependencyKey(packages[i]) in values
    ensures !DistinctKeys(packages, DependencyKey)
  {
    var d :| d in packages[..i] && DependencyKey(d) == DependencyKey(packages[i]);
    var j :| 0 <= j < i && packages[..i][j] == d;
    assert DependencyKey(packages[j]) == DependencyKey(packages[i]);
  }

  // ---------------------------------------------------------------- rendering one output

  /** What lies outside the renderer: the locked sources, UTF-8 validity, canonical JSON of a value and of a text. */
  datatype Outside = Outside(
    sources: (OutputSpec, string) -> Option<Bytes>, validText: Bytes -> bool,
    canonical: Value -> Option<Bytes>, canonicalText: Bytes -> Option<Bytes>)

  /** The output before any JSON canonicalisation: a copy, or the rendered template. */
  ghost predicate PlainRendering(text: Bytes, o: OutputSpec, context: Value, outside: Outside, plain: Bytes) {
    if o.renderStrategy == "copy" then plain == text
    else (o.renderStrategy == "strict_template" || o.renderStrategy == "generated_region") &&
         RendersTo(text, context, outside.canonical, plain)
  }

  lemma PlainUnique(text: Bytes, o: OutputSpec, context: Value, outside: Outside, p: Bytes, q: Bytes)
    requires PlainRendering(text, o, context, outside, p) && PlainRendering(text, o, context, outside, q)
    ensures p == q
  {
    if o.renderStrategy != "copy" {
      RenderMeaning(text, context, outside.canonical);
    }
  }

  /** What an output's bytes are, given its source. */
  ghost predicate IsRendering(source: Bytes, o: OutputSpec, context: Value, outside: Outside, r: Bytes) {
    if o.contentType == "binary" then PlainRendering(source, o, context, outside, r)
    else
      outside.validText(source) &&
      if o.contentType == "json" then
        exists plain :: PlainRendering(NormalizeText(source), o, context, outside, plain) && outside.canonicalText(plain) == Some(r)
      else PlainRendering(NormalizeText(source), o, context, outside, r)
  }

  lemma RenderingUnique(source: Bytes, o: OutputSpec, context: Value, outside: Outside, a: Bytes, b: Bytes)
    requires IsRendering(source, o, context, outside, a) && IsRendering(source, o, context, outside, b)
    ensures a == b
  {
    var text := NormalizeText(source);
    if o.contentType == "json" {
      var p :| PlainRendering(text, o, context, outside, p) && outside.canonicalText(p) == Some(a);
      var q :| PlainRendering(text, o, context, outside, q) && outside.canonicalText(q) == Some(b);
      PlainUnique(text, o, context, outside, p, q);
    } else {
      PlainUnique(if o.contentType == "binary" then source else text, o, context, outside, a, b);
    }
  }

  method RenderPlain(text: Bytes, o: OutputSpec, context: Value, outside: Outside) returns (r: Option<Bytes>)
    ensures r.Some? ==> PlainRendering(text, o, context, outside, r.value)
    ensures r.None? ==> forall plain :: !PlainRendering(text, o, context, outside, plain)
  {
    if o.renderStrategy == "copy" {
      return Some(text);
    }
    if o.renderStrategy != "strict_template" && o.renderStrategy != "generated_region" {
      return None;
    }
    var rendered := RenderStrictTemplate(text, context, outside.canonical);
    return if rendered.Ok? then Some(rendered.value) else None;
  }

  method RenderSource(source: Bytes, o: OutputSpec, context: Value, outside: Outside) returns (r: Option<Bytes>)
    ensures r.Some? ==> IsRendering(source, o, context, outside, r.value)
    ensures r.None? ==> forall bytes :: !IsRendering(source, o, context, outside, bytes)
  {
    if o.contentType != "binary" && !outside.validText(source) {
      return None;
    }
    var text := if o.contentType != "binary" then NormalizeText(source) else source;
    var plain := RenderPlain(text, o, context, outside);
    if plain.None? {
      return None;
    }
    forall other | PlainRendering(text, o, context, outside, other)
      ensures other == plain.value
    {
      PlainUnique(text, o, context, outside, plain.value, other);
    }
    r := if o.contentType == "json" then outside.canonicalText(plain.value) else plain;
  }

  // ---------------------------------------------------------------- rendering a request

  /** The file comes from the pinned source its output names, with the digest the plan locked. */
  ghost predicate FromLockedSource(f: RenderedFile, plan: Plan, context: Value, outside: Outside) {
    exists d, source ::
      d in plan.packages + ApplicationTemplates(plan.applications) && Pinned(d) &&
      DependencyKey(d) == f.spec.sourceId + "\0" + f.spec.sourceVersion &&
      outside.sources(f.spec, d.checksum) == Some(source) && Sha256(source) == f.spec.sourceSha &&
      IsRendering(source, f.spec, context, outside, f.bytes)
  }

  /** The plan pins a source for the output, the source is at hand with its digest, and it can be rendered. */
  ghost predicate Renderable(o: OutputSpec, plan: Plan, context: Value, outside: Outside) {
    exists f: RenderedFile :: f.spec == o && FromLockedSource(f, plan, context, outside)
  }

  ghost predicate RenderedFor(files: seq<RenderedFile>, outputs: seq<OutputSpec>, plan: Plan, context: Value, outside: Outside) {
    |files| == |outputs| && RenderedSoundly(files) &&
    forall i | 0 <= i < |outputs| :: files[i].spec == outputs[i] && FromLockedSource(files[i], plan, context, outside)
  }

  /** The manifest checksum the plan pins for an output's source, and the locked source itself. */
  method ReadSource(o: OutputSpec, plan: Plan, checksums: map<string, string>, outside: Outside) returns (r: Option<Bytes>)
    requires ChecksumsConsistent(plan.packages, ApplicationTemplates(plan.applications))
    requires HoldsChecksums(checksums, plan.packages + ApplicationTemplates(plan.applications))
    ensures r.Some? ==> exists d :: d in plan.packages + ApplicationTemplates(plan.applications) && Pinned(d) &&
                                    DependencyKey(d) == o.sourceId + "\0" + o.sourceVersion &&
                                    outside.sources(o, d.checksum) == Some(r.value) && Sha256(r.value) == o.sourceSha
    ensures r.None? ==> forall d, source | d in plan.packages + ApplicationTemplates(plan.applications) &&
                                           DependencyKey(d) == o.sourceId + "\0" + o.sourceVersion &&
                                           outside.sources(o, d.checksum) == Some(source) :: Sha256(source) != o.sourceSha
  {
    var key := o.sourceId + "\0" + o.sourceVersion;
    if key !in checksums {
      return None;
    }
    ghost var d :| d in plan.packages + ApplicationTemplates(plan.applications) && DependencyKey(d) == key;
    r := outside.sources(o, checksums[key]);
    if r.Some? && Sha256(r.value) != o.sourceSha {
      r := None;
    }
  }

  method RenderOutput(o: OutputSpec, plan: Plan, checksums: map<string, string>, context: Value, outside: Outside)
    returns (r: Option<RenderedFile>)
    requires ChecksumsConsistent(plan.packages, ApplicationTemplates(plan.applications))
    requires HoldsChecksums(checksums, plan.packages + ApplicationTemplates(plan.applications))
    ensures r.Some? ==> r.value.spec == o && r.value.sha == Sha256(r.value.bytes) && r.value.generatedSha == r.value.sha &&
                        FromLockedSource(r.value, plan, context, outside)
    ensures r.None? ==> !Renderable(o, plan, context, outside)
  {
    var source := ReadSource(o, plan, checksums, outside);
    if source.None? {
      return None;
    }
    var bytes := RenderSource(source.value, o, context, outside);
    if bytes.None? {
      return None;
    }
    var digest := Sha256(bytes.value);
    return Some(RenderedFile(o, bytes.value, digest, digest));
  }

  method RenderAll(outputs: seq<OutputSpec>, plan: Plan, checksums: map<string, string>, context: Value, outside: Outside)
    returns (r: Option<seq<RenderedFile>>)
    requires ChecksumsConsistent(plan.packages, ApplicationTemplates(plan.applications))
    requires HoldsChecksums(checksums, plan.packages + ApplicationTemplates(plan.applications))
    ensures r.Some? ==> RenderedFor(r.value, outputs, plan, context, outside)
    ensures r.None? ==> exists o :: o in outputs && !Renderable(o, plan, context, outside)
  {
    var files: seq<RenderedFile> := [];
    for i := 0 to |outputs|
      invariant RenderedFor(files, outputs[..i], plan, context, outside)
    {
      assert outputs[..i + 1] == outputs[..i] + [outputs[i]];
      var file := RenderOutput(outputs[i], plan, checksums, context, outside);
      if file.None? {
        return None;
      }
      RenderedOneMore(files, outputs[..i], file.value, plan, context, outside);
      files := files + [file.value];
    }
    assert outputs[..|outputs|] == outputs;
    return Some(files);
  }

  lemma RenderedOneMore(files: seq<RenderedFile>, outputs: seq<OutputSpec>, f: RenderedFile, plan: Plan, context: Value, outside: Outside)
    requires RenderedFor(files, outputs, plan, context, outside)
    requires f.sha == Sha256(f.bytes) && f.generatedSha == f.sha && FromLockedSource(f, plan, context, outside)
    ensures RenderedFor(files + [f], outputs + [f.spec], plan, context, outside)
  {
  }

  method Render(request: Request, plan: Plan, context: Value, outside: Outside) returns (r: Option<seq<RenderedFile>>)
    ensures r.Some? ==> RequestMatchesPlan(request, plan) && ChecksumsConsistent(plan.packages, ApplicationTemplates(plan.applications)) &&
                        exists outputs :: IsSortOf(outputs, request.desiredOutputs, OutputPath) &&
                                          RenderedFor(r.value, outputs, plan, context, outside)
    ensures r.None? && request.wellFormed && RequestMatchesPlan(request, plan) && DistinctKeys(request.secretRefs, SecretKey) &&
            ChecksumsConsistent(plan.packages, ApplicationTemplates(plan.applications)) ==>
              exists o :: o in request.desiredOutputs && !Renderable(o, plan, context, outside)
  {
    var matches := ValidateRequestPlan(request, plan);
    if !matches {
      return None;
    }
    var checksums := DependencyChecksums(plan.packages, ApplicationTemplates(plan.applications));
    if checksums.None? {
      return None;
    }
    var outputs := Sort(request.desiredOutputs, OutputPath);
    SortKeepsMembers(outputs, request.desiredOutputs, OutputPath);
    r := RenderAll(outputs, plan, checksums.value, context, outside);
  }

  /** Rendering is a function of the output and its locked source: two files rendered for one output are the same. */
  lemma RenderIsPure(f: RenderedFile, g: RenderedFile, plan: Plan, context: Value, outside: Outside)
    requires FromLockedSource(f, plan, context, outside) && FromLockedSource(g, plan, context, outside) && f.spec == g.spec
    requires ChecksumsConsistent(plan.packages, ApplicationTemplates(plan.applications))
    ensures f.bytes == g.bytes
  {
    var list := plan.packages + ApplicationTemplates(plan.applications);
    var d, s :| d in list && DependencyKey(d) == f.spec.sourceId + "\0" + f.spec.sourceVersion &&
                outside.sources(f.spec, d.checksum) == Some(s) && IsRendering(s, f.spec, context, outside, f.bytes);
    var e, t :| e in list && DependencyKey(e) == g.spec.sourceId + "\0" + g.spec.sourceVersion &&
                outside.sources(g.spec, e.checksum) == Some(t) && IsRendering(t, g.spec, context, outside, g.bytes);
    RenderingUnique(s, f.spec, context, outside, f.bytes, g.bytes);
  }
}
