/**
 What the validators of paths, identifiers and digests accept, pattern by pattern: each is compared with the pattern
 or the table it stands for, written over literal alphabets.
 */
module Patterns {
  import opened Paths
  import opened Digests
  import opened Region
  import opened Template
  import opened Artifacts
  import opened Renderer
  import opened Semantics

  const Lower := "abcdefghijklmnopqrstuvwxyz"
  const Capital := "ABCDEFGHIJKLMNOPQRSTUVWXYZ"
  const Digits := "0123456789"

  lemma Alphabets(c: char)
    ensures c in Lower <==> 'a' <= c <= 'z'
    ensures c in Capital <==> 'A' <= c <= 'Z'
    ensures c in Digits <==> '0' <= c <= '9'
  {
  }

  // ---------------------------------------------------------------- identifiers

  /** One or more words of letters and digits, with one of ".", "_" and "-" between any two. */
  predicate Words(s: string) {
    s != "" && s[0] in Lower + Digits && (|s| == 1 || Words(s[1..]) || (s[1] in "._-" && |s| > 2 && Words(s[2..])))
  }

  lemma {:induction false} WordsExactly(s: string)
    ensures Words(s) <==>
            s != "" && IdentifierChar(s[0]) && IdentifierChar(s[|s| - 1]) &&
            forall i | 0 <= i < |s| :: IdentifierChar(s[i]) || (s[i] in "._-" && 0 < i && IdentifierChar(s[i - 1]))
  {
    if s != "" {
      Alphabets(s[0]);
    }
    if |s| > 1 {
      WordsExactly(s[1..]);
    }
    if |s| > 2 {
      WordsExactly(s[2..]);
    }
  }

  /** A letter, then words. */
  lemma StableIdentifierExactly(s: string)
    ensures StableIdentifier(s) <==> s != "" && s[0] in Lower && Words(s)
  {
    WordsExactly(s);
    if s != "" {
      Alphabets(s[0]);
    }
  }

  lemma IdentifierTextExactly(s: string)
    ensures IdentifierText(s) <==> s != "" && s[0] !in Digits && forall i | 0 <= i < |s| :: s[i] in Lower + Capital + Digits + "_"
  {
    forall i | 0 <= i < |s|
      ensures s[i] in Lower + Capital + Digits + "_" <==>
              'A' <= s[i] <= 'Z' || 'a' <= s[i] <= 'z' || '0' <= s[i] <= '9' || s[i] == '_'
    {
      Alphabets(s[i]);
    }
    if s != "" {
      Alphabets(s[0]);
    }
  }

  /** A word of a template path. */
  predicate PathWord(part: string) {
    part != "" && part[0] in Lower && Tail(part)
  }

  predicate Tail(part: string) {
    forall i | 0 <= i < |part| :: part[i] in Lower + Digits + "_"
  }

  lemma LaterCharAt(c: char, rest: string, i: nat)
    requires i < |rest|
    ensures PathCharAt([c] + rest, i + 1) <==> PathCharAt(rest, i)
  {
    var path := [c] + rest;
    assert path[i + 1] == rest[i];
    if i + 1 < |rest| {
      assert path[i + 2] == rest[i + 1];
    }
  }

  lemma DottedStep(c: char, rest: string)
    ensures Dotted([c] + rest) <==> PathChar(c) && (c == '.' ==> rest != "" && LowerLetter(rest[0])) && Dotted(rest)
  {
    var path := [c] + rest;
    assert path[0] == c && (rest != "" ==> path[1] == rest[0]);
    forall i: nat | i < |rest|
      ensures PathCharAt(path, i + 1) <==> PathCharAt(rest, i)
    {
      LaterCharAt(c, rest, i);
    }
    if Dotted(rest) && PathCharAt(path, 0) {
      forall i: nat | i < |path|
        ensures PathCharAt(path, i)
      {
        assert i > 0 ==> PathCharAt(rest, i - 1);
      }
    }
  }

  lemma TailStep(c: char, rest: string)
    ensures Tail([c] + rest) <==> c in Lower + Digits + "_" && Tail(rest)
  {
    var part := [c] + rest;
    assert part[0] == c && part[1..] == rest;
    assert forall i | 0 <= i < |rest| :: part[i + 1] == rest[i];
    assert Tail(part) <== c in Lower + Digits + "_" && Tail(rest) by {
      assert forall i | 1 <= i < |part| :: part[i] == rest[i - 1];
    }
  }

  /** The parts after the first are words, and the first is the rest of one. */
  predicate WordsFrom(parts: seq<string>)
    requires parts != []
  {
    Tail(parts[0]) && forall k | 0 < k < |parts| :: PathWord(parts[k])
  }

  lemma WordsPrepend(c: char, parts: seq<string>)
    requires parts != []
    ensures c == '.' ==> (WordsFrom(Prepend(c, parts)) <==> PathWord(parts[0]) && WordsFrom(parts))
    ensures c != '.' ==> (WordsFrom(Prepend(c, parts)) <==> c in Lower + Digits + "_" && WordsFrom(parts))
  {
    var more := Prepend(c, parts);
    if c == '.' {
      assert forall k | 0 <= k < |parts| :: more[k + 1] == parts[k];
    } else {
      TailStep(c, parts[0]);
      assert forall k | 0 < k < |parts| :: more[k] == parts[k];
    }
  }

  lemma FirstWord(path: string)
    ensures SplitDots(path)[0] == "" <==> path == "" || path[0] == '.'
    ensures path != "" && path[0] != '.' ==> SplitDots(path)[0][0] == path[0]
  {
    if path != "" && path[0] != '.' {
      assert SplitDots(path)[0] == [path[0]] + SplitDots(path[1..])[0];
    }
  }

  lemma {:induction false} DottedExactly(path: string)
    ensures Dotted(path) <==> WordsFrom(SplitDots(path))
  {
    if path != "" {
      DottedExactly(path[1..]);
      assert path == [path[0]] + path[1..];
      DottedStep(path[0], path[1..]);
      WordsPrepend(path[0], SplitDots(path[1..]));
      Alphabets(path[0]);
      FirstWord(path[1..]);
      if |path| > 1 { Alphabets(path[1]); }
    }
  }

  /** A template path is dot-separated words, each starting with a letter. */
  lemma ValidPathExactly(path: string)
    ensures ValidPath(path) <==> forall k | 0 <= k < |SplitDots(path)| :: PathWord(SplitDots(path)[k])
  {
    var parts := SplitDots(path);
    DottedExactly(path);
    FirstWord(path);
    if path != "" {
      Alphabets(path[0]);
    }
    assert PathWord(parts[0]) <==> path != "" && LowerLetter(path[0]) && Tail(parts[0]);
  }

  // ---------------------------------------------------------------- paths

  function JoinSlashes(segments: seq<string>): string
    requires segments != []
  {
    if |segments| == 1 then segments[0] else segments[0] + "/" + JoinSlashes(segments[1..])
  }

  /** The segments of a path hold no slash and give it back when joined with slashes. */
  lemma {:induction false} SegmentsJoin(p: Path, at: nat)
    requires at <= |p| && forall i | 0 <= i < at :: p[i] != '/'
    ensures JoinSlashes(SegmentsFrom(p, at)) == p && forall s | s in SegmentsFrom(p, at) :: '/' !in s
    decreases |p|, |p| - at
  {
    if at < |p| {
      if p[at] == '/' {
        SegmentsJoin(p[at + 1..], 0);
        assert SegmentsFrom(p, at)[1..] == SegmentsFrom(p[at + 1..], 0);
        assert p == p[..at] + "/" + p[at + 1..];
      } else {
        SegmentsJoin(p, at + 1);
      }
    }
  }

  /** The names of devices, which Windows reserves. */
  predicate DeviceName(n: string) {
    n in ["CON", "PRN", "AUX", "NUL",
          "COM1", "COM2", "COM3", "COM4", "COM5", "COM6", "COM7", "COM8", "COM9",
          "LPT1", "LPT2", "LPT3", "LPT4", "LPT5", "LPT6", "LPT7", "LPT8", "LPT9"]
  }

  /** The capital of a letter; any other character as it is. */
  predicate CapitalOf(c: char, d: char) {
    if c in Lower then exists k | 0 <= k < 26 :: c == Lower[k] && d == Capital[k] else d == c
  }

  lemma LetterAt(k: nat)
    requires k < 26
    ensures Lower[k] as int == 'a' as int + k && Capital[k] as int == 'A' as int + k
  {
  }

  lemma CapitalExactly(c: char)
    ensures CapitalOf(c, if 'a' <= c <= 'z' then (c as int - 32) as char else c)
  {
    Alphabets(c);
    if 'a' <= c <= 'z' {
      LetterAt(c as int - 'a' as int);
    }
  }

  lemma UpperExactly(s: string)
    ensures |Upper(s)| == |s| && forall i | 0 <= i < |s| :: CapitalOf(s[i], Upper(s)[i])
  {
    forall i | 0 <= i < |s|
      ensures CapitalOf(s[i], Upper(s)[i])
    {
      CapitalExactly(s[i]);
    }
  }

  /** Folding the case of a text is the other way round: each capital becomes its letter. */
  lemma FoldExactly(s: string)
    ensures |Fold(s)| == |s| && forall i | 0 <= i < |s| :: if s[i] in Capital then CapitalOf(Fold(s)[i], s[i]) else Fold(s)[i] == s[i]
  {
    forall i | 0 <= i < |s|
      ensures if s[i] in Capital then CapitalOf(Fold(s)[i], s[i]) else Fold(s)[i] == s[i]
    {
      Alphabets(s[i]);
      if s[i] in Capital {
        CapitalExactly(Fold(s)[i]);
        Alphabets(Fold(s)[i]);
      }
    }
  }

  /** What stands before the first dot. */
  lemma {:induction false} UpToDotExactly(s: string)
    ensures UpToDot(s) <= s && '.' !in UpToDot(s) && (UpToDot(s) == s || s[|UpToDot(s)|] == '.')
  {
    if s != "" && s[0] != '.' {
      UpToDotExactly(s[1..]);
      assert s == [s[0]] + s[1..];
    }
  }

  lemma DeviceExactly(base: string)
    ensures DeviceName(base) <==>
            base in {"CON", "PRN", "AUX", "NUL"} ||
            (|base| == 4 && (base[..3] == "COM" || base[..3] == "LPT") && '1' <= base[3] <= '9')
  {
    if |base| == 4 {
      assert base == [base[0], base[1], base[2], base[3]] && base[..3] == [base[0], base[1], base[2]];
      Alphabets(base[3]);
    }
  }

  /** A name: no step up or out, no drive or stream, no end that Windows drops, and no device, whatever its extension. */
  predicate Name(s: string) {
    s !in ["", ".", ".."] && (forall c | c in s :: c != ':') && s[|s| - 1] !in ". " && !DeviceName(Upper(UpToDot(s)))
  }

  lemma NameExactly(segment: string)
    ensures SafeSegment(segment) <==> Name(segment)
  {
    DeviceExactly(Upper(UpToDot(segment)));
  }

  /** A safe path is neither empty nor too long, and each of its segments is a name. */
  lemma SafePathExactly(p: Path)
    ensures SafePath(p) <==>
            p != "" && |p| <= 1024 && (forall c | c in p :: c != '\0' && c != '\\') && forall s | s in Segments(p) :: Name(s)
  {
    forall s | s in Segments(p)
      ensures SafeSegment(s) <==> Name(s)
    {
      NameExactly(s);
    }
  }

  // ---------------------------------------------------------------- digests

  lemma ChecksumExactly(s: string)
    ensures ValidChecksum(s) <==>
            exists hex: string :: s == "sha256:" + hex && |hex| == 64 && forall i | 0 <= i < 64 :: hex[i] in Digits + "abcdef"
  {
    if ValidChecksum(s) {
      assert s == "sha256:" + s[7..];
    }
  }

  /** A dependency is pinned by an id, a version and a digest. */
  lemma PinnedExactly(d: Dependency)
    ensures Pinned(d) <==>
            d.id != "" && d.version != "" &&
            exists hex: string :: d.checksum == "sha256:" + hex && |hex| == 64 && forall i | 0 <= i < 64 :: hex[i] in Digits + "abcdef"
  {
    ChecksumExactly(d.checksum);
  }

  /** A merge specification names the one strategy, a comment that starts a line in either style, and a region. */
  lemma MergeSpecExactly(m: MergeSpec)
    ensures ValidMergeSpec(Some(m)) <==>
            m.strategy == "generated_region_v1" && m.commentPrefix in ["//", "#"] &&
            m.regionId != "" && m.regionId[0] in Lower && Words(m.regionId)
    ensures !ValidMergeSpec(None)
  {
    StableIdentifierExactly(m.regionId);
  }
}
