/**
 Slash-separated relative paths, already lower-cased, and the overlap scan that the request
 validator and the completion check run over a sorted list of them.
 */
module Paths {
  import opened Ordering

  type Path = string

  /** `a` is a proper directory ancestor of `p`. */
  predicate Ancestor(a: Path, p: Path) {
    |a| < |p| && a == p[..|a|] && p[|a|] == '/'
  }

  predicate Within(d: Path, p: Path) {
    p == d || Ancestor(d, p)
  }

  predicate Overlap(left: Path, right: Path) {
    left == right || Ancestor(left, right) || Ancestor(right, left)
  }

  function Join(dir: Path, rest: Path): Path {
    dir + "/" + rest
  }

  lemma JoinWithin(dir: Path, rest: Path)
    ensures Ancestor(dir, Join(dir, rest))
  {
  }

  lemma JoinInjective(dir: Path, p: Path, q: Path)
    requires Join(dir, p) == Join(dir, q)
    ensures p == q
  {
    assert p == Join(dir, p)[|dir| + 1..];
    assert q == Join(dir, q)[|dir| + 1..];
  }

  lemma AncestorTransitive(a: Path, b: Path, c: Path)
    requires Within(a, b) && Within(b, c)
    ensures Within(a, c)
  {
  }

  /** Two ancestors of one path lie on one chain. */
  lemma AncestorsComparable(a: Path, b: Path, p: Path)
    requires Within(a, p) && Within(b, p)
    ensures Within(a, b) || Within(b, a)
  {
    if |a| < |b| {
      assert a == b[..|a|];
    } else if |b| < |a| {
      assert b == a[..|b|];
    } else {
      assert a == p[..|a|] && b == p[..|b|];
    }
  }

  /** The directories that must exist before `p` can. */
  function Ancestors(p: Path): (r: set<Path>)
    ensures forall a :: a in r <==> Ancestor(a, p)
  {
    var r := set i | 0 <= i < |p| && p[i] == '/' :: p[..i];
    assert forall a :: Ancestor(a, p) ==> a == p[..|a|];
    r
  }

  // ---------------------------------------------------------------- safe relative paths

  function Segments(p: Path): (r: seq<string>)
    ensures |r| >= 1
    decreases |p|
  {
    SegmentsFrom(p, 0)
  }

  /** The slash-separated segments of `p`, where `p[..at]` is known to hold no slash. */
  function SegmentsFrom(p: Path, at: nat): (r: seq<string>)
    requires at <= |p|
    ensures |r| >= 1
    decreases |p|, |p| - at
  {
    if at == |p| then [p]
    else if p[at] == '/' then [p[..at]] + SegmentsFrom(p[at + 1..], 0)
    else SegmentsFrom(p, at + 1)
  }

  function Upper(s: string): string {
    seq(|s|, i requires 0 <= i < |s| =>
      if 'a' <= s[i] <= 'z' then (s[i] as int - 32) as char else s[i])
  }

  function UpToDot(s: string): string {
    if s == "" || s[0] == '.' then "" else [s[0]] + UpToDot(s[1..])
  }

  predicate ReservedWindowsName(segment: string) {
    var base := Upper(UpToDot(segment));
    base in {"CON", "PRN", "AUX", "NUL"} ||
    (|base| == 4 && (base[..3] == "COM" || base[..3] == "LPT") && '1' <= base[3] <= '9')
  }

  predicate SafeSegment(segment: string) {
    segment != "" && segment != "." && segment != ".." && ':' !in segment &&
    segment[|segment| - 1] != '.' && segment[|segment| - 1] != ' ' && !ReservedWindowsName(segment)
  }

  predicate SafePath(p: Path) {
    0 < |p| <= 1024 && '\0' !in p && '\\' !in p &&
    forall i | 0 <= i < |Segments(p)| :: SafeSegment(Segments(p)[i])
  }

  // ---------------------------------------------------------------- sorted-neighbour overlap scan

  function Self(p: Path): string { p }

  ghost predicate NoAdjacentOverlap(sorted: seq<Path>) {
    forall i | 1 <= i < |sorted| :: !Overlap(sorted[i - 1], sorted[i])
  }

  /** Sorts the paths and compares each with its successor only. */
  method NonOverlapping(paths: seq<Path>) returns (ok: bool)
    ensures ok <==> ScanAccepts(paths)
  {
    var values := Sort(paths, Self);
    ScanDeterministic(paths, values);
    for i := 0 to |values|
      invariant forall j | 1 <= j < i :: !Overlap(values[j - 1], values[j])
    {
      if i > 0 && Overlap(values[i - 1], values[i]) {
        return false;
      }
    }
    return true;
  }

  /** The scan's verdict: the neighbours in some sorted arrangement do not overlap. */
  ghost predicate ScanAccepts(paths: seq<Path>) {
    exists sorted :: IsSortOf(sorted, paths, Self) && NoAdjacentOverlap(sorted)
  }

  lemma HeadIsLeast(s: seq<string>, x: string)
    requires Sorted(s, Self) && x in multiset(s)
    ensures s != [] && AtMost(s[0], x)
  {
    var i :| 0 <= i < |s| && s[i] == x;
    LessTrichotomy(x, x);
    assert i > 0 ==> AtMost(Self(s[0]), Self(s[i]));
  }

  lemma TailMultiset(s: seq<string>)
    requires s != []
    ensures multiset(s) == multiset{s[0]} + multiset(s[1..])
  {
    assert s == [s[0]] + s[1..];
  }

  lemma HeadsAgree(a: seq<string>, b: seq<string>)
    requires Sorted(a, Self) && Sorted(b, Self) && multiset(a) == multiset(b) && a != []
    ensures b != [] && a[0] == b[0]
  {
    assert a[0] in multiset(b);
    HeadIsLeast(b, a[0]);
    assert b[0] in multiset(a);
    HeadIsLeast(a, b[0]);
    LessTrichotomy(a[0], b[0]);
  }

  lemma {:induction false} SortedStringsUnique(a: seq<string>, b: seq<string>)
    requires Sorted(a, Self) && Sorted(b, Self) && multiset(a) == multiset(b)
    ensures a == b
  {
    assert |multiset(a)| == |multiset(b)|;
    if a != [] {
      HeadsAgree(a, b);
      TailMultiset(a);
      TailMultiset(b);
      assert multiset(a[1..]) == multiset(a) - multiset{a[0]};
      assert multiset(b[1..]) == multiset(b) - multiset{b[0]};
      SortedStringsUnique(a[1..], b[1..]);
      assert a == [a[0]] + a[1..] && b == [b[0]] + b[1..];
    }
  }

  /** Whatever sorted arrangement is looked at, the verdict is the same. */
  lemma ScanDeterministic(paths: seq<Path>, sorted: seq<Path>)
    requires IsSortOf(sorted, paths, Self)
    ensures ScanAccepts(paths) <==> NoAdjacentOverlap(sorted)
  {
    forall other | IsSortOf(other, paths, Self)
      ensures other == sorted
    {
      SortedStringsUnique(other, sorted);
    }
  }

  lemma {:induction false} PrefixNotAfter(a: string, b: string)
    requires |a| <= |b| && a == b[..|a|]
    ensures AtMost(a, b)
  {
    if a != "" {
      assert b[1..][..|a[1..]|] == a[1..];
      PrefixNotAfter(a[1..], b[1..]);
    }
  }

  /** Everything sorted between a string and one of its extensions extends it too, below that extension. */
  lemma {:induction false} BetweenExtends(a: string, y: string, b: string)
    requires |a| < |b| && a == b[..|a|]
    requires AtMost(a, y) && AtMost(y, b)
    ensures |a| <= |y| && a == y[..|a|]
    ensures |a| < |y| ==> y[|a|] <= b[|a|]
  {
    if a == "" {
    } else {
      assert b[1..][..|a[1..]|] == a[1..];
      assert y != "" && y[0] == a[0];
      BetweenExtends(a[1..], y[1..], b[1..]);
      assert y == [y[0]] + y[1..];
    }
  }

  /** The scan never rejects a list unless two of its entries really coincide or nest. */
  lemma ScanRejectsOnlyOverlaps(paths: seq<Path>)
    requires !ScanAccepts(paths)
    ensures exists i, j :: 0 <= i < |paths| && 0 <= j < |paths| && i != j && Overlap(paths[i], paths[j])
  {
    var sorted := SortExists(paths, Self);
    ScanDeterministic(paths, sorted);
    var k :| 1 <= k < |sorted| && Overlap(sorted[k - 1], sorted[k]);
    SortKeepsMembers(sorted, paths, Self);
    assert sorted[k - 1] in paths && sorted[k] in paths;
    var i :| 0 <= i < |paths| && paths[i] == sorted[k - 1];
    var j :| 0 <= j < |paths| && paths[j] == sorted[k];
    if i == j {
      OccursTwice(sorted, k - 1, k);
      if DistinctKeys(paths, Self) {
        OccursOnce(paths, i, Self);
        assert false;
      }
      var m, n :| 0 <= m < n < |paths| && Self(paths[m]) == Self(paths[n]);
      assert Overlap(paths[m], paths[n]);
    }
  }

  /** Some entry extends `a` by a byte that sorts below the separator, and so can stand between `a` and `a/...`. */
  ghost predicate ExtendedBelowSlash(paths: seq<Path>, a: Path) {
    exists x :: x in paths && |a| < |x| && a == x[..|a|] && x[|a|] < '/'
  }

  /** Two different positions hold the same path: always rejected. */
  lemma ScanRejectsEqualPaths(paths: seq<Path>)
    requires !DistinctKeys(paths, Self)
    ensures !ScanAccepts(paths)
  {
    var sorted := SortExists(paths, Self);
    ScanDeterministic(paths, sorted);
    if DistinctKeys(sorted, Self) {
      DistinctKeysPermute(sorted, paths, Self);
    } else {
      var i, j :| 0 <= i < j < |sorted| && Self(sorted[i]) == Self(sorted[j]);
      assert AtMost(Self(sorted[i]), Self(sorted[i + 1]));
      LessTrichotomy(sorted[i], sorted[j]);
      assert AtMost(Self(sorted[i + 1]), Self(sorted[j])) || i + 1 == j;
      LessTrichotomy(sorted[i], sorted[i + 1]);
      var k := i + 1;
      assert Overlap(sorted[k - 1], sorted[k]);
    }
  }

  /** A nested pair is rejected unless its ancestor is also extended by a byte below '/'. */
  lemma ScanRejectsNestedPaths(paths: seq<Path>, a: Path, b: Path)
    requires a in paths && b in paths && Ancestor(a, b)
    requires !ExtendedBelowSlash(paths, a)
    ensures !ScanAccepts(paths)
  {
    var sorted := SortExists(paths, Self);
    ScanDeterministic(paths, sorted);
    SortKeepsMembers(sorted, paths, Self);
    var i :| 0 <= i < |sorted| && sorted[i] == a;
    var j :| 0 <= j < |sorted| && sorted[j] == b;
    PrefixNotAfter(a, b);
    LessTrichotomy(a, b);
    assert j < i ==> AtMost(Self(sorted[j]), Self(sorted[i]));
    var k := i + 1;
    assert AtMost(Self(sorted[i]), Self(sorted[k]));
    LessTrichotomy(b, b);
    assert k < j ==> AtMost(Self(sorted[k]), Self(sorted[j]));
    BetweenExtends(a, sorted[k], b);
    assert sorted[k] in paths;
    assert Overlap(sorted[k - 1], sorted[k]);
  }

  /** Of two extensions of `a`, the one that goes on with the smaller byte comes first. */
  lemma {:induction false} ExtensionsInOrder(a: string, x: string, b: string)
    requires |a| < |x| && a == x[..|a|] && |a| < |b| && a == b[..|a|]
    requires x[|a|] < b[|a|]
    ensures Less(x, b)
  {
    if a != "" {
      assert x[1..][..|a[1..]|] == a[1..] && b[1..][..|a[1..]|] == a[1..];
      ExtensionsInOrder(a[1..], x[1..], b[1..]);
    }
  }

  /**
   What the scan accepts, exactly: distinct paths in which every path with a descendant is also extended by a byte
   below '/'. Without such extensions that is the absence of any overlap.
   */
  lemma ScanAcceptsExactly(paths: seq<Path>)
    ensures ScanAccepts(paths) <==>
            DistinctKeys(paths, Self) &&
            forall a, b | a in paths && b in paths && Ancestor(a, b) :: ExtendedBelowSlash(paths, a)
  {
    if !DistinctKeys(paths, Self) {
      ScanRejectsEqualPaths(paths);
    } else {
      forall a, b | a in paths && b in paths && Ancestor(a, b) && !ExtendedBelowSlash(paths, a)
        ensures !ScanAccepts(paths)
      {
        ScanRejectsNestedPaths(paths, a, b);
      }
      if !ScanAccepts(paths) {
        var a, b := RejectedForNesting(paths);
      }
    }
  }

  /** A rejection of distinct paths is due to a nested pair with nothing below '/' to part it. */
  lemma RejectedForNesting(paths: seq<Path>) returns (a: Path, b: Path)
    requires DistinctKeys(paths, Self) && !ScanAccepts(paths)
    ensures a in paths && b in paths && Ancestor(a, b) && !ExtendedBelowSlash(paths, a)
  {
    var sorted, k := RejectedNeighbours(paths);
    a, b := sorted[k - 1], sorted[k];
    NestedNeighbours(sorted, k);
    SortKeepsMembers(sorted, paths, Self);
    ExtendedByMembers(sorted, paths, a);
  }

  lemma RejectedNeighbours(paths: seq<Path>) returns (sorted: seq<Path>, k: nat)
    requires DistinctKeys(paths, Self) && !ScanAccepts(paths)
    ensures IsSortOf(sorted, paths, Self) && StrictlySorted(sorted, Self)
    ensures 1 <= k < |sorted| && Overlap(sorted[k - 1], sorted[k])
  {
    sorted := SortExists(paths, Self);
    ScanDeterministic(paths, sorted);
    SortOfDistinctIsStrict(sorted, paths, Self);
    k :| 1 <= k < |sorted| && Overlap(sorted[k - 1], sorted[k]);
  }

  lemma NestedNeighbours(sorted: seq<Path>, k: nat)
    requires StrictlySorted(sorted, Self) && 1 <= k < |sorted| && Overlap(sorted[k - 1], sorted[k])
    ensures Ancestor(sorted[k - 1], sorted[k]) && !ExtendedBelowSlash(sorted, sorted[k - 1])
  {
    var a, b := sorted[k - 1], sorted[k];
    assert Less(Self(a), Self(b));
    LessTrichotomy(a, b);
    OverlapInOrder(a, b);
    NothingBetweenNeighbours(sorted, k);
  }

  lemma ExtendedByMembers(p: seq<Path>, q: seq<Path>, a: Path)
    requires forall x :: x in p <==> x in q
    ensures ExtendedBelowSlash(q, a) ==> ExtendedBelowSlash(p, a)
  {
  }

  lemma NothingBetweenNeighbours(sorted: seq<Path>, k: nat)
    requires StrictlySorted(sorted, Self) && 1 <= k < |sorted| && Ancestor(sorted[k - 1], sorted[k])
    ensures !ExtendedBelowSlash(sorted, sorted[k - 1])
  {
    var a, b := sorted[k - 1], sorted[k];
    forall m | 0 <= m < |sorted| && |a| < |sorted[m]| && a == sorted[m][..|a|]
      ensures sorted[m][|a|] >= '/'
    {
      var x := sorted[m];
      assert m < k - 1 ==> Less(Self(sorted[m]), Self(sorted[k - 1]));
      assert k < m ==> Less(Self(sorted[k]), Self(sorted[m]));
      PrefixNotAfter(a, x);
      LessTrichotomy(a, x);
      LessTrichotomy(x, b);
      if x[|a|] < '/' {
        ExtensionsInOrder(a, x, b);
      }
    }
  }

  /** In sorted order only the earlier of two neighbours can be the ancestor. */
  lemma OverlapInOrder(a: Path, b: Path)
    requires AtMost(a, b)
    ensures Overlap(a, b) <==> a == b || Ancestor(a, b)
  {
    if Ancestor(b, a) {
      PrefixNotAfter(b, a);
      LessTrichotomy(a, b);
    }
  }

  /** The side condition is needed: the nested pair "a", "a/c" is accepted when "a-b" stands between. */
  lemma ScanMissesNestedPair()
    ensures Ancestor("a", "a/c")
    ensures ScanAccepts(["a", "a-b", "a/c"])
  {
    var a, b, c := "a", "a-b", "a/c";
    assert Less(b, c) by { assert b[1..] == "-b" && c[1..] == "/c"; }
    assert Less(a, b) by { assert a[1..] == "" && b[1..] == "-b"; }
    assert !Overlap(a, b) && !Overlap(b, c);
    ThreeInOrder(a, b, c);
  }

  lemma ThreeInOrder(a: Path, b: Path, c: Path)
    requires Less(a, b) && Less(b, c) && !Overlap(a, b) && !Overlap(b, c)
    ensures ScanAccepts([a, b, c])
  {
    LessTransitive(a, b, c);
    LessTrichotomy(a, b);
    LessTrichotomy(a, c);
    LessTrichotomy(b, c);
    assert IsSortOf([a, b, c], [a, b, c], Self) && NoAdjacentOverlap([a, b, c]);
  }
}
