/**
 File maps before, during and after a commit: the map overlaid with changes, the part of a map outside
 the generator's working directories, and mixtures of an old and a new map.
 */
module Overlay {
  import opened Digests
  import opened Ordering
  import opened Paths
  import opened Model

  type Files = map<Path, Bytes>

  /** `base` with the given changes written, in order. */
  function Overlaid(base: Files, changes: seq<FileChange>): Files {
    if changes == [] then base
    else
      var last := changes[|changes| - 1];
      Overlaid(base, changes[..|changes| - 1])[last.path := last.bytes]
  }

  predicate Hidden(roots: set<Path>, p: Path) {
    exists h | h in roots :: Within(h, p)
  }

  /** The files outside the given working directories. */
  function Project(files: Files, roots: set<Path>): Files {
    map p | p in files && !Hidden(roots, p) :: files[p]
  }

  function At(files: Files, p: Path): Option<Bytes> {
    if p in files then Some(files[p]) else None
  }

  /** Every path holds what it held in `before` or what it holds in `after`. */
  ghost predicate Mixture(before: Files, after: Files, now: Files) {
    forall p :: At(now, p) == At(before, p) || At(now, p) == At(after, p)
  }

  ghost predicate ChangesPath(changes: seq<FileChange>, p: Path) {
    exists c :: c in changes && c.path == p
  }

  lemma {:induction false} OverlaidElsewhere(base: Files, changes: seq<FileChange>, p: Path)
    requires !ChangesPath(changes, p)
    ensures At(Overlaid(base, changes), p) == At(base, p)
  {
    if changes != [] {
      var n := |changes| - 1;
      assert changes[n] in changes;
      assert forall c :: c in changes[..n] ==> c in changes;
      OverlaidElsewhere(base, changes[..n], p);
    }
  }

  lemma {:induction false} OverlaidAt(base: Files, changes: seq<FileChange>, c: FileChange)
    requires DistinctKeys(changes, ChangePath) && c in changes
    ensures At(Overlaid(base, changes), c.path) == Some(c.bytes)
  {
    var n := |changes| - 1;
    var k :| 0 <= k < |changes| && changes[k] == c;
    if k < n {
      assert changes[..n][k] == c;
      assert ChangePath(changes[k]) != ChangePath(changes[n]);
      OverlaidAt(base, changes[..n], c);
    }
  }

  /** Undoing the last of a list of changes to distinct paths. */
  lemma UndoLast(base: Files, changes: seq<FileChange>)
    requires changes != [] && DistinctKeys(changes, ChangePath)
    ensures var last := changes[|changes| - 1];
            var before := Overlaid(base, changes[..|changes| - 1]);
            At(before, last.path) == At(base, last.path) &&
            (last.path in base ==> Overlaid(base, changes)[last.path := base[last.path]] == before) &&
            (last.path !in base ==> Overlaid(base, changes) - {last.path} == before)
  {
    var n := |changes| - 1;
    var last := changes[n];
    forall c | c in changes[..n]
      ensures c.path != last.path
    {
      var k :| 0 <= k < n && changes[..n][k] == c;
      assert ChangePath(changes[k]) != ChangePath(changes[n]);
    }
    OverlaidElsewhere(base, changes[..n], last.path);
    var before := Overlaid(base, changes[..n]);
    if last.path in base {
      assert before[last.path := base[last.path]] == before;
    } else {
      assert before - {last.path} == before;
    }
  }

  lemma OverlaidMembers(base: Files, a: seq<FileChange>, b: seq<FileChange>)
    requires DistinctKeys(a, ChangePath) && DistinctKeys(b, ChangePath)
    requires forall c :: c in a <==> c in b
    ensures Overlaid(base, a) == Overlaid(base, b)
  {
    forall p
      ensures At(Overlaid(base, a), p) == At(Overlaid(base, b), p)
    {
      if c :| c in a && c.path == p {
        OverlaidAt(base, a, c);
        OverlaidAt(base, b, c);
      } else {
        OverlaidElsewhere(base, a, p);
        OverlaidElsewhere(base, b, p);
      }
    }
    SameEverywhere(Overlaid(base, a), Overlaid(base, b));
  }

  lemma SameEverywhere(f: Files, g: Files)
    requires forall p :: At(f, p) == At(g, p)
    ensures f == g
  {
    forall p
      ensures p in f <==> p in g
      ensures p in f ==> f[p] == g[p]
    {
      assert At(f, p) == At(g, p);
    }
  }

  /** A mixture with some of the changes applied is a mixture with all of them. */
  lemma MixtureOfMore(base: Files, some: seq<FileChange>, all: seq<FileChange>, now: Files)
    requires DistinctKeys(some, ChangePath) && DistinctKeys(all, ChangePath)
    requires forall c :: c in some ==> c in all
    requires Mixture(base, Overlaid(base, some), now)
    ensures Mixture(base, Overlaid(base, all), now)
  {
    forall p
      ensures At(now, p) == At(base, p) || At(now, p) == At(Overlaid(base, all), p)
    {
      if c :| c in some && c.path == p {
        OverlaidAt(base, some, c);
        OverlaidAt(base, all, c);
      } else {
        OverlaidElsewhere(base, some, p);
      }
    }
  }

  lemma ProjectPut(files: Files, roots: set<Path>, p: Path, content: Bytes)
    ensures Project(files[p := content], roots) ==
            if Hidden(roots, p) then Project(files, roots) else Project(files, roots)[p := content]
  {
  }

  lemma ProjectDrop(files: Files, roots: set<Path>, p: Path)
    ensures Project(files - {p}, roots) == if Hidden(roots, p) then Project(files, roots) else Project(files, roots) - {p}
  {
  }

  /** Replacing a file from inside a working directory. */
  lemma ProjectMove(files: Files, roots: set<Path>, from: Path, to: Path)
    requires from in files && Hidden(roots, from) && !Hidden(roots, to)
    ensures Project((files - {from})[to := files[from]], roots) == Project(files, roots)[to := files[from]]
  {
    ProjectDrop(files, roots, from);
    ProjectPut(files - {from}, roots, to, files[from]);
  }

  lemma ProjectAt(files: Files, roots: set<Path>, p: Path)
    requires !Hidden(roots, p)
    ensures At(Project(files, roots), p) == At(files, p)
  {
  }

  /** Nothing lives below the working directories. */
  lemma ProjectAll(files: Files, roots: set<Path>)
    requires forall p | p in files :: !Hidden(roots, p)
    ensures Project(files, roots) == files
  {
  }
}
