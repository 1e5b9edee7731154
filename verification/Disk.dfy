/**
 The filesystem below one workspace root: a map of regular files, a set of directories, and the system
 calls the generator makes on them.

 Every call may fail for no visible reason; such a failure is counted in `faults`, so that "at most one
 operation failed" can be said. A call that fails without a fault has a reason stated in its contract.
 Renaming is atomic; writing is not, and may leave a partial file behind. `seen` lists the files each complete
 inspection has found, so that "the target was seen to match" can be said of a moment that has passed.
 */
module Disk {
  import opened Digests
  import opened Paths

  datatype Tree = Tree(files: map<Path, Bytes>, dirs: set<Path>)

  /** Files and directories are disjoint, and everything below a directory has that directory above it. */
  predicate Closed(t: Tree) {
    t.files.Keys !! t.dirs &&
    (forall p | p in t.files :: Ancestors(p) <= t.dirs) && (forall p | p in t.dirs :: Ancestors(p) <= t.dirs)
  }

  predicate Exists(t: Tree, p: Path) {
    p in t.files || p in t.dirs
  }

  predicate ParentsExist(t: Tree, p: Path) {
    Ancestors(p) <= t.dirs
  }

  /** Some ancestor of `p` is a regular file, so nothing can stand at `p`. */
  ghost predicate Blocked(t: Tree, p: Path) {
    exists a :: Ancestor(a, p) && a in t.files
  }

  predicate Empty(t: Tree, d: Path) {
    (forall p | p in t.files :: !Ancestor(d, p)) && (forall p | p in t.dirs :: !Ancestor(d, p))
  }

  /** Everything at or below `d` removed. */
  function Pruned(t: Tree, d: Path): Tree {
    Tree(map p | p in t.files && !Within(d, p) :: t.files[p], set p | p in t.dirs && !Within(d, p))
  }

  /** What a failed recursive removal may leave: some things at or below `d` gone, all else as before. */
  predicate PartlyPruned(before: Tree, after: Tree, d: Path) {
    Closed(after) && after.dirs <= before.dirs && after.files.Keys <= before.files.Keys &&
    (forall p | p in after.files :: after.files[p] == before.files[p]) &&
    (forall p | p in before.files && !Within(d, p) :: p in after.files) &&
    (forall p | p in before.dirs && !Within(d, p) :: p in after.dirs)
  }

  datatype Entry = Missing | IsFile | IsDir | Unreadable

  class Filesystem {
    var tree: Tree
    ghost var faults: nat
    ghost var seen: seq<map<Path, Bytes>>

    constructor (t: Tree)
      requires Closed(t)
      ensures tree == t && faults == 0 && seen == []
    {
      tree := t;
      faults := 0;
      seen := [];
    }

    /** Whether the caller is told to stop here; being stopped counts as a failure too. */
    method Interrupted() returns (yes: bool)
      modifies this`faults
      ensures faults >= old(faults)
      ensures yes ==> faults > old(faults)
    {
      if * {
        faults := faults + 1;
        return true;
      }
      return false;
    }

    /** The workspace root itself must be a readable directory. */
    method StatRoot() returns (ok: bool)
      modifies this`faults
      ensures faults >= old(faults)
      ensures !ok ==> faults > old(faults)
    {
      if * {
        faults := faults + 1;
        return false;
      }
      return true;
    }

    method Lstat(p: Path) returns (e: Entry)
      modifies this`faults
      ensures e == IsFile ==> p in tree.files
      ensures e == IsDir ==> p in tree.dirs
      ensures e == Missing ==> !Exists(tree, p)
      ensures faults >= old(faults)
      ensures e == Unreadable && faults == old(faults) ==> Blocked(tree, p)
    {
      if * {
        faults := faults + 1;
        return Unreadable;
      }
      if p in tree.files { return IsFile; }
      if p in tree.dirs { return IsDir; }
      return Missing;
    }

    method Mkdir(p: Path) returns (ok: bool)
      requires Closed(tree)
      modifies this`tree, this`faults
      ensures Closed(tree) && faults >= old(faults)
      ensures ok ==> tree == old(tree).(dirs := old(tree.dirs) + {p}) && !Exists(old(tree), p)
      ensures !ok ==> tree == old(tree)
      ensures !ok && faults == old(faults) ==> Exists(tree, p) || !ParentsExist(tree, p)
    {
      if * {
        faults := faults + 1;
        return false;
      }
      if Exists(tree, p) || !ParentsExist(tree, p) {
        return false;
      }
      tree := tree.(dirs := tree.dirs + {p});
      return true;
    }

    /** Opens `p` exclusively and writes `content`; a failure after the open leaves arbitrary content. */
    method CreateExclusive(p: Path, content: Bytes) returns (ok: bool)
      requires Closed(tree)
      modifies this`tree, this`faults
      ensures Closed(tree) && faults >= old(faults) && tree.dirs == old(tree.dirs)
      ensures ok ==> tree.files == old(tree.files)[p := content] && !Exists(old(tree), p)
      ensures !ok ==> tree == old(tree) ||
                      (!Exists(old(tree), p) && p in tree.files && tree.files == old(tree.files)[p := tree.files[p]])
      ensures !ok && faults == old(faults) ==> tree == old(tree) && (Exists(tree, p) || !ParentsExist(tree, p))
    {
      if * {
        faults := faults + 1;
        return false;
      }
      if Exists(tree, p) || !ParentsExist(tree, p) {
        return false;
      }
      if * {
        faults := faults + 1;
        var partial: Bytes :| true;
        tree := tree.(files := tree.files[p := partial]);
        return false;
      }
      tree := tree.(files := tree.files[p := content]);
      return true;
    }

    method ReadFile(p: Path) returns (r: Result<Bytes, ()>)
      modifies this`faults
      ensures faults >= old(faults)
      ensures r.Ok? ==> p in tree.files && r.value == tree.files[p]
      ensures r.Err? && faults == old(faults) ==> p !in tree.files
    {
      if * {
        faults := faults + 1;
        return Err(());
      }
      r := if p in tree.files then Ok(tree.files[p]) else Err(());
    }

    /** Reading or changing the mode of a file; modes themselves are not modelled. */
    method TouchMode(p: Path) returns (ok: bool)
      modifies this`faults
      ensures faults >= old(faults)
      ensures ok ==> Exists(tree, p)
      ensures !ok && faults == old(faults) ==> !Exists(tree, p)
    {
      if * {
        faults := faults + 1;
        return false;
      }
      ok := Exists(tree, p);
    }

    /** Atomic replacement of the file at `to` by the file at `from`. */
    method Rename(from: Path, to: Path) returns (ok: bool)
      requires Closed(tree)
      modifies this`tree, this`faults
      ensures Closed(tree) && faults >= old(faults) && tree.dirs == old(tree.dirs)
      ensures ok ==> from in old(tree.files) && tree.files == (old(tree.files) - {from})[to := old(tree.files)[from]]
      ensures !ok ==> tree == old(tree)
      ensures !ok && faults == old(faults) ==> from !in tree.files || to in tree.dirs || !ParentsExist(tree, to)
    {
      if * {
        faults := faults + 1;
        return false;
      }
      if from !in tree.files || to in tree.dirs || !ParentsExist(tree, to) {
        return false;
      }
      tree := tree.(files := (tree.files - {from})[to := tree.files[from]]);
      return true;
    }

    /** Removes a file or an empty directory; a path that does not exist counts as removed. */
    method Remove(p: Path) returns (ok: bool)
      requires Closed(tree)
      modifies this`tree, this`faults
      ensures Closed(tree) && faults >= old(faults)
      ensures ok ==> tree == Tree(old(tree.files) - {p}, old(tree.dirs) - {p})
      ensures !ok ==> tree == old(tree)
      ensures !ok && faults == old(faults) ==> (p in tree.dirs && !Empty(tree, p)) || Blocked(tree, p)
    {
      if * {
        faults := faults + 1;
        return false;
      }
      if p in tree.dirs && !Empty(tree, p) {
        return false;
      }
      tree := Tree(tree.files - {p}, tree.dirs - {p});
      return true;
    }

    method RemoveAll(d: Path) returns (ok: bool)
      requires Closed(tree)
      modifies this`tree, this`faults
      ensures Closed(tree) && faults >= old(faults)
      ensures PartlyPruned(old(tree), tree, d)
      ensures ok ==> tree == Pruned(old(tree), d)
      ensures !ok ==> faults > old(faults)
    {
      PrunedIsPartlyPruned(tree, d);
      if * {
        faults := faults + 1;
        assert PartlyPruned(tree, tree, d);
        var rest: Tree :| PartlyPruned(tree, rest, d);
        assert PartlyPruned(tree, rest, d);
        tree := rest;
        return false;
      }
      tree := Pruned(tree, d);
      return true;
    }
  }

  lemma PrunedIsPartlyPruned(t: Tree, d: Path)
    requires Closed(t)
    ensures PartlyPruned(t, Pruned(t, d), d)
  {
    var after := Pruned(t, d);
    forall p, a | (p in after.files || p in after.dirs) && a in Ancestors(p)
      ensures a in after.dirs
    {
      if Within(d, a) {
        AncestorTransitive(d, a, p);
      }
    }
  }

  // ---------------------------------------------------------------- compound operations

  /** Creates every missing directory among `p[..i]` with `i < upTo` at a separator or at the end of `p`. */
  method MakeDirectories(fs: Filesystem, p: Path, upTo: nat) returns (ok: bool, blocked: bool)
    requires Closed(fs.tree) && upTo <= |p| + 1
    modifies fs`tree, fs`faults
    ensures Closed(fs.tree) && fs.faults >= old(fs.faults)
    ensures fs.tree.files == old(fs.tree.files)
    ensures old(fs.tree.dirs) <= fs.tree.dirs <= old(fs.tree.dirs) + Chain(p, upTo)
    ensures ok ==> fs.tree.dirs == old(fs.tree.dirs) + Chain(p, upTo)
    ensures !ok && fs.faults == old(fs.faults) ==> exists a :: a in Chain(p, upTo) && a in fs.tree.files
    ensures !ok && !blocked ==> fs.faults > old(fs.faults)
    ensures blocked ==> !ok
  {
    for i := 0 to upTo
      invariant Closed(fs.tree) && fs.faults >= old(fs.faults)
      invariant fs.tree.files == old(fs.tree.files)
      invariant fs.tree.dirs == old(fs.tree.dirs) + Chain(p, i)
    {
      ChainStep(p, i);
      if i == |p| || p[i] == '/' {
        var current := p[..i];
        ghost var before := fs.tree;
        var entry := fs.Lstat(current);
        AncestorsInChain(p, i, upTo);
        assert current in Chain(p, i + 1);
        assert current in Chain(p, upTo);
        if entry == IsFile || entry == Unreadable {
          BlockedInChain(fs.tree, p, i, upTo);
          return false, true;
        }
        if entry == Missing {
          var made := fs.Mkdir(current);
          if !made {
            return false, false;
          }
        }
      }
    }
    return true, false;
  }

  /** The prefixes of `p` that end before `upTo`, at a separator or at the end. */
  function Chain(p: Path, upTo: nat): set<Path>
    requires upTo <= |p| + 1
  {
    set i | 0 <= i < upTo && (i == |p| || p[i] == '/') :: p[..i]
  }

  lemma ChainStep(p: Path, i: nat)
    requires i <= |p|
    ensures Chain(p, i + 1) == if i == |p| || p[i] == '/' then Chain(p, i) + {p[..i]} else Chain(p, i)
  {
    forall a
      ensures a in Chain(p, i + 1) <==> a in Chain(p, i) || ((i == |p| || p[i] == '/') && a == p[..i])
    {
    }
  }

  lemma ChainMembers(p: Path)
    ensures forall a :: a in Chain(p, |p|) <==> Ancestor(a, p)
    ensures forall a :: a in Chain(p, |p| + 1) <==> Within(a, p)
    ensures Chain(p, |p|) == Ancestors(p)
    ensures Chain(p, |p| + 1) == Ancestors(p) + {p}
  {
    forall a
      ensures a in Chain(p, |p|) <==> Ancestor(a, p)
    {
      if Ancestor(a, p) {
        assert p[..|a|] == a;
      }
    }
    ChainStep(p, |p|);
    assert p[..|p|] == p;
  }

  lemma AncestorsInChain(p: Path, i: nat, upTo: nat)
    requires i < upTo <= |p| + 1
    ensures Ancestors(p[..i]) <= Chain(p, i) <= Chain(p, upTo)
  {
    forall a | a in Ancestors(p[..i])
      ensures a in Chain(p, i)
    {
      assert a == p[..|a|] && p[|a|] == '/';
    }
  }

  lemma BlockedInChain(t: Tree, p: Path, i: nat, upTo: nat)
    requires i < upTo <= |p| + 1
    ensures Blocked(t, p[..i]) ==> exists a :: a in Chain(p, upTo) && a in t.files
  {
    if a :| Ancestor(a, p[..i]) && a in t.files {
      assert a == p[..|a|] && p[|a|] == '/';
      assert a in Chain(p, upTo);
    }
  }

  /** Creates the parent directories of `p`, then `p` itself, exclusively. */
  method WriteNewFile(fs: Filesystem, p: Path, content: Bytes) returns (ok: bool)
    requires Closed(fs.tree)
    modifies fs`tree, fs`faults
    ensures Closed(fs.tree) && fs.faults >= old(fs.faults)
    ensures old(fs.tree.dirs) <= fs.tree.dirs <= old(fs.tree.dirs) + Ancestors(p)
    ensures ok ==> fs.tree == Tree(old(fs.tree.files)[p := content], old(fs.tree.dirs) + Ancestors(p))
    ensures ok ==> p !in old(fs.tree.files)
    ensures !ok ==> fs.tree.files == old(fs.tree.files) ||
                    (p !in old(fs.tree.files) && p in fs.tree.files && fs.tree.files == old(fs.tree.files)[p := fs.tree.files[p]])
    ensures !ok && fs.faults == old(fs.faults) ==> Exists(old(fs.tree), p) || Blocked(old(fs.tree), p)
  {
    ChainMembers(p);
    var blocked;
    ok, blocked := MakeDirectories(fs, p, |p|);
    if ok {
      assert p !in Ancestors(p);
      ok := fs.CreateExclusive(p, content);
    }
  }

  /** Nothing may exist at the path yet. */
  method ResolveNonexistent(fs: Filesystem, p: Path) returns (ok: bool)
    modifies fs`faults
    ensures fs.faults >= old(fs.faults)
    ensures ok ==> SafePath(p) && !Exists(fs.tree, p)
    ensures !ok && fs.faults == old(fs.faults) ==> !SafePath(p) || Exists(fs.tree, p) || Blocked(fs.tree, p)
  {
    if !SafePath(p) {
      return false;
    }
    var entry := fs.Lstat(p);
    return entry == Missing;
  }

  /** Creates `d` and its ancestors; `blocked` tells a path that is no directory from a failed creation. */
  method CreateSafeDirectory(fs: Filesystem, d: Path) returns (ok: bool, blocked: bool)
    requires Closed(fs.tree)
    modifies fs`tree, fs`faults
    ensures Closed(fs.tree) && fs.faults >= old(fs.faults)
    ensures fs.tree.files == old(fs.tree.files)
    ensures old(fs.tree.dirs) <= fs.tree.dirs <= old(fs.tree.dirs) + Ancestors(d) + {d}
    ensures ok ==> fs.tree.dirs == old(fs.tree.dirs) + Ancestors(d) + {d}
    ensures !ok && fs.faults == old(fs.faults) ==> d in fs.tree.files || Blocked(fs.tree, d)
    ensures !ok && !blocked ==> fs.faults > old(fs.faults)
    ensures blocked ==> !ok
  {
    ChainMembers(d);
    ok, blocked := MakeDirectories(fs, d, |d| + 1);
  }
}
