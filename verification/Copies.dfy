/**
 Directories that hold copies of some files of the tree, each under its own relative path: the staged files and
 backups of a commit, and the recovered files of a rollback.
 */
module Copies {
  import opened Digests
  import opened Paths
  import opened Disk

  function CopyPath(root: Path, p: Path): Path { Join(root, p) }

  /** Inside `root` stand only copies of `done`, and the directories they need. */
  ghost predicate CopyShape(t: Tree, root: Path, done: set<Path>) {
    (forall p | p in t.files && Within(root, p) :: exists q :: q in done && p == CopyPath(root, q)) &&
    (forall d | d in t.dirs && Ancestor(root, d) :: exists q :: q in done && Ancestor(d, CopyPath(root, q)))
  }

  /** None of the paths lies below another. */
  ghost predicate Unnested(paths: set<Path>) {
    forall p, q | p in paths && q in paths :: !Ancestor(p, q)
  }

  lemma JoinAncestor(root: Path, p: Path, q: Path)
    requires Ancestor(Join(root, p), Join(root, q))
    ensures Ancestor(p, q)
  {
    assert q == Join(root, q)[|root| + 1..];
    assert p == Join(root, p)[|root| + 1..];
  }

  lemma JoinKeepsAncestor(root: Path, p: Path, q: Path)
    ensures Ancestor(p, q) ==> Ancestor(Join(root, p), Join(root, q))
  {
  }

  /** A copy whose path is not among the copied ones, nor nests with them, is neither there yet nor blocked. */
  lemma CopyFree(t: Tree, root: Path, done: set<Path>, p: Path)
    requires CopyShape(t, root, done) && p !in done && forall q | q in done :: !Ancestor(p, q) && !Ancestor(q, p)
    requires forall a | Within(a, root) :: a !in t.files
    ensures !Exists(t, CopyPath(root, p)) && !Blocked(t, CopyPath(root, p))
  {
    var r := CopyPath(root, p);
    JoinWithin(root, p);
    if r in t.files {
      var q :| q in done && r == CopyPath(root, q);
      JoinInjective(root, p, q);
    }
    if r in t.dirs {
      var q :| q in done && Ancestor(r, CopyPath(root, q));
      JoinAncestor(root, p, q);
    }
    if a :| Ancestor(a, r) && a in t.files {
      AncestorsComparable(root, a, r);
      if Within(root, a) {
        var q :| q in done && a == CopyPath(root, q);
        JoinAncestor(root, q, p);
      }
    }
  }

  /** One more copy. */
  lemma CopyShapeStep(t: Tree, t': Tree, root: Path, done: set<Path>, p: Path)
    requires CopyShape(t, root, done)
    requires CopyPath(root, p) in t'.files
    requires t' == Tree(t.files[CopyPath(root, p) := t'.files[CopyPath(root, p)]], t.dirs + Ancestors(CopyPath(root, p)))
    ensures CopyShape(t', root, done + {p})
  {
    forall d | d in t'.dirs && Ancestor(root, d)
      ensures exists q :: q in done + {p} && Ancestor(d, CopyPath(root, q))
    {
      if d in t.dirs {
        var q :| q in done && Ancestor(d, CopyPath(root, q));
        assert q in done + {p};
      } else {
        assert p in done + {p};
      }
    }
    forall f | f in t'.files && Within(root, f)
      ensures exists q :: q in done + {p} && f == CopyPath(root, q)
    {
      if f in t.files {
        var q :| q in done && f == CopyPath(root, q);
        assert q in done + {p};
      } else {
        assert p in done + {p};
      }
    }
  }

  /** A file made elsewhere. */
  lemma CopyShapeElsewhere(t: Tree, t': Tree, root: Path, done: set<Path>, path: Path)
    requires CopyShape(t, root, done) && path in t'.files && !Within(root, path)
    requires t' == Tree(t.files[path := t'.files[path]], t.dirs + Ancestors(path))
    ensures CopyShape(t', root, done)
  {
    forall d | d in t'.dirs && Ancestor(root, d)
      ensures d in t.dirs
    {
      if Ancestor(d, path) {
        AncestorTransitive(root, d, path);
      }
    }
  }

  lemma CopyShapeMore(t: Tree, root: Path, done: set<Path>, more: set<Path>)
    requires CopyShape(t, root, done) && done <= more
    ensures CopyShape(t, root, more)
  {
    forall p | p in t.files && Within(root, p)
      ensures exists q :: q in more && p == CopyPath(root, q)
    {
      var q :| q in done && p == CopyPath(root, q);
      assert q in more;
    }
    forall d | d in t.dirs && Ancestor(root, d)
      ensures exists q :: q in more && Ancestor(d, CopyPath(root, q))
    {
      var q :| q in done && Ancestor(d, CopyPath(root, q));
      assert q in more;
    }
  }
}
