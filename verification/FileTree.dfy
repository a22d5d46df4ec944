/** A run directory's tree: paths relative to the run, with `/` between components. */
module FileTree {

  type Path = string
  type Content = string

  /** A folder is recorded only where it matters that an empty one exists. */
  datatype Node = File(content: Content) | Folder

  type Tree = map<Path, Node>

  /** `k` is `p` or inside it: `k == p or k.startswith(p + os.sep)`. */
  predicate Below(p: Path, k: Path) { k == p || p + "/" <= k }

  predicate Apart(p: Path, q: Path) { !Below(p, q) && !Below(q, p) }

  /** Two paths with something below both are nested. */
  lemma BelowBoth(p: Path, q: Path, k: Path)
    requires Below(p, k) && Below(q, k)
    ensures !Apart(p, q)
  {
    if k != p && k != q {
      if |p| < |q| {
        assert p + "/" <= q;
      } else if |q| < |p| {
        assert q + "/" <= p;
      } else {
        assert p == k[..|p|] == q;
      }
    }
  }

  /** `os.path.lexists` */
  predicate Exists(t: Tree, p: Path) { exists k :: k in t && Below(p, k) }

  /** What is at or below `p`. */
  function Take(t: Tree, p: Path): Tree { map k | k in t && Below(p, k) :: t[k] }

  /** The tree without it. */
  function Drop(t: Tree, p: Path): Tree { map k | k in t && !Below(p, k) :: t[k] }

  lemma TakeDrop(t: Tree, p: Path)
    ensures Drop(t, p) + Take(t, p) == t
    ensures Take(Drop(t, p), p) == map[]
    ensures Take(t, p) == map[] <==> !Exists(t, p)
  {
    if Exists(t, p) {
      var k :| k in t && Below(p, k);
      assert k in Take(t, p);
    }
  }

  lemma TakeDropOther(t: Tree, p: Path, q: Path)
    requires Apart(p, q)
    ensures Take(Drop(t, p), q) == Take(t, q)
  {
    forall k | k in t && Below(q, k) ensures !Below(p, k) {
      if Below(p, k) { BelowBoth(p, q, k); }
    }
  }

  lemma TakeMerge(t: Tree, d: Tree, q: Path)
    ensures Take(t + d, q) == Take(t, q) + Take(d, q)
  {
  }

  lemma TakeOther(t: Tree, p: Path, q: Path)
    requires Apart(p, q)
    ensures Take(Take(t, p), q) == map[]
  {
    forall k | k in t && Below(p, k) ensures !Below(q, k) {
      if Below(q, k) { BelowBoth(p, q, k); }
    }
  }
}
