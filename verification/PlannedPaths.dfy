/** `planned_paths` of bridge-claims/tools/quarantine.py: the paths to move, without those inside another one. */
module PlannedPaths {
  import opened FileTree

  /** Python's order on strings. */
  predicate Before(a: string, b: string)
  {
    b != "" && (a == "" || a[0] < b[0] || (a[0] == b[0] && Before(a[1..], b[1..])))
  }

  lemma {:induction false} BeforeAsymmetric(a: string, b: string)
    requires Before(a, b)
    ensures !Before(b, a) && a != b
  {
    if a != "" && a[0] == b[0] {
      BeforeAsymmetric(a[1..], b[1..]);
    }
  }

  lemma {:induction false} PrefixSortsFirst(a: string, b: string)
    requires a < b
    ensures Before(a, b)
  {
    if a != "" {
      PrefixSortsFirst(a[1..], b[1..]);
    }
  }

  ghost predicate Sorted(ps: seq<Path>)
  {
    forall i, j :: 0 <= i < j < |ps| ==> Before(ps[i], ps[j])
  }

  /** The loop over the sorted set of paths. What is kept is free of nesting, comes from the input, and covers it. */
  method Planned(ordered: seq<Path>) returns (unique: seq<Path>)
    requires Sorted(ordered)
    ensures forall i, j :: 0 <= i < j < |unique| ==> Apart(unique[i], unique[j])
    ensures forall p :: p in unique ==> p in ordered
    ensures forall p :: p in ordered ==> exists i :: 0 <= i < |unique| && Below(unique[i], p)
  {
    unique := [];
    var k := 0;
    while k < |ordered|
      invariant 0 <= k <= |ordered|
      invariant forall i, j :: 0 <= i < j < |unique| ==> Apart(unique[i], unique[j])
      invariant forall p :: p in unique ==> p in ordered[..k]
      invariant forall p :: p in ordered[..k] ==> exists i :: 0 <= i < |unique| && Below(unique[i], p)
    {
      var rel := ordered[k];
      assert ordered[..k + 1] == ordered[..k] + [rel];
      if !exists i :: 0 <= i < |unique| && unique[i] + "/" <= rel {
        forall i | 0 <= i < |unique| ensures Apart(unique[i], rel) {
          KeptApart(ordered, k, unique[i]);
        }
        ghost var before := unique;
        unique := unique + [rel];
        assert forall i :: 0 <= i < |before| ==> unique[i] == before[i];
        assert unique[|before|] == rel && Below(rel, rel);
      }
      k := k + 1;
    }
    assert ordered[..k] == ordered;
  }

  lemma KeptApart(ordered: seq<Path>, k: nat, kept: Path)
    requires Sorted(ordered) && k < |ordered| && kept in ordered[..k] && !(kept + "/" <= ordered[k])
    ensures Apart(kept, ordered[k])
  {
    var i :| 0 <= i < k && ordered[i] == kept;
    BeforeAsymmetric(kept, ordered[k]);
    if ordered[k] + "/" <= kept {
      PrefixSortsFirst(ordered[k], kept);
    }
  }
}
