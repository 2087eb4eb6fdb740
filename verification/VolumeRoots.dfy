/** Which sets of volume roots a deployment may have (internal/config/config.go, internal/jvsrunner/runner.go). */
module VolumeRoots {
  import opened Common
  import opened Identifiers
  import opened Paths

  predicate ValidRoot(root: string) {
    CleanAbs(root) && root != "/"
  }

  /** rootsOverlap (internal/jvsrunner), and the pairwise test of validateVolumeRoots, both applied to clean roots. */
  predicate Overlap(a: string, b: string) {
    CleanAbs(a) && CleanAbs(b) && (a == b || Contains(a, b) || Contains(b, a))
  }

  /** A root is valid exactly when it is a slash before one or more plain elements. */
  lemma ValidRootIff(root: string)
    ensures ValidRoot(root) <==> exists parts :: parts != [] && AllPlain(parts) && root == "/" + Join(parts)
  {
    if ValidRoot(root) {
      CleanAbsIff(root, []);
      assert Elements(root) != [] && AllPlain(Elements(root)) && root == "/" + Join(Elements(root));
    }
    if parts :| parts != [] && AllPlain(parts) && root == "/" + Join(parts) {
      CleanAbsIff(root, parts);
      CleanAbsIff("/", []);
      assert "/" == "/" + Join([]);
    }
  }

  /** Two clean paths overlap exactly when one's elements are a prefix of the other's; so overlap is symmetric. */
  lemma OverlapIff(a: string, b: string)
    requires CleanAbs(a) && CleanAbs(b)
    ensures Overlap(a, b) <==> Elements(a) <= Elements(b) || Elements(b) <= Elements(a)
    ensures Overlap(a, b) == Overlap(b, a)
  {
    ContainsIff(a, b);
    ContainsIff(b, a);
    SameElementsSamePath(a, b);
  }

  /** Said without order: ids and roots are well formed, and roots of different volumes do not overlap. */
  predicate Acceptable(roots: map<string, string>) {
    && (forall id <- roots :: ValidId(VolumeId, id) && ValidRoot(roots[id]))
    && (forall a <- roots, b <- roots | a != b :: !Overlap(roots[a], roots[b]))
  }

  /** validateVolumeRoots: whatever order the map is walked in, it accepts exactly the acceptable maps. */
  method ValidateVolumeRoots(roots: map<string, string>) returns (ok: bool)
    ensures ok <==> Acceptable(roots)
  {
    var seen: map<string, string> := map[];
    var left := roots.Keys;
    while left != {}
      invariant left <= roots.Keys && seen.Keys == roots.Keys - left
      invariant (forall id <- seen :: seen[id] == roots[id]) && Acceptable(seen)
      decreases left
    {
      var id :| id in left;
      left := left - {id};
      var root := roots[id];
      if !ValidId(VolumeId, id) || !ValidRoot(root) {
        return false;
      }
      var clash := ClashesWith(seen, root);
      if clash.Some? {
        return false;
      }
      OneMoreRoot(seen, id, root);
      seen := seen[id := root];
    }
    assert seen == roots;
    ok := true;
  }

  lemma OneMoreRoot(seen: map<string, string>, id: string, root: string)
    requires Acceptable(seen) && id !in seen && ValidId(VolumeId, id) && ValidRoot(root)
    requires forall other <- seen :: !Overlap(root, seen[other])
    ensures Acceptable(seen[id := root])
  {
    forall other <- seen ensures !Overlap(seen[other], root) {
      OverlapIff(seen[other], root);
    }
  }

  /** The inner loop of validateVolumeRoots. */
  method ClashesWith(seen: map<string, string>, root: string) returns (clash: Option<string>)
    requires ValidRoot(root) && forall id <- seen :: ValidRoot(seen[id])
    ensures clash.Some? ==> clash.value in seen && Overlap(root, seen[clash.value])
    ensures clash.None? ==> forall id <- seen :: !Overlap(root, seen[id])
  {
    var left := seen.Keys;
    while left != {}
      invariant left <= seen.Keys && forall id <- seen | id !in left :: !Overlap(root, seen[id])
      decreases left
    {
      var id :| id in left;
      var existing := seen[id];
      if root == existing || Contains(root, existing) || Contains(existing, root) {
        return Some(id);
      }
      left := left - {id};
    }
    clash := None;
  }

  /** `path` is the root or lies under it. */
  predicate Under(root: string, path: string) {
    Elements(root) <= Elements(path)
  }

  lemma PrefixesCompare(x: seq<string>, y: seq<string>, path: seq<string>)
    ensures x <= path && y <= path ==> x <= y || y <= x
  {
    if x <= path && y <= path {
      assert x == path[..|x|] && y == path[..|y|];
    }
  }

  /** Every clean absolute path lies under at most one of the accepted roots. */
  lemma OneRootPerPath(roots: map<string, string>, a: string, b: string, path: string)
    requires Acceptable(roots) && a in roots && b in roots && CleanAbs(path)
    requires Under(roots[a], path) && Under(roots[b], path)
    ensures a == b
  {
    OverlapIff(roots[a], roots[b]);
    PrefixesCompare(Elements(roots[a]), Elements(roots[b]), Elements(path));
  }

  /** validateDirectTarget: both roots clean and not the root directory, and neither inside the other. */
  predicate ValidDirectTarget(controlRoot: string, home: string) {
    ValidRoot(controlRoot) && ValidRoot(home) && !Overlap(controlRoot, home)
  }

  /** A valid direct target has no path that is under both its control root and its home. */
  lemma DirectTargetIsSplit(controlRoot: string, home: string, path: string)
    requires ValidDirectTarget(controlRoot, home) && CleanAbs(path)
    ensures !(Under(controlRoot, path) && Under(home, path))
    ensures ValidDirectTarget(home, controlRoot)
  {
    OverlapIff(controlRoot, home);
    PrefixesCompare(Elements(controlRoot), Elements(home), Elements(path));
  }
}
