/**
 * The packages that the bundles of an InstallPlan require (controllers/operatorpolicy_controller.go,
 * getBundleDependencies).
 */
module InstallPlan {
  import opened Sorting
  import opened Json

  /** A bundle lookup; `required` is None when its properties are empty or cannot be read. */
  datatype Bundle = Bundle(identifier: string, required: Option<seq<string>>)

  type Bundles = seq<Bundle>

  predicate HasPrefix(s: string, prefix: string) {
    prefix <= s
  }

  /** CSVs are named `<package>.v<version>`. */
  predicate OfPackage(csv: string, package: string) {
    HasPrefix(csv, package + ".v")
  }

  predicate VersionAt(s: string, i: nat) {
    i + 1 < |s| && s[i] == '.' && s[i + 1] == 'v'
  }

  /** Package names without ".v" in them. */
  ghost predicate Unversioned(package: string) {
    forall i :: !VersionAt(package, i)
  }

  lemma {:induction false} VersionPlace(csv: string, package: string)
    requires Unversioned(package) && package + ".v" <= csv
    ensures VersionAt(csv, |package|) && forall i :: 0 <= i < |package| ==> !VersionAt(csv, i)
  {
    var prefix := package + ".v";
    assert forall i :: 0 <= i < |prefix| ==> csv[i] == prefix[i];
    assert prefix[|package|] == '.' && prefix[|package| + 1] == 'v';
    forall i | 0 <= i < |package|
      ensures !VersionAt(csv, i)
    {
      assert !VersionAt(package, i) && csv[i] == package[i];
      assert csv[i + 1] == if i + 1 < |package| then package[i + 1] else '.';
    }
  }

  /** A versioned name belongs to its own package and to no other. */
  lemma {:induction false} OwnPackage(package: string, version: string, other: string)
    requires Unversioned(package) && Unversioned(other)
    ensures OfPackage(package + ".v" + version, other) <==> package == other
  {
    var csv := package + ".v" + version;
    assert package + ".v" == csv[..|package| + 2];
    VersionPlace(csv, package);
    if OfPackage(csv, other) {
      VersionPlace(csv, other);
      assert |package| == |other|;
      assert package == csv[..|package|] && other == csv[..|other|];
    }
  }

  /** The bundles the loop of getBundleDependencies does not skip. */
  predicate Selected(b: Bundle, targetCSV: string, package: string) {
    (targetCSV == "" || b.identifier == targetCSV) && (package == "" || OfPackage(b.identifier, package))
  }

  ghost predicate Requires(b: Bundle, package: string) {
    b.required.Some? && package in b.required.value && package != ""
  }

  /** No bundle that the loop has met before the `i`-th one ends it. */
  ghost predicate Clear(bundles: Bundles, targetCSV: string, package: string, i: nat) {
    forall j :: 0 <= j < i && j < |bundles| && Selected(bundles[j], targetCSV, package) ==> bundles[j].required.Some?
  }

  /** A bundle of the target, or of `package`, is read and requires `dep`. */
  ghost predicate RequiredAt(bundles: Bundles, targetCSV: string, package: string, i: nat, dep: string) {
    && i < |bundles| && Selected(bundles[i], targetCSV, package) && Clear(bundles, targetCSV, package, i)
    && Requires(bundles[i], dep)
  }

  ghost predicate Edge(bundles: Bundles, package: string, dep: string) {
    exists i :: RequiredAt(bundles, "", package, i, dep)
  }

  ghost predicate StartEdge(bundles: Bundles, targetCSV: string, dep: string) {
    exists i :: RequiredAt(bundles, targetCSV, "", i, dep)
  }

  /** The required-package relation is acyclic on a set of packages that it does not leave. */
  ghost predicate Ranked(bundles: Bundles, within: iset<string>, rank: string -> nat) {
    forall p, d :: p in within && p != "" && Edge(bundles, p, d) ==> d in within && rank(d) < rank(p)
  }

  /** The call is for a target CSV whose requirements lie in the set, or for a package of the set. */
  ghost predicate Callable(bundles: Bundles, within: iset<string>, targetCSV: string, package: string) {
    if package == "" then targetCSV != "" ==> forall d :: StartEdge(bundles, targetCSV, d) ==> d in within
    else targetCSV == "" && package in within
  }

  /** The dependencies found from bundle `i` on: a bundle that cannot be read ends the search. */
  function FromBundles(bundles: Bundles, targetCSV: string, package: string, i: nat,
                       ghost within: iset<string>, ghost rank: string -> nat): set<string>
    requires i <= |bundles| && (targetCSV != "" || package != "")
    requires Ranked(bundles, within, rank) && Callable(bundles, within, targetCSV, package)
    requires Clear(bundles, targetCSV, package, i)
    decreases targetCSV != "", rank(package), |bundles| - i, 0
  {
    if i == |bundles| then {}
    else if !Selected(bundles[i], targetCSV, package) then
      FromBundles(bundles, targetCSV, package, i + 1, within, rank)
    else
      match bundles[i].required
      case None => {}
      case Some(deps) =>
        FromList(bundles, targetCSV, package, i, deps, within, rank) +
        FromBundles(bundles, targetCSV, package, i + 1, within, rank)
  }

  /** Each required package of bundle `i`, and what that package depends on. */
  function FromList(bundles: Bundles, targetCSV: string, package: string, i: nat, deps: seq<string>,
                    ghost within: iset<string>, ghost rank: string -> nat): set<string>
    requires i < |bundles| && (targetCSV != "" || package != "")
    requires Ranked(bundles, within, rank) && Callable(bundles, within, targetCSV, package)
    requires Selected(bundles[i], targetCSV, package) && Clear(bundles, targetCSV, package, i)
    requires bundles[i].required.Some? && forall d :: d in deps ==> d in bundles[i].required.value
    decreases targetCSV != "", rank(package), |bundles| - i, 0, |deps|
  {
    if deps == [] then {}
    else
      var rest := FromList(bundles, targetCSV, package, i, deps[1..], within, rank);
      if deps[0] == "" then rest
      else
        RequirementRanked(bundles, targetCSV, package, i, deps[0], within, rank);
        {deps[0]} + FromBundles(bundles, "", deps[0], 0, within, rank) + rest
  }

  lemma {:induction false} RequirementRanked(bundles: Bundles, targetCSV: string, package: string, i: nat, dep: string,
                          within: iset<string>, rank: string -> nat)
    requires i < |bundles| && (targetCSV != "" || package != "")
    requires Ranked(bundles, within, rank) && Callable(bundles, within, targetCSV, package)
    requires RequiredAt(bundles, targetCSV, package, i, dep)
    ensures Callable(bundles, within, "", dep)
    ensures targetCSV == "" ==> rank(dep) < rank(package)
  {
    if package == "" {
      assert StartEdge(bundles, targetCSV, dep);
    } else {
      assert Edge(bundles, package, dep);
    }
  }

  /** getBundleDependencies. */
  method GetBundleDependencies(bundles: Bundles, targetCSV: string, package: string,
                               ghost within: iset<string>, ghost rank: string -> nat)
    returns (dependencies: set<string>)
    requires Ranked(bundles, within, rank) && Callable(bundles, within, targetCSV, package)
    ensures dependencies ==
      if targetCSV == "" && package == "" then {} else FromBundles(bundles, targetCSV, package, 0, within, rank)
    decreases targetCSV != "", rank(package)
  {
    dependencies := {};
    if targetCSV == "" && package == "" {
      return;
    }
    for i := 0 to |bundles|
      invariant Clear(bundles, targetCSV, package, i)
      invariant dependencies + FromBundles(bundles, targetCSV, package, i, within, rank) ==
        FromBundles(bundles, targetCSV, package, 0, within, rank)
    {
      var bundle := bundles[i];
      if Selected(bundle, targetCSV, package) {
        if bundle.required.None? {
          break;
        }
        var deps := bundle.required.value;
        ghost var before := dependencies;
        for j := 0 to |deps|
          invariant dependencies + FromList(bundles, targetCSV, package, i, deps[j..], within, rank) ==
            before + FromList(bundles, targetCSV, package, i, deps, within, rank)
        {
          assert deps[j..][1..] == deps[j + 1..];
          if deps[j] != "" {
            RequirementRanked(bundles, targetCSV, package, i, deps[j], within, rank);
            var nested := GetBundleDependencies(bundles, "", deps[j], within, rank);
            dependencies := dependencies + {deps[j]} + nested;
          }
        }
      }
    }
  }

  // ---------- the closure ----------

  /** A chain of required packages. */
  ghost predicate Chain(bundles: Bundles, path: seq<string>) {
    forall i :: 0 <= i < |path| - 1 ==> Edge(bundles, path[i], path[i + 1])
  }

  ghost predicate ChainFrom(bundles: Bundles, targetCSV: string, package: string, path: seq<string>) {
    && path != [] && Chain(bundles, path)
    && if package == "" then StartEdge(bundles, targetCSV, path[0]) else Edge(bundles, package, path[0])
  }

  /** `dep` is required by the target, directly or by something it requires. */
  ghost predicate Reachable(bundles: Bundles, targetCSV: string, package: string, dep: string) {
    exists path :: ChainFrom(bundles, targetCSV, package, path) && path[|path| - 1] == dep
  }

  lemma {:induction false} ExtendChain(bundles: Bundles, targetCSV: string, package: string, i: nat, dep: string,
                                       last: string)
    requires i < |bundles| && (targetCSV != "" || package != "") && (package != "" ==> targetCSV == "")
    requires RequiredAt(bundles, targetCSV, package, i, dep)
    requires last == dep || Reachable(bundles, "", dep, last)
    ensures Reachable(bundles, targetCSV, package, last)
  {
    assert if package == "" then StartEdge(bundles, targetCSV, dep) else Edge(bundles, package, dep);
    if last == dep {
      assert ChainFrom(bundles, targetCSV, package, [dep]);
    } else {
      var path :| ChainFrom(bundles, "", dep, path) && path[|path| - 1] == last;
      var longer := [dep] + path;
      forall k | 0 <= k < |longer| - 1
        ensures Edge(bundles, longer[k], longer[k + 1])
      {
        assert k > 0 ==> longer[k] == path[k - 1] && longer[k + 1] == path[k];
      }
      assert ChainFrom(bundles, targetCSV, package, longer) && longer[|longer| - 1] == last;
    }
  }

  /** Only packages that the target requires, directly or not, are returned. */
  lemma {:induction false} DependenciesAreReachable(bundles: Bundles, targetCSV: string, package: string, i: nat,
                                                    within: iset<string>, rank: string -> nat, dep: string)
    requires i <= |bundles| && (targetCSV != "" || package != "")
    requires Ranked(bundles, within, rank) && Callable(bundles, within, targetCSV, package)
    requires Clear(bundles, targetCSV, package, i) && dep in FromBundles(bundles, targetCSV, package, i, within, rank)
    ensures Reachable(bundles, targetCSV, package, dep)
    decreases targetCSV != "", rank(package), |bundles| - i, 0
  {
    if Selected(bundles[i], targetCSV, package) && bundles[i].required.Some? {
      var deps := bundles[i].required.value;
      if dep in FromList(bundles, targetCSV, package, i, deps, within, rank) {
        ListIsReachable(bundles, targetCSV, package, i, deps, within, rank, dep);
      } else {
        DependenciesAreReachable(bundles, targetCSV, package, i + 1, within, rank, dep);
      }
    } else {
      DependenciesAreReachable(bundles, targetCSV, package, i + 1, within, rank, dep);
    }
  }

  lemma {:induction false} ListIsReachable(bundles: Bundles, targetCSV: string, package: string, i: nat,
                                           deps: seq<string>, within: iset<string>, rank: string -> nat, dep: string)
    requires i < |bundles| && (targetCSV != "" || package != "")
    requires Ranked(bundles, within, rank) && Callable(bundles, within, targetCSV, package)
    requires Selected(bundles[i], targetCSV, package) && Clear(bundles, targetCSV, package, i)
    requires bundles[i].required.Some? && forall d :: d in deps ==> d in bundles[i].required.value
    requires dep in FromList(bundles, targetCSV, package, i, deps, within, rank)
    ensures Reachable(bundles, targetCSV, package, dep)
    decreases targetCSV != "", rank(package), |bundles| - i, 0, |deps|
  {
    if dep in FromList(bundles, targetCSV, package, i, deps[1..], within, rank) {
      ListIsReachable(bundles, targetCSV, package, i, deps[1..], within, rank, dep);
    } else {
      RequirementRanked(bundles, targetCSV, package, i, deps[0], within, rank);
      if dep != deps[0] {
        DependenciesAreReachable(bundles, "", deps[0], 0, within, rank, dep);
      }
      ExtendChain(bundles, targetCSV, package, i, deps[0], dep);
    }
  }

  lemma {:induction false} ListIncludes(bundles: Bundles, targetCSV: string, package: string, i: nat, deps: seq<string>,
                                        within: iset<string>, rank: string -> nat, dep: string)
    requires i < |bundles| && (targetCSV != "" || package != "")
    requires Ranked(bundles, within, rank) && Callable(bundles, within, targetCSV, package)
    requires Selected(bundles[i], targetCSV, package) && Clear(bundles, targetCSV, package, i)
    requires bundles[i].required.Some? && forall d :: d in deps ==> d in bundles[i].required.value
    requires dep in deps && dep != ""
    ensures Callable(bundles, within, "", dep)
    ensures {dep} + FromBundles(bundles, "", dep, 0, within, rank) <=
            FromList(bundles, targetCSV, package, i, deps, within, rank)
    decreases |deps|
  {
    RequirementRanked(bundles, targetCSV, package, i, dep, within, rank);
    if deps[0] != dep {
      ListIncludes(bundles, targetCSV, package, i, deps[1..], within, rank, dep);
    }
  }

  lemma {:induction false} BundlesInclude(bundles: Bundles, targetCSV: string, package: string, k: nat, i: nat,
                                          within: iset<string>, rank: string -> nat, dep: string)
    requires k <= i && (targetCSV != "" || package != "")
    requires Ranked(bundles, within, rank) && Callable(bundles, within, targetCSV, package)
    requires RequiredAt(bundles, targetCSV, package, i, dep)
    ensures Callable(bundles, within, "", dep)
    ensures {dep} + FromBundles(bundles, "", dep, 0, within, rank) <=
            FromBundles(bundles, targetCSV, package, k, within, rank)
    decreases i - k
  {
    if k == i {
      ListIncludes(bundles, targetCSV, package, i, bundles[i].required.value, within, rank, dep);
    } else {
      BundlesInclude(bundles, targetCSV, package, k + 1, i, within, rank, dep);
    }
  }

  /** Nothing the target requires is missed. */
  lemma {:induction false} ReachableIsFound(bundles: Bundles, targetCSV: string, package: string, path: seq<string>,
                                            within: iset<string>, rank: string -> nat)
    requires targetCSV != "" || package != ""
    requires Ranked(bundles, within, rank) && Callable(bundles, within, targetCSV, package)
    requires ChainFrom(bundles, targetCSV, package, path)
    ensures path[|path| - 1] in FromBundles(bundles, targetCSV, package, 0, within, rank)
    decreases |path|
  {
    var dep := path[0];
    var i :| RequiredAt(bundles, targetCSV, package, i, dep);
    BundlesInclude(bundles, targetCSV, package, 0, i, within, rank, dep);
    if |path| > 1 {
      assert Edge(bundles, path[0], path[0 + 1]);
      forall k | 0 <= k < |path[1..]| - 1
        ensures Edge(bundles, path[1..][k], path[1..][k + 1])
      {
        assert Edge(bundles, path[k + 1], path[k + 1 + 1]);
      }
      ReachableIsFound(bundles, "", dep, path[1..], within, rank);
    }
  }

  /**
   * Dependency resolution returns exactly the packages the target requires, directly or not, in the bundles that are
   * read.
   */
  lemma {:induction false} DependenciesExact(bundles: Bundles, targetCSV: string, package: string, within: iset<string>,
                                             rank: string -> nat)
    requires targetCSV != "" || package != ""
    requires Ranked(bundles, within, rank) && Callable(bundles, within, targetCSV, package)
    ensures forall dep :: dep in FromBundles(bundles, targetCSV, package, 0, within, rank) <==>
      Reachable(bundles, targetCSV, package, dep)
  {
    forall dep
      ensures dep in FromBundles(bundles, targetCSV, package, 0, within, rank) <==>
        Reachable(bundles, targetCSV, package, dep)
    {
      if dep in FromBundles(bundles, targetCSV, package, 0, within, rank) {
        DependenciesAreReachable(bundles, targetCSV, package, 0, within, rank, dep);
      }
      if Reachable(bundles, targetCSV, package, dep) {
        var path :| ChainFrom(bundles, targetCSV, package, path) && path[|path| - 1] == dep;
        ReachableIsFound(bundles, targetCSV, package, path, within, rank);
      }
    }
  }

  // ---------- when the recursion ends ----------

  /** No package of the set requires itself, directly or not. */
  ghost predicate NoCycle(bundles: Bundles, within: iset<string>) {
    forall p :: p in within && p != "" ==> !Reachable(bundles, "", p, p)
  }

  ghost predicate Closed(bundles: Bundles, within: iset<string>) {
    forall p, d :: p in within && p != "" && Edge(bundles, p, d) ==> d in within
  }

  ghost function Mentioned(bundles: Bundles): set<string> {
    set b, d | b in bundles && b.required.Some? && d in b.required.value :: d
  }

  /** The packages that `p` requires, directly or not; their number is the rank of `p`. */
  ghost function RequiredBy(bundles: Bundles, p: string): set<string> {
    set d | d in Mentioned(bundles) && Reachable(bundles, "", p, d)
  }

  ghost function Height(bundles: Bundles): string -> nat {
    p => |RequiredBy(bundles, p)|
  }

  lemma {:induction false} ReachThrough(bundles: Bundles, p: string, d: string, last: string)
    requires p != "" && Edge(bundles, p, d) && (last == d || Reachable(bundles, "", d, last))
    ensures Reachable(bundles, "", p, last)
  {
    var i :| RequiredAt(bundles, "", p, i, d);
    ExtendChain(bundles, "", p, i, d, last);
  }

  /** Without a cycle the recursion has a measure ... */
  lemma {:induction false} NoCycleIsRanked(bundles: Bundles, within: iset<string>)
    requires Closed(bundles, within) && NoCycle(bundles, within)
    ensures Ranked(bundles, within, Height(bundles))
  {
    forall p, d | p in within && p != "" && Edge(bundles, p, d)
      ensures |RequiredBy(bundles, d)| < |RequiredBy(bundles, p)|
    {
      var i :| RequiredAt(bundles, "", p, i, d);
      assert d in Mentioned(bundles);
      forall x | x == d || x in RequiredBy(bundles, d)
        ensures Reachable(bundles, "", p, x)
      {
        ReachThrough(bundles, p, d, x);
      }
      assert d != "" && d in within;
      assert d in RequiredBy(bundles, p) && d !in RequiredBy(bundles, d);
      assert RequiredBy(bundles, d) + {d} <= RequiredBy(bundles, p);
      SubsetSize(RequiredBy(bundles, d) + {d}, RequiredBy(bundles, p));
    }
  }

  /** ... and with a cycle it has none. */
  lemma {:induction false} RankedHasNoCycle(bundles: Bundles, within: iset<string>, rank: string -> nat, p: string,
                                            path: seq<string>)
    requires Ranked(bundles, within, rank) && p in within && p != ""
    requires ChainFrom(bundles, "", p, path)
    ensures rank(path[|path| - 1]) < rank(p)
    decreases |path|
  {
    var d := path[0];
    assert Edge(bundles, p, d);
    if |path| > 1 {
      assert Edge(bundles, path[0], path[0 + 1]);
      forall k | 0 <= k < |path[1..]| - 1
        ensures Edge(bundles, path[1..][k], path[1..][k + 1])
      {
        assert Edge(bundles, path[k + 1], path[k + 1 + 1]);
      }
      var i :| RequiredAt(bundles, "", p, i, d);
      RankedHasNoCycle(bundles, within, rank, d, path[1..]);
    }
  }

  /** The measure that getBundleDependencies needs exists exactly when the packages it can meet form no cycle. */
  lemma {:induction false} RankedExactly(bundles: Bundles, within: iset<string>)
    ensures (exists rank: string -> nat :: Ranked(bundles, within, rank)) <==>
      Closed(bundles, within) && NoCycle(bundles, within)
  {
    if rank: string -> nat :| Ranked(bundles, within, rank) {
      forall p | p in within && p != ""
        ensures !Reachable(bundles, "", p, p)
      {
        if Reachable(bundles, "", p, p) {
          var path :| ChainFrom(bundles, "", p, path) && path[|path| - 1] == p;
          RankedHasNoCycle(bundles, within, rank, p, path);
        }
      }
    }
    if Closed(bundles, within) && NoCycle(bundles, within) {
      NoCycleIsRanked(bundles, within);
    }
  }

  /** The packages that the recursion meets. */
  ghost function Met(bundles: Bundles, targetCSV: string, package: string): iset<string> {
    iset p | Reachable(bundles, targetCSV, package, p) || (package != "" && p == package)
  }

  lemma {:induction false} MetIsClosed(bundles: Bundles, targetCSV: string, package: string)
    requires package != "" ==> targetCSV == ""
    ensures Closed(bundles, Met(bundles, targetCSV, package))
    ensures Callable(bundles, Met(bundles, targetCSV, package), targetCSV, package)
  {
    var met := Met(bundles, targetCSV, package);
    forall p, d | p in met && p != "" && Edge(bundles, p, d)
      ensures d in met
    {
      if Reachable(bundles, targetCSV, package, p) {
        var path :| ChainFrom(bundles, targetCSV, package, path) && path[|path| - 1] == p;
        var longer := path + [d];
        forall k | 0 <= k < |longer| - 1
          ensures Edge(bundles, longer[k], longer[k + 1])
        {
          if k < |path| - 1 {
            assert Edge(bundles, path[k], path[k + 1]);
          }
        }
        assert ChainFrom(bundles, targetCSV, package, longer) && longer[|longer| - 1] == d;
      } else {
        assert ChainFrom(bundles, targetCSV, package, [d]) && [d][0] == d;
      }
    }
    if package == "" && targetCSV != "" {
      forall d | StartEdge(bundles, targetCSV, d)
        ensures d in met
      {
        assert ChainFrom(bundles, targetCSV, package, [d]) && [d][0] == d;
      }
    }
  }

  /** None of the packages that the target or package requires, directly or not, is on a cycle. */
  ghost predicate Resolvable(bundles: Bundles, targetCSV: string, package: string) {
    NoCycle(bundles, Met(bundles, targetCSV, package))
  }

  ghost predicate Measured(bundles: Bundles, targetCSV: string, package: string, within: iset<string>,
                           rank: string -> nat)
  {
    Ranked(bundles, within, rank) && Callable(bundles, within, targetCSV, package)
  }

  /** So resolving a target has a measure exactly when no package that the target requires is on a cycle. */
  lemma {:induction false} ResolvableExactly(bundles: Bundles, targetCSV: string, package: string)
    requires package != "" ==> targetCSV == ""
    requires targetCSV != "" || package != ""
    ensures (exists within, rank: string -> nat :: Measured(bundles, targetCSV, package, within, rank)) <==>
      Resolvable(bundles, targetCSV, package)
    ensures Resolvable(bundles, targetCSV, package) ==>
      Measured(bundles, targetCSV, package, Met(bundles, targetCSV, package), Height(bundles))
  {
    var met := Met(bundles, targetCSV, package);
    MetIsClosed(bundles, targetCSV, package);
    if Resolvable(bundles, targetCSV, package) {
      NoCycleIsRanked(bundles, met);
      assert Measured(bundles, targetCSV, package, met, Height(bundles));
    }
    if within: iset<string>, rank: string -> nat :| Measured(bundles, targetCSV, package, within, rank) {
      forall p | p in met
        ensures p in within
      {
        if Reachable(bundles, targetCSV, package, p) {
          var path :| ChainFrom(bundles, targetCSV, package, path) && path[|path| - 1] == p;
          ChainStays(bundles, targetCSV, package, within, rank, path, |path| - 1);
        }
      }
      assert Ranked(bundles, within, rank);
      RankedExactly(bundles, within);
      assert NoCycle(bundles, within) && met <= within;
    }
  }

  lemma {:induction false} ChainStays(bundles: Bundles, targetCSV: string, package: string, within: iset<string>,
                                      rank: string -> nat, path: seq<string>, k: nat)
    requires Measured(bundles, targetCSV, package, within, rank) && (targetCSV != "" || package != "")
    requires ChainFrom(bundles, targetCSV, package, path) && k < |path|
    ensures path[k] in within && path[k] != ""
  {
    if k > 0 {
      ChainStays(bundles, targetCSV, package, within, rank, path, k - 1);
      assert Edge(bundles, path[k - 1], path[k - 1 + 1]);
    }
  }

  // ---------- bundles that cannot be read ----------

  ghost predicate AllReadable(bundles: Bundles) {
    forall b :: b in bundles ==> b.required.Some?
  }

  /** Some bundle of the package names the requirement, whether it is read or not. */
  ghost predicate Declared(bundles: Bundles, package: string, dep: string) {
    exists b :: b in bundles && OfPackage(b.identifier, package) && Requires(b, dep)
  }

  /** Requirements that are followed are declared, and all declared ones are if every bundle can be read. */
  lemma {:induction false} DeclaredIsFollowed(bundles: Bundles, package: string, dep: string)
    requires package != ""
    ensures Edge(bundles, package, dep) ==> Declared(bundles, package, dep)
    ensures AllReadable(bundles) && Declared(bundles, package, dep) ==> Edge(bundles, package, dep)
  {
    if AllReadable(bundles) && Declared(bundles, package, dep) {
      var b :| b in bundles && OfPackage(b.identifier, package) && Requires(b, dep);
      var i :| 0 <= i < |bundles| && bundles[i] == b;
      assert RequiredAt(bundles, "", package, i, dep);
    }
  }

  /** For the target itself requirements are read from the bundles of that name, up to one that cannot be read. */
  lemma {:induction false} TargetsRequirements(bundles: Bundles, targetCSV: string, dep: string)
    requires targetCSV != ""
    ensures StartEdge(bundles, targetCSV, dep) ==>
      exists b :: b in bundles && b.identifier == targetCSV && Requires(b, dep)
    ensures (forall b :: b in bundles && b.identifier == targetCSV ==> b.required.Some?) ==>
      (StartEdge(bundles, targetCSV, dep) <==>
        exists b :: b in bundles && b.identifier == targetCSV && Requires(b, dep))
  {
    if b :| b in bundles && b.identifier == targetCSV && Requires(b, dep) {
      var i :| 0 <= i < |bundles| && bundles[i] == b;
      if forall b :: b in bundles && b.identifier == targetCSV ==> b.required.Some? {
        assert RequiredAt(bundles, targetCSV, "", i, dep);
      }
    }
  }
}
