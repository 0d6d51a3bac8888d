/** The approval of InstallPlans (controllers/operatorpolicy_controller.go, handleInstallPlan and below). */
module Approval {
  import opened Sorting
  import opened Json
  import opened InstallPlan

  datatype Policy = Policy(enforce: bool, automaticUpgrades: bool, versions: seq<string>)

  /** `manager` is the policy named by the managed-by annotation, if it parses and the policy exists. */
  datatype Subscription = Subscription(
    uid: string, installedCSV: string, currentCSV: string, startingCSV: string, manager: Option<Policy>)

  datatype Plan = Plan(csvs: seq<string>, bundles: Bundles)

  /** The subscription's current CSV is one the policy permits. */
  predicate PermitsCurrent(p: Policy, s: Subscription) {
    p.versions == [] || (s.currentCSV != "" && (s.currentCSV in p.versions || s.currentCSV == s.startingCSV))
  }

  /** An enforced policy on initial install or with automatic upgrades, whose current CSV is permitted. */
  predicate MayApprove(p: Policy, s: Subscription) {
    p.enforce && (s.installedCSV == "" || p.automaticUpgrades) && s.currentCSV != "" && PermitsCurrent(p, s)
  }

  /** `csv` is the current CSV of the subscription, or one of a package that it requires, directly or not. */
  ghost predicate RequiredFor(s: Subscription, bundles: Bundles, csv: string) {
    csv == s.currentCSV || exists d :: Reachable(bundles, s.currentCSV, "", d) && OfPackage(csv, d)
  }

  /** A policy and a subscription it may approve for, with `csv` as its current CSV or a dependency of that. */
  ghost predicate ApprovedThrough(p: Policy, s: Subscription, plan: Plan, csv: string) {
    MayApprove(p, s) && RequiredFor(s, plan.bundles, csv)
  }

  /** The CSVs that policy `p` can approve through its subscription `s`. */
  ghost function Approved(p: Policy, s: Subscription, plan: Plan): set<string> {
    set csv | csv in SetOf(plan.csvs) + {s.currentCSV} && ApprovedThrough(p, s, plan, csv)
  }

  /** The current CSV, if the policy may approve it at all, requires no package that is on a cycle. */
  ghost predicate CanResolve(p: Policy, s: Subscription, plan: Plan) {
    MayApprove(p, s) ==> Resolvable(plan.bundles, s.currentCSV, "")
  }

  /** Whether the current CSV is among the allowed versions, if there are any. */
  method CurrentIsAllowed(p: Policy, s: Subscription) returns (approved: bool)
    ensures approved <==> PermitsCurrent(p, s)
  {
    if |p.versions| == 0 {
      return true;
    }
    var allowed := [];
    for i := 0 to |p.versions|
      invariant forall v :: v in allowed <==> v in p.versions[..i] && v != ""
    {
      assert p.versions[..i + 1] == p.versions[..i] + [p.versions[i]];
      if p.versions[i] != "" {
        allowed := allowed + [p.versions[i]];
      }
    }
    assert p.versions[..|p.versions|] == p.versions;
    if s.startingCSV != "" {
      allowed := allowed + [s.startingCSV];
    }
    assert forall v :: v in allowed <==> v != "" && (v in p.versions || v == s.startingCSV);
    for i := 0 to |allowed|
      invariant s.currentCSV !in allowed[..i]
    {
      if allowed[i] == s.currentCSV {
        assert s.currentCSV in allowed;
        return true;
      }
    }
    assert allowed[..|allowed|] == allowed;
    return false;
  }

  /** The CSVs of the packages in `dependencies`. */
  ghost function OfPackages(csvs: seq<string>, dependencies: set<string>): set<string> {
    set csv | csv in csvs && exists d :: d in dependencies && OfPackage(csv, d)
  }

  lemma {:induction false} CollectedIsApproved(p: Policy, s: Subscription, plan: Plan, dependencies: set<string>)
    requires MayApprove(p, s)
    requires forall d :: d in dependencies <==> Reachable(plan.bundles, s.currentCSV, "", d)
    ensures {s.currentCSV} + OfPackages(plan.csvs, dependencies) == Approved(p, s, plan)
  {
  }

  method DependenciesOf(bundles: Bundles, csv: string) returns (dependencies: set<string>)
    requires csv != "" && Resolvable(bundles, csv, "")
    ensures forall d :: d in dependencies <==> Reachable(bundles, csv, "", d)
  {
    ghost var met, height := Met(bundles, csv, ""), Height(bundles);
    ResolvableExactly(bundles, csv, "");
    dependencies := GetBundleDependencies(bundles, csv, "", met, height);
    DependenciesExact(bundles, csv, "", met, height);
  }

  lemma {:induction false} CollectAnother(csvs: seq<string>, dependencies: set<string>, left: set<string>, d: string)
    requires d in left && left <= dependencies
    ensures OfPackages(csvs, dependencies - (left - {d})) ==
      OfPackages(csvs, dependencies - left) + OfPackages(csvs, {d})
  {
    assert dependencies - (left - {d}) == dependencies - left + {d};
  }

  /** The loops over the dependencies, in any order, and over the CSVs of the plan. */
  method CollectCSVs(csvs: seq<string>, dependencies: set<string>) returns (collected: set<string>)
    ensures collected == OfPackages(csvs, dependencies)
  {
    collected := {};
    var left := dependencies;
    while left != {}
      invariant left <= dependencies
      invariant collected == OfPackages(csvs, dependencies - left)
      decreases left
    {
      var d :| d in left;
      ghost var before := collected;
      for i := 0 to |csvs|
        invariant collected == before + OfPackages(csvs[..i], {d})
      {
        assert csvs[..i + 1] == csvs[..i] + [csvs[i]];
        if OfPackage(csvs[i], d) {
          collected := collected + {csvs[i]};
        }
      }
      assert csvs[..|csvs|] == csvs;
      CollectAnother(csvs, dependencies, left, d);
      left := left - {d};
    }
    assert dependencies - left == dependencies;
  }

  /** getApprovedCSVs. */
  method GetApprovedCSVs(p: Policy, s: Subscription, plan: Plan) returns (approved: set<string>)
    requires CanResolve(p, s, plan)
    ensures approved == Approved(p, s, plan)
  {
    approved := {};
    if !p.enforce {
      return;
    }
    if !p.automaticUpgrades && s.installedCSV != "" {
      return;
    }
    if s.currentCSV == "" {
      return;
    }
    var approvedSubCSV := CurrentIsAllowed(p, s);
    if !approvedSubCSV {
      return;
    }
    var dependencies := DependenciesOf(plan.bundles, s.currentCSV);
    CollectedIsApproved(p, s, plan, dependencies);
    var collected := CollectCSVs(plan.csvs, dependencies);
    approved := {s.currentCSV} + collected;
  }

  ghost predicate OthersResolve(current: Subscription, subs: seq<Subscription>, plan: Plan) {
    forall s :: s in subs && s.uid != current.uid && s.manager.Some? ==> CanResolve(s.manager.value, s, plan)
  }

  /** What the other managed subscriptions of the namespace approve. */
  ghost function ApprovedByOthers(current: Subscription, subs: seq<Subscription>, plan: Plan): set<string> {
    set s, csv |
      s in subs && s.uid != current.uid && s.manager.Some? && csv in Approved(s.manager.value, s, plan) :: csv
  }

  /** The CSVs of the plan that nobody approves. */
  ghost function Remaining(p: Policy, current: Subscription, subs: seq<Subscription>, plan: Plan): set<string> {
    SetOf(plan.csvs) - Approved(p, current, plan) - ApprovedByOthers(current, subs, plan)
  }

  /** getRemainingCSVApprovals, with no API errors. */
  method GetRemainingCSVApprovals(p: Policy, current: Subscription, subs: seq<Subscription>, plan: Plan)
    returns (remaining: seq<string>)
    requires CanResolve(p, current, plan)
    // The other subscriptions are looked at when something is left to approve.
    requires !(SetOf(plan.csvs) <= Approved(p, current, plan)) ==> OthersResolve(current, subs, plan)
    ensures SetOf(remaining) == Remaining(p, current, subs, plan) && Ascending(remaining)
  {
    var required := set csv | csv in plan.csvs;
    var approved := GetApprovedCSVs(p, current, plan);
    if approved >= required {
      return [];
    }
    for i := 0 to |subs|
      invariant approved == Approved(p, current, plan) + ApprovedByOthers(current, subs[..i], plan)
    {
      assert subs[..i + 1] == subs[..i] + [subs[i]];
      var s := subs[i];
      if s.uid != current.uid && s.manager.Some? {
        var more := GetApprovedCSVs(s.manager.value, s, plan);
        approved := approved + more;
      }
    }
    assert subs[..|subs|] == subs;
    remaining := SortedList(required - approved);
  }

  // ---------- what approval means ----------

  ghost predicate SomebodyApproves(p: Policy, current: Subscription, subs: seq<Subscription>, plan: Plan, csv: string) {
    || ApprovedThrough(p, current, plan, csv)
    || exists s ::
      s in subs && s.uid != current.uid && s.manager.Some? && ApprovedThrough(s.manager.value, s, plan, csv)
  }

  ghost predicate EveryCSVApproved(p: Policy, current: Subscription, subs: seq<Subscription>, plan: Plan) {
    forall csv :: csv in plan.csvs ==> SomebodyApproves(p, current, subs, plan, csv)
  }

  /** Nothing remains exactly if every CSV of the plan is approved by somebody entitled to. */
  lemma {:induction false} NothingRemainsMeans(p: Policy, current: Subscription, subs: seq<Subscription>, plan: Plan)
    ensures Remaining(p, current, subs, plan) == {} <==> EveryCSVApproved(p, current, subs, plan)
  {
    forall csv | csv in plan.csvs
      ensures csv !in Remaining(p, current, subs, plan) <==> SomebodyApproves(p, current, subs, plan, csv)
    {
      forall s | s in subs && s.manager.Some?
        ensures csv in Approved(s.manager.value, s, plan) <==> ApprovedThrough(s.manager.value, s, plan, csv)
      {
      }
    }
  }

  /** The remaining CSVs do not depend on the order in which subscriptions are listed, and more of them only help. */
  lemma {:induction false} RemainingShrinks(p: Policy, current: Subscription, subs: seq<Subscription>,
                                            more: seq<Subscription>, plan: Plan, remaining: seq<string>,
                                            remaining': seq<string>)
    requires SetOf(remaining) == Remaining(p, current, subs, plan) && Ascending(remaining)
    requires SetOf(remaining') == Remaining(p, current, more, plan) && Ascending(remaining')
    requires forall s :: s in subs ==> s in more
    ensures SetOf(remaining') <= SetOf(remaining)
    ensures (forall s :: s in more ==> s in subs) ==> remaining' == remaining
  {
    assert ApprovedByOthers(current, subs, plan) <= ApprovedByOthers(current, more, plan);
    if forall s :: s in more ==> s in subs {
      assert ApprovedByOthers(current, more, plan) <= ApprovedByOthers(current, subs, plan);
      AscendingUnique(remaining, remaining');
    }
  }

  /** CSVs and bundles are named after their packages, and no package that the plan knows has a version in its name. */
  ghost predicate WellNamed(plan: Plan, s: Subscription) {
    forall d :: Reachable(plan.bundles, s.currentCSV, "", d) ==> Unversioned(d)
  }

  /** A versioned CSV is approved exactly if it is the current one or its own package is required. */
  lemma {:induction false} ApprovedByPackage(p: Policy, s: Subscription, plan: Plan, package: string, version: string)
    requires WellNamed(plan, s) && Unversioned(package) && package + ".v" + version in plan.csvs
    ensures var csv := package + ".v" + version;
      csv in Approved(p, s, plan) <==>
        && p.enforce && (|s.installedCSV| == 0 || p.automaticUpgrades) && |s.currentCSV| > 0
        && (|p.versions| == 0 || s.currentCSV in p.versions || s.currentCSV == s.startingCSV)
        && (csv == s.currentCSV || Reachable(plan.bundles, s.currentCSV, "", package))
  {
    var csv := package + ".v" + version;
    forall d | Reachable(plan.bundles, s.currentCSV, "", d)
      ensures OfPackage(csv, d) <==> d == package
    {
      OwnPackage(package, version, d);
    }
    OwnPackage(package, version, package);
  }

  /** What a package requires is read from the bundles of that package and no other. */
  lemma {:induction false} RequiredByOwnBundle(bundles: Bundles, package: string, dep: string)
    requires package != "" && Unversioned(package)
    requires forall b :: b in bundles ==> Versioned(b.identifier)
    ensures Declared(bundles, package, dep) <==>
      exists b, version :: b in bundles && b.identifier == package + ".v" + version && Requires(b, dep)
  {
    if Declared(bundles, package, dep) {
      var b :| b in bundles && OfPackage(b.identifier, package) && Requires(b, dep);
      var q, version :| Unversioned(q) && b.identifier == q + ".v" + version;
      OwnPackage(q, version, package);
    }
    forall b, version | b in bundles && b.identifier == package + ".v" + version && Requires(b, dep)
      ensures Declared(bundles, package, dep)
    {
      OwnPackage(package, version, package);
    }
  }

  ghost predicate Versioned(name: string) {
    exists package, version :: Unversioned(package) && name == package + ".v" + version
  }

  // ---------- handling the InstallPlan ----------

  datatype Phase = Planning | RequiresApproval | Installing | Complete | Failed

  /** An InstallPlan as listed: `csvs` or `generation` is None when the field cannot be read. */
  datatype Listed = Listed(
    csvs: Option<seq<string>>, generation: Option<int>, phase: Phase, approved: bool, bundles: Bundles)

  datatype Match = NoMatch | Installed | Current

  /** The first CSV of the list that is the current or the installed one decides. */
  function MatchOf(csvs: seq<string>, s: Subscription): Match {
    if csvs == [] then NoMatch
    else if csvs[0] == s.currentCSV then Current
    else if csvs[0] == s.installedCSV then Installed
    else MatchOf(csvs[1..], s)
  }

  predicate Matched(l: Listed, s: Subscription) {
    l.csvs.Some? && !MatchOf(l.csvs.value, s).NoMatch?
  }

  /** An InstallPlan with the current CSV that is being installed, or has been, is always the one to use. */
  predicate Preferred(l: Listed, s: Subscription) {
    l.csvs.Some? && MatchOf(l.csvs.value, s).Current? && (l.phase == Installing || l.phase == Complete)
  }

  predicate Candidate(l: Listed, s: Subscription) {
    Matched(l, s) && l.generation.Some? && l.generation.value > -1
  }

  /** With no preferred InstallPlan, the first one of the highest generation. */
  ghost predicate Latest(plans: seq<Listed>, s: Subscription, k: nat)
    requires k < |plans|
  {
    && Candidate(plans[k], s)
    && (forall i :: 0 <= i < |plans| ==> !Preferred(plans[i], s))
    && (forall i :: 0 <= i < |plans| && Candidate(plans[i], s) ==>
          plans[i].generation.value <= plans[k].generation.value)
    && (forall i :: 0 <= i < k && Candidate(plans[i], s) ==> plans[i].generation.value < plans[k].generation.value)
  }

  method MatchCSVs(csvs: seq<string>, s: Subscription) returns (matchFound: bool, containsCurrentCSV: bool)
    ensures matchFound <==> !MatchOf(csvs, s).NoMatch?
    ensures containsCurrentCSV <==> MatchOf(csvs, s).Current?
  {
    matchFound, containsCurrentCSV := false, false;
    for i := 0 to |csvs|
      invariant !matchFound && !containsCurrentCSV
      invariant MatchOf(csvs, s) == MatchOf(csvs[i..], s)
    {
      if csvs[i] == s.currentCSV {
        return true, true;
      }
      if csvs[i] == s.installedCSV {
        return true, false;
      }
    }
  }

  /**
   * The selection loop of handleInstallPlan: the first preferred InstallPlan, or else the first of those with the
   * highest generation among the ones that mention the current or the installed CSV.
   */
  method SelectInstallPlan(plans: seq<Listed>, s: Subscription) returns (selected: int)
    ensures -1 <= selected < |plans|
    ensures selected == -1 ==> forall i :: 0 <= i < |plans| ==> !Preferred(plans[i], s) && !Candidate(plans[i], s)
    ensures selected != -1 ==> Matched(plans[selected], s)
    ensures selected != -1 && Preferred(plans[selected], s) ==>
      forall i :: 0 <= i < selected ==> !Preferred(plans[i], s)
    ensures selected != -1 && !Preferred(plans[selected], s) ==> Latest(plans, s, selected)
  {
    selected := -1;
    var latestGeneration := -1;
    for i := 0 to |plans|
      invariant -1 <= selected < i
      invariant forall j :: 0 <= j < i ==> !Preferred(plans[j], s)
      invariant selected == -1 ==> latestGeneration == -1 && forall j :: 0 <= j < i ==> !Candidate(plans[j], s)
      invariant selected != -1 ==> Candidate(plans[selected], s) && plans[selected].generation.value == latestGeneration
      invariant forall j :: 0 <= j < i && Candidate(plans[j], s) ==> plans[j].generation.value <= latestGeneration
      invariant forall j :: 0 <= j < selected && Candidate(plans[j], s) ==> plans[j].generation.value < latestGeneration
    {
      if plans[i].csvs.Some? {
        var matchFound, containsCurrentCSV := MatchCSVs(plans[i].csvs.value, s);
        if matchFound {
          if containsCurrentCSV && (plans[i].phase == Installing || plans[i].phase == Complete) {
            return i;
          }
          if plans[i].generation.Some? && plans[i].generation.value > latestGeneration {
            latestGeneration := plans[i].generation.value;
            selected := i;
          }
        }
      }
    }
  }

  /** What is done with the latest InstallPlan of a musthave policy. */
  datatype Decision = NoApprovals | Reported | AlreadyApproved | UpgradeAvailable(remaining: seq<string>) | Approve

  /**
   * The plan waits for approval, and the policy is one to approve it: enforced, on initial install or with automatic
   * upgrades, and not at its latest CSV already.
   */
  predicate ApprovalDue(p: Policy, current: Subscription, latest: Listed) {
    && latest.phase == RequiresApproval && !latest.approved
    && p.enforce && (current.installedCSV == "" || p.automaticUpgrades)
    && !(current.installedCSV != "" && current.installedCSV == current.currentCSV)
  }

  /** Approval is for plans that wait for it, and for enforced policies that are to install or to upgrade. */
  lemma {:induction false} DueMeans(p: Policy, current: Subscription, latest: Listed)
    ensures ApprovalDue(p, current, latest) <==>
      && latest.phase == RequiresApproval && latest.approved == false && p.enforce == true
      && (|current.installedCSV| == 0 || (p.automaticUpgrades && current.installedCSV != current.currentCSV))
  {
  }

  /** The current CSV is at `i`, and neither it nor the installed one comes before. */
  predicate CurrentAt(csvs: seq<string>, s: Subscription, i: nat) {
    i < |csvs| && csvs[i] == s.currentCSV && s.currentCSV !in csvs[..i] && s.installedCSV !in csvs[..i]
  }

  /** What the first CSV that is the installed or the current one says of a plan. */
  lemma {:induction false} MatchMeans(csvs: seq<string>, s: Subscription)
    ensures MatchOf(csvs, s).NoMatch? <==> s.currentCSV !in csvs && s.installedCSV !in csvs
    ensures MatchOf(csvs, s).Current? <==> exists i: nat :: CurrentAt(csvs, s, i)
  {
    if csvs != [] {
      MatchMeans(csvs[1..], s);
      assert csvs == [csvs[0]] + csvs[1..];
      if csvs[0] == s.currentCSV {
        assert csvs[..0] == [];
        assert CurrentAt(csvs, s, 0);
      } else {
        forall i | 1 <= i <= |csvs|
          ensures csvs[..i] == [csvs[0]] + csvs[1..][..i - 1]
        {
        }
        if MatchOf(csvs, s).Current? {
          var i: nat :| CurrentAt(csvs[1..], s, i);
          assert csvs[..i + 1] == [csvs[0]] + csvs[1..][..i];
          assert CurrentAt(csvs, s, i + 1);
        }
        if i: nat :| CurrentAt(csvs, s, i) {
          assert i > 0;
          assert csvs[..i] == [csvs[0]] + csvs[1..][..i - 1];
          assert CurrentAt(csvs[1..], s, i - 1);
        }
      }
    }
  }

  /** A plan is preferred if it installs the current CSV or has done so; candidates have a generation to compare. */
  lemma {:induction false} PreferredMeans(l: Listed, s: Subscription)
    ensures Preferred(l, s) <==>
      && l.csvs.Some? && (l.phase == Installing || l.phase == Complete)
      && exists i: nat :: CurrentAt(l.csvs.value, s, i)
    ensures Candidate(l, s) <==>
      && l.csvs.Some? && (s.currentCSV in l.csvs.value || s.installedCSV in l.csvs.value)
      && l.generation.Some? && l.generation.value >= 0
  {
    if l.csvs.Some? {
      MatchMeans(l.csvs.value, s);
    }
  }

  /** musthaveInstallPlan. The steps of a failed plan only choose between two reports. */
  method MusthaveInstallPlan(p: Policy, current: Subscription, subs: seq<Subscription>, latest: Listed)
    returns (decision: Decision)
    requires latest.csvs.Some?
    requires
      var plan := Plan(latest.csvs.value, latest.bundles);
      ApprovalDue(p, current, latest) ==>
        && CanResolve(p, current, plan)
        && (!(SetOf(plan.csvs) <= Approved(p, current, plan)) ==> OthersResolve(current, subs, plan))
    // A plan is approved exactly when that is due and each of its CSVs is approved by somebody entitled to.
    ensures decision.Approve? <==>
      ApprovalDue(p, current, latest) && EveryCSVApproved(p, current, subs, Plan(latest.csvs.value, latest.bundles))
    // Otherwise the report tells how far it is from that.
    ensures decision == Reported <==> latest.phase != RequiresApproval
    ensures decision == NoApprovals <==>
      latest.phase == RequiresApproval && |current.installedCSV| > 0 && current.installedCSV == current.currentCSV
    ensures decision == AlreadyApproved <==>
      && latest.phase == RequiresApproval && latest.approved
      && !(|current.installedCSV| > 0 && current.installedCSV == current.currentCSV)
    ensures decision.UpgradeAvailable? && !ApprovalDue(p, current, latest) ==>
      decision.remaining == [] && (!p.enforce || (|current.installedCSV| > 0 && !p.automaticUpgrades))
    ensures decision.UpgradeAvailable? && ApprovalDue(p, current, latest) ==>
      && decision.remaining != [] && Ascending(decision.remaining)
      && SetOf(decision.remaining) == Remaining(p, current, subs, Plan(latest.csvs.value, latest.bundles))
  {
    if latest.phase != RequiresApproval {
      return Reported;
    }
    if current.installedCSV != "" && current.currentCSV != "" && current.installedCSV == current.currentCSV {
      return NoApprovals;
    }
    if latest.approved {
      return AlreadyApproved;
    }
    var initialInstall := current.installedCSV == "";
    if !p.enforce || (!initialInstall && !p.automaticUpgrades) {
      return UpgradeAvailable([]);
    }
    var plan := Plan(latest.csvs.value, latest.bundles);
    var remaining := GetRemainingCSVApprovals(p, current, subs, plan);
    NothingRemainsMeans(p, current, subs, plan);
    if remaining != [] {
      assert remaining[0] in SetOf(remaining);
      return UpgradeAvailable(remaining);
    }
    return Approve;
  }
}
