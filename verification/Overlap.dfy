/**
 * How OperatorPolicies that manage the same Subscription find each other
 * (controllers/operatorpolicy_controller.go, checkSubOverlap).
 */
module Overlap {
  import opened Sorting
  import opened Json

  datatype Id = Id(name: string, namespace: string)

  /** `subLabel` is the label of the subscription the policy resolves to, "" when there is none. */
  datatype Spec = Spec(clusterName: Option<string>, clusterNamespace: Option<string>, enforce: bool, subLabel: string)

  datatype Status = Status(subLabel: string, overlapping: seq<string>)

  const NO_STATUS := Status("", [])

  type Specs = map<Id, Spec>

  type Statuses = map<Id, Status>

  function Text(id: Id): string {
    id.name + "." + id.namespace
  }

  /** Namespace names have no dot in them. */
  predicate NoDot(s: string) {
    '.' !in s
  }

  ghost predicate ValidIds(specs: Specs) {
    forall id :: id in specs ==> NoDot(id.namespace)
  }

  lemma {:induction false} LastDot(a: Id, b: Id)
    requires NoDot(a.namespace) && Text(a) == Text(b)
    ensures |b.name| <= |a.name|
  {
    var t := Text(a);
    forall i | |a.name| < i < |t|
      ensures t[i] != '.'
    {
      assert t[i] == a.namespace[i - |a.name| - 1];
    }
    assert Text(b)[|b.name|] == '.';
  }

  lemma {:induction false} TextInjective(a: Id, b: Id)
    requires NoDot(a.namespace) && NoDot(b.namespace) && Text(a) == Text(b)
    ensures a == b
  {
    LastDot(a, b);
    LastDot(b, a);
    var t := Text(a);
    assert a.name == t[..|a.name|] == b.name;
    assert a.namespace == t[|a.name| + 1..] == b.namespace;
  }

  /** The selector of policy `p`: an absent label of its own is looked for as the empty value. */
  predicate Listed(p: Spec, q: Spec) {
    && q.clusterName == Some(if p.clusterName.Some? then p.clusterName.value else "")
    && q.clusterNamespace == Some(if p.clusterNamespace.Some? then p.clusterNamespace.value else "")
  }

  function StatusOf(statuses: Statuses, id: Id): Status {
    if id in statuses then statuses[id] else NO_STATUS
  }

  /** The other enforced policies whose status has the label of `id`. */
  function OthersOf(specs: Specs, statuses: Statuses, id: Id): set<Id>
    requires id in specs
  {
    set q | q in specs && q != id && Listed(specs[id], specs[q]) && specs[q].enforce &&
      StatusOf(statuses, q).subLabel == specs[id].subLabel
  }

  predicate Active(spec: Spec) {
    spec.enforce && spec.subLabel != ""
  }

  ghost predicate ListsExactly(list: seq<string>, ids: set<Id>) {
    Ascending(list) && SetOf(list) == set id | id in ids :: Text(id)
  }

  /** The status a reconcile leaves, and whether the Subscription and OperatorGroup are withheld. */
  ghost predicate Reconciled(specs: Specs, statuses: Statuses, id: Id, after: Status, withheld: bool)
    requires id in specs
  {
    var others := OthersOf(specs, statuses, id);
    && after.subLabel == specs[id].subLabel
    && (withheld <==> Active(specs[id]) && others != {})
    && if withheld then ListsExactly(after.overlapping, others + {id}) else after.overlapping == []
  }

  class PolicyStore {
    const specs: Specs
    var statuses: Statuses

    constructor (specs: Specs, statuses: Statuses)
      ensures this.specs == specs && this.statuses == statuses
    {
      this.specs, this.statuses := specs, statuses;
    }

    /** checkSubOverlap, and the status update at the end of the reconcile. */
    method CheckSubOverlap(id: Id) returns (changed: bool, withheld: bool)
      requires id in specs && ValidIds(specs)
      modifies this`statuses
      ensures id in statuses && statuses == old(statuses)[id := statuses[id]]
      ensures Reconciled(specs, old(statuses), id, statuses[id], withheld)
      ensures changed <==> statuses[id] != StatusOf(old(statuses), id)
    {
      var before := StatusOf(statuses, id);
      var status := before;
      changed, withheld := false, false;
      var subLabel := specs[id].subLabel;
      if status.subLabel != subLabel {
        status := status.(subLabel := subLabel);
        changed := true;
      }
      if subLabel == "" || !specs[id].enforce {
        if |status.overlapping| != 0 {
          status := status.(overlapping := []);
          changed := true;
        }
        statuses := statuses[id := status];
        return;
      }
      var overlappers := CollectOverlappers(id);
      if |overlappers| == 1 {
        if |status.overlapping| != 0 {
          status := status.(overlapping := []);
          changed := true;
        }
      } else {
        var sorted := Sort(ByString(), overlappers);
        SortedStrings(overlappers);
        withheld := true;
        if sorted != status.overlapping {
          status := status.(overlapping := sorted);
          changed := true;
        }
      }
      statuses := statuses[id := status];
    }

    /** The loop over the listed policies, in any order. */
    method CollectOverlappers(id: Id) returns (overlappers: seq<string>)
      requires id in specs && ValidIds(specs)
      ensures Distinct(overlappers)
      ensures SetOf(overlappers) == set q | q in OthersOf(specs, statuses, id) + {id} :: Text(q)
      ensures |overlappers| == 1 <==> OthersOf(specs, statuses, id) == {}
    {
      overlappers := [Text(id)];
      var left := set q | q in specs && Listed(specs[id], specs[q]);
      ghost var ids := [id];
      ghost var others := OthersOf(specs, statuses, id);
      while left != {}
        invariant left <= specs.Keys
        invariant forall q :: q in ids <==> q == id || (q in others && q !in left)
        invariant Distinct(ids) && |overlappers| == |ids|
        invariant forall i :: 0 <= i < |ids| ==> overlappers[i] == Text(ids[i])
        decreases left
      {
        var q :| q in left;
        left := left - {q};
        if StatusOf(statuses, q).subLabel == specs[id].subLabel && specs[q].enforce && q != id {
          overlappers := overlappers + [Text(q)];
          ids := ids + [q];
        }
      }
      TextsOfIds(overlappers, ids, others + {id});
      IdCount(ids, others, id);
    }
  }

  lemma {:induction false} TextsOfIds(texts: seq<string>, ids: seq<Id>, members: set<Id>)
    requires |texts| == |ids| && (forall i :: 0 <= i < |ids| ==> texts[i] == Text(ids[i]))
    requires Distinct(ids) && (forall q :: q in ids <==> q in members)
    requires forall q :: q in members ==> NoDot(q.namespace)
    ensures Distinct(texts) && SetOf(texts) == set q | q in members :: Text(q)
  {
    forall i, j | 0 <= i < j < |texts|
      ensures texts[i] != texts[j]
    {
      assert ids[i] in members && ids[j] in members;
      if texts[i] == texts[j] {
        TextInjective(ids[i], ids[j]);
      }
    }
    forall q | q in members
      ensures Text(q) in texts
    {
      var i :| 0 <= i < |ids| && ids[i] == q;
      assert texts[i] == Text(q);
    }
  }

  lemma {:induction false} IdCount(ids: seq<Id>, others: set<Id>, id: Id)
    requires Distinct(ids) && id !in others && forall q :: q in ids <==> q == id || q in others
    ensures |ids| == 1 <==> others == {}
  {
    assert id in ids;
    if |ids| == 1 {
      assert forall q :: q in others ==> q in ids && q == ids[0];
    } else {
      assert ids[0] != ids[1] && ids[0] in ids && ids[1] in ids;
    }
  }

  // ---------- runs ----------

  ghost predicate StepOf(specs: Specs, before: Statuses, id: Id, after: Statuses) {
    id in specs && id in after && after == before[id := after[id]] &&
    exists withheld :: Reconciled(specs, before, id, after[id], withheld)
  }

  /** The policies are reconciled one after the other, in any order and as often as it happens. */
  ghost predicate Run(specs: Specs, steps: seq<Id>, states: seq<Statuses>) {
    |states| == |steps| + 1 && forall i :: 0 <= i < |steps| ==> StepOf(specs, states[i], steps[i], states[i + 1])
  }

  /** The other policies of the same cluster that enforce the same Subscription. */
  ghost function Rivals(specs: Specs, id: Id): set<Id>
    requires id in specs
  {
    set q | q in specs && q != id && Listed(specs[id], specs[q]) && specs[q].enforce &&
      specs[q].subLabel == specs[id].subLabel
  }

  ghost predicate SettledAt(specs: Specs, statuses: Statuses, id: Id)
    requires id in specs
  {
    && id in statuses && statuses[id].subLabel == specs[id].subLabel
    && if Active(specs[id]) && Rivals(specs, id) != {} then
      ListsExactly(statuses[id].overlapping, Rivals(specs, id) + {id})
       else statuses[id].overlapping == []
  }

  ghost predicate Settled(specs: Specs, statuses: Statuses) {
    forall id :: id in specs ==> SettledAt(specs, statuses, id)
  }

  ghost predicate Labelled(specs: Specs, statuses: Statuses) {
    forall id :: id in specs ==> StatusOf(statuses, id).subLabel == specs[id].subLabel
  }

  /** A policy that has been reconciled keeps the label it resolves to. */
  lemma {:induction false} LabelStays(specs: Specs, steps: seq<Id>, states: seq<Statuses>, k: nat, n: nat)
    requires Run(specs, steps, states) && k < n <= |steps|
    ensures steps[k] in specs && steps[k] in states[n]
    ensures StatusOf(states[n], steps[k]).subLabel == specs[steps[k]].subLabel
  {
    assert StepOf(specs, states[n - 1], steps[n - 1], states[n - 1 + 1]);
    if k < n - 1 {
      LabelStays(specs, steps, states, k, n - 1);
    }
  }

  /** Once every status has its label, a policy's list is right from its next reconcile on. */
  lemma {:induction false} ListStays(specs: Specs, steps: seq<Id>, states: seq<Statuses>, m: nat, k: nat, n: nat)
    requires Run(specs, steps, states) && m <= k < n <= |steps|
    requires forall i :: m <= i <= |steps| ==> Labelled(specs, states[i])
    ensures steps[k] in specs && SettledAt(specs, states[n], steps[k])
  {
    assert StepOf(specs, states[n - 1], steps[n - 1], states[n - 1 + 1]);
    assert StepOf(specs, states[k], steps[k], states[k + 1]);
    assert Labelled(specs, states[n - 1]);
    assert OthersOf(specs, states[n - 1], steps[n - 1]) == Rivals(specs, steps[n - 1]);
    if k < n - 1 {
      ListStays(specs, steps, states, m, k, n - 1);
    }
  }

  /** `s` mentions every policy. */
  ghost predicate Round(specs: Specs, s: seq<Id>) {
    forall id :: id in specs ==> id in s
  }

  /** After two rounds, in any order, every policy lists exactly its rivals and itself, or nobody. */
  lemma {:induction false} TwoRoundsSettle(specs: Specs, first: seq<Id>, second: seq<Id>, states: seq<Statuses>)
    requires Run(specs, first + second, states) && Round(specs, first) && Round(specs, second)
    ensures Settled(specs, states[|first + second|])
  {
    var steps, m := first + second, |first|;
    forall i | m <= i <= |steps|
      ensures Labelled(specs, states[i])
    {
      forall id | id in specs
        ensures StatusOf(states[i], id).subLabel == specs[id].subLabel
      {
        var k :| 0 <= k < |first| && first[k] == id;
        assert steps[k] == id;
        LabelStays(specs, steps, states, k, i);
      }
    }
    forall id | id in specs
      ensures SettledAt(specs, states[|steps|], id)
    {
      var k :| 0 <= k < |second| && second[k] == id;
      assert steps[m + k] == id;
      ListStays(specs, steps, states, m, m + k, |steps|);
    }
  }

  /** A settled state is a fixpoint: a further reconcile changes nothing, and withholds exactly for the rivals. */
  lemma {:induction false} SettledIsFixpoint(specs: Specs, statuses: Statuses, id: Id, after: Status, withheld: bool)
    requires Settled(specs, statuses) && id in specs && Reconciled(specs, statuses, id, after, withheld)
    ensures after == statuses[id]
    ensures withheld <==> Active(specs[id]) && Rivals(specs, id) != {}
  {
    assert forall q :: q in specs ==> SettledAt(specs, statuses, q);
    assert OthersOf(specs, statuses, id) == Rivals(specs, id);
    if withheld {
      AscendingUnique(after.overlapping, statuses[id].overlapping);
    }
  }

  predicate HasCluster(spec: Spec) {
    spec.clusterName.Some? && spec.clusterNamespace.Some?
  }

  /**
   * In a settled state, enforced policies of one Subscription that see each other list the same policies. A rival sees
   * a policy in turn if and only if that has both cluster labels; a policy without one sees those whose label is empty.
   */
  lemma {:induction false} RivalsAgree(specs: Specs, statuses: Statuses, p: Id, q: Id)
    requires Settled(specs, statuses) && ValidIds(specs) && p in specs && Active(specs[p]) && q in Rivals(specs, p)
    ensures Active(specs[q]) && Text(p) in statuses[p].overlapping
    ensures p in Rivals(specs, q) <==> HasCluster(specs[p])
    ensures statuses[p].overlapping == statuses[q].overlapping <==> HasCluster(specs[p])
  {
    assert SettledAt(specs, statuses, p) && SettledAt(specs, statuses, q);
    assert Text(p) in SetOf(statuses[p].overlapping);
    if HasCluster(specs[p]) {
      assert Rivals(specs, p) + {p} == Rivals(specs, q) + {q};
      AscendingUnique(statuses[p].overlapping, statuses[q].overlapping);
    } else {
      NotListed(specs, statuses, p, q);
    }
  }

  lemma {:induction false} NotListed(specs: Specs, statuses: Statuses, p: Id, q: Id)
    requires ValidIds(specs) && p in specs && q in specs && q != p && SettledAt(specs, statuses, q) &&
      p !in Rivals(specs, q)
    ensures Text(p) !in statuses[q].overlapping
  {
    forall id | id in Rivals(specs, q) + {q}
      ensures Text(id) != Text(p)
    {
      if Text(id) == Text(p) {
        TextInjective(id, p);
      }
    }
    assert Text(p) !in SetOf(statuses[q].overlapping);
  }

  /** One round is not enough: the first policy to be reconciled cannot see its rivals yet. */
  lemma {:induction false} FirstReconcileMissesRivals(specs: Specs, p: Id, q: Id, after: Status, withheld: bool)
    requires p in specs && Active(specs[p]) && q in Rivals(specs, p)
    requires Reconciled(specs, map[], p, after, withheld)
    ensures !withheld && !SettledAt(specs, map[p := after], p)
  {
    assert OthersOf(specs, map[], p) == {};
    assert p in Rivals(specs, p) + {p};
    assert Text(p) in set id | id in Rivals(specs, p) + {p} :: Text(id);
    assert Text(p) !in SetOf(after.overlapping);
  }

  /**
   * A policy finds those with its own cluster labels; without a label it finds those whose label is there and empty,
   * and none that have no label at all.
   */
  lemma {:induction false} ListedMeans(p: Spec, q: Spec)
    ensures Listed(p, q) <==>
      && q.clusterName.Some? && q.clusterNamespace.Some?
      && (if p.clusterName.Some? then p.clusterName == q.clusterName else |q.clusterName.value| == 0)
      && (if p.clusterNamespace.Some? then p.clusterNamespace == q.clusterNamespace
          else |q.clusterNamespace.value| == 0)
  {
  }
}
