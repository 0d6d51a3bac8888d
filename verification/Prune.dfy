/**
 * The related objects of a ConfigurationPolicy and the pruning of those it no longer mentions
 * (controllers/configurationpolicy_controller.go, updatedRelatedObjects and cleanUpChildObjects).
 */
module Prune {
  import opened Sorting
  import opened Json

  datatype Ident = Ident(apiVersion: string, kind: string, namespace: string, name: string)

  datatype Properties = Properties(createdByPolicy: Option<bool>, uid: string, diff: string)

  datatype Related = Related(id: Ident, compliant: string, reason: string, properties: Option<Properties>)

  datatype PruneBehavior = KeepAll | DeleteIfCreated | DeleteAll

  /** What the API server does when asked about, or to delete, an object that exists. */
  datatype Answer = MappingError | GetError | AlreadyDeleting | DeleteError | Hangs | Deleted

  /** sort.SliceStable by kind, namespace and name. */
  function ByPlace(): (Related, Related) -> bool {
    (a: Related, b: Related) =>
      StrLess(a.id.kind, b.id.kind) ||
      (a.id.kind == b.id.kind &&
       (StrLess(a.id.namespace, b.id.namespace) ||
        (a.id.namespace == b.id.namespace && StrLeq(a.id.name, b.id.name))))
  }

  /** The old entry hands its creation record on to a new one that was not just created. */
  predicate HandsOn(o: Related, n: Related) {
    n.id == o.id && o.properties.Some? && n.properties.Some? && n.properties.value.createdByPolicy == Some(false)
  }

  function WithRecord(n: Related, o: Related): Related
    requires HandsOn(o, n)
  {
    n.(properties :=
      Some(n.properties.value.(createdByPolicy := o.properties.value.createdByPolicy, uid := o.properties.value.uid)))
  }

  /** A new entry, with the record of the first old one that hands it on. */
  function Updated(before: seq<Related>, n: Related): Related {
    if before == [] then n
    else if HandsOn(before[0], n) then WithRecord(n, before[0])
    else Updated(before[1..], n)
  }

  function UpdatedAll(before: seq<Related>, related: seq<Related>): (r: seq<Related>)
    ensures |r| == |related|
  {
    seq(|related|, i requires 0 <= i < |related| => Updated(before, related[i]))
  }

  function UpdatedRelated(before: seq<Related>, related: seq<Related>): seq<Related> {
    UpdatedAll(before, Sort(ByPlace(), related))
  }

  /** containRelated. */
  predicate Contains(related: seq<Related>, id: Ident) {
    exists r | r in related :: r.id == id
  }

  /** What cleanUpChildObjects considers: the old entries that are not in the new list, if there is one. */
  predicate Dropped(before: seq<Related>, related: seq<Related>, o: Related) {
    o in before && (related == [] || !Contains(related, o.id))
  }

  type Cluster = map<Ident, string>

  /** The entry says that the policy created the object that is live now. */
  predicate CreatedLive(o: Related, cluster: Cluster) {
    o.id in cluster && o.properties.Some? && o.properties.value.createdByPolicy == Some(true) &&
    o.properties.value.uid == cluster[o.id]
  }

  /** An object is deleted: the policy asks for it and the API server carries it out. */
  ghost predicate Pruned(enforce: bool, behavior: PruneBehavior, before: seq<Related>, related: seq<Related>,
                         cluster: Cluster, answers: Ident -> Answer, id: Ident) {
    && enforce && behavior != KeepAll && id in cluster && answers(id) == Deleted
    && exists o :: Dropped(before, related, o) && o.id == id && (behavior == DeleteAll || CreatedLive(o, cluster))
  }

  class ConfigurationPolicy {
    var enforce: bool
    var behavior: PruneBehavior
    // status.relatedObjects
    var related: seq<Related>
    // The live objects and their UIDs.
    var cluster: Cluster
    // UIDs that an evaluation of this policy has reported as created by it.
    ghost var recorded: set<string>

    /** Whatever the status calls created by the policy was reported so by some evaluation. */
    ghost predicate Valid()
      reads this
    {
      && (forall id :: id in cluster ==> cluster[id] != "")
      && (forall r :: r in related ==> Recorded(r, recorded))
    }

    constructor (enforce: bool, behavior: PruneBehavior, cluster: Cluster)
      requires forall id :: id in cluster ==> cluster[id] != ""
      ensures Valid() && related == [] && this.cluster == cluster
    {
      this.enforce, this.behavior, this.cluster := enforce, behavior, cluster;
      related, recorded := [], {};
    }

    /** The loops of updatedRelatedObjects. */
    method UpdatedRelatedObjects(given: seq<Related>) returns (updated: seq<Related>)
      ensures updated == UpdatedRelated(related, given)
    {
      updated := Sort(ByPlace(), given);
      var sorted := updated;
      for i := 0 to |sorted|
        invariant |updated| == |sorted|
        invariant forall k :: 0 <= k < |sorted| ==>
          updated[k] == if k < i then Updated(related, sorted[k]) else sorted[k]
      {
        var entry := UpdatedEntry(sorted[i]);
        updated := updated[i := entry];
      }
    }

    /** The inner loop, for one new entry. */
    method UpdatedEntry(n: Related) returns (entry: Related)
      ensures entry == Updated(related, n)
    {
      for j := 0 to |related|
        invariant Updated(related, n) == Updated(related[j..], n)
      {
        if HandsOn(related[j], n) {
          return WithRecord(n, related[j]);
        }
        assert related[j..][1..] == related[j + 1..];
      }
      return n;
    }

    /** cleanUpChildObjects; `answers` says how the API server reacts for each object that exists. */
    method CleanUpChildObjects(newRelated: seq<Related>, answers: Ident -> Answer)
      returns (failures: set<Ident>, ghost deleted: set<Ident>)
      modifies this`cluster
      ensures forall id :: id in failures <==> Failed(enforce, behavior, related, newRelated, old(cluster), answers, id)
      ensures forall id :: id in deleted <==> Pruned(enforce, behavior, related, newRelated, old(cluster), answers, id)
      ensures cluster == old(cluster) - deleted
    {
      failures, deleted := {}, {};
      if !enforce || behavior == KeepAll {
        return;
      }
      for i := 0 to |related|
        invariant cluster == old(cluster) - deleted
        invariant forall id :: id in deleted <==>
          Pruned(enforce, behavior, related[..i], newRelated, old(cluster), answers, id)
        invariant forall id :: id in failures <==>
          Failed(enforce, behavior, related[..i], newRelated, old(cluster), answers, id)
      {
        var o := related[i];
        assert related[..i + 1] == related[..i] + [o];
        forall id
          ensures Pruned(enforce, behavior, related[..i + 1], newRelated, old(cluster), answers, id) <==>
            Pruned(enforce, behavior, related[..i], newRelated, old(cluster), answers, id) ||
            (id == o.id && PruneEntry(behavior, newRelated, old(cluster), o) && answers(id) == Deleted)
        {
          PrunedStep(enforce, behavior, related[..i], o, newRelated, old(cluster), answers, id);
        }
        forall id
          ensures Failed(enforce, behavior, related[..i + 1], newRelated, old(cluster), answers, id) <==>
            Failed(enforce, behavior, related[..i], newRelated, old(cluster), answers, id) ||
            (id == o.id && FailedEntry(behavior, newRelated, old(cluster), answers, o))
        {
          FailedStep(enforce, behavior, related[..i], o, newRelated, old(cluster), answers, id);
        }
        if |newRelated| == 0 || !Contains(newRelated, o.id) {
          var answer := answers(o.id);
          if answer == MappingError || answer == GetError {
            failures := failures + {o.id};
          } else if o.id in cluster {
            var needsDelete := false;
            if behavior == DeleteAll {
              needsDelete := true;
            } else if o.properties.Some? && o.properties.value.createdByPolicy == Some(true) &&
                      o.properties.value.uid == cluster[o.id] {
              needsDelete := true;
            }
            if needsDelete {
              if answer == Deleted {
                cluster := cluster - {o.id};
                deleted := deleted + {o.id};
              } else {
                failures := failures + {o.id};
              }
            }
          }
        }
      }
      assert related[..|related|] == related;
    }

    /**
     * One evaluation: `reported` are the related objects with the creation records made in it, and the status update
     * at its end may fail. Objects are created and changed between evaluations and during them by `Change`.
     */
    method Evaluate(reported: seq<Related>, skipCleanup: bool, answers: Ident -> Answer, persisted: bool)
      returns (ghost deleted: set<Ident>)
      requires Valid()
      modifies this`related, this`cluster, this`recorded
      ensures Valid()
      ensures deleted <= old(cluster).Keys && cluster == old(cluster) - deleted
      // Cleaning up is due when the related objects have changed, and the new ones are kept if the status is written.
      ensures var updated := UpdatedRelated(old(related), reported);
        && related == (if persisted then updated else old(related))
        && forall id :: id in deleted <==>
             updated != old(related) && !skipCleanup &&
             Pruned(enforce, behavior, old(related), updated, old(cluster), answers, id)
      // Only an enforced policy with a pruning behaviour prunes.
      ensures deleted != {} ==> enforce && behavior != KeepAll
      // What is still reported is kept.
      ensures forall id :: id in deleted ==> !Contains(reported, id)
      // Under DeleteIfCreated, the live object was recorded as created in an earlier evaluation.
      ensures behavior == DeleteIfCreated ==> forall id :: id in deleted ==>
        old(cluster)[id] != "" && old(cluster)[id] in old(recorded)
      // Under DeleteAll, it was at least a related object before.
      ensures forall id :: id in deleted ==> Contains(old(related), id)
    {
      var updated := UpdatedRelatedObjects(reported);
      recorded := recorded + set r |
        r in reported && r.properties.Some? && r.properties.value.createdByPolicy == Some(true) ::
          r.properties.value.uid;
      UpdatedKeepsRecords(related, reported, recorded);
      deleted := {};
      if updated != related && !skipCleanup {
        var failures;
        failures, deleted := CleanUpChildObjects(updated, answers);
        forall id | id in deleted
          ensures reported == [] || !Contains(reported, id)
        {
          UpdatedKeepsIds(related, reported, id);
        }
      }
      if persisted {
        related := updated;
      }
    }

    /** Deleting the policy: nothing is reported any more, and the status is left alone. */
    method HandleDeletion(answers: Ident -> Answer) returns (ghost deleted: set<Ident>)
      requires Valid()
      modifies this`cluster
      ensures Valid() && cluster == old(cluster) - deleted && deleted <= old(cluster).Keys
      ensures behavior == DeleteIfCreated ==> forall id :: id in deleted ==> old(cluster)[id] in recorded
      ensures deleted != {} ==> enforce && behavior != KeepAll
      ensures forall id :: id in deleted <==> Pruned(enforce, behavior, related, [], old(cluster), answers, id)
    {
      var failures;
      failures, deleted := CleanUpChildObjects([], answers);
    }

    /** Anybody creates, replaces or deletes objects; live objects have a UID. */
    method Change(after: Cluster)
      requires Valid() && forall id :: id in after ==> after[id] != ""
      modifies this`cluster
      ensures Valid() && cluster == after
    {
      cluster := after;
    }

    method ChangeSpec(enforce: bool, behavior: PruneBehavior)
      requires Valid()
      modifies this`enforce, this`behavior
      ensures Valid() && this.enforce == enforce && this.behavior == behavior
    {
      this.enforce, this.behavior := enforce, behavior;
    }
  }

  /** The object of a dropped entry cannot be looked up, or has to be deleted and is not. */
  ghost predicate FailedEntry(behavior: PruneBehavior, related: seq<Related>, cluster: Cluster,
                              answers: Ident -> Answer, o: Related)
  {
    && (related == [] || !Contains(related, o.id))
    && match answers(o.id)
       case MappingError => true
       case GetError => true
       case Deleted => false
       case _ => o.id in cluster && (behavior == DeleteAll || CreatedLive(o, cluster))
  }

  ghost predicate Failed(enforce: bool, behavior: PruneBehavior, before: seq<Related>, related: seq<Related>,
                         cluster: Cluster, answers: Ident -> Answer, id: Ident)
  {
    && enforce && behavior != KeepAll
    && exists o :: o in before && o.id == id && FailedEntry(behavior, related, cluster, answers, o)
  }

  lemma {:induction false} FailedStep(enforce: bool, behavior: PruneBehavior, before: seq<Related>, o: Related,
                                      related: seq<Related>, cluster: Cluster, answers: Ident -> Answer, id: Ident)
    requires enforce && behavior != KeepAll
    ensures Failed(enforce, behavior, before + [o], related, cluster, answers, id) <==>
      Failed(enforce, behavior, before, related, cluster, answers, id) ||
      (id == o.id && FailedEntry(behavior, related, cluster, answers, o))
  {
    assert forall r :: r in before + [o] <==> r in before || r == o;
  }

  /** The condition on one entry. */
  ghost predicate PruneEntry(behavior: PruneBehavior, related: seq<Related>, cluster: Cluster, o: Related) {
    (related == [] || !Contains(related, o.id)) && o.id in cluster && (behavior == DeleteAll || CreatedLive(o, cluster))
  }

  lemma {:induction false} PrunedStep(enforce: bool, behavior: PruneBehavior, before: seq<Related>, o: Related,
                                      related: seq<Related>, cluster: Cluster, answers: Ident -> Answer, id: Ident)
    requires enforce && behavior != KeepAll
    ensures Pruned(enforce, behavior, before + [o], related, cluster, answers, id) <==>
      Pruned(enforce, behavior, before, related, cluster, answers, id) ||
      (id == o.id && PruneEntry(behavior, related, cluster, o) && answers(id) == Deleted)
  {
    assert forall r :: r in before + [o] <==> r in before || r == o;
    assert forall r :: Dropped(before + [o], related, r) <==>
      Dropped(before, related, r) || (r == o && (related == [] || !Contains(related, o.id)));
  }

  lemma {:induction false} UpdatedRecord(before: seq<Related>, n: Related, recorded: set<string>)
    requires Recorded(n, recorded) && forall o :: o in before ==> Recorded(o, recorded)
    ensures Recorded(Updated(before, n), recorded) && Updated(before, n).id == n.id
  {
    if before != [] {
      assert before[0] in before;
      if !HandsOn(before[0], n) {
        UpdatedRecord(before[1..], n, recorded);
      }
    }
  }

  /** createdByPolicy and the UID are handed on together, so every claim of creation stays a recorded one. */
  lemma {:induction false} UpdatedKeepsRecords(before: seq<Related>, reported: seq<Related>, recorded: set<string>)
    requires forall o :: o in before ==> Recorded(o, recorded)
    requires forall n :: n in reported ==> Recorded(n, recorded)
    ensures forall r :: r in UpdatedRelated(before, reported) ==> Recorded(r, recorded)
  {
    var sorted := Sort(ByPlace(), reported);
    SortPermutes(ByPlace(), reported);
    PermutationMembers(sorted, reported);
    forall i | 0 <= i < |sorted|
      ensures Recorded(Updated(before, sorted[i]), recorded)
    {
      assert sorted[i] in sorted;
      UpdatedRecord(before, sorted[i], recorded);
    }
  }

  /** Two lists with the same identities position by position mention the same objects. */
  lemma {:induction false} SameIds(a: seq<Related>, b: seq<Related>, id: Ident)
    requires |a| == |b| && forall i :: 0 <= i < |a| ==> a[i].id == b[i].id
    ensures Contains(a, id) ==> Contains(b, id)
  {
    if Contains(a, id) {
      var r :| r in a && r.id == id;
      var i :| 0 <= i < |a| && a[i] == r;
      assert b[i] in b;
    }
  }

  lemma {:induction false} UpdatedKeepsIds(before: seq<Related>, reported: seq<Related>, id: Ident)
    ensures Contains(UpdatedRelated(before, reported), id) <==> Contains(reported, id)
    ensures |UpdatedRelated(before, reported)| == |reported|
  {
    var sorted, updated := Sort(ByPlace(), reported), UpdatedRelated(before, reported);
    SortPermutes(ByPlace(), reported);
    PermutationMembers(sorted, reported);
    forall i | 0 <= i < |sorted|
      ensures updated[i].id == sorted[i].id
    {
      UpdatedId(before, sorted[i]);
    }
    SameIds(sorted, updated, id);
    SameIds(updated, sorted, id);
    assert Contains(sorted, id) <==> Contains(reported, id);
  }

  lemma {:induction false} UpdatedId(before: seq<Related>, n: Related)
    ensures Updated(before, n).id == n.id
  {
    if before != [] && !HandsOn(before[0], n) {
      UpdatedId(before[1..], n);
    }
  }

  /** The UID of an entry that claims creation is among those recorded. */
  ghost predicate Recorded(r: Related, recorded: set<string>) {
    r.properties.Some? && r.properties.value.createdByPolicy == Some(true) ==> r.properties.value.uid in recorded
  }

  // ---------- what handing on, sorting and pruning mean ----------

  /** The first old entry of the same object, where both have properties. */
  ghost predicate Predecessor(before: seq<Related>, n: Related, i: nat) {
    && i < |before| && before[i].id == n.id && before[i].properties.Some?
    && forall j :: 0 <= j < i ==> before[j].id != n.id || before[j].properties.None?
  }

  /**
   * An object that was just created keeps its own record; one that was there before, and was not created now, takes
   * over who created it and its UID from the old entry. Nothing else of an entry changes.
   */
  lemma {:induction false} HandedOn(before: seq<Related>, n: Related)
    ensures n.properties.None? || n.properties.value.createdByPolicy != Some(false) ==> Updated(before, n) == n
    ensures (forall i: nat :: !Predecessor(before, n, i)) ==> Updated(before, n) == n
    ensures n.properties.Some? && n.properties.value.createdByPolicy == Some(false) ==>
      forall i: nat :: Predecessor(before, n, i) ==>
        var was, now := before[i].properties.value, n.properties.value;
        Updated(before, n) == n.(properties := Some(Properties(was.createdByPolicy, was.uid, now.diff)))
  {
    if before != [] {
      HandedOn(before[1..], n);
      if before[0].id == n.id && before[0].properties.Some? {
        assert Predecessor(before, n, 0);
        assert forall i :: Predecessor(before, n, i) ==> i == 0;
      } else {
        forall i: nat | Predecessor(before, n, i)
          ensures i > 0 && Predecessor(before[1..], n, i - 1)
        {
          assert forall j :: 0 <= j < i - 1 ==> before[1..][j] == before[j + 1];
        }
        forall i: nat | Predecessor(before[1..], n, i)
          ensures Predecessor(before, n, i + 1)
        {
          assert forall j :: 1 <= j < i + 1 ==> before[j] == before[1..][j - 1];
        }
      }
    }
  }

  /** The order of two entries: by kind, then by namespace, then by name. */
  lemma {:induction false} PlaceMeans(a: Related, b: Related)
    ensures a.id.kind != b.id.kind ==> (ByPlace()(a, b) <==> StrLeq(a.id.kind, b.id.kind))
    ensures a.id.kind == b.id.kind && a.id.namespace != b.id.namespace ==>
      (ByPlace()(a, b) <==> StrLeq(a.id.namespace, b.id.namespace))
    ensures a.id.kind == b.id.kind && a.id.namespace == b.id.namespace ==>
      (ByPlace()(a, b) <==> StrLeq(a.id.name, b.id.name))
  {
  }

  /**
   * An object is pruned exactly if the policy is enforced with a pruning behaviour, has it among its related objects
   * but not among the new ones, and, unless everything is to be deleted, calls the very object that is live created by
   * it.
   */
  lemma {:induction false} PrunedMeans(enforce: bool, behavior: PruneBehavior, before: seq<Related>,
                                       related: seq<Related>, cluster: Cluster, answers: Ident -> Answer, id: Ident)
    ensures Pruned(enforce, behavior, before, related, cluster, answers, id) <==>
      && enforce && behavior != KeepAll && answers(id) == Deleted
      && (forall r :: r in related ==> r.id != id)
      && exists o :: o in before && o.id == id && id in cluster &&
           (behavior == DeleteIfCreated ==>
              o.properties.Some? && o.properties.value.createdByPolicy == Some(true) &&
              o.properties.value.uid == cluster[id])
  {
    assert related == [] ==> !Contains(related, id);
  }
}
