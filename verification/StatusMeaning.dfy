/** What the parts of an OperatorPolicy's status mean, by name (controllers/operatorpolicy_status.go). */
module StatusMeaning {
  import opened Sorting
  import opened Json
  import opened GoStd
  import opened OperatorStatus

  /** The first condition of the type. */
  ghost predicate IsFirst(conditions: seq<Condition>, ctype: string, c: Condition) {
    exists i :: 0 <= i < |conditions| && conditions[i] == c && c.ctype == ctype &&
      forall j :: 0 <= j < i ==> conditions[j].ctype != ctype
  }

  ghost predicate Shows(conditions: seq<Condition>, ctype: string, status: Truth) {
    exists c :: IsFirst(conditions, ctype, c) && c.status == status
  }

  lemma {:induction false} FindIsFirst(conditions: seq<Condition>, ctype: string)
    ensures var r := Find(conditions, ctype);
      && (r.Some? ==> IsFirst(conditions, ctype, r.value))
      && (forall c :: IsFirst(conditions, ctype, c) ==> r == Some(c))
  {
    NotFound(conditions, ctype);
    var i := GetCondition(conditions, ctype);
    if i != -1 {
      FirstIndex(conditions, ctype);
    }
  }

  lemma {:induction false} FirstIndex(conditions: seq<Condition>, ctype: string)
    requires GetCondition(conditions, ctype) != -1
    ensures forall j :: 0 <= j < GetCondition(conditions, ctype) ==> conditions[j].ctype != ctype
  {
    if conditions[0].ctype != ctype {
      FirstIndex(conditions[1..], ctype);
      assert forall j :: 1 <= j < |conditions| ==> conditions[j] == conditions[1..][j - 1];
    }
  }

  lemma {:induction false} ShowsIs(conditions: seq<Condition>, ctype: string, status: Truth)
    ensures Is(conditions, ctype, status) <==> Shows(conditions, ctype, status)
  {
    FindIsFirst(conditions, ctype);
  }

  /** The parts of a policy, and what the condition of each must show. */
  const PARTS := [
    ("ValidPolicySpec", True),
    ("OperatorGroupCompliant", True),
    ("SubscriptionCompliant", True),
    ("InstallPlanCompliant", True),
    ("ClusterServiceVersionCompliant", True),
    ("CustomResourceDefinitionCompliant", True),
    ("DeploymentCompliant", True),
    ("CatalogSourcesUnhealthy", False)
  ]

  /**
   * The policy is compliant exactly if all its parts are: every condition is true, but no catalog source may be
   * unhealthy; deprecations only count when the operator is wanted and the policy says so.
   */
  lemma {:induction false} CompliantMeans(spec: Spec, conditions: seq<Condition>)
    ensures Healthy(spec, conditions) <==>
      && (forall i :: 0 <= i < |PARTS| ==> Shows(conditions, PARTS[i].0, PARTS[i].1))
      && (!spec.mustNotHave && spec.deprecationsAreNonCompliant ==> Shows(conditions, "NoDeprecations", True))
  {
    HealthyParts(spec, conditions);
    forall i | 0 <= i < 8
      ensures Meets(conditions, REQUIRED[i]) <==> Shows(conditions, PARTS[i].0, PARTS[i].1)
    {
      PartIs(i);
      ShowsIs(conditions, PARTS[i].0, PARTS[i].1);
    }
    ShowsIs(conditions, "NoDeprecations", True);
  }

  lemma {:induction false} PartIs(i: nat)
    requires i < 8
    ensures |REQUIRED| == |PARTS| == 8 && REQUIRED[i].ctype == PARTS[i].0 && REQUIRED[i].wanted == PARTS[i].1
  {
  }

  ghost predicate Meets(conditions: seq<Condition>, r: Requirement) {
    Is(conditions, r.ctype, r.wanted)
  }

  lemma {:induction false} HealthyParts(spec: Spec, conditions: seq<Condition>)
    ensures Healthy(spec, conditions) <==>
      && (forall i :: 0 <= i < 8 ==> Meets(conditions, REQUIRED[i]))
      && (!spec.mustNotHave && spec.deprecationsAreNonCompliant ==> Meets(conditions, NO_DEPRECATIONS))
  {
    var rs := Requirements(spec);
    assert |REQUIRED| == 8;
    assert forall i :: 0 <= i < 8 ==> rs[i] == REQUIRED[i];
    assert forall r :: r in rs <==> r in REQUIRED || (|rs| == 9 && r == rs[8]);
    assert forall r :: r in rs ==> (Meets(conditions, r) <==> Is(conditions, r.ctype, r.wanted));
    if forall i :: 0 <= i < 8 ==> Meets(conditions, REQUIRED[i]) {
      assert forall r :: r in REQUIRED ==> Meets(conditions, r);
    }
    if Healthy(spec, conditions) {
      assert forall i :: 0 <= i < 8 ==> REQUIRED[i] in rs;
    }
  }

  /** What is said of each part that has no condition yet, in the order of the parts. */
  lemma {:induction false} MissingMeans(spec: Spec)
    ensures MessagesOf([], REQUIRED) == [
      "the validity of the policy is unknown", "the status of the OperatorGroup is unknown",
      "the status of the Subscription is unknown", "the status of the InstallPlan is unknown",
      "the status of the ClusterServiceVersion is unknown", "the status of the CustomResourceDefinitions is unknown",
      "the status of the Deployments are unknown", "the status of the CatalogSource is unknown"]
    ensures MessageOf([], NO_DEPRECATIONS) == "The deprecation status is unknown"
    ensures Requirements(spec) ==
      REQUIRED + if !spec.mustNotHave && spec.deprecationsAreNonCompliant then [NO_DEPRECATIONS] else []
  {
  }

  /** The text of the Compliant condition. */
  lemma {:induction false} ComplianceMeans(spec: Spec, conditions: seq<Condition>, now: int)
    ensures var c := ComplianceCondition(spec, conditions, now);
      var text := Join(MessagesOf(conditions, Requirements(spec)), ", ");
      && c.ctype == "Compliant" && c.time == now
      && (Healthy(spec, conditions) ==>
            c.status == True && c.reason == "Compliant" && c.message == "Compliant; " + text)
      && (!Healthy(spec, conditions) ==>
            c.status == False && c.reason == "NonCompliant" && c.message == "NonCompliant; " + text)
  {
  }

  /** A part that has a condition is reported with its message, whether it is as wanted or not. */
  lemma {:induction false} PartsMessage(conditions: seq<Condition>, r: Requirement, c: Condition)
    requires IsFirst(conditions, r.ctype, c)
    ensures MessageOf(conditions, r) == c.message
  {
    FindIsFirst(conditions, r.ctype);
  }

  /** Setting a condition asks for nothing exactly if the one of its type says the same, at whatever time. */
  lemma {:induction false} SetMeans(conditions: seq<Condition>, c: Condition)
    ensures !SetChanges(conditions, c) <==>
      exists d :: IsFirst(conditions, c.ctype, d) &&
        d.message == c.message && d.reason == c.reason && d.status == c.status
    ensures Set(conditions, c) == conditions || Find(Set(conditions, c), c.ctype) == Some(c)
    ensures SetChanges(conditions, c) ==> Find(Set(conditions, c), c.ctype) == Some(c)
  {
    FindIsFirst(conditions, c.ctype);
    if SetChanges(conditions, c) {
      PutIsFound(conditions, c);
    }
  }

  lemma {:induction false} PutIsFound(conditions: seq<Condition>, c: Condition)
    ensures Find(Put(conditions, c), c.ctype) == Some(c)
  {
    var i := GetCondition(conditions, c.ctype);
    var after := Put(conditions, c);
    NotFound(conditions, c.ctype);
    if i != -1 {
      FirstIndex(conditions, c.ctype);
    }
    var k := if i == -1 then |conditions| else i;
    assert after[k] == c && forall j :: 0 <= j < k ==> after[j].ctype != c.ctype;
    assert IsFirst(after, c.ctype, c);
    FindIsFirst(after, c.ctype);
  }

  /** A condition without a time gets that of the call; one with a time keeps it. */
  lemma {:induction false} StampMeans(c: Condition, now: int)
    ensures Stamped(c.(time := 0), now) == c.(time := now)
    ensures c.time != 0 ==> Stamped(c, now) == c
  {
  }

  // ---------- related objects ----------

  /** The lists say the same of every object: as many, with the names of the old ones, and no pair that disagrees. */
  lemma {:induction false} UnchangedMeans(prev: seq<RelatedObject>, objs: seq<RelatedObject>)
    ensures !RelatedChanged(prev, objs) <==>
      && |prev| == |objs|
      && (forall p :: p in prev ==> exists o :: o in objs && o.name == p.name)
      && (forall p, o :: p in prev && o in objs && o.name == p.name ==>
            && o.compliant == p.compliant && o.reason == p.reason
            && (o.properties.Some? && p.properties.Some? ==> o.properties.value.uid == p.properties.value.uid))
  {
    forall p, o | p in prev && o in objs && o.name == p.name
      ensures Differ(p, o) <==>
        !(o.compliant == p.compliant && o.reason == p.reason &&
          (o.properties.Some? && p.properties.Some? ==> o.properties.value.uid == p.properties.value.uid))
    {
    }
  }

  /** What is carried over to an object: whether the policy created it, from an old one of its name and UID. */
  lemma {:induction false} CarriedMeans(p: RelatedObject, o: RelatedObject)
    ensures Carries(p, o) <==>
      && p.name == o.name && p.properties.Some? && o.properties.Some?
      && p.properties.value.uid == o.properties.value.uid && p.properties.value.createdByPolicy != None
    ensures Carries(p, o) ==>
      var r := CarriedOver(p, o);
      && r.properties == Some(Properties(p.properties.value.createdByPolicy, o.properties.value.uid))
      && r.(properties := None) == o.(properties := None)
  {
  }

  /** Objects are listed by kind and then by name. */
  lemma {:induction false} ListedMeans(a: RelatedObject, b: RelatedObject)
    ensures ByKindAndName()(a, b) <==> StrLess(a.kind, b.kind) || (a.kind == b.kind && !StrLess(b.name, a.name))
  {
    StrLeqTotal(a.name, b.name);
    StrLeqReflexive(a.name);
    if StrLeq(a.name, b.name) && StrLeq(b.name, a.name) {
      StrLeqAntisymmetric(a.name, b.name);
    }
  }
}
