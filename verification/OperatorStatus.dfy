/** The status of an OperatorPolicy (controllers/operatorpolicy_status.go). */
module OperatorStatus {
  import opened Sorting
  import opened Json
  import opened GoStd

  datatype Truth = True | False | Unknown

  datatype Condition = Condition(ctype: string, status: Truth, reason: string, message: string, time: int)

  datatype Properties = Properties(createdByPolicy: Option<bool>, uid: string)

  datatype RelatedObject = RelatedObject(
    kind: string, namespace: string, name: string, compliant: string, reason: string, properties: Option<Properties>)

  /** What updateStatus reads of the policy besides its status. */
  datatype Spec = Spec(generation: int, mustNotHave: bool, deprecationsAreNonCompliant: bool)

  datatype ComplianceState = Compliant | NonCompliant

  datatype Status = Status(
    conditions: seq<Condition>, related: seq<RelatedObject>, state: Option<ComplianceState>, observedGeneration: int)

  const COMPLIANT := "Compliant"
  const VALID_POLICY := "ValidPolicySpec"
  const OP_GROUP := "OperatorGroupCompliant"
  const SUBSCRIPTION := "SubscriptionCompliant"
  const INSTALL_PLAN := "InstallPlanCompliant"
  const CSV := "ClusterServiceVersionCompliant"
  const CRD := "CustomResourceDefinitionCompliant"
  const DEPLOYMENT := "DeploymentCompliant"
  const CATALOG_SOURCE := "CatalogSourcesUnhealthy"
  const DEPRECATION := "NoDeprecations"

  /** The index of the first condition of a type, or -1. */
  function GetCondition(conditions: seq<Condition>, ctype: string): (i: int)
    ensures i == -1 || (0 <= i < |conditions| && conditions[i].ctype == ctype)
  {
    if conditions == [] then -1
    else if conditions[0].ctype == ctype then 0
    else
      var i := GetCondition(conditions[1..], ctype);
      if i == -1 then -1 else i + 1
  }

  lemma {:induction false} NotFound(conditions: seq<Condition>, ctype: string)
    ensures GetCondition(conditions, ctype) == -1 <==>
      forall j :: 0 <= j < |conditions| ==> conditions[j].ctype != ctype
  {
    if conditions != [] && conditions[0].ctype != ctype {
      NotFound(conditions[1..], ctype);
      assert forall j :: 1 <= j < |conditions| ==> conditions[j] == conditions[1..][j - 1];
    }
  }

  function Find(conditions: seq<Condition>, ctype: string): (r: Option<Condition>) {
    var i := GetCondition(conditions, ctype);
    if i == -1 then None else Some(conditions[i])
  }

  // ---------- the compliance condition ----------

  /** The condition of the type is there with the wanted status. */
  predicate Is(conditions: seq<Condition>, ctype: string, wanted: Truth) {
    var c := Find(conditions, ctype);
    c.Some? && c.value.status == wanted
  }

  predicate DeprecationsMatter(spec: Spec) {
    !spec.mustNotHave && spec.deprecationsAreNonCompliant
  }

  /** A condition that is looked at, the status it must have, and what is said when it is missing. */
  datatype Requirement = Requirement(ctype: string, wanted: Truth, otherwise: string)

  /** The required conditions in the order of their messages. The CatalogSource one has the other polarity. */
  const REQUIRED := [
    Requirement(VALID_POLICY, True, "the validity of the policy is unknown"),
    Requirement(OP_GROUP, True, "the status of the OperatorGroup is unknown"),
    Requirement(SUBSCRIPTION, True, "the status of the Subscription is unknown"),
    Requirement(INSTALL_PLAN, True, "the status of the InstallPlan is unknown"),
    Requirement(CSV, True, "the status of the ClusterServiceVersion is unknown"),
    Requirement(CRD, True, "the status of the CustomResourceDefinitions is unknown"),
    Requirement(DEPLOYMENT, True, "the status of the Deployments are unknown"),
    Requirement(CATALOG_SOURCE, False, "the status of the CatalogSource is unknown")
  ]

  const NO_DEPRECATIONS := Requirement(DEPRECATION, True, "The deprecation status is unknown")

  function Requirements(spec: Spec): seq<Requirement> {
    REQUIRED + if DeprecationsMatter(spec) then [NO_DEPRECATIONS] else []
  }

  /** Every required condition is present with the right status. */
  predicate Healthy(spec: Spec, conditions: seq<Condition>) {
    forall r | r in Requirements(spec) :: Is(conditions, r.ctype, r.wanted)
  }

  function MessageOf(conditions: seq<Condition>, r: Requirement): string {
    var c := Find(conditions, r.ctype);
    if c.Some? then c.value.message else r.otherwise
  }

  function MessagesOf(conditions: seq<Condition>, rs: seq<Requirement>): seq<string> {
    seq(|rs|, i requires 0 <= i < |rs| => MessageOf(conditions, rs[i]))
  }

  function Messages(spec: Spec, conditions: seq<Condition>): seq<string> {
    MessagesOf(conditions, Requirements(spec))
  }

  function ComplianceCondition(spec: Spec, conditions: seq<Condition>, now: int): Condition {
    var text := Join(Messages(spec, conditions), ", ");
    if Healthy(spec, conditions) then Condition(COMPLIANT, True, "Compliant", "Compliant; " + text, now)
    else Condition(COMPLIANT, False, "NonCompliant", "NonCompliant; " + text, now)
  }

  // ---------- the condition list ----------

  /** The last transition time is not considered. */
  predicate ConditionChanged(a: Condition, b: Condition) {
    a.message != b.message || a.reason != b.reason || a.status != b.status
  }

  predicate SetChanges(conditions: seq<Condition>, c: Condition) {
    var found := Find(conditions, c.ctype);
    found.None? || ConditionChanged(c, found.value)
  }

  /** The condition is written over the one of its type, or appended. */
  function Put(conditions: seq<Condition>, c: Condition): seq<Condition> {
    var i := GetCondition(conditions, c.ctype);
    if i == -1 then conditions + [c] else conditions[i := c]
  }

  function Set(conditions: seq<Condition>, c: Condition): seq<Condition> {
    if SetChanges(conditions, c) then Put(conditions, c) else conditions
  }

  function ByType(): (Condition, Condition) -> bool {
    (a: Condition, b: Condition) => StrLeq(a.ctype, b.ctype)
  }

  /** The conditions once one of them has been set and compliance calculated anew. */
  function Refreshed(spec: Spec, conditions: seq<Condition>, c: Condition, now: int): seq<Condition> {
    var updated := Set(conditions, c);
    Sort(ByType(), Put(updated, ComplianceCondition(spec, updated, now)))
  }

  // ---------- the related objects ----------

  predicate OfKind(o: RelatedObject, kind: string) {
    o.kind == kind
  }

  function Filter(related: seq<RelatedObject>, kind: string, same: bool): seq<RelatedObject> {
    if related == [] then []
    else (if OfKind(related[0], kind) == same then [related[0]] else []) + Filter(related[1..], kind, same)
  }

  /** The objects that the update will replace. */
  function Previous(related: seq<RelatedObject>, objs: seq<RelatedObject>): seq<RelatedObject> {
    if objs == [] then [] else Filter(related, objs[0].kind, true)
  }

  function Others(related: seq<RelatedObject>, objs: seq<RelatedObject>): seq<RelatedObject> {
    if objs == [] then related else Filter(related, objs[0].kind, false)
  }

  predicate SameIdentity(prev: RelatedObject, obj: RelatedObject) {
    prev.name == obj.name && prev.properties.Some? && obj.properties.Some? &&
    prev.properties.value.uid == obj.properties.value.uid
  }

  /** Two objects of the same name that must be reported as a change. */
  predicate Differ(prev: RelatedObject, obj: RelatedObject) {
    || (prev.properties.Some? && obj.properties.Some? && prev.properties.value.uid != obj.properties.value.uid)
    || prev.compliant != obj.compliant || prev.reason != obj.reason
  }

  predicate RelatedChanged(prev: seq<RelatedObject>, objs: seq<RelatedObject>) {
    || |prev| != |objs|
    || (exists p | p in prev :: forall o | o in objs :: p.name != o.name)
    || (exists p | p in prev :: exists o | o in objs :: p.name == o.name && Differ(p, o))
  }

  predicate Carries(p: RelatedObject, o: RelatedObject) {
    SameIdentity(p, o) && p.properties.value.createdByPolicy.Some?
  }

  function CarriedOver(p: RelatedObject, o: RelatedObject): RelatedObject
    requires SameIdentity(p, o)
  {
    o.(properties := Some(o.properties.value.(createdByPolicy := p.properties.value.createdByPolicy)))
  }

  /** `updated` is `objs` with createdByPolicy carried over from objects of the same name and UID. */
  ghost predicate CreationCarried(prev: seq<RelatedObject>, objs: seq<RelatedObject>, updated: seq<RelatedObject>) {
    |updated| == |objs| && forall i :: 0 <= i < |objs| ==>
      if exists p :: p in prev && Carries(p, objs[i]) then
        exists p :: p in prev && Carries(p, objs[i]) && updated[i] == CarriedOver(p, objs[i])
      else updated[i] == objs[i]
  }

  function ByKindAndName(): (RelatedObject, RelatedObject) -> bool {
    (a: RelatedObject, b: RelatedObject) => StrLess(a.kind, b.kind) || (a.kind == b.kind && StrLeq(a.name, b.name))
  }

  ghost predicate RelatedStep(related: seq<RelatedObject>, objs: seq<RelatedObject>, after: seq<RelatedObject>) {
    if RelatedChanged(Previous(related, objs), objs) then
      exists updated :: CreationCarried(Previous(related, objs), objs, updated) &&
        after == Sort(ByKindAndName(), Others(related, objs) + updated)
    else after == related
  }

  // ---------- one call of updateStatus ----------

  function Stamped(c: Condition, now: int): Condition {
    if c.time == 0 then c.(time := now) else c
  }

  ghost predicate Step(spec: Spec, s: Status, c: Condition, objs: seq<RelatedObject>, now: int, s': Status,
                       changed: bool)
  {
    && s'.conditions == Refreshed(spec, s.conditions, Stamped(c, now), now)
    && s'.state == Some(if Healthy(spec, Set(s.conditions, Stamped(c, now))) then Compliant else NonCompliant)
    && RelatedStep(s.related, objs, s'.related)
    && s'.observedGeneration == spec.generation
    && (changed <==>
          SetChanges(s.conditions, Stamped(c, now)) || RelatedChanged(Previous(s.related, objs), objs) ||
          s.observedGeneration != spec.generation)
  }

  class OperatorPolicy {
    var spec: Spec
    var conditions: seq<Condition>
    var related: seq<RelatedObject>
    var state: Option<ComplianceState>
    var observedGeneration: int

    function Abstract(): Status
      reads this
    {
      Status(conditions, related, state, observedGeneration)
    }

    /** One block of calculateComplianceCondition, after those for `rs`. */
    method Consider(r: Requirement, messages: seq<string>, found: bool, ghost rs: seq<Requirement>)
      returns (messages': seq<string>, found': bool)
      requires messages == MessagesOf(conditions, rs)
      requires found <==> exists q | q in rs :: !Is(conditions, q.ctype, q.wanted)
      ensures messages' == MessagesOf(conditions, rs + [r])
      ensures found' <==> exists q | q in rs + [r] :: !Is(conditions, q.ctype, q.wanted)
    {
      var idx := GetCondition(conditions, r.ctype);
      if idx == -1 {
        messages', found' := messages + [r.otherwise], true;
      } else {
        messages', found' := messages + [conditions[idx].message], found || conditions[idx].status != r.wanted;
      }
      assert (rs + [r])[|rs|] in rs + [r];
      assert forall q :: q in rs + [r] <==> q in rs || q == r;
    }

    /** The blocks one after the other. */
    method ConsiderAll(rs: seq<Requirement>) returns (messages: seq<string>, found: bool)
      ensures messages == MessagesOf(conditions, rs)
      ensures found <==> exists q | q in rs :: !Is(conditions, q.ctype, q.wanted)
    {
      messages, found := [], false;
      for i := 0 to |rs|
        invariant messages == MessagesOf(conditions, rs[..i])
        invariant found <==> exists q | q in rs[..i] :: !Is(conditions, q.ctype, q.wanted)
      {
        assert rs[..i + 1] == rs[..i] + [rs[i]];
        messages, found := Consider(rs[i], messages, found, rs[..i]);
      }
      assert rs[..|rs|] == rs;
    }

    /** calculateComplianceCondition; the equal blocks of the source are a loop over the table of requirements. */
    method CalculateComplianceCondition(now: int) returns (c: Condition)
      ensures c == ComplianceCondition(spec, conditions, now)
    {
      var messages, found := ConsiderAll(Requirements(spec));
      if found {
        return Condition(COMPLIANT, False, "NonCompliant", "NonCompliant; " + Join(messages, ", "), now);
      }
      return Condition(COMPLIANT, True, "Compliant", "Compliant; " + Join(messages, ", "), now);
    }

    /** updateComplianceCondition. */
    method UpdateComplianceCondition(now: int)
      modifies this`conditions, this`state
      ensures conditions == Sort(ByType(), Put(old(conditions), ComplianceCondition(spec, old(conditions), now)))
      ensures state == Some(if Healthy(spec, old(conditions)) then Compliant else NonCompliant)
    {
      var c := CalculateComplianceCondition(now);
      var idx := GetCondition(conditions, COMPLIANT);
      if idx == -1 {
        conditions := conditions + [c];
      } else {
        conditions := conditions[idx := c];
      }
      conditions := Sort(ByType(), conditions);
      state := Some(if c.status == True then Compliant else NonCompliant);
    }

    /** The first part of updateStatus: the condition is appended, replaced or left alone. */
    method SetCondition(c: Condition) returns (changed: bool)
      modifies this`conditions
      ensures conditions == Set(old(conditions), c) && changed == SetChanges(old(conditions), c)
    {
      var idx := GetCondition(conditions, c.ctype);
      if idx == -1 {
        changed := true;
        conditions := conditions + [c];
      } else if ConditionChanged(c, conditions[idx]) {
        changed := true;
        conditions := conditions[idx := c];
      } else {
        changed := false;
      }
    }

    /** The second part of updateStatus: the related objects of the kind are replaced when one of them changed. */
    method UpdateRelated(objs: seq<RelatedObject>) returns (changed: bool)
      modifies this`related
      ensures RelatedStep(old(related), objs, related)
      ensures changed == RelatedChanged(Previous(old(related), objs), objs)
    {
      var prev: set<nat> := {};
      if objs != [] {
        prev := RelatedObjsOfKind(related, objs[0].kind);
      }
      KindIndices(related, objs, prev);
      var updated;
      updated, changed := CompareRelated(related, prev, objs);
      if changed {
        related := Sort(ByKindAndName(), Unmatched(related, prev) + updated);
      }
    }

    /** updateStatus. */
    method UpdateStatus(condition: Condition, objs: seq<RelatedObject>, now: int) returns (changed: bool)
      modifies this`conditions, this`related, this`state, this`observedGeneration
      ensures Step(spec, old(Abstract()), condition, objs, now, Abstract(), changed)
    {
      var condChanged := SetCondition(Stamped(condition, now));
      UpdateComplianceCondition(now);
      var relObjsChanged := UpdateRelated(objs);
      var genUpdated := spec.generation != observedGeneration;
      if genUpdated {
        observedGeneration := spec.generation;
      }
      return condChanged || relObjsChanged || genUpdated;
    }
  }

  /** RelatedObjsOfKind, as the set of matching indices. */
  function RelatedObjsOfKind(related: seq<RelatedObject>, kind: string): set<nat> {
    set i: nat | i < |related| && OfKind(related[i], kind)
  }

  /** The objects at other indices, in their order. */
  function Unmatched(related: seq<RelatedObject>, prev: set<nat>): seq<RelatedObject> {
    if related == [] then []
    else
      var n := |related| - 1;
      Unmatched(related[..n], prev) + if n in prev then [] else [related[n]]
  }

  lemma {:induction false} ConcatAssociates<T>(a: seq<T>, b: seq<T>, c: seq<T>)
    ensures a + (b + c) == (a + b) + c
  {
  }

  lemma {:induction false} FilterAppend(a: seq<RelatedObject>, b: seq<RelatedObject>, kind: string, same: bool)
    ensures Filter(a + b, kind, same) == Filter(a, kind, same) + Filter(b, kind, same)
  {
    if a == [] {
      assert a + b == b;
    } else {
      FilterAppend(a[1..], b, kind, same);
      var first := if OfKind(a[0], kind) == same then [a[0]] else [];
      assert (a + b)[0] == a[0] && (a + b)[1..] == a[1..] + b;
      assert Filter(a + b, kind, same) == first + Filter(a[1..] + b, kind, same);
      ConcatAssociates(first, Filter(a[1..], kind, same), Filter(b, kind, same));
    }
  }

  lemma {:induction false} FilterMembers(related: seq<RelatedObject>, kind: string, same: bool)
    ensures forall o :: o in Filter(related, kind, same) <==> o in related && OfKind(o, kind) == same
  {
    if related != [] {
      FilterMembers(related[1..], kind, same);
      assert related == [related[0]] + related[1..];
    }
  }

  lemma {:induction false} KindIndicesCount(related: seq<RelatedObject>, kind: string)
    ensures |RelatedObjsOfKind(related, kind)| == |Filter(related, kind, true)|
  {
    if related != [] {
      var n := |related| - 1;
      var front := related[..n];
      KindIndicesCount(front, kind);
      assert related == front + [related[n]];
      FilterAppend(front, [related[n]], kind, true);
      if OfKind(related[n], kind) {
        assert RelatedObjsOfKind(related, kind) == RelatedObjsOfKind(front, kind) + {n};
      } else {
        assert RelatedObjsOfKind(related, kind) == RelatedObjsOfKind(front, kind);
      }
    }
  }

  lemma {:induction false} UnmatchedIsFilter(related: seq<RelatedObject>, prev: set<nat>, kind: string)
    requires forall i: nat :: i < |related| ==> (i in prev <==> OfKind(related[i], kind))
    ensures Unmatched(related, prev) == Filter(related, kind, false)
  {
    if related != [] {
      var n := |related| - 1;
      UnmatchedIsFilter(related[..n], prev, kind);
      assert related == related[..n] + [related[n]];
      FilterAppend(related[..n], [related[n]], kind, false);
    }
  }

  lemma {:induction false} UnmatchedAll(related: seq<RelatedObject>)
    ensures Unmatched(related, {}) == related
  {
    if related != [] {
      UnmatchedAll(related[..|related| - 1]);
    }
  }

  /** The indices found are those of the previous objects. */
  lemma {:induction false} KindIndices(related: seq<RelatedObject>, objs: seq<RelatedObject>, prev: set<nat>)
    requires prev == if objs == [] then {} else RelatedObjsOfKind(related, objs[0].kind)
    ensures |prev| == |Previous(related, objs)|
    ensures forall p :: p in Previous(related, objs) <==> exists i :: i in prev && i < |related| && related[i] == p
    ensures Unmatched(related, prev) == Others(related, objs)
  {
    if objs == [] {
      UnmatchedAll(related);
    } else {
      var kind := objs[0].kind;
      KindIndicesCount(related, kind);
      FilterMembers(related, kind, true);
      UnmatchedIsFilter(related, prev, kind);
    }
  }

  /** A previous object that no updated one of its name agrees with. */
  predicate Outdated(p: RelatedObject, objs: seq<RelatedObject>) {
    (forall o | o in objs :: p.name != o.name) || (exists o | o in objs :: p.name == o.name && Differ(p, o))
  }

  ghost predicate SomeOutdated(related: seq<RelatedObject>, visited: set<nat>, objs: seq<RelatedObject>) {
    exists i :: i in visited && i < |related| && Outdated(related[i], objs)
  }

  lemma {:induction false} OutdatedMeansChanged(related: seq<RelatedObject>, prev: set<nat>, objs: seq<RelatedObject>)
    requires |prev| == |Previous(related, objs)| && forall i :: i in prev ==> i < |related|
    requires forall p :: p in Previous(related, objs) <==> exists i :: i in prev && i < |related| && related[i] == p
    ensures RelatedChanged(Previous(related, objs), objs) <==> |prev| != |objs| || SomeOutdated(related, prev, objs)
  {
    var previous := Previous(related, objs);
    if p :| p in previous && Outdated(p, objs) {
      var i :| i in prev && i < |related| && related[i] == p;
      assert Outdated(related[i], objs);
    }
    if i :| i in prev && i < |related| && Outdated(related[i], objs) {
      assert related[i] in previous;
    }
  }

  lemma {:induction false} VisitOne(related: seq<RelatedObject>, visited: set<nat>, i: nat, objs: seq<RelatedObject>)
    requires i < |related|
    ensures SomeOutdated(related, visited + {i}, objs) <==>
      SomeOutdated(related, visited, objs) || Outdated(related[i], objs)
  {
    if Outdated(related[i], objs) {
      assert i in visited + {i};
    }
    if j :| j in visited && j < |related| && Outdated(related[j], objs) {
      assert j in visited + {i};
    }
  }

  /** The loop of updateStatus over the previous objects, in any order. */
  method CompareRelated(related: seq<RelatedObject>, prev: set<nat>, objs: seq<RelatedObject>)
    returns (updated: seq<RelatedObject>, changed: bool)
    requires |prev| == |Previous(related, objs)| && forall i :: i in prev ==> i < |related|
    requires forall p :: p in Previous(related, objs) <==> exists i :: i in prev && i < |related| && related[i] == p
    ensures changed <==> RelatedChanged(Previous(related, objs), objs)
    ensures CreationCarried(Previous(related, objs), objs, updated)
  {
    updated, changed := CompareAll(related, prev, objs);
    AllCarried(related, prev, objs, updated);
    OutdatedMeansChanged(related, prev, objs);
    if |prev| != |objs| {
      changed := true;
    }
  }

  method CompareAll(related: seq<RelatedObject>, prev: set<nat>, objs: seq<RelatedObject>)
    returns (updated: seq<RelatedObject>, changed: bool)
    requires forall i :: i in prev ==> i < |related|
    ensures ComparedWith(related, prev, objs, updated, changed)
  {
    updated, changed := objs, false;
    var left := prev;
    ghost var visited: set<nat> := {};
    while left != {}
      invariant left <= prev && visited == prev - left
      invariant ComparedWith(related, visited, objs, updated, changed)
      decreases left
    {
      var i :| i in left;
      left := left - {i};
      updated, changed := CompareOne(related, visited, i, objs, updated, changed);
      visited := visited + {i};
      assert visited == prev - left;
    }
    assert visited == prev;
  }

  /** What the objects become and whether a change is seen once the previous ones at `visited` are compared. */
  ghost predicate ComparedWith(related: seq<RelatedObject>, visited: set<nat>, objs: seq<RelatedObject>,
                               updated: seq<RelatedObject>, changed: bool)
  {
    && |updated| == |objs| && (forall i :: i in visited ==> i < |related|)
    && (changed <==> SomeOutdated(related, visited, objs))
    && (forall j :: 0 <= j < |objs| ==> SameButCreation(objs[j], updated[j]))
    && (forall j :: 0 <= j < |objs| ==> CarriedFrom(related, visited, objs[j], updated[j]))
  }

  method CompareOne(related: seq<RelatedObject>, ghost visited: set<nat>, i: nat, objs: seq<RelatedObject>,
                    given: seq<RelatedObject>, before: bool)
    returns (updated: seq<RelatedObject>, changed: bool)
    requires i < |related| && ComparedWith(related, visited, objs, given, before)
    ensures ComparedWith(related, visited + {i}, objs, updated, changed)
  {
    updated, changed := ComparePrevious(related[i], objs, given);
    VisitOne(related, visited, i, objs);
    CarryAll(related, visited, i, objs, given, updated);
    changed := before || changed;
  }

  lemma {:induction false} CarryAll(related: seq<RelatedObject>, visited: set<nat>, i: nat, objs: seq<RelatedObject>,
                 given: seq<RelatedObject>, updated: seq<RelatedObject>)
    requires i < |related| && (forall j :: j in visited ==> j < |related|) && |given| == |updated| == |objs|
    requires forall j :: 0 <= j < |objs| ==> CarriedFrom(related, visited, objs[j], given[j])
    requires forall j :: 0 <= j < |objs| ==>
      updated[j] == if Carries(related[i], objs[j]) then CarriedOver(related[i], objs[j]) else given[j]
    ensures forall j :: 0 <= j < |objs| ==> CarriedFrom(related, visited + {i}, objs[j], updated[j])
  {
    forall j | 0 <= j < |objs|
      ensures CarriedFrom(related, visited + {i}, objs[j], updated[j])
    {
      CarryOne(related, visited, i, objs[j], given[j], updated[j]);
    }
  }

  ghost predicate CarriedFrom(related: seq<RelatedObject>, visited: set<nat>, o: RelatedObject, u: RelatedObject)
    requires forall i :: i in visited ==> i < |related|
  {
    if exists i :: i in visited && Carries(related[i], o) then
      exists i :: i in visited && Carries(related[i], o) && u == CarriedOver(related[i], o)
    else u == o
  }

  lemma {:induction false} CarryOne(related: seq<RelatedObject>, visited: set<nat>, i: nat, o: RelatedObject,
                                    given: RelatedObject, u: RelatedObject)
    requires i < |related| && forall j :: j in visited ==> j < |related|
    requires CarriedFrom(related, visited, o, given)
    requires u == if Carries(related[i], o) then CarriedOver(related[i], o) else given
    ensures CarriedFrom(related, visited + {i}, o, u)
  {
    if Carries(related[i], o) {
      assert i in visited + {i};
    } else if exists j :: j in visited && Carries(related[j], o) {
      var j :| j in visited && Carries(related[j], o) && given == CarriedOver(related[j], o);
      assert j in visited + {i};
    }
  }

  lemma {:induction false} AllCarried(related: seq<RelatedObject>, prev: set<nat>, objs: seq<RelatedObject>,
                                      updated: seq<RelatedObject>)
    requires |updated| == |objs| && forall i :: i in prev ==> i < |related|
    requires forall p :: p in Previous(related, objs) <==> exists i :: i in prev && i < |related| && related[i] == p
    requires forall j :: 0 <= j < |objs| ==> CarriedFrom(related, prev, objs[j], updated[j])
    ensures CreationCarried(Previous(related, objs), objs, updated)
  {
    forall j | 0 <= j < |objs| && exists p :: p in Previous(related, objs) && Carries(p, objs[j])
      ensures exists p :: p in Previous(related, objs) && Carries(p, objs[j]) && updated[j] == CarriedOver(p, objs[j])
    {
      var p :| p in Previous(related, objs) && Carries(p, objs[j]);
      var i :| i in prev && i < |related| && related[i] == p;
      var k :| k in prev && Carries(related[k], objs[j]) && updated[j] == CarriedOver(related[k], objs[j]);
      assert related[k] in Previous(related, objs);
    }
    forall j | 0 <= j < |objs| && !exists p :: p in Previous(related, objs) && Carries(p, objs[j])
      ensures updated[j] == objs[j]
    {
      forall i | i in prev
        ensures !Carries(related[i], objs[j])
      {
        assert related[i] in Previous(related, objs);
      }
    }
  }

  /** The previous object `prev` against all the updated ones. */
  method ComparePrevious(prev: RelatedObject, objs: seq<RelatedObject>, given: seq<RelatedObject>)
    returns (updated: seq<RelatedObject>, changed: bool)
    requires |given| == |objs|
    requires forall i :: 0 <= i < |objs| ==> SameButCreation(objs[i], given[i])
    ensures |updated| == |objs|
    ensures forall i :: 0 <= i < |objs| ==>
      updated[i] == if Carries(prev, objs[i]) then CarriedOver(prev, objs[i]) else given[i]
    ensures forall i :: 0 <= i < |objs| ==> SameButCreation(objs[i], updated[i])
    ensures changed <==> Outdated(prev, objs)
  {
    updated, changed := given, false;
    var nameFound := false;
    for i := 0 to |objs|
      invariant |updated| == |objs|
      invariant forall j :: 0 <= j < |objs| ==>
        updated[j] == if j < i && Carries(prev, objs[j]) then CarriedOver(prev, objs[j]) else given[j]
      invariant nameFound <==> exists j :: 0 <= j < i && prev.name == objs[j].name
      invariant changed <==> exists j :: 0 <= j < i && prev.name == objs[j].name && Differ(prev, objs[j])
    {
      var obj := updated[i];
      if prev.name == obj.name {
        nameFound := true;
        if obj.properties.Some? && prev.properties.Some? {
          if obj.properties.value.uid != prev.properties.value.uid {
            changed := true;
          } else if prev.properties.value.createdByPolicy.Some? {
            updated := updated[i := CarriedOver(prev, obj)];
          }
        }
        if prev.compliant != obj.compliant || prev.reason != obj.reason {
          changed := true;
        }
      }
    }
    if !nameFound {
      changed := true;
    }
  }

  /** Equal up to createdByPolicy. */
  predicate SameButCreation(a: RelatedObject, b: RelatedObject) {
    a.properties.Some? == b.properties.Some? &&
    b == if a.properties.Some? then
           a.(properties := Some(a.properties.value.(createdByPolicy := b.properties.value.createdByPolicy)))
         else a
  }
}
