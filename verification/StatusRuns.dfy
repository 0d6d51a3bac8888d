/** What every sequence of updateStatus calls keeps, and that repeating a call settles. */
module StatusRuns {
  import opened Sorting
  import opened Json
  import opened OperatorStatus

  // ---------- conditions ----------

  ghost predicate TypesAscend(conditions: seq<Condition>) {
    forall i, j :: 0 <= i < j < |conditions| ==> StrLess(conditions[i].ctype, conditions[j].ctype)
  }

  ghost predicate TypesDistinct(conditions: seq<Condition>) {
    forall i, j :: 0 <= i < j < |conditions| ==> conditions[i].ctype != conditions[j].ctype
  }

  /** With distinct types, finding a condition is membership. */
  lemma {:induction false} FindIsMembership(conditions: seq<Condition>, c: Condition)
    requires TypesDistinct(conditions)
    ensures c in conditions <==> Find(conditions, c.ctype) == Some(c)
  {
    if c in conditions {
      var j :| 0 <= j < |conditions| && conditions[j] == c;
      var i := GetCondition(conditions, c.ctype);
      NotFound(conditions, c.ctype);
      assert i == j;
    }
  }

  lemma {:induction false} SameMembersSameFind(a: seq<Condition>, b: seq<Condition>, ctype: string)
    requires TypesDistinct(a) && TypesDistinct(b)
    requires forall c :: c in a <==> c in b
    ensures Find(a, ctype) == Find(b, ctype)
  {
    var x, y := Find(a, ctype), Find(b, ctype);
    if x.Some? {
      FindIsMembership(a, x.value);
      FindIsMembership(b, x.value);
    }
    if y.Some? {
      FindIsMembership(a, y.value);
      FindIsMembership(b, y.value);
    }
  }

  lemma {:induction false} PutKeepsDistinct(conditions: seq<Condition>, c: Condition)
    requires TypesDistinct(conditions)
    ensures TypesDistinct(Put(conditions, c))
  {
    var i := GetCondition(conditions, c.ctype);
    NotFound(conditions, c.ctype);
    if i != -1 {
      var after := conditions[i := c];
      forall j, k | 0 <= j < k < |conditions|
        ensures after[j].ctype != after[k].ctype
      {
        assert conditions[j].ctype != conditions[k].ctype;
      }
    }
  }

  lemma {:induction false} FindAfterPut(conditions: seq<Condition>, c: Condition, ctype: string)
    requires TypesDistinct(conditions)
    ensures Find(Put(conditions, c), ctype) == if ctype == c.ctype then Some(c) else Find(conditions, ctype)
  {
    var after := Put(conditions, c);
    PutKeepsDistinct(conditions, c);
    assert c in after by {
      var i := GetCondition(conditions, c.ctype);
      assert after[if i == -1 then |conditions| else i] == c;
    }
    FindIsMembership(after, c);
    if ctype != c.ctype {
      var i, j := GetCondition(conditions, ctype), GetCondition(after, ctype);
      NotFound(conditions, ctype);
      if i != -1 {
        assert after[i] == conditions[i];
        FindIsMembership(after, conditions[i]);
      }
    }
  }

  lemma {:induction false} ByTypeIsTotal()
    ensures TotalPreorder(ByType())
  {
    var leq := ByType();
    forall x, y
      ensures leq(x, y) || leq(y, x)
    {
      StrLeqTotal(x.ctype, y.ctype);
    }
    forall x, y, z | leq(x, y) && leq(y, z)
      ensures leq(x, z)
    {
      StrLeqTransitive(x.ctype, y.ctype, z.ctype);
    }
  }

  lemma {:induction false} DistinctPermutation(a: seq<Condition>, b: seq<Condition>)
    requires multiset(a) == multiset(b) && TypesDistinct(a)
    ensures TypesDistinct(b)
  {
    var p := EmbeddingIndices(b, a);
    forall i, j | 0 <= i < j < |b|
      ensures b[i].ctype != b[j].ctype
    {
      assert p[i] != p[j];
      assert b[i] == a[p[i]] && b[j] == a[p[j]];
    }
  }

  /** Sorting distinct conditions orders them strictly and loses none. */
  lemma {:induction false} SortedConditions(conditions: seq<Condition>)
    requires TypesDistinct(conditions)
    ensures TypesAscend(Sort(ByType(), conditions)) && TypesDistinct(Sort(ByType(), conditions))
    ensures forall c :: c in Sort(ByType(), conditions) <==> c in conditions
  {
    var s := Sort(ByType(), conditions);
    ByTypeIsTotal();
    SortPermutes(ByType(), conditions);
    SortSorts(ByType(), conditions);
    PermutationMembers(s, conditions);
    DistinctPermutation(conditions, s);
    forall i, j | 0 <= i < j < |s|
      ensures StrLess(s[i].ctype, s[j].ctype)
    {
      assert ByType()(s[i], s[j]);
    }
  }

  lemma {:induction false} AscendIsDistinct(conditions: seq<Condition>)
    requires TypesAscend(conditions)
    ensures TypesDistinct(conditions)
  {
  }

  /** After a call, each condition is the one just set, the new compliance condition, or as it was. */
  lemma {:induction false} RefreshedConditions(spec: Spec, conditions: seq<Condition>, c: Condition, now: int,
                                               ctype: string)
    requires TypesDistinct(conditions)
    ensures var after := Refreshed(spec, conditions, c, now);
      && TypesAscend(after)
      && Find(after, ctype) ==
           if ctype == COMPLIANT then Some(ComplianceCondition(spec, Set(conditions, c), now))
           else Find(Set(conditions, c), ctype)
  {
    var updated := Set(conditions, c);
    PutKeepsDistinct(conditions, c);
    var compliance := ComplianceCondition(spec, updated, now);
    PutKeepsDistinct(updated, compliance);
    FindAfterPut(updated, compliance, ctype);
    var put := Put(updated, compliance);
    SortedConditions(put);
    SameMembersSameFind(Sort(ByType(), put), put, ctype);
  }

  /** The compliance condition is none of those it is computed from. */
  lemma {:induction false} CompliantIsAnotherType(spec: Spec, r: Requirement)
    requires r in Requirements(spec)
    ensures r.ctype != COMPLIANT
  {
    assert |COMPLIANT| == 9;
    var i :| 0 <= i < |Requirements(spec)| && Requirements(spec)[i] == r;
    assert i < 8 ==> REQUIRED[i] == r;
    assert |r.ctype| > 9;
  }

  ghost predicate SameOtherConditions(a: seq<Condition>, b: seq<Condition>) {
    forall ctype :: ctype != COMPLIANT ==> Find(a, ctype) == Find(b, ctype)
  }

  lemma {:induction false} SameHealth(spec: Spec, a: seq<Condition>, b: seq<Condition>)
    requires SameOtherConditions(a, b)
    ensures Healthy(spec, a) == Healthy(spec, b) && Messages(spec, a) == Messages(spec, b)
  {
    var rs := Requirements(spec);
    forall i | 0 <= i < |rs|
      ensures Find(a, rs[i].ctype) == Find(b, rs[i].ctype)
    {
      CompliantIsAnotherType(spec, rs[i]);
    }
    SameHealthOf(a, b, rs);
  }

  lemma {:induction false} SameHealthOf(a: seq<Condition>, b: seq<Condition>, rs: seq<Requirement>)
    requires forall i :: 0 <= i < |rs| ==> Find(a, rs[i].ctype) == Find(b, rs[i].ctype)
    ensures (forall r | r in rs :: Is(a, r.ctype, r.wanted)) == (forall r | r in rs :: Is(b, r.ctype, r.wanted))
    ensures MessagesOf(a, rs) == MessagesOf(b, rs)
  {
  }

  // ---------- related objects ----------

  lemma {:induction false} StrLessTransitive(a: string, b: string, c: string)
    requires StrLeq(a, b) && StrLeq(b, c) && (a != b || b != c)
    ensures StrLess(a, c)
  {
    StrLeqTransitive(a, b, c);
    if a == c {
      StrLeqAntisymmetric(a, b);
    }
  }

  lemma {:induction false} ByKindAndNameIsTotal()
    ensures TotalPreorder(ByKindAndName())
  {
    var leq := ByKindAndName();
    forall x, y
      ensures leq(x, y) || leq(y, x)
    {
      StrLeqTotal(x.kind, y.kind);
      StrLeqTotal(x.name, y.name);
    }
    forall x, y, z | leq(x, y) && leq(y, z)
      ensures leq(x, z)
    {
      if x.kind == y.kind == z.kind {
        StrLeqTransitive(x.name, y.name, z.name);
      } else {
        StrLeqReflexive(x.kind);
        StrLeqReflexive(z.kind);
        StrLessTransitive(x.kind, y.kind, z.kind);
      }
    }
  }

  /** Inserting into a sorted list and keeping one part of it commute. */
  lemma {:induction false} FilterInsert(leq: (RelatedObject, RelatedObject) -> bool, x: RelatedObject,
                                        s: seq<RelatedObject>, kind: string, same: bool)
    requires TotalPreorder(leq) && SortedBy(leq, s)
    ensures Filter(Insert(leq, x, s), kind, same) ==
      if OfKind(x, kind) == same then Insert(leq, x, Filter(s, kind, same)) else Filter(s, kind, same)
  {
    if s == [] || leq(x, s[0]) {
      assert ([x] + s)[1..] == s;
      FilterMembers(s, kind, same);
      var f := Filter(s, kind, same);
      if f != [] {
        assert f[0] in s;
        var i :| 0 <= i < |s| && s[i] == f[0];
        assert i == 0 || leq(s[0], s[i]);
        assert leq(x, f[0]);
      }
    } else {
      FilterInsert(leq, x, s[1..], kind, same);
      var rest := Insert(leq, x, s[1..]);
      assert ([s[0]] + rest)[1..] == rest;
      var f := Filter(s[1..], kind, same);
      assert ([s[0]] + f)[1..] == f && [] + f == f;
      assert [] + Filter(rest, kind, same) == Filter(rest, kind, same);
    }
  }

  /** A stable sort keeps each part of the list in the order its own sort gives it. */
  lemma {:induction false} FilterSort(leq: (RelatedObject, RelatedObject) -> bool, s: seq<RelatedObject>, kind: string,
                                      same: bool)
    requires TotalPreorder(leq)
    ensures Filter(Sort(leq, s), kind, same) == Sort(leq, Filter(s, kind, same))
  {
    if s != [] {
      FilterSort(leq, s[1..], kind, same);
      SortSorts(leq, s[1..]);
      FilterInsert(leq, s[0], Sort(leq, s[1..]), kind, same);
      var f := Filter(s[1..], kind, same);
      assert ([s[0]] + f)[1..] == f && [] + f == f;
    }
  }

  lemma {:induction false} FilterSorted(leq: (RelatedObject, RelatedObject) -> bool, s: seq<RelatedObject>,
                                        kind: string, same: bool)
    requires SortedBy(leq, s)
    ensures SortedBy(leq, Filter(s, kind, same))
  {
    if s != [] {
      FilterSorted(leq, s[1..], kind, same);
      FilterMembers(s[1..], kind, same);
      var f := Filter(s[1..], kind, same);
      forall j | 0 <= j < |f|
        ensures leq(s[0], f[j])
      {
        assert f[j] in s[1..];
      }
    }
  }

  lemma {:induction false} FilterAll(s: seq<RelatedObject>, kind: string, same: bool)
    requires forall o :: o in s ==> OfKind(o, kind) == same
    ensures Filter(s, kind, same) == s && Filter(s, kind, !same) == []
  {
    if s != [] {
      FilterAll(s[1..], kind, same);
    }
  }

  lemma {:induction false} FilterTwice(s: seq<RelatedObject>, kind: string)
    ensures Filter(Filter(s, kind, false), kind, false) == Filter(s, kind, false)
    ensures Filter(Filter(s, kind, false), kind, true) == []
  {
    FilterMembers(s, kind, false);
    FilterAll(Filter(s, kind, false), kind, false);
  }

  /** updateStatus requires that all given objects are of the same kind. */
  ghost predicate SameKind(objs: seq<RelatedObject>) {
    forall i :: 0 <= i < |objs| ==> objs[i].kind == objs[0].kind
  }

  /** The list after a replacement: the other kinds as they were, and the updated objects in order. */
  lemma {:induction false} ReplacedParts(related: seq<RelatedObject>, objs: seq<RelatedObject>,
                                         updated: seq<RelatedObject>)
    requires SortedBy(ByKindAndName(), related) && objs != [] && SameKind(objs)
    requires CreationCarried(Previous(related, objs), objs, updated)
    ensures var after := Sort(ByKindAndName(), Others(related, objs) + updated);
      && SortedBy(ByKindAndName(), after)
      && Previous(after, objs) == Sort(ByKindAndName(), updated)
      && Others(after, objs) == Others(related, objs)
  {
    var leq, kind := ByKindAndName(), objs[0].kind;
    ByKindAndNameIsTotal();
    var others := Others(related, objs);
    SortSorts(leq, others + updated);
    FilterSort(leq, others + updated, kind, true);
    FilterSort(leq, others + updated, kind, false);
    FilterAppend(others, updated, kind, true);
    FilterAppend(others, updated, kind, false);
    FilterTwice(related, kind);
    FilterAll(updated, kind, true);
    FilterSorted(leq, related, kind, false);
    SortOfSorted(leq, others);
    assert others + [] == others && [] + updated == updated;
  }

  // ---------- invariants of every run ----------

  ghost predicate Invariant(s: Status) {
    TypesAscend(s.conditions) && SortedBy(ByKindAndName(), s.related)
  }

  /** What a call establishes for the spec it was made with. */
  ghost predicate Current(spec: Spec, s: Status) {
    && Find(s.conditions, COMPLIANT).Some?
    && s.state.Some?
    && (s.state == Some(Compliant) <==> Healthy(spec, s.conditions))
    && (s.state == Some(Compliant) <==> Is(s.conditions, COMPLIANT, True))
    && s.observedGeneration == spec.generation
  }

  lemma {:induction false} StepKeepsInvariant(spec: Spec, s: Status, c: Condition, objs: seq<RelatedObject>, now: int,
                                              s': Status, changed: bool)
    requires Invariant(s) && c.ctype != COMPLIANT && Step(spec, s, c, objs, now, s', changed)
    ensures Invariant(s') && Current(spec, s')
  {
    var c' := Stamped(c, now);
    AscendIsDistinct(s.conditions);
    forall ctype
      ensures TypesAscend(s'.conditions)
      ensures ctype != COMPLIANT ==> Find(s'.conditions, ctype) == Find(Set(s.conditions, c'), ctype)
    {
      RefreshedConditions(spec, s.conditions, c', now, ctype);
    }
    RefreshedConditions(spec, s.conditions, c', now, COMPLIANT);
    SameHealth(spec, s'.conditions, Set(s.conditions, c'));
    ByKindAndNameIsTotal();
    if RelatedChanged(Previous(s.related, objs), objs) {
      var updated :| CreationCarried(Previous(s.related, objs), objs, updated) &&
        s'.related == Sort(ByKindAndName(), Others(s.related, objs) + updated);
      SortSorts(ByKindAndName(), Others(s.related, objs) + updated);
    }
  }

  datatype Call = Call(spec: Spec, c: Condition, objs: seq<RelatedObject>, now: int)

  const EMPTY_STATUS := Status([], [], None, 0)

  /** The states a policy goes through, one for each call, from an empty status. */
  ghost predicate Run(calls: seq<Call>, states: seq<Status>) {
    && |states| == |calls| + 1 && states[0] == EMPTY_STATUS
    && forall i :: 0 <= i < |calls| ==> StepOf(calls[i], states[i], states[i + 1])
  }

  ghost predicate StepOf(call: Call, s: Status, s': Status) {
    call.c.ctype != COMPLIANT && exists changed :: Step(call.spec, s, call.c, call.objs, call.now, s', changed)
  }

  lemma {:induction false} EveryRunKeepsInvariant(calls: seq<Call>, states: seq<Status>, n: nat)
    requires Run(calls, states) && n <= |calls|
    ensures Invariant(states[n]) && (n > 0 ==> Current(calls[n - 1].spec, states[n]))
  {
    if n > 0 {
      EveryRunKeepsInvariant(calls, states, n - 1);
      var call := calls[n - 1];
      assert StepOf(call, states[n - 1], states[n - 1 + 1]);
      var changed :| Step(call.spec, states[n - 1], call.c, call.objs, call.now, states[n], changed);
      StepKeepsInvariant(call.spec, states[n - 1], call.c, call.objs, call.now, states[n], changed);
    }
  }

  // ---------- repeating a call ----------

  /** Two objects of one name that do not agree. */
  ghost predicate Clash(objs: seq<RelatedObject>) {
    exists o, q :: o in objs && q in objs && o.name == q.name && Differ(q, o)
  }

  lemma {:induction false} CarriedAgrees(prev: seq<RelatedObject>, objs: seq<RelatedObject>,
                                         updated: seq<RelatedObject>, i: nat)
    requires CreationCarried(prev, objs, updated) && i < |objs|
    ensures SameButCreation(objs[i], updated[i])
    ensures updated[i].name == objs[i].name && updated[i].kind == objs[i].kind
    ensures forall o :: Differ(updated[i], o) == Differ(objs[i], o)
  {
  }

  /** `updated` agrees with `objs` position by position, and `prev` has the same members as `updated`. */
  ghost predicate Agreeing(prev: seq<RelatedObject>, objs: seq<RelatedObject>, updated: seq<RelatedObject>) {
    && |prev| == |objs| == |updated| && (forall p :: p in prev <==> p in updated)
    && (forall i :: 0 <= i < |objs| ==> updated[i].name == objs[i].name)
    && (forall i, o :: 0 <= i < |objs| ==> Differ(updated[i], o) == Differ(objs[i], o))
  }

  lemma {:induction false} CounterpartOf(prev: seq<RelatedObject>, objs: seq<RelatedObject>,
                                         updated: seq<RelatedObject>, p: RelatedObject)
    returns (i: nat)
    requires Agreeing(prev, objs, updated) && p in prev
    ensures i < |objs| && updated[i] == p && objs[i] in objs
  {
    assert p in updated;
    i :| 0 <= i < |updated| && updated[i] == p;
  }

  lemma {:induction false} ClashChanges(prev: seq<RelatedObject>, objs: seq<RelatedObject>, updated: seq<RelatedObject>)
    requires Agreeing(prev, objs, updated) && Clash(objs)
    ensures RelatedChanged(prev, objs)
  {
    var o, q :| o in objs && q in objs && o.name == q.name && Differ(q, o);
    var i :| 0 <= i < |objs| && objs[i] == q;
    var p := updated[i];
    assert p in prev && p.name == o.name && Differ(p, o);
  }

  lemma {:induction false} ChangeIsClash(prev: seq<RelatedObject>, objs: seq<RelatedObject>,
                                         updated: seq<RelatedObject>)
    requires Agreeing(prev, objs, updated) && RelatedChanged(prev, objs)
    ensures Clash(objs)
  {
    if p :| p in prev && forall o | o in objs :: p.name != o.name {
      var i := CounterpartOf(prev, objs, updated, p);
      assert false;
    } else {
      var p :| p in prev && exists o | o in objs :: p.name == o.name && Differ(p, o);
      var o :| o in objs && p.name == o.name && Differ(p, o);
      var i := CounterpartOf(prev, objs, updated, p);
      assert Differ(objs[i], o);
    }
  }

  /** Once replaced, the objects differ from those reported again only where they differ among themselves. */
  lemma {:induction false} ReplacedChangesOnClash(related: seq<RelatedObject>, objs: seq<RelatedObject>,
                                                  updated: seq<RelatedObject>)
    requires SortedBy(ByKindAndName(), related) && SameKind(objs)
    requires RelatedChanged(Previous(related, objs), objs)
    requires CreationCarried(Previous(related, objs), objs, updated)
    ensures var after := Sort(ByKindAndName(), Others(related, objs) + updated);
      RelatedChanged(Previous(after, objs), objs) <==> Clash(objs)
  {
    if objs != [] {
      ReplacedParts(related, objs, updated);
      var prev := Sort(ByKindAndName(), updated);
      SortPermutes(ByKindAndName(), updated);
      PermutationMembers(prev, updated);
      forall i | 0 <= i < |objs|
        ensures updated[i].name == objs[i].name
        ensures forall o :: Differ(updated[i], o) == Differ(objs[i], o)
      {
        CarriedAgrees(Previous(related, objs), objs, updated, i);
      }
      if Clash(objs) {
        ClashChanges(prev, objs, updated);
      }
      if RelatedChanged(prev, objs) {
        ChangeIsClash(prev, objs, updated);
      }
    }
  }

  /**
   * Reporting the same condition and the same objects again changes nothing but timestamps, and asks for an event
   * only when the objects had to be replaced and two of them have the same name without agreeing.
   */
  lemma {:induction false} RepeatSettles(spec: Spec, s: Status, c: Condition, objs: seq<RelatedObject>, now: int,
                                         s1: Status, changed1: bool, later: int, s2: Status, changed2: bool)
    requires Invariant(s) && c.ctype != COMPLIANT && SameKind(objs)
    requires Step(spec, s, c, objs, now, s1, changed1) && Step(spec, s1, c, objs, later, s2, changed2)
    ensures changed2 <==> RelatedChanged(Previous(s.related, objs), objs) && Clash(objs)
    ensures !changed2 ==> s2.related == s1.related
    ensures s2.state == s1.state && s2.observedGeneration == s1.observedGeneration
    ensures s2.conditions == Put(s1.conditions, ComplianceCondition(spec, s1.conditions, later))
    ensures forall ctype :: ctype != COMPLIANT ==> Find(s2.conditions, ctype) == Find(s1.conditions, ctype)
    ensures Find(s1.conditions, COMPLIANT).Some? &&
      Find(s2.conditions, COMPLIANT) == Some(Find(s1.conditions, COMPLIANT).value.(time := later))
  {
    StepKeepsInvariant(spec, s, c, objs, now, s1, changed1);
    RepeatedConditions(spec, s.conditions, Stamped(c, now), Stamped(c, later), now, later);
    if RelatedChanged(Previous(s.related, objs), objs) {
      var updated :| CreationCarried(Previous(s.related, objs), objs, updated) &&
        s1.related == Sort(ByKindAndName(), Others(s.related, objs) + updated);
      ReplacedChangesOnClash(s.related, objs, updated);
    }
  }

  lemma {:induction false} RepeatedConditions(spec: Spec, conditions: seq<Condition>, c: Condition, again: Condition,
                                              now: int, later: int)
    requires TypesAscend(conditions) && c.ctype != COMPLIANT && again == c.(time := again.time)
    ensures var first := Refreshed(spec, conditions, c, now);
      var second := Refreshed(spec, first, again, later);
      && !SetChanges(first, again)
      && Healthy(spec, first) == Healthy(spec, Set(conditions, c))
      && second == Put(first, ComplianceCondition(spec, first, later))
      && (forall ctype :: ctype != COMPLIANT ==> Find(second, ctype) == Find(first, ctype))
      && Find(first, COMPLIANT).Some?
      && Find(second, COMPLIANT) == Some(Find(first, COMPLIANT).value.(time := later))
  {
    AscendIsDistinct(conditions);
    var updated := Set(conditions, c);
    var first := Refreshed(spec, conditions, c, now);
    forall ctype
      ensures TypesAscend(first)
      ensures Find(first, ctype) ==
        if ctype == COMPLIANT then Some(ComplianceCondition(spec, updated, now)) else Find(updated, ctype)
    {
      RefreshedConditions(spec, conditions, c, now, ctype);
    }
    FindAfterPut(conditions, c, c.ctype);
    assert !SetChanges(first, again);
    SameHealth(spec, first, updated);
    AscendIsDistinct(first);
    var compliance := ComplianceCondition(spec, first, later);
    forall ctype
      ensures Find(Put(first, compliance), ctype) == if ctype == COMPLIANT then Some(compliance) else Find(first, ctype)
    {
      FindAfterPut(first, compliance, ctype);
    }
    PutKeepsOrder(first, compliance);
  }

  /** Writing over a condition of the same type leaves a sorted list sorted. */
  lemma {:induction false} PutKeepsOrder(conditions: seq<Condition>, c: Condition)
    requires TypesAscend(conditions) && Find(conditions, c.ctype).Some?
    ensures Sort(ByType(), Put(conditions, c)) == Put(conditions, c)
  {
    var after := Put(conditions, c);
    forall i, j | 0 <= i < j < |after|
      ensures ByType()(after[i], after[j])
    {
      assert after[i].ctype == conditions[i].ctype && after[j].ctype == conditions[j].ctype;
      assert StrLess(conditions[i].ctype, conditions[j].ctype);
    }
    SortOfSorted(ByType(), after);
  }

  // ---------- what a replacement keeps ----------

  /** The related objects of other kinds, and their order, are not touched by a call. */
  lemma {:induction false} OtherKindsKept(spec: Spec, s: Status, c: Condition, objs: seq<RelatedObject>, now: int,
                                          s': Status, changed: bool)
    requires Invariant(s) && SameKind(objs) && objs != [] && Step(spec, s, c, objs, now, s', changed)
    ensures Filter(s'.related, objs[0].kind, false) == Filter(s.related, objs[0].kind, false)
  {
    if RelatedChanged(Previous(s.related, objs), objs) {
      var updated :| CreationCarried(Previous(s.related, objs), objs, updated) &&
        s'.related == Sort(ByKindAndName(), Others(s.related, objs) + updated);
      ReplacedParts(s.related, objs, updated);
    }
  }

  ghost predicate NamesDistinct(objs: seq<RelatedObject>) {
    forall i, j :: 0 <= i < j < |objs| ==> objs[i].name != objs[j].name
  }

  lemma {:induction false} OneOfName(objs: seq<RelatedObject>, p: RelatedObject, q: RelatedObject)
    requires NamesDistinct(objs) && p in objs && q in objs && p.name == q.name
    ensures p == q
  {
    var a :| 0 <= a < |objs| && objs[a] == p;
    var b :| 0 <= b < |objs| && objs[b] == q;
  }

  ghost predicate SameCreation(p: RelatedObject, r: RelatedObject) {
    p.properties.Some? && r.properties.Some? && r.properties.value.uid == p.properties.value.uid &&
    r.properties.value.createdByPolicy == p.properties.value.createdByPolicy
  }

  lemma {:induction false} CarriedSurvives(prev: seq<RelatedObject>, objs: seq<RelatedObject>,
                                           updated: seq<RelatedObject>, p: RelatedObject, i: nat, r: RelatedObject)
    requires NamesDistinct(objs) && NamesDistinct(prev) && CreationCarried(prev, objs, updated)
    requires i < |objs| && p in prev && Carries(p, objs[i]) && r in updated && r.name == p.name
    ensures SameCreation(p, r)
  {
    var j :| 0 <= j < |updated| && updated[j] == r;
    CarriedAgrees(prev, objs, updated, j);
    OneOfName(objs, objs[i], objs[j]);
    var q :| q in prev && Carries(q, objs[j]) && updated[j] == CarriedOver(q, objs[j]);
    OneOfName(prev, p, q);
  }

  lemma {:induction false} KindPart(related: seq<RelatedObject>, objs: seq<RelatedObject>, updated: seq<RelatedObject>,
                                    r: RelatedObject)
    requires objs != [] && r in Sort(ByKindAndName(), Others(related, objs) + updated) && r.kind == objs[0].kind
    ensures r in updated
  {
    SortPermutes(ByKindAndName(), Others(related, objs) + updated);
    PermutationMembers(Sort(ByKindAndName(), Others(related, objs) + updated), Others(related, objs) + updated);
    FilterMembers(related, objs[0].kind, false);
  }

  /** Once recorded as created by the policy, an object stays so while it is reported under the same name and UID. */
  lemma {:induction false} CreationSurvives(spec: Spec, s: Status, c: Condition, objs: seq<RelatedObject>, now: int,
                                            s': Status, changed: bool, p: RelatedObject, i: nat, r: RelatedObject)
    requires SameKind(objs) && NamesDistinct(objs) && NamesDistinct(Previous(s.related, objs))
    requires Step(spec, s, c, objs, now, s', changed)
    requires i < |objs| && p in s.related && p.kind == objs[i].kind && Carries(p, objs[i])
    requires r in s'.related && r.kind == p.kind && r.name == p.name
    ensures SameCreation(p, r)
  {
    var prev := Previous(s.related, objs);
    FilterMembers(s.related, objs[0].kind, true);
    if RelatedChanged(prev, objs) {
      var updated :| CreationCarried(prev, objs, updated) &&
        s'.related == Sort(ByKindAndName(), Others(s.related, objs) + updated);
      KindPart(s.related, objs, updated, r);
      CarriedSurvives(prev, objs, updated, p, i, r);
    } else {
      OneOfName(prev, p, r);
    }
  }
}
