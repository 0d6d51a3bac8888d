/** What the verdict "no update needed" means for lists, for mustonlyhave, and for a whole object. */
module Verdicts {
  import opened Sorting
  import opened Json
  import opened Compare
  import opened Greedy
  import opened Merge
  import opened Matching
  import opened MergeAgain
  import opened Convergence
  import opened Soundness

  // ---------- lists of strings ----------

  lemma {:induction false} StringKeys(g: Lib, s: seq<Json>)
    requires Strings(s)
    ensures Faithful(g, s) && SortsApart(g, s)
    ensures forall v: Json :: v.Str? ==> multiset(s)[v] == multiset(Keys(g, s))[g.sprint(v)]
  {
    forall x: Json, y: Json | x.Str? && y.Str?
      ensures g.sprint(x) == g.sprint(y) <==> x == y
      ensures g.sortAndSprint(x) == g.sortAndSprint(y) <==> x == y
    {
      StringMatches(g, false, x, y);
      assert g.sortAndSprint(Str(x.s)) == x.s && g.sortAndSprint(Str(y.s)) == y.s;
    }
    forall v: Json | v.Str?
      ensures multiset(s)[v] == multiset(Keys(g, s))[g.sprint(v)]
    {
      CountByText(g, s, v);
    }
  }

  /** Every template string has been taken by the group of that string. */
  ghost predicate TakenByEquals(g: Lib, t: seq<Json>, e: seq<Json>, owners: Owners) {
    |owners| == |t| && forall i :: 0 <= i < |t| ==>
      owners[i].Some? && owners[i].value < |Groups(g, e)| && Groups(g, e)[owners[i].value] == t[i]
  }

  lemma {:induction false} OwnersOfStrings(g: Lib, z: bool, t: seq<Json>, e: seq<Json>, i: nat)
    requires Strings(t) && Strings(e) && i < |t| && Assigned(g, z, t, e).owners[i].Some?
    ensures var o := Assigned(g, z, t, e).owners[i]; o.value < |Groups(g, e)| && Groups(g, e)[o.value] == t[i]
  {
    var groups := Groups(g, e);
    AssignIsSound(|t|, Table(g, z, t, groups), Needs(g, e), |groups|);
    GroupsRepresent(g, e);
    var v := groups[Assigned(g, z, t, e).owners[i].value];
    assert v in e && Matches(g, z, t[i], v);
    StringMatches(g, z, t[i], v);
  }

  /** A group that a free position fits has all its occurrences placed. */
  lemma {:induction false} FreeMeansFull(g: Lib, z: bool, t: seq<Json>, e: seq<Json>, k: nat, i: nat)
    requires k < |Groups(g, e)| && i < |t| && Matches(g, z, t[i], Groups(g, e)[k]) &&
      Assigned(g, z, t, e).owners[i].None?
    ensures Owned(Assigned(g, z, t, e).owners, k) == Occurrences(g, e, Groups(g, e)[k])
  {
    var groups := Groups(g, e);
    AssignIsMaximal(|t|, Table(g, z, t, groups), Needs(g, e), |groups|);
    AssignConserves(|t|, Table(g, z, t, groups), Needs(g, e), |groups|);
    assert Table(g, z, t, groups)[k][i];
  }

  lemma {:induction false} StringWithin(g: Lib, t: seq<Json>, e: seq<Json>, v: Json)
    requires Strings(t) && Strings(e) && multiset(t) <= multiset(e) && v.Str?
    ensures multiset(Keys(g, t))[g.sprint(v)] <= multiset(Keys(g, e))[g.sprint(v)]
  {
    StringKeys(g, t);
    StringKeys(g, e);
  }

  /** No string stays free that the existing list has often enough. */
  lemma {:induction false} StringIsTaken(g: Lib, z: bool, t: seq<Json>, e: seq<Json>, i: nat)
    requires Strings(t) && Strings(e) && multiset(t) <= multiset(e) && i < |t|
    ensures Assigned(g, z, t, e).owners[i].Some?
  {
    var owners := Assigned(g, z, t, e).owners;
    if owners[i].None? {
      var k := GroupOfString(g, t, e, i);
      EqualObjReflexive(g, t[i], z);
      FreeMeansFull(g, z, t, e, k, i);
      StringWithin(g, t, e, t[i]);
      forall j | 0 <= j < |t| && owners[j] == Some(k)
        ensures Keys(g, t)[j] == g.sprint(t[i])
      {
        OwnersOfStrings(g, z, t, e, j);
      }
      FewerOwned(owners, Keys(g, t), k, g.sprint(t[i]), i);
    }
  }

  lemma {:induction false} GroupOfString(g: Lib, t: seq<Json>, e: seq<Json>, i: nat) returns (k: nat)
    requires Strings(t) && Strings(e) && multiset(t) <= multiset(e) && i < |t|
    ensures k < |Groups(g, e)| && Groups(g, e)[k] == t[i]
  {
    assert t[i] in multiset(t) && t[i] in e;
    var x :| 0 <= x < |e| && e[x] == t[i];
    GroupsAreFirst(g, e);
    k := FirstOfFinds(Keys(g, e), x);
    assert Groups(g, e)[k] in e;
    StringMatches(g, false, Groups(g, e)[k], t[i]);
  }

  /** Strings are not changed by merging, and what is appended comes from the existing list. */
  lemma {:induction false} MergedParts(g: Lib, z: bool, t: seq<Json>, e: seq<Json>)
    requires Strings(t) && Strings(e)
    ensures var m := MergeArrays(g, z, t, e);
      && |m| >= |t| && m[..|t|] == t && (forall v :: v in m[|t|..] ==> v in e)
      && OccurrencesPlaced(g, e, Groups(g, e), m[|t|..], Assigned(g, z, t, e).owners)
  {
    var m := MergeArrays(g, z, t, e);
    MergeArraysMatches(g, z, t, e);
    GroupsRepresent(g, e);
    forall i | 0 <= i < |t|
      ensures m[i] == t[i]
    {
      assert t[i] in t;
      StringStays(g, z, t[i], Groups(g, e), Assigned(g, z, t, e).owners[i]);
    }
  }

  lemma {:induction false} StringStays(g: Lib, z: bool, t: Json, groups: seq<Json>, owner: Option<nat>)
    requires t.Str? && Strings(groups)
    ensures MergeOwned(g, z, t, groups, owner) == t
  {
    if owner.Some? && owner.value < |groups| {
      assert groups[owner.value] in groups;
    }
  }

  lemma {:induction false} MergedStrings(g: Lib, z: bool, t: seq<Json>, e: seq<Json>)
    requires Strings(t) && Strings(e) && TakenByEquals(g, t, e, Assigned(g, z, t, e).owners)
    ensures multiset(MergeArrays(g, z, t, e)) == multiset(e)
  {
    var m := MergeArrays(g, z, t, e);
    MergedParts(g, z, t, e);
    assert m == t + m[|t|..];
    EveryStringPlaced(g, t, e, m[|t|..], Assigned(g, z, t, e).owners);
  }

  lemma {:induction false} EveryStringPlaced(g: Lib, t: seq<Json>, e: seq<Json>, tail: seq<Json>, owners: Owners)
    requires Strings(t) && Strings(e) && (forall v :: v in tail ==> v in e) && TakenByEquals(g, t, e, owners)
    requires OccurrencesPlaced(g, e, Groups(g, e), tail, owners)
    ensures multiset(t + tail) == multiset(e)
  {
    assert OwnerKeys(g, Groups(g, e), owners) == Keys(g, t);
    forall v
      ensures multiset(t)[v] + multiset(tail)[v] == multiset(e)[v]
    {
      if v in e {
        StringPlaced(g, t, e, tail, owners, v);
      } else {
        StringElsewhere(g, t, e, owners, v);
        assert v !in tail;
      }
    }
  }

  lemma {:induction false} StringPlaced(g: Lib, t: seq<Json>, e: seq<Json>, tail: seq<Json>, owners: Owners, v: Json)
    requires Strings(t) && Strings(e) && Strings(tail) && v in e
    requires TakenByEquals(g, t, e, owners) && OwnerKeys(g, Groups(g, e), owners) == Keys(g, t)
    requires OccurrencesPlaced(g, e, Groups(g, e), tail, owners)
    ensures multiset(t)[v] + multiset(tail)[v] == multiset(e)[v]
  {
    var groups := Groups(g, e);
    GroupsRepresent(g, e);
    var x :| 0 <= x < |e| && e[x] == v;
    assert Keys(g, e)[x] in Keys(g, groups);
    var k :| 0 <= k < |groups| && Keys(g, groups)[k] == g.sprint(v);
    assert groups[k] in e;
    StringMatches(g, false, groups[k], v);
    OwnerKeysCount(g, groups, owners, k);
    StringKeys(g, t);
    StringKeys(g, tail);
    StringKeys(g, e);
  }

  lemma {:induction false} StringElsewhere(g: Lib, t: seq<Json>, e: seq<Json>, owners: Owners, v: Json)
    requires TakenByEquals(g, t, e, owners) && v !in e
    ensures v !in t
  {
    GroupsRepresent(g, e);
    forall i | 0 <= i < |t|
      ensures t[i] != v
    {
      assert Groups(g, e)[owners[i].value] in e;
    }
  }

  /** A list of strings that are all found is merged into the same elements. */
  lemma {:induction false} StringsAbsorbed(g: Lib, z: bool, t: seq<Json>, e: seq<Json>)
    requires Strings(t) && Strings(e) && multiset(t) <= multiset(e)
    ensures multiset(MergeArrays(g, z, t, e)) == multiset(e)
  {
    forall i | 0 <= i < |t|
      ensures var o := Assigned(g, z, t, e).owners[i];
        o.Some? && o.value < |Groups(g, e)| && Groups(g, e)[o.value] == t[i]
    {
      StringIsTaken(g, z, t, e, i);
      OwnersOfStrings(g, z, t, e, i);
    }
    MergedStrings(g, z, t, e);
  }

  /**
   * A musthave list of strings needs no update exactly if it has every string of the template as often as the template.
   */
  lemma {:induction false} StringListsExact(g: Lib, z: bool, t: seq<Json>, e: seq<Json>)
    requires Strings(t) && Strings(e)
    ensures EqualObj(g, List(MergeArrays(g, z, t, e)), List(e), z) <==> multiset(t) <= multiset(e)
  {
    if EqualObj(g, List(MergeArrays(g, z, t, e)), List(e), z) {
      AcceptedStrings(g, z, t, e);
    }
    if multiset(t) <= multiset(e) {
      StringsAbsorbed(g, z, t, e);
      StringKeys(g, e);
      PermutationMembers(MergeArrays(g, z, t, e), e);
      ListsMatchIgnoresOrder(g, MergeArrays(g, z, t, e), e);
    }
  }

  lemma {:induction false} AcceptedStrings(g: Lib, z: bool, t: seq<Json>, e: seq<Json>)
    requires Strings(t) && Strings(e) && EqualObj(g, List(MergeArrays(g, z, t, e)), List(e), z)
    ensures multiset(t) <= multiset(e)
  {
    var owners := Assigned(g, z, t, e).owners;
    AcceptedIsOwned(g, z, t, e);
    MergeArraysMatches(g, z, t, e);
    forall i | 0 <= i < |t|
      ensures Groups(g, e)[owners[i].value] == t[i]
    {
      OwnersOfStrings(g, z, t, e, i);
    }
    assert OwnerKeys(g, Groups(g, e), owners) == Keys(g, t);
    OwnersWithin(g, e, MergeArrays(g, z, t, e)[|t|..], owners);
    StringKeys(g, t);
    StringKeys(g, e);
    forall v
      ensures multiset(t)[v] <= multiset(e)[v]
    {
      if v in t {
        assert v.Str?;
      }
    }
  }

  /** Enforcing a list of strings always settles, however often they are repeated. */
  lemma {:induction false} StringListsSettle(g: Lib, z: bool, t: seq<Json>, e: seq<Json>)
    requires Strings(t) && Strings(e)
    ensures var m := SentSpecs(g, z, List(t), List(e));
      Settling(g, z, List(t), m) && EqualObj(g, MergeSpecs(g, z, List(t), m), m, z)
  {
    MergedStringsSettle(g, z, t, e);
    NoEmptyMapsLoseNothing(g, z, List(t), List(e));
    SentIsMerged(g, z, List(t), List(e));
    EnforcementSettles(g, z, List(t), List(e));
  }

  lemma {:induction false} MergedStringsSettle(g: Lib, z: bool, t: seq<Json>, e: seq<Json>)
    requires Strings(t) && Strings(e)
    ensures Settling(g, z, List(t), MergeSpecs(g, z, List(t), List(e)))
  {
    var m := MergeSpecs(g, z, List(t), List(e)).items;
    if e != [] {
      MergedParts(g, z, t, e);
      assert m == t + m[|t|..];
    } else {
      assert m == t && t[..|t|] == t;
    }
    assert Strings(m);
    StringsArePlaced(g, z, t, m);
    StringKeys(g, m);
    forall i | 0 <= i < |t|
      ensures Unambiguous(g, z, t[i], m[i])
    {
      assert t[i] in t;
    }
  }

  // ---------- mustonlyhave ----------

  /** A mustonlyhave map that is accepted satisfies the template. */
  lemma {:induction false} MustOnlyHaveSound(g: Lib, z: bool, t: Json, e: Json)
    requires t.Map? && e.Map? && EqualObj(g, t, e, z)
    ensures Satisfies(g, z, t, Some(e))
  {
    CoversItself(g, t);
    MatchSatisfies(g, z, t, t, Some(e));
  }

  /** In no map that the template has, the existing value has more keys. */
  ghost predicate NoMoreKeys(t: Json, e: Json) {
    t.Map? && e.Map? ==>
      |t.fields| >= |e.fields| && forall k | k in t.fields && k in e.fields :: NoMoreKeys(t.fields[k], e.fields[k])
  }

  lemma {:induction false} SatisfiedOnlyHave(g: Lib, z: bool, t: Json, o: Option<Json>)
    requires ListFree(t) && NullFree(t)
    ensures FieldMatches(g, t, o, z) <==> Satisfies(g, z, t, o) && (o.Some? ==> NoMoreKeys(t, o.value))
    decreases t
  {
    if t.Map? && o.Some? && o.value.Map? {
      forall k | k in t.fields
        ensures FieldMatches(g, t.fields[k], LookupOption(o.value, k), z) <==>
          Satisfies(g, z, t.fields[k], LookupOption(o.value, k)) &&
          (k in o.value.fields ==> NoMoreKeys(t.fields[k], o.value.fields[k]))
      {
        SatisfiedOnlyHave(g, z, t.fields[k], LookupOption(o.value, k));
      }
    }
  }

  /** It is accepted exactly if it satisfies the template and no map in it has more keys, whatever they are. */
  lemma {:induction false} MustOnlyHaveExact(g: Lib, z: bool, t: Json, e: Json)
    requires t.Map? && e.Map? && ListFree(t) && NullFree(t)
    ensures EqualObj(g, t, e, z) <==> Satisfies(g, z, t, Some(e)) && NoMoreKeys(t, e)
  {
    SatisfiedOnlyHave(g, z, t, Some(e));
  }

  /**
   * A mustonlyhave list that is accepted: each existing element, read as a template, is satisfied by a template element
   * of its own.
   */
  lemma {:induction false} MustOnlyHaveListMeans(g: Lib, z: bool, t: seq<Json>, e: seq<Json>) returns (p: seq<nat>)
    requires EqualObj(g, List(t), List(e), z)
    ensures |t| == |e| && Injection(p, |e|, |t|)
    ensures forall i :: 0 <= i < |e| ==> ElementSatisfies(g, e[i], t[p[i]])
  {
    p := ListsMatchPairing(g, t, e);
    forall i | 0 <= i < |e|
      ensures ElementSatisfies(g, e[i], t[p[i]])
    {
      CoversItself(g, e[i]);
      if t[p[i]].Map? {
        MatchSatisfies(g, true, e[i], e[i], Some(t[p[i]]));
      }
    }
  }

  /** Nothing of the template is missing in `o`: no key but blank ones, and no scalar for a collection or a nil. */
  predicate Filled(g: Lib, t: Json, o: Json)
    decreases t, 1
  {
    match t
    case Null => true
    case Map(fields) =>
      if o.Map? then
        forall k | k in fields :: if k in o.fields then Filled(g, fields[k], o.fields[k]) else Blank(g, fields[k])
      else fields == map[]
    case List(items) => if o.List? then ListFilled(g, items, o.items) else items == []
    case Str(s) =>
      if g.quantity(s).Some? then o.Str? else (o.Map? || o.List? ==> g.sprint(o) == s)
    case _ =>
      (o.Null? ==> Blank(g, t)) && (o.Map? || o.List? ==> g.sprint(o) == g.sprint(t))
  }

  /** Each template element against the one it is compared with after sorting. */
  predicate ListFilled(g: Lib, t: seq<Json>, o: seq<Json>)
    decreases t, 0
  {
    |t| == |o| &&
    (SortListPermutes(g, t);
     SortListPermutes(g, o);
     forall i | 0 <= i < |t| ::
       var x := g.sortList(t)[i];
       assert x in t;
       ElementFilled(g, x, g.sortList(o)[i]))
  }

  predicate ElementFilled(g: Lib, t: Json, o: Json)
    decreases t, 2
  {
    o.Map? ==> t.Map? && Filled(g, t, o)
  }

  /**
   * An entry that the exchanged comparison accepts satisfies the template if nothing of the template is missing in it.
   */
  lemma {:induction false} FilledSatisfies(g: Lib, t: Json, o: Json)
    requires FieldMatches(g, o, Some(t), true) && Filled(g, t, o)
    ensures Satisfies(g, true, t, Some(o))
    decreases t, 1
  {
    if t.Map? && o.Map? {
      forall k | k in t.fields
        ensures Satisfies(g, true, t.fields[k], LookupOption(o, k))
      {
        if k in o.fields {
          FilledSatisfies(g, t.fields[k], o.fields[k]);
        }
      }
    } else if t.List? && o.List? {
      ListFilledSatisfies(g, t.items, o.items);
    }
  }

  lemma {:induction false} ElementFilledSatisfies(g: Lib, t: Json, o: Json)
    requires ElementMatches(g, o, t) && ElementFilled(g, t, o)
    ensures ElementSatisfies(g, t, o)
    decreases t, 2
  {
    if o.Map? {
      FilledSatisfies(g, t, o);
    } else {
      assert ElementCovers(g, t, t);
    }
  }

  lemma {:induction false} ListFilledSatisfies(g: Lib, t: seq<Json>, o: seq<Json>)
    requires ListsMatch(g, t, o) && ListFilled(g, t, o)
    ensures exists p: seq<nat> ::
      Injection(p, |t|, |o|) && forall i | 0 <= i < |t| :: ElementSatisfies(g, t[i], o[p[i]])
    decreases t, 0
  {
    SortListPermutes(g, t);
    SortListPermutes(g, o);
    var tS, oS := g.sortList(t), g.sortList(o);
    forall i | 0 <= i < |t|
      ensures ElementSatisfies(g, tS[i], oS[i])
    {
      assert tS[i] in t;
      ElementFilledSatisfies(g, tS[i], oS[i]);
    }
    var p, at := Partners(t, o, tS, oS);
    assert forall i :: 0 <= i < |t| ==> ElementSatisfies(g, tS[at[i]], oS[at[i]]);
  }

  /** Where the partner of each element stands before sorting. */
  lemma {:induction false} Partners(t: seq<Json>, o: seq<Json>, tS: seq<Json>, oS: seq<Json>)
    returns (p: seq<nat>, at: seq<nat>)
    requires multiset(t) == multiset(tS) && multiset(o) == multiset(oS) && |t| == |tS| == |o| == |oS|
    ensures Injection(p, |t|, |o|) && |at| == |t|
    ensures forall i :: 0 <= i < |t| ==> at[i] < |t| && t[i] == tS[at[i]] && o[p[i]] == oS[at[i]]
  {
    at := EmbeddingIndices(t, tS);
    var outOf := EmbeddingIndices(oS, o);
    p := seq(|t|, i requires 0 <= i < |t| => outOf[at[i]]);
    forall i, j | 0 <= i < j < |p|
      ensures p[i] != p[j]
    {
      assert at[i] != at[j];
    }
  }

  lemma {:induction false} SatisfiedIsFilled(g: Lib, t: Json, o: Json)
    requires FieldMatches(g, o, Some(t), true) && ListFree(t) && Satisfies(g, true, t, Some(o))
    ensures Filled(g, t, o)
    decreases t
  {
    if t.Map? && o.Map? {
      forall k | k in t.fields
        ensures if k in o.fields then Filled(g, t.fields[k], o.fields[k]) else Blank(g, t.fields[k])
      {
        if k in o.fields {
          SatisfiedIsFilled(g, t.fields[k], o.fields[k]);
        }
      }
    }
  }

  /**
   * A mustonlyhave list that is accepted: each template element is satisfied by the existing one it is compared with
   * if nothing of it is missing there, and one without lists in it only then.
   */
  lemma {:induction false} MustOnlyHaveListExact(g: Lib, z: bool, t: seq<Json>, e: seq<Json>)
    requires EqualObj(g, List(t), List(e), z)
    ensures |t| == |e| == |g.sortList(t)| == |g.sortList(e)|
    ensures forall i :: 0 <= i < |t| && ElementFilled(g, g.sortList(t)[i], g.sortList(e)[i]) ==>
      ElementSatisfies(g, g.sortList(t)[i], g.sortList(e)[i])
    ensures forall i :: 0 <= i < |t| && ListFree(g.sortList(t)[i]) ==>
      (ElementSatisfies(g, g.sortList(t)[i], g.sortList(e)[i]) <==>
        ElementFilled(g, g.sortList(t)[i], g.sortList(e)[i]))
    ensures (forall x :: x in t ==> ListFree(x)) ==>
      (ListFilled(g, t, e) <==> forall i :: 0 <= i < |t| ==> ElementSatisfies(g, g.sortList(t)[i], g.sortList(e)[i]))
    ensures ListFilled(g, t, e) ==> Satisfies(g, true, List(t), Some(List(e)))
  {
    SortListPermutes(g, t);
    SortListPermutes(g, e);
    forall i | 0 <= i < |t|
      ensures ElementFilled(g, g.sortList(t)[i], g.sortList(e)[i]) ==>
        ElementSatisfies(g, g.sortList(t)[i], g.sortList(e)[i])
      ensures ListFree(g.sortList(t)[i]) && ElementSatisfies(g, g.sortList(t)[i], g.sortList(e)[i]) ==>
        ElementFilled(g, g.sortList(t)[i], g.sortList(e)[i])
    {
      ElementExact(g, g.sortList(t)[i], g.sortList(e)[i]);
    }
    assert forall i :: 0 <= i < |t| ==> g.sortList(t)[i] in t;
    if ListFilled(g, t, e) {
      ListFilledSatisfies(g, t, e);
    }
  }

  lemma {:induction false} ElementExact(g: Lib, t: Json, o: Json)
    requires ElementMatches(g, o, t)
    ensures ElementFilled(g, t, o) ==> ElementSatisfies(g, t, o)
    ensures ListFree(t) && ElementSatisfies(g, t, o) ==> ElementFilled(g, t, o)
  {
    if ElementFilled(g, t, o) {
      ElementFilledSatisfies(g, t, o);
    }
    if ListFree(t) && ElementSatisfies(g, t, o) && o.Map? {
      SatisfiedIsFilled(g, t, o);
    }
  }
}
