/**
 * The comparison of a merged value with the one on the cluster
 * (controllers/configurationpolicy_utils.go, equalObjWithSort and its helpers).
 */
module Compare {
  import opened Sorting
  import opened Json

  /** equalObjWithSort. `o` is Null when the existing value is absent. */
  predicate EqualObj(g: Lib, m: Json, o: Json, zeroIsNil: bool) {
    match m
    case Map(_) => o.Map? && CheckFields(g, m, o, zeroIsNil)
    case List(items) =>
      // The arguments are passed the other way round than inside a map.
      (items == [] && o == Null) || (o.List? && ListsMatch(g, items, o.items))
    case _ =>
      if zeroIsNil && o == Null && m != Null then g.sprint(Zero(m)) == g.sprint(m)
      else if zeroIsNil && m == Null && o != Null then g.sprint(Zero(o)) == g.sprint(o)
      else g.sprint(m) == g.sprint(o)
  }

  /** checkFieldsWithSort. */
  predicate CheckFields(g: Lib, m: Json, o: Json, zeroIsNil: bool)
    requires m.Map? && o.Map?
    decreases m, 1
  {
    |m.fields| >= |o.fields| &&
    forall k | k in m.fields :: FieldMatches(g, m.fields[k], LookupOption(o, k), zeroIsNil)
  }

  /** One round of checkFieldsWithSort's loop: the merged value of a key against the existing entry. */
  predicate FieldMatches(g: Lib, m: Json, o: Option<Json>, zeroIsNil: bool)
    decreases m, 2
  {
    match m
    case Map(fields) =>
      if o.Some? && o.value.Map? then CheckFields(g, m, o.value, zeroIsNil)
      else zeroIsNil && |fields| == 0
    case List(items) =>
      if o.Some? && o.value.List? then ListsMatch(g, o.value.items, items)
      else items == []
    case Str(s) =>
      (match g.quantity(s)
       case None => o.Some? && g.sprint(o.value) == s
       case Some(q) => o.Some? && o.value.Str? && g.quantity(o.value.s) == Some(q))
    case _ =>
      var nil := o.None? || o.value == Null;
      g.sprint(if !nil then o.value else if m != Null then Zero(m) else Null) == g.sprint(m)
  }

  /** checkListsMatch: both lists are sorted, then compared position by position. */
  predicate ListsMatch(g: Lib, existing: seq<Json>, merged: seq<Json>)
    decreases merged, 0
  {
    |merged| == |existing| &&
    (SortListPermutes(g, existing);
     SortListPermutes(g, merged);
     forall i | 0 <= i < |existing| ::
       var m := g.sortList(merged)[i];
       assert m in merged;
       ElementMatches(g, m, g.sortList(existing)[i]))
  }

  predicate ElementMatches(g: Lib, m: Json, o: Json)
    decreases m, 3
  {
    if o.Map? then m.Map? && CheckFields(g, m, o, true) else g.sprint(o) == g.sprint(m)
  }

  /** A value that an absent entry is as good as. */
  predicate Blank(g: Lib, v: Json) {
    match v
    case Null => true
    case Str(_) => false
    case List(items) => items == []
    case Map(fields) => fields == map[]
    case _ => g.sprint(Zero(v)) == g.sprint(v)
  }

  /** Every value equals itself, so an object just written needs no further update. */
  lemma {:induction false} CheckFieldsReflexive(g: Lib, v: Json, zeroIsNil: bool)
    requires v.Map?
    ensures CheckFields(g, v, v, zeroIsNil)
    decreases v, 1
  {
    forall k | k in v.fields
      ensures FieldMatches(g, v.fields[k], LookupOption(v, k), zeroIsNil)
    {
      var f := v.fields[k];
      if f.Map? {
        CheckFieldsReflexive(g, f, zeroIsNil);
      } else if f.List? {
        ListsMatchReflexive(g, f.items);
      }
    }
  }

  lemma {:induction false} ListsMatchReflexive(g: Lib, l: seq<Json>)
    ensures ListsMatch(g, l, l)
    decreases l, 0
  {
    SortListPermutes(g, l);
    forall i | 0 <= i < |l|
      ensures ElementMatches(g, g.sortList(l)[i], g.sortList(l)[i])
    {
      var v := g.sortList(l)[i];
      assert v in l;
      if v.Map? {
        CheckFieldsReflexive(g, v, true);
      }
    }
  }

  lemma {:induction false} EqualObjReflexive(g: Lib, v: Json, zeroIsNil: bool)
    ensures EqualObj(g, v, v, zeroIsNil)
  {
    if v.Map? {
      CheckFieldsReflexive(g, v, zeroIsNil);
    } else if v.List? {
      ListsMatchReflexive(g, v.items);
    }
  }

  lemma {:induction false} FieldMatchesItself(g: Lib, v: Json, z: bool)
    ensures FieldMatches(g, v, Some(v), z)
  {
    if v.Map? {
      CheckFieldsReflexive(g, v, z);
    } else if v.List? {
      ListsMatchReflexive(g, v.items);
    }
  }

  /** Whatever the merge did to the order of a list is undone before comparing. */
  lemma {:induction false} ListsMatchIgnoresOrder(g: Lib, a: seq<Json>, b: seq<Json>)
    requires multiset(a) == multiset(b)
    requires forall x, y :: x in a && y in a && g.sortAndSprint(x) == g.sortAndSprint(y) ==> x == y
    ensures ListsMatch(g, a, b)
  {
    var a', b' := g.sortList(a), g.sortList(b);
    SortListPermutes(g, a);
    SortListPermutes(g, b);
    var leq := ByText(g.sortAndSprint);
    assert TiesAreEqual(leq, a') by {
      forall i, j | 0 <= i < |a'| && 0 <= j < |a'| && leq(a'[i], a'[j]) && leq(a'[j], a'[i])
        ensures a'[i] == a'[j]
      {
        StrLeqAntisymmetric(g.sortAndSprint(a'[i]), g.sortAndSprint(a'[j]));
        assert a'[i] in a && a'[j] in a;
      }
    }
    SortedIsUnique(leq, a', b');
    ListsMatchReflexive(g, a);
    PermutationMembers(a, b);
  }

  /** The sort-then-zip check pairs the elements of the two lists one to one. */
  lemma {:induction false} ListsMatchPairing(g: Lib, existing: seq<Json>, merged: seq<Json>) returns (p: seq<nat>)
    requires ListsMatch(g, existing, merged)
    ensures |existing| == |merged| && Injection(p, |merged|, |existing|)
    ensures forall i :: 0 <= i < |merged| ==> ElementMatches(g, merged[i], existing[p[i]])
  {
    SortListPermutes(g, existing);
    SortListPermutes(g, merged);
    var oS, mS := g.sortList(existing), g.sortList(merged);
    var into := EmbeddingIndices(merged, mS);
    var outOf := EmbeddingIndices(oS, existing);
    p := seq(|merged|, i requires 0 <= i < |merged| => outOf[into[i]]);
    forall i, j | 0 <= i < j < |p|
      ensures p[i] != p[j]
    {
      assert into[i] != into[j];
    }
  }
}
