/** When the comparison asks for no update, the existing value satisfies the template. */
module Soundness {
  import opened Sorting
  import opened Json
  import opened Compare
  import opened Greedy
  import opened Merge
  import opened Matching
  import opened MergeAgain
  import opened Convergence

  /**
   * What a template demands of the entry found at its place. Numbers and booleans accept an absent entry when
   * they are their zero value, quantities accept another spelling of the amount, and each list of the template
   * is placed one to one in the existing list. With `lenient` an empty map accepts any entry.
   */
  ghost predicate Satisfies(g: Lib, lenient: bool, t: Json, o: Option<Json>)
    decreases t, 0
  {
    match t
    case Null => lenient || o.None? || o.value.Map? || g.sprint(o.value) == g.sprint(Null)
    case Str(s) =>
      (match g.quantity(s)
       case None => o.Some? && g.sprint(o.value) == s
       case Some(q) => o.Some? && o.value.Str? && g.quantity(o.value.s) == Some(q))
    case Map(fields) =>
      if o.Some? && o.value.Map? then
        forall k | k in fields :: Satisfies(g, lenient, fields[k], LookupOption(o.value, k))
      else lenient && fields == map[]
    case List(items) =>
      if o.Some? && o.value.List? then
        exists p: seq<nat> :: Injection(p, |items|, |o.value.items|) &&
          forall i | 0 <= i < |items| :: ElementSatisfies(g, items[i], o.value.items[p[i]])
      else items == []
    case _ =>
      if o.None? || o.value == Null then g.sprint(Zero(t)) == g.sprint(t) else g.sprint(o.value) == g.sprint(t)
  }

  /** A map element demands a map; any other existing element must print like the (merged) template element. */
  ghost predicate ElementSatisfies(g: Lib, t: Json, o: Json)
    decreases t, 1
  {
    if o.Map? then t.Map? && Satisfies(g, true, t, Some(o))
    else exists m :: ElementCovers(g, m, t) && g.sprint(m) == g.sprint(o)
  }

  /** The comparison of a value that covers the template with an entry, passed, means the entry satisfies it. */
  lemma {:induction false} MatchSatisfies(g: Lib, z: bool, t: Json, m: Json, o: Option<Json>)
    requires Covers(g, m, t) && FieldMatches(g, m, o, z)
    ensures Satisfies(g, z, t, o)
    decreases t
  {
    if t.Map? && o.Some? && o.value.Map? {
      forall k | k in t.fields
        ensures Satisfies(g, z, t.fields[k], LookupOption(o.value, k))
      {
        MatchSatisfies(g, z, t.fields[k], m.fields[k], LookupOption(o.value, k));
      }
    } else if t.List? && o.Some? && o.value.List? {
      ListMatchSatisfies(g, t.items, m.items, o.value.items);
    }
  }

  lemma {:induction false} ListMatchSatisfies(g: Lib, t: seq<Json>, m: seq<Json>, o: seq<Json>)
    requires |t| <= |m| && (forall i :: 0 <= i < |t| ==> ElementCovers(g, m[i], t[i]))
    requires ListsMatch(g, o, m)
    ensures exists p: seq<nat> ::
      Injection(p, |t|, |o|) && forall i | 0 <= i < |t| :: ElementSatisfies(g, t[i], o[p[i]])
    decreases t
  {
    var q := ListsMatchPairing(g, o, m);
    var p := q[..|t|];
    assert Injection(p, |t|, |o|);
    forall i | 0 <= i < |t|
      ensures ElementSatisfies(g, t[i], o[p[i]])
    {
      assert ElementMatches(g, m[i], o[q[i]]);
      assert ElementCovers(g, m[i], t[i]);
      if o[p[i]].Map? {
        MatchSatisfies(g, true, t[i], m[i], Some(o[p[i]]));
      }
    }
  }

  /** A musthave verdict of "no update needed" on an object or map is sound, if no template element is lost. */
  lemma {:induction false} VerdictSound(g: Lib, z: bool, t: Json, e: Json)
    requires t.Map? && e.Map? && NothingLost(g, z, t, e)
    requires EqualObj(g, MergeSpecs(g, z, t, e), e, z)
    ensures Satisfies(g, z, t, Some(e))
  {
    MergeCovers(g, z, t, e);
    MatchSatisfies(g, z, t, MergeSpecs(g, z, t, e), Some(e));
  }

  ghost predicate ListFree(t: Json) {
    && !t.List?
    && (t.Map? ==> forall k | k in t.fields :: ListFree(t.fields[k]))
  }

  ghost predicate NullFree(t: Json) {
    && !t.Null?
    && (t.Map? ==> forall k | k in t.fields :: NullFree(t.fields[k]))
  }

  /**
   * Templates that can be judged one entry at a time. Where an absent entry counts as zero, a nil in the template is
   * not among them: the comparison may then accept an entry for it that the merge would not.
   */
  ghost predicate Plain(z: bool, t: Json) {
    ListFree(t) && (z ==> NullFree(t))
  }

  /** A plain template that is satisfied passes the comparison: nothing satisfied is reported. */
  lemma {:induction false} SatisfiedMatches(g: Lib, merging: bool, z: bool, t: Json, o: Option<Json>)
    requires Plain(z, t) && Satisfies(g, z, t, o)
    ensures FieldMatches(g, if o.Some? then MergeSpecs(g, merging, t, o.value) else t, o, z)
    decreases t
  {
    if t.Map? && o.Some? && o.value.Map? {
      var e := o.value;
      var m := MergeSpecs(g, merging, t, e);
      assert m.fields.Keys >= e.fields.Keys;
      SubsetSize(e.fields.Keys, m.fields.Keys);
      forall k | k in m.fields
        ensures FieldMatches(g, m.fields[k], LookupOption(e, k), z)
      {
        if k in t.fields {
          SatisfiedMatches(g, merging, z, t.fields[k], LookupOption(e, k));
        } else {
          FieldMatchesItself(g, e.fields[k], z);
        }
      }
    } else if t.Null? && o.Some? && o.value.Map? {
      FieldMatchesItself(g, o.value, z);
    }
  }

  lemma {:induction false} ListFreeLosesNothing(g: Lib, z: bool, t: Json, e: Json)
    requires ListFree(t)
    ensures NothingLost(g, z, t, e)
    decreases t
  {
    if t.Map? && e.Map? {
      forall k | k in t.fields && k in e.fields
        ensures NothingLost(g, z, t.fields[k], e.fields[k])
      {
        ListFreeLosesNothing(g, z, t.fields[k], e.fields[k]);
      }
    }
  }

  /** For a plain template the verdict is exactly whether the existing object satisfies it. */
  lemma {:induction false} VerdictExact(g: Lib, merging: bool, z: bool, t: Json, e: Json)
    requires t.Map? && e.Map? && Plain(z, t)
    ensures EqualObj(g, MergeSpecs(g, merging, t, e), e, z) <==> Satisfies(g, z, t, Some(e))
  {
    if EqualObj(g, MergeSpecs(g, merging, t, e), e, z) {
      ListFreeLosesNothing(g, merging, t, e);
      MergeCovers(g, merging, t, e);
      MatchSatisfies(g, z, t, MergeSpecs(g, merging, t, e), Some(e));
    }
    if Satisfies(g, z, t, Some(e)) {
      SatisfiedMatches(g, merging, z, t, Some(e));
    }
  }

  /** An existing list element that a template element was matched with. */
  ghost predicate ListElementSatisfied(g: Lib, z: bool, t: Json, v: Json) {
    if t.Map? then v.Map? && Satisfies(g, z, t, Some(v)) else EqualObj(g, t, v, z)
  }

  /** When every template element is owned, no text is taken more often than it exists. */
  lemma {:induction false} OwnersWithin(g: Lib, e: seq<Json>, tail: seq<Json>, owners: Owners)
    requires forall i :: 0 <= i < |owners| ==> owners[i].Some? && owners[i].value < |Groups(g, e)|
    requires OccurrencesPlaced(g, e, Groups(g, e), tail, owners)
    ensures multiset(OwnerKeys(g, Groups(g, e), owners)) <= multiset(Keys(g, e))
  {
    var groups := Groups(g, e);
    var wanted := OwnerKeys(g, groups, owners);
    GroupsRepresent(g, e);
    forall key
      ensures multiset(wanted)[key] <= multiset(Keys(g, e))[key]
    {
      if key in multiset(wanted) {
        assert key in wanted;
        var i :| 0 <= i < |wanted| && wanted[i] == key;
        OwnerKeysCount(g, groups, owners, owners[i].value);
      }
    }
  }

  /** They are then placed one to one among the existing elements. */
  lemma {:induction false} OwnersEmbed(g: Lib, e: seq<Json>, tail: seq<Json>, owners: Owners) returns (p: seq<nat>)
    requires forall i :: 0 <= i < |owners| ==> owners[i].Some? && owners[i].value < |Groups(g, e)|
    requires OccurrencesPlaced(g, e, Groups(g, e), tail, owners)
    ensures Injection(p, |owners|, |e|)
    ensures forall i :: 0 <= i < |owners| ==> g.sprint(e[p[i]]) == g.sprint(Groups(g, e)[owners[i].value])
  {
    OwnersWithin(g, e, tail, owners);
    p := EmbeddingIndices(OwnerKeys(g, Groups(g, e), owners), Keys(g, e));
  }

  lemma {:induction false} AllTaken(owners: Owners)
    requires Taken(owners) == |owners|
    ensures forall i :: 0 <= i < |owners| ==> owners[i].Some?
  {
    forall i | 0 <= i < |owners|
      ensures owners[i].Some?
    {
      assert owners[i] in multiset(owners);
    }
  }

  lemma {:induction false} OwnedElementSatisfied(g: Lib, z: bool, t: Json, v: Json)
    requires Matches(g, z, t, v) && !SameNamed(t, v) && ElementKept(g, z, t, v)
    ensures ListElementSatisfied(g, z, t, v)
  {
    if t.Map? && v.Map? {
      VerdictSound(g, z, t, v);
    }
  }

  /** An accepted list has absorbed every template element. */
  lemma {:induction false} AcceptedIsOwned(g: Lib, z: bool, t: seq<Json>, e: seq<Json>)
    requires EqualObj(g, List(MergeArrays(g, z, t, e)), List(e), z)
    ensures var owners, groups := Assigned(g, z, t, e).owners, Groups(g, e);
      forall i :: 0 <= i < |t| ==>
        owners[i].Some? && owners[i].value < |groups| && Matches(g, z, t[i], groups[owners[i].value])
  {
    var owners := Assigned(g, z, t, e).owners;
    MergeArraysMatches(g, z, t, e);
    AllTaken(owners);
    forall i | 0 <= i < |t|
      ensures owners[i].Some? && owners[i].value < |Groups(g, e)| && Matches(g, z, t[i], Groups(g, e)[owners[i].value])
    {
      assert owners[i].Some?;
    }
  }

  /** The comparison that an element of the same name is spared. */
  ghost predicate NamesakeAgrees(g: Lib, z: bool, t: Json, v: Json) {
    SameNamed(t, v) ==> EqualObj(g, MergeElement(g, z, t, v), v, z)
  }

  /**
   * What is known of a template element and the existing one that has absorbed it: nothing but an empty map is taken
   * for an element that is no map. Otherwise it is satisfied if nothing inside is lost and the comparison that
   * namesakes are spared would have passed, and a plain one only then.
   */
  ghost predicate Absorbed(g: Lib, z: bool, t: Json, v: Json) {
    && (v.Map? && !t.Map? ==> v == EMPTY)
    && (ElementKept(g, z, t, v) && NamesakeAgrees(g, z, t, v) ==> ListElementSatisfied(g, z, t, v))
    && (Plain(z, t) && (v.Map? ==> t.Map?) ==> (ListElementSatisfied(g, z, t, v) <==> NamesakeAgrees(g, z, t, v)))
  }

  /**
   * A musthave verdict on a list that is itself a top-level key. The lists have the same length, so every
   * template element was absorbed, each by an existing element of its own, up to elements that print alike.
   */
  lemma {:induction false} ListVerdictSound(g: Lib, z: bool, t: seq<Json>, e: seq<Json>)
    returns (p: seq<nat>, with: seq<Json>)
    requires EqualObj(g, List(MergeArrays(g, z, t, e)), List(e), z)
    ensures Injection(p, |t|, |e|) && |with| == |t|
    ensures forall i :: 0 <= i < |t| ==>
      with[i] in e && g.sprint(with[i]) == g.sprint(e[p[i]]) && Absorbed(g, z, t[i], with[i])
  {
    var groups := Groups(g, e);
    var owners := Assigned(g, z, t, e).owners;
    AcceptedIsOwned(g, z, t, e);
    MergeArraysMatches(g, z, t, e);
    GroupsRepresent(g, e);
    p := OwnersEmbed(g, e, MergeArrays(g, z, t, e)[|t|..], owners);
    with := seq(|t|, i requires 0 <= i < |t| => groups[owners[i].value]);
    forall i | 0 <= i < |t|
      ensures Absorbed(g, z, t[i], with[i])
    {
      OwnerSatisfies(g, z, t[i], with[i]);
    }
  }

  lemma {:induction false} OwnerSatisfies(g: Lib, z: bool, t: Json, v: Json)
    requires Matches(g, z, t, v)
    ensures Absorbed(g, z, t, v)
  {
    if v.Map? && !t.Map? {
      ScalarMeetsMap(g, z, t, v);
    } else if !SameNamed(t, v) {
      if Plain(z, t) && v.Map? {
        ListFreeLosesNothing(g, z, t, v);
      }
      if ElementKept(g, z, t, v) {
        OwnedElementSatisfied(g, z, t, v);
      }
    } else {
      if ElementKept(g, z, t, v) && EqualObj(g, MergeElement(g, z, t, v), v, z) {
        VerdictSound(g, z, t, v);
      }
      if Plain(z, t) {
        VerdictExact(g, z, z, t, v);
      }
    }
  }
}
