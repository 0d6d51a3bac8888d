/** When merging keeps all of the template, and when merging twice is merging once. */
module Convergence {
  import opened Sorting
  import opened Json
  import opened Compare
  import opened Greedy
  import opened Merge
  import opened Matching
  import opened MergeAgain

  /** `m` contains template `t`: every scalar, every key and every list position of it. */
  ghost predicate Covers(g: Lib, m: Json, t: Json)
    decreases t
  {
    match t
    case Map(fields) => m.Map? && forall k | k in fields :: k in m.fields && Covers(g, m.fields[k], fields[k])
    case List(items) =>
      && m.List? && |items| <= |m.items|
      && (forall i | 0 <= i < |items| ::
            if items[i].Map? then Covers(g, m.items[i], items[i]) else m.items[i] == items[i])
      && Grouped(g, m.items[|items|..])
    case Null => m == Null || m.Map?
    case _ => m == t
  }

  ghost predicate ElementCovers(g: Lib, m: Json, t: Json) {
    if t.Map? then Covers(g, m, t) else m == t
  }

  /** Every template is covered by itself. */
  lemma {:induction false} CoversItself(g: Lib, t: Json)
    ensures Covers(g, t, t)
  {
    if t.Map? {
      forall k | k in t.fields
        ensures Covers(g, t.fields[k], t.fields[k])
      {
        CoversItself(g, t.fields[k]);
      }
    } else if t.List? {
      forall i | 0 <= i < |t.items|
        ensures ElementCovers(g, t.items[i], t.items[i])
      {
        CoversItself(g, t.items[i]);
      }
      assert t.items[|t.items|..] == [];
    }
  }

  /** No template element that is no map is taken by an existing map, in any list. */
  ghost predicate NothingLost(g: Lib, z: bool, t: Json, e: Json)
    decreases t, 1
  {
    match t
    case Map(fields) =>
      e.Map? ==> forall k | k in fields && k in e.fields :: NothingLost(g, z, fields[k], e.fields[k])
    case List(items) =>
      e.List? && e.items != [] ==>
        forall i | 0 <= i < |items| ::
          OwnedKept(g, z, items[i], Groups(g, e.items), Assigned(g, z, items, e.items).owners[i])
    case _ => true
  }

  ghost predicate ElementKept(g: Lib, z: bool, t: Json, v: Json)
    decreases t, 2
  {
    v.Map? ==> t.Map? && NothingLost(g, z, t, v)
  }

  ghost predicate OwnedKept(g: Lib, z: bool, t: Json, groups: seq<Json>, owner: Option<nat>)
    decreases t, 3
  {
    owner.Some? && owner.value < |groups| ==> ElementKept(g, z, t, groups[owner.value])
  }

  ghost predicate FieldKept(g: Lib, z: bool, t: Json, e: Json, k: string)
    requires t.Map? && e.Map? && k in t.fields
  {
    k in e.fields ==> NothingLost(g, z, t.fields[k], e.fields[k])
  }

  /** Merging keeps the template exactly if no element of it is lost to a map. */
  lemma {:induction false} MergeCovers(g: Lib, z: bool, t: Json, e: Json)
    ensures Covers(g, MergeSpecs(g, z, t, e), t) <==> NothingLost(g, z, t, e)
    decreases t, 0
  {
    CoversItself(g, t);
    if t.Map? && e.Map? {
      var m := MergeSpecs(g, z, t, e);
      forall k | k in t.fields
        ensures k in m.fields
        ensures Covers(g, m.fields[k], t.fields[k]) <==> FieldKept(g, z, t, e, k)
      {
        CoversItself(g, t.fields[k]);
        if k in e.fields {
          MergeCovers(g, z, t.fields[k], e.fields[k]);
        }
      }
    } else if t.List? && e.List? && e.items != [] {
      MergeArraysCovers(g, z, t.items, e.items);
    }
  }

  lemma {:induction false} MergeArraysCovers(g: Lib, z: bool, t: seq<Json>, e: seq<Json>)
    ensures var m := MergeArrays(g, z, t, e);
      && |m| >= |t| && Grouped(g, m[|t|..])
      && forall i :: 0 <= i < |t| ==>
           (ElementCovers(g, m[i], t[i]) <==> OwnedKept(g, z, t[i], Groups(g, e), Assigned(g, z, t, e).owners[i]))
    decreases t
  {
    var m := MergeArrays(g, z, t, e);
    var groups := Groups(g, e);
    var a := Assigned(g, z, t, e);
    TailOfMerge(g, z, t, e);
    GroupsRepresent(g, e);
    FlattenIsGrouped(g, groups, a.left);
    forall i | 0 <= i < |t|
      ensures ElementCovers(g, m[i], t[i]) <==> OwnedKept(g, z, t[i], groups, a.owners[i])
    {
      assert m[i] == MergeOwned(g, z, t[i], groups, a.owners[i]);
      MergeOwnedCovers(g, z, t[i], groups, a.owners[i]);
    }
  }

  lemma {:induction false} MergeOwnedCovers(g: Lib, z: bool, t: Json, groups: seq<Json>, owner: Option<nat>)
    ensures ElementCovers(g, MergeOwned(g, z, t, groups, owner), t) <==> OwnedKept(g, z, t, groups, owner)
    decreases t, 1
  {
    CoversItself(g, t);
    if owner.Some? && owner.value < |groups| && t.Map? && groups[owner.value].Map? {
      MergeCovers(g, z, t, groups[owner.value]);
    }
  }

  /** What is sent is what has been compared exactly if nothing is lost. */
  lemma {:induction false} SentIsMerged(g: Lib, z: bool, t: Json, e: Json)
    ensures SentSpecs(g, z, t, e) == MergeSpecs(g, z, t, e) <==> NothingLost(g, z, t, e)
    decreases t, 0
  {
    if t.Map? && e.Map? {
      var m, s := MergeSpecs(g, z, t, e).fields, SentSpecs(g, z, t, e).fields;
      forall k | k in t.fields && k in e.fields
        ensures k in m && k in s && (s[k] == m[k] <==> NothingLost(g, z, t.fields[k], e.fields[k]))
      {
        SentIsMerged(g, z, t.fields[k], e.fields[k]);
      }
      assert forall k :: k in m && !(k in t.fields && k in e.fields) ==> s[k] == m[k];
      assert m.Keys == s.Keys;
      assert s == m <==> forall k :: k in m ==> s[k] == m[k];
    } else if t.List? && e.List? && e.items != [] {
      SentListIsMerged(g, z, t.items, e.items);
    }
  }

  lemma {:induction false} SentListIsMerged(g: Lib, z: bool, t: seq<Json>, e: seq<Json>)
    ensures SentArrays(g, z, t, e) == MergeArrays(g, z, t, e) <==>
      forall i :: 0 <= i < |t| ==> OwnedKept(g, z, t[i], Groups(g, e), Assigned(g, z, t, e).owners[i])
    decreases t
  {
    var groups, owners := Groups(g, e), Assigned(g, z, t, e).owners;
    var m, s := MergeArrays(g, z, t, e), SentArrays(g, z, t, e);
    forall i | 0 <= i < |t|
      ensures s[i] == m[i] <==> OwnedKept(g, z, t[i], groups, owners[i])
    {
      SentOwnedIsMerged(g, z, t[i], groups, owners[i]);
    }
    assert s[|t|..] == m[|t|..];
    assert s == s[..|t|] + s[|t|..] && m == m[..|t|] + m[|t|..];
    if forall i :: 0 <= i < |t| ==> s[i] == m[i] {
      assert s[..|t|] == m[..|t|];
    }
  }

  lemma {:induction false} SentOwnedIsMerged(g: Lib, z: bool, t: Json, groups: seq<Json>, owner: Option<nat>)
    ensures SentOwned(g, z, t, groups, owner) == MergeOwned(g, z, t, groups, owner) <==>
      OwnedKept(g, z, t, groups, owner)
    decreases t, 1
  {
    if owner.Some? && owner.value < |groups| && t.Map? && groups[owner.value].Map? {
      SentIsMerged(g, z, t, groups[owner.value]);
    }
  }

  // ---------- when nothing is lost ----------

  /** Only an empty map takes a template element that is no map. */
  lemma {:induction false} ScalarMeetsMap(g: Lib, z: bool, t: Json, v: Json)
    requires !t.Map? && v.Map?
    ensures Matches(g, z, t, v) <==> v == EMPTY
  {
    if v.fields != map[] {
      assert |v.fields| > 0;
    }
  }

  /** No existing list has an empty map in it where the template has a list with anything but maps. */
  predicate NoEmptyMaps(t: Json, e: Json)
    decreases t
  {
    match t
    case Map(fields) => e.Map? ==> forall k | k in fields && k in e.fields :: NoEmptyMaps(fields[k], e.fields[k])
    case List(items) =>
      e.List? ==>
        && (EMPTY in e.items ==> forall x | x in items :: x.Map?)
        && forall x, v | x in items && v in e.items :: x.Map? && v.Map? ==> NoEmptyMaps(x, v)
    case _ => true
  }

  /** That can be seen before merging, and then nothing is lost. */
  lemma {:induction false} NoEmptyMapsLoseNothing(g: Lib, z: bool, t: Json, e: Json)
    requires NoEmptyMaps(t, e)
    ensures NothingLost(g, z, t, e)
    decreases t
  {
    if t.Map? && e.Map? {
      forall k | k in t.fields && k in e.fields
        ensures NothingLost(g, z, t.fields[k], e.fields[k])
      {
        NoEmptyMapsLoseNothing(g, z, t.fields[k], e.fields[k]);
      }
    } else if t.List? && e.List? {
      var groups, owners := Groups(g, e.items), Assigned(g, z, t.items, e.items).owners;
      AssignIsSound(|t.items|, Table(g, z, t.items, groups), Needs(g, e.items), |groups|);
      GroupsRepresent(g, e.items);
      forall i | 0 <= i < |t.items|
        ensures OwnedKept(g, z, t.items[i], groups, owners[i])
      {
        if owners[i].Some? && owners[i].value < |groups| && groups[owners[i].value].Map? {
          var x, v := t.items[i], groups[owners[i].value];
          assert x in t.items && v in e.items && Matches(g, z, x, v);
          if x.Map? {
            NoEmptyMapsLoseNothing(g, z, x, v);
          } else {
            ScalarMeetsMap(g, z, x, v);
          }
        }
      }
    }
  }

  /** What the existing maps have beyond the template is kept as it is. */
  ghost predicate KeepsRest(t: Json, e: Json, m: Json)
    decreases t
  {
    t.Map? && e.Map? ==>
      m.Map? && forall k | k in e.fields ::
        && k in m.fields
        && if k in t.fields then KeepsRest(t.fields[k], e.fields[k], m.fields[k]) else m.fields[k] == e.fields[k]
  }

  lemma {:induction false} MergeKeepsRest(g: Lib, z: bool, t: Json, e: Json)
    ensures KeepsRest(t, e, MergeSpecs(g, z, t, e))
    decreases t
  {
    if t.Map? && e.Map? {
      forall k | k in t.fields && k in e.fields
        ensures KeepsRest(t.fields[k], e.fields[k], MergeSpecs(g, z, t.fields[k], e.fields[k]))
      {
        MergeKeepsRest(g, z, t.fields[k], e.fields[k]);
      }
    }
  }

  // ---------- merging again ----------

  /**
   * In each list of `m` at a place where the template has one, the template's elements print uniquely, or are
   * repeated only among themselves.
   */
  ghost predicate Unambiguous(g: Lib, z: bool, t: Json, m: Json)
    decreases t
  {
    match t
    case Map(fields) => m.Map? ==> forall k | k in fields && k in m.fields :: Unambiguous(g, z, fields[k], m.fields[k])
    case List(items) =>
      m.List? && |items| <= |m.items| ==>
        && Placed(g, z, items, m.items) && Apart(g, m.items, |items|)
        && forall i | 0 <= i < |items| :: Unambiguous(g, z, items[i], m.items[i])
    case _ => true
  }

  /** Elements of the list that are sorted alike are equal. */
  ghost predicate SortsApart(g: Lib, s: seq<Json>) {
    forall x, y :: x in s && y in s && g.sortAndSprint(x) == g.sortAndSprint(y) ==> x == y
  }

  /**
   * As Unambiguous, but in a list outside any other list the template's elements that are no maps may also occur in
   * what the existing list has beyond them.
   */
  ghost predicate Settling(g: Lib, z: bool, t: Json, m: Json)
    decreases t
  {
    match t
    case Map(fields) => m.Map? ==> forall k | k in fields && k in m.fields :: Settling(g, z, fields[k], m.fields[k])
    case List(items) =>
      || Unambiguous(g, z, t, m)
      || (m.List? && Placed(g, z, items, m.items) && SortsApart(g, m.items) &&
          forall i | 0 <= i < |items| :: Unambiguous(g, z, items[i], m.items[i]))
    case _ => true
  }

  lemma {:induction false} UnambiguousSettles(g: Lib, z: bool, t: Json, m: Json)
    requires Unambiguous(g, z, t, m)
    ensures Settling(g, z, t, m)
    decreases t
  {
    if t.Map? && m.Map? {
      forall k | k in t.fields && k in m.fields
        ensures Settling(g, z, t.fields[k], m.fields[k])
      {
        UnambiguousSettles(g, z, t.fields[k], m.fields[k]);
      }
    }
  }

  /** A template element that its counterpart covers takes it as its own. */
  lemma {:induction false} ElementSettles(g: Lib, z: bool, t: Json, m: Json)
    requires ElementCovers(g, m, t)
    requires t.Map? ==> MergeSpecs(g, z, t, m) == m
    ensures MergeElement(g, z, t, m) == m
    ensures Matches(g, z, t, m)
  {
    if t.Map? {
      assert m.Map?;
    }
    EqualObjReflexive(g, m, z);
  }

  /** A value that covers the template and keeps it unambiguous is a fixpoint of merging the template in. */
  lemma {:induction false} MergeSettles(g: Lib, z: bool, t: Json, m: Json)
    requires Covers(g, m, t) && Unambiguous(g, z, t, m)
    ensures MergeSpecs(g, z, t, m) == m
    decreases t, 1
  {
    if t.Map? {
      var r := MergeSpecs(g, z, t, m);
      forall k | k in m.fields
        ensures k in r.fields && r.fields[k] == m.fields[k]
      {
        if k in t.fields {
          MergeSettles(g, z, t.fields[k], m.fields[k]);
        }
      }
      assert r.fields.Keys == m.fields.Keys;
      assert r.fields == m.fields;
    } else if t.List? && m.items != [] {
      ListKept(g, z, t.items, m.items);
      MergeArraysAgain(g, z, t.items, m.items);
    }
  }

  lemma {:induction false} ListKept(g: Lib, z: bool, t: seq<Json>, m: seq<Json>)
    requires Covers(g, List(m), List(t)) && Placed(g, z, t, m)
    requires forall i :: 0 <= i < |t| ==> Unambiguous(g, z, t[i], m[i])
    ensures Kept(g, z, t, m)
    decreases t, 0
  {
    forall i | 0 <= i < |t|
      ensures MergeElement(g, z, t[i], m[i]) == m[i] && Matches(g, z, t[i], m[i])
    {
      assert ElementCovers(g, m[i], t[i]);
      if t[i].Map? {
        MergeSettles(g, z, t[i], m[i]);
      }
      ElementSettles(g, z, t[i], m[i]);
    }
  }

  /** The same comparison on both sides of a value: as an entry of a map, and at the top. */
  ghost predicate SeenEqual(g: Lib, r: Json, m: Json) {
    && FieldMatches(g, r, Some(m), false) && FieldMatches(g, r, Some(m), true)
    && EqualObj(g, r, m, false) && EqualObj(g, r, m, true)
  }

  lemma {:induction false} SeenEqualItself(g: Lib, m: Json)
    ensures SeenEqual(g, m, m)
  {
    FieldMatchesItself(g, m, false);
    FieldMatchesItself(g, m, true);
    EqualObjReflexive(g, m, false);
    EqualObjReflexive(g, m, true);
  }

  lemma {:induction false} MapSeenEqual(g: Lib, r: Json, m: Json)
    requires r.Map? && m.Map? && r.fields.Keys == m.fields.Keys
    requires forall k :: k in m.fields ==> SeenEqual(g, r.fields[k], m.fields[k])
    ensures SeenEqual(g, r, m)
  {
    assert |r.fields.Keys| == |r.fields| && |m.fields.Keys| == |m.fields|;
    forall k | k in r.fields
      ensures FieldMatches(g, r.fields[k], LookupOption(m, k), false) &&
        FieldMatches(g, r.fields[k], LookupOption(m, k), true)
    {
      assert SeenEqual(g, r.fields[k], m.fields[k]);
    }
  }

  /** Merging in the template again may change the order of some lists, but nothing that the comparison sees. */
  lemma {:induction false} MergeSeenEqual(g: Lib, z: bool, t: Json, m: Json)
    requires Covers(g, m, t) && Settling(g, z, t, m)
    ensures SeenEqual(g, MergeSpecs(g, z, t, m), m)
    decreases t
  {
    var r := MergeSpecs(g, z, t, m);
    if t.Map? {
      forall k | k in m.fields
        ensures k in r.fields && SeenEqual(g, r.fields[k], m.fields[k])
      {
        if k in t.fields {
          MergeSeenEqual(g, z, t.fields[k], m.fields[k]);
        } else {
          SeenEqualItself(g, m.fields[k]);
        }
      }
      MapSeenEqual(g, r, m);
    } else if Unambiguous(g, z, t, m) {
      MergeSettles(g, z, t, m);
      SeenEqualItself(g, m);
    } else {
      ListKept(g, z, t.items, m.items);
      MergeArraysAgain(g, z, t.items, m.items);
      if m.items != [] {
        ReorderedSeenEqual(g, r.items, m.items);
      } else {
        SeenEqualItself(g, m);
      }
    }
  }

  lemma {:induction false} ReorderedSeenEqual(g: Lib, r: seq<Json>, m: seq<Json>)
    requires multiset(r) == multiset(m) && SortsApart(g, m)
    ensures SeenEqual(g, List(r), List(m))
  {
    PermutationMembers(r, m);
    ListsMatchIgnoresOrder(g, r, m);
    ListsMatchIgnoresOrder(g, m, r);
  }

  /** No list inside the value has two elements that print alike. */
  ghost predicate NoRepeatedKeys(g: Lib, v: Json)
    decreases v
  {
    match v
    case Map(fields) => forall k | k in fields :: NoRepeatedKeys(g, fields[k])
    case List(items) => Distinct(Keys(g, items)) && forall i | 0 <= i < |items| :: NoRepeatedKeys(g, items[i])
    case _ => true
  }

  lemma {:induction false} NoRepeatsIsUnambiguous(g: Lib, z: bool, t: Json, v: Json)
    requires NoRepeatedKeys(g, v)
    ensures Unambiguous(g, z, t, v)
    decreases t
  {
    if t.Map? && v.Map? {
      forall k | k in t.fields && k in v.fields
        ensures Unambiguous(g, z, t.fields[k], v.fields[k])
      {
        NoRepeatsIsUnambiguous(g, z, t.fields[k], v.fields[k]);
      }
    } else if t.List? && v.List? && |t.items| <= |v.items| {
      DistinctIsPlaced(g, z, t.items, v.items);
      forall i | 0 <= i < |t.items|
        ensures Unambiguous(g, z, t.items[i], v.items[i])
      {
        NoRepeatsIsUnambiguous(g, z, t.items[i], v.items[i]);
      }
    }
  }

  lemma {:induction false} DistinctIsPlaced(g: Lib, z: bool, t: seq<Json>, v: seq<Json>)
    requires Distinct(Keys(g, v)) && |t| <= |v|
    ensures Placed(g, z, t, v) && Apart(g, v, |t|)
  {
    var keys := Keys(g, v);
    forall i, j | 0 <= i < |v| && 0 <= j < |v| && j != i
      ensures g.sprint(v[j]) != g.sprint(v[i])
    {
      assert keys[j] != keys[i];
    }
    forall key | key in Keys(g, v[|t|..])
      ensures key !in Keys(g, v[..|t|])
    {
      var j :| 0 <= j < |v| - |t| && Keys(g, v[|t|..])[j] == key;
      assert key == g.sprint(v[|t| + j]);
    }
  }

  /** A fixpoint of the merge that has all of the template is sent as it is. */
  lemma {:induction false} SentAgain(g: Lib, z: bool, t: Json, m: Json)
    requires MergeSpecs(g, z, t, m) == m && Covers(g, m, t)
    ensures SentSpecs(g, z, t, m) == m
  {
    MergeCovers(g, z, t, m);
    SentIsMerged(g, z, t, m);
  }

  /**
   * Enforcement converges: once the merged value has been written, merging again yields the same value and
   * the comparison asks for no update.
   */
  lemma {:induction false} EnforcementConverges(g: Lib, z: bool, t: Json, e: Json)
    requires NothingLost(g, z, t, e) && Unambiguous(g, z, t, MergeSpecs(g, z, t, e))
    ensures var m := SentSpecs(g, z, t, e);
      MergeSpecs(g, z, t, m) == SentSpecs(g, z, t, m) == m && EqualObj(g, MergeSpecs(g, z, t, m), m, z)
  {
    var m := MergeSpecs(g, z, t, e);
    SentIsMerged(g, z, t, e);
    MergeCovers(g, z, t, e);
    MergeSettles(g, z, t, m);
    SentAgain(g, z, t, m);
    EqualObjReflexive(g, m, z);
  }

  /** Enforcement settles, also when merging again would change the order of a list: no second update is asked for. */
  lemma {:induction false} EnforcementSettles(g: Lib, z: bool, t: Json, e: Json)
    requires NothingLost(g, z, t, e) && Settling(g, z, t, MergeSpecs(g, z, t, e))
    ensures var m := SentSpecs(g, z, t, e); EqualObj(g, MergeSpecs(g, z, t, m), m, z)
  {
    SentIsMerged(g, z, t, e);
    MergeCovers(g, z, t, e);
    MergeSeenEqual(g, z, t, MergeSpecs(g, z, t, e));
  }

  /** A template that is unambiguous in itself, merged into itself, stays itself. */
  lemma {:induction false} MergeWithItself(g: Lib, z: bool, t: Json)
    requires Unambiguous(g, z, t, t)
    ensures MergeSpecs(g, z, t, t) == t
  {
    CoversItself(g, t);
    MergeSettles(g, z, t, t);
  }

  // ---------- lists of strings ----------

  ghost predicate Strings(s: seq<Json>) {
    forall x :: x in s ==> x.Str?
  }

  lemma {:induction false} StringMatches(g: Lib, z: bool, t: Json, v: Json)
    requires t.Str? && v.Str?
    ensures Matches(g, z, t, v) <==> t == v
    ensures g.sprint(t) == g.sprint(v) <==> t == v
  {
    assert g.sprint(Str(t.s)) == t.s && g.sprint(Str(v.s)) == v.s;
  }

  /** Strings may be repeated as often as one likes. */
  lemma {:induction false} StringsArePlaced(g: Lib, z: bool, t: seq<Json>, m: seq<Json>)
    requires |t| <= |m| && t == m[..|t|] && Strings(m)
    ensures Placed(g, z, t, m)
  {
    forall i | 0 <= i < |t|
      ensures Repeats(g, z, t, m, i)
    {
      assert t[i] == m[i] && m[i] in m;
      forall j | 0 <= j < |t| && Matches(g, z, t[j], m[i])
        ensures t[j] == t[i]
      {
        assert t[j] == m[j] && m[j] in m;
        StringMatches(g, z, t[j], m[i]);
      }
      forall x | x in m && (g.sprint(x) == g.sprint(m[i]) || Matches(g, z, t[i], x))
        ensures x == m[i]
      {
        StringMatches(g, z, t[i], x);
      }
    }
  }
}
