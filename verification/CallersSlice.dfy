/** What mergeArrays leaves in the slice of the caller, and in a template that is compared more than once. */
module CallersSlice {
  import opened Json
  import opened Greedy
  import opened Merge
  import opened Matching
  import opened Convergence
  import opened ObjectKeys

  /** The element's group is handled while what was appended before it still fits behind the slice. */
  ghost predicate Reached(a: Assignment, spare: nat, i: nat)
    requires i < |a.owners|
  {
    a.owners[i].Some? && a.owners[i].value < |a.left| && Sum(a.left[..a.owners[i].value]) <= spare
  }

  lemma {:induction false} OwnerWithinReach(n: nat, fits: seq<seq<bool>>, needs: seq<nat>, m: nat, spare: nat, i: nat)
    requires IsTable(n, fits, needs) && m <= |fits| && i < n
    ensures var a := Assign(n, fits, needs, m);
      OwnerWithin(a.owners[i], Reach(n, fits, needs, m, spare)) == if Reached(a, spare, i) then a.owners[i] else None
  {
    AssignIsSound(n, fits, needs, m);
    var owner := Assign(n, fits, needs, m).owners[i];
    if owner.Some? {
      ReachExact(n, fits, needs, m, spare, owner.value);
    }
  }

  lemma {:induction false} CallersElement(g: Lib, z: bool, t: seq<Json>, e: seq<Json>, spare: nat, i: nat)
    requires i < |t|
    ensures |MergedValues(g, z, t, e)| >= |t|
    ensures CallersValues(g, z, t, e, spare)[i] ==
      if Reached(Assigned(g, z, t, e), spare, i) then MergedValues(g, z, t, e)[i] else Value(t[i], t[i])
  {
    OwnerWithinReach(|t|, Table(g, z, t, Groups(g, e)), Needs(g, e), |Groups(g, e)|, spare, i);
  }

  lemma {:induction false} EverythingFits(g: Lib, z: bool, t: seq<Json>, e: seq<Json>, spare: nat, i: nat)
    requires i < |t| && Sum(Assigned(g, z, t, e).left) <= spare
    ensures |MergedValues(g, z, t, e)| >= |t|
    ensures Reached(Assigned(g, z, t, e), spare, i) || MergedValues(g, z, t, e)[i] == Value(t[i], t[i])
  {
    var groups, a := Groups(g, e), Assigned(g, z, t, e);
    AssignIsSound(|t|, Table(g, z, t, groups), Needs(g, e), |groups|);
    if a.owners[i].Some? {
      SumGrows(a.left, a.owners[i].value);
    }
  }

  /**
   * The caller's slice has the elements of the result whose groups are handled before an append moves the slice, and
   * the template's everywhere else; so it has the first part of the result if all that is appended fits.
   */
  lemma {:induction false} CallersListMeans(g: Lib, z: bool, t: seq<Json>, e: seq<Json>, spare: nat)
    ensures var r, m := CallersValues(g, z, t, e, spare), MergedValues(g, z, t, e);
      && |m| >= |t|
      && (forall i :: 0 <= i < |t| ==>
            r[i] == if Reached(Assigned(g, z, t, e), spare, i) then m[i] else Value(t[i], t[i]))
      && (|m| - |t| <= spare ==> r == m[..|t|])
  {
    var r, m := CallersValues(g, z, t, e, spare), MergedValues(g, z, t, e);
    FlattenMembers(Groups(g, e), Assigned(g, z, t, e).left);
    forall i | 0 <= i < |t|
      ensures r[i] == if Reached(Assigned(g, z, t, e), spare, i) then m[i] else Value(t[i], t[i])
      ensures |m| - |t| <= spare ==> r[i] == m[i]
    {
      CallersElement(g, z, t, e, spare, i);
      if |m| - |t| <= spare {
        EverythingFits(g, z, t, e, spare, i);
      }
    }
  }

  /** A kept element is found as it was merged, and is sent so. */
  lemma {:induction false} KeptIsFound(g: Lib, z: bool, t: Json, groups: seq<Json>, owner: Option<nat>)
    requires OwnedKept(g, z, t, groups, owner)
    ensures var v := OwnedValue(g, z, t, groups, owner); Found(v) == v.sent == v.seen && ElementCovers(g, v.seen, t)
  {
    SentOwnedIsMerged(g, z, t, groups, owner);
    MergeOwnedCovers(g, z, t, groups, owner);
  }

  /** Whatever reaches the caller, if nothing is lost the slice still has all of the template. */
  lemma {:induction false} CallersListCovers(g: Lib, z: bool, t: seq<Json>, e: seq<Json>, spare: nat)
    requires NothingLost(g, z, List(t), List(e))
    ensures Covers(g, List(CallersList(g, z, t, e, spare)), List(t))
    ensures CallersSent(g, z, t, e, spare) == CallersList(g, z, t, e, spare)
  {
    var groups, owners := Groups(g, e), Assigned(g, z, t, e).owners;
    var reach := Reach(|t|, Table(g, z, t, groups), Needs(g, e), |groups|, spare);
    var r := CallersList(g, z, t, e, spare);
    forall i | 0 <= i < |t|
      ensures ElementCovers(g, r[i], t[i]) && CallersSent(g, z, t, e, spare)[i] == r[i]
    {
      assert e != [] ==> OwnedKept(g, z, t[i], groups, owners[i]);
      KeptIsFound(g, z, t[i], groups, OwnerWithin(owners[i], reach));
    }
    assert r[|t|..] == [];
  }

  // ---------- templates that are compared again ----------

  /** Comparing the object with the template leaves the template as it is. */
  ghost predicate LeavesAlone(g: Lib, z: bool, t: Template, o: Object, spare: Spare) {
    DefinitionLeft(g, z, t, o, t.definition.Keys, spare) == t.definition
  }

  /** Every element that is overwritten before an append moves the slice is written back as it was. */
  ghost predicate WrittenBack(g: Lib, z: bool, t: seq<Json>, e: seq<Json>, spare: nat) {
    |MergedValues(g, z, t, e)| >= |t| &&
    forall i :: 0 <= i < |t| && Reached(Assigned(g, z, t, e), spare, i) ==> Found(MergedValues(g, z, t, e)[i]) == t[i]
  }

  lemma {:induction false} WrittenBackExactly(g: Lib, z: bool, t: seq<Json>, e: seq<Json>, spare: nat)
    ensures CallersList(g, z, t, e, spare) == t <==> WrittenBack(g, z, t, e, spare)
  {
    CallersListMeans(g, z, t, e, spare);
    var r := CallersList(g, z, t, e, spare);
    assert forall i :: 0 <= i < |t| ==> r[i] == Found(CallersValues(g, z, t, e, spare)[i]);
    assert r == t <==> forall i :: 0 <= i < |t| ==> r[i] == t[i];
  }

  /** The template has a list under the key that a comparison with the object overwrites. */
  ghost predicate Overwrites(t: Template, o: Object, key: string) {
    && CompareKey(t, key) && key != "metadata" && !t.ct.MustOnlyHave?
    && t.definition[key].List? && ValueAt(o, key).List?
  }

  /** The template is left alone exactly if all its overwritten elements are written back as they were. */
  lemma {:induction false} LeavesAloneExactly(g: Lib, z: bool, t: Template, o: Object, spare: Spare)
    ensures LeavesAlone(g, z, t, o, spare) <==>
      forall key | key in t.definition && Overwrites(t, o, key) ::
        WrittenBack(g, z, t.definition[key].items, ValueAt(o, key).items, spare(key))
  {
    var left := DefinitionLeft(g, z, t, o, t.definition.Keys, spare);
    forall key | key in t.definition
      ensures left[key] == t.definition[key] <==>
        Overwrites(t, o, key) ==> WrittenBack(g, z, t.definition[key].items, ValueAt(o, key).items, spare(key))
    {
      if Overwrites(t, o, key) {
        WrittenBackExactly(g, z, t.definition[key].items, ValueAt(o, key).items, spare(key));
      }
    }
    assert left == t.definition <==> forall key :: key in t.definition ==> left[key] == t.definition[key];
  }

  ghost predicate HasMaps(s: seq<Json>) {
    exists v :: v in s && v.Map?
  }

  lemma {:induction false} ScalarStays(g: Lib, z: bool, v: Json, groups: seq<Json>, owner: Option<nat>)
    requires !v.Map? && OwnedKept(g, z, v, groups, owner)
    ensures forall h :: OwnedValue(g, z, v, groups, OwnerWithin(owner, h)) == Value(v, v)
  {
    forall h
      ensures MergeOwned(g, z, v, groups, OwnerWithin(owner, h)) == SentOwned(g, z, v, groups, OwnerWithin(owner, h)) ==
        v
    {
    }
  }

  /** A list without maps is left alone by a list without empty maps. */
  lemma {:induction false} ScalarsAreLeft(g: Lib, z: bool, t: seq<Json>, e: seq<Json>, spare: nat)
    requires !HasMaps(t) && (t == [] || EMPTY !in e)
    ensures CallersList(g, z, t, e, spare) == CallersSent(g, z, t, e, spare) == t
  {
    if t != [] {
      NoEmptyMapsLoseNothing(g, z, List(t), List(e));
    }
    forall i | 0 <= i < |t|
      ensures CallersValues(g, z, t, e, spare)[i] == Value(t[i], t[i])
    {
      assert t[i] in t;
      assert e != [] ==> OwnedKept(g, z, t[i], Groups(g, e), Assigned(g, z, t, e).owners[i]);
      ScalarStays(g, z, t[i], Groups(g, e), Assigned(g, z, t, e).owners[i]);
    }
  }

  /**
   * No list of the template that is itself a top-level key has maps in it, nor has such a list of the object empty maps
   * where the template's has elements; or the template is mustonlyhave.
   */
  ghost predicate Steadfast(t: Template, o: Object) {
    forall key | key in t.definition :: Overwrites(t, o, key) ==>
      !HasMaps(t.definition[key].items) && (t.definition[key].items == [] || EMPTY !in ValueAt(o, key).items)
  }

  /** Such a template is left alone by such an object. */
  lemma {:induction false} SteadfastIsLeft(g: Lib, z: bool, t: Template, o: Object, spare: Spare)
    requires Steadfast(t, o)
    ensures LeavesAlone(g, z, t, o, spare)
    ensures DefinitionCreated(g, z, t, o, t.definition.Keys, spare) == t.definition
  {
    forall key | key in t.definition
      ensures KeyLeft(g, z, t, o, key, spare) == KeyCreated(g, z, t, o, key, spare) == t.definition[key]
    {
      if Overwrites(t, o, key) {
        ScalarsAreLeft(g, z, t.definition[key].items, ValueAt(o, key).items, spare(key));
      }
    }
  }
}
