/**
 * Lists whose elements have names, like the containers of a Deployment: they are merged by name
 * (controllers/configurationpolicy_controller.go, mergeArrays).
 */
module Namesakes {
  import opened Sorting
  import opened Json
  import opened Compare
  import opened Greedy
  import opened Merge
  import opened Matching
  import opened MergeAgain

  predicate HasName(v: Json, name: string) {
    v.Map? && "name" in v.fields && v.fields["name"] == Str(name)
  }

  /** Two strings that the comparison takes for the same: equal, or other spellings of the same amount. */
  predicate TextsAgree(g: Lib, a: string, b: string) {
    a == b || (g.quantity(a).Some? && g.quantity(a) == g.quantity(b))
  }

  lemma {:induction false} ScalarWins(g: Lib, z: bool, t: Json, e: Json)
    requires t.Str? || t.Num? || t.Bool?
    ensures MergeSpecs(g, z, t, e) == t
  {
  }

  /** Elements of the same name always match, elements whose names do not agree never. */
  lemma {:induction false} NamesDecide(g: Lib, z: bool, t: Json, v: Json, a: string, b: string)
    requires HasName(t, a) && HasName(v, b)
    ensures a == b && a != "" ==> Matches(g, z, t, v)
    ensures Matches(g, z, t, v) ==> TextsAgree(g, a, b)
  {
    if Matches(g, z, t, v) && a != b {
      var m := MergeSpecs(g, z, t, v);
      ScalarWins(g, z, Str(a), Str(b));
      assert m.fields["name"] == MergeSpecs(g, z, t.fields["name"], v.fields["name"]);
      assert t.fields["name"].s == a && v.fields["name"].s == b;
      assert !SameNamed(t, v);
      assert MergeElement(g, z, t, v) == m && EqualObj(g, m, v, z);
      assert FieldMatches(g, m.fields["name"], LookupOption(v, "name"), z);
      assert g.sprint(Str(b)) == b;
    }
  }

  /** Without a name in common the merged element is compared, also where both names are empty. */
  lemma {:induction false} OthersAreCompared(g: Lib, z: bool, t: Json, v: Json)
    requires forall name :: HasName(t, name) && HasName(v, name) ==> name == ""
    ensures Matches(g, z, t, v) <==> EqualObj(g, MergeElement(g, z, t, v), v, z)
  {
    if SameNamed(t, v) {
      assert HasName(t, t.fields["name"].s) && HasName(v, t.fields["name"].s);
    }
  }

  /** An element with a name matches nothing that has no name. */
  lemma {:induction false} NameIsDemanded(g: Lib, z: bool, t: Json, v: Json, name: string)
    requires HasName(t, name) && v.Map? && "name" !in v.fields
    ensures !Matches(g, z, t, v)
  {
    var m := MergeSpecs(g, z, t, v);
    assert m.fields["name"] == Str(name);
    assert !FieldMatches(g, m.fields["name"], LookupOption(v, "name"), z);
  }

  // ---------- an element whose name the template does not have ----------

  /** An existing element that no template element matches is appended as often as it occurs, as it is. */
  lemma {:induction false} UnmatchedStays(g: Lib, z: bool, t: seq<Json>, e: seq<Json>, v: Json)
    requires v in Groups(g, e) && forall x :: x in t ==> !Matches(g, z, x, v)
    ensures |MergeArrays(g, z, t, e)| >= |t|
    ensures var tail := MergeArrays(g, z, t, e)[|t|..];
      && Occurrences(g, tail, v) == Occurrences(g, e, v)
      && forall w :: w in tail && g.sprint(w) == g.sprint(v) ==> w == v
  {
    MergeArraysMatches(g, z, t, e);
    GroupsRepresent(g, e);
    var groups, owners := Groups(g, e), Assigned(g, z, t, e).owners;
    var k :| 0 <= k < |groups| && groups[k] == v;
    forall i | 0 <= i < |t|
      ensures owners[i] != Some(k)
    {
      assert t[i] in t;
    }
    NobodyOwns(owners, k);
    forall w | w in groups && g.sprint(w) == g.sprint(v)
      ensures w == v
    {
      SameGroup(g, groups, v, w);
    }
  }

  lemma {:induction false} NobodyOwns(owners: Owners, k: nat)
    requires forall i :: 0 <= i < |owners| ==> owners[i] != Some(k)
    ensures Owned(owners, k) == 0
  {
    assert Some(k) !in owners;
    assert Some(k) !in multiset(owners);
  }

  lemma {:induction false} SameGroup(g: Lib, groups: seq<Json>, v: Json, w: Json)
    requires Distinct(Keys(g, groups)) && v in groups && w in groups && g.sprint(v) == g.sprint(w)
    ensures v == w
  {
    var i :| 0 <= i < |groups| && groups[i] == v;
    var j :| 0 <= j < |groups| && groups[j] == w;
    assert Keys(g, groups)[i] == Keys(g, groups)[j];
  }

  /** So is one whose name is none of the template's; the elements beside them need no names. */
  lemma {:induction false} StrangerStays(g: Lib, z: bool, t: seq<Json>, e: seq<Json>, v: Json, b: string)
    requires v in Groups(g, e) && HasName(v, b)
    requires forall x :: x in t ==> exists a :: HasName(x, a) && !TextsAgree(g, a, b)
    ensures |MergeArrays(g, z, t, e)| >= |t|
    ensures var tail := MergeArrays(g, z, t, e)[|t|..];
      && Occurrences(g, tail, v) == Occurrences(g, e, v)
      && forall w :: w in tail && g.sprint(w) == g.sprint(v) ==> w == v
  {
    forall x | x in t
      ensures !Matches(g, z, x, v)
    {
      var a :| HasName(x, a) && !TextsAgree(g, a, b);
      NamesDecide(g, z, x, v, a, b);
    }
    UnmatchedStays(g, z, t, e, v);
  }

  // ---------- whole lists ----------

  /** The elements have names, no two of which agree. */
  ghost predicate Named(g: Lib, s: seq<Json>, names: seq<string>) {
    && |names| == |s| && "" !in names
    && (forall i :: 0 <= i < |s| ==> HasName(s[i], names[i]))
    && (forall i, j :: 0 <= i < j < |s| ==> !TextsAgree(g, names[i], names[j]))
  }

  /** No name of one list is taken for another one of the other list. */
  ghost predicate NamesApart(g: Lib, a: seq<string>, b: seq<string>) {
    forall i, j :: 0 <= i < |a| && 0 <= j < |b| && TextsAgree(g, a[i], b[j]) ==> a[i] == b[j]
  }

  function IndexOf(names: seq<string>, name: string): (r: Option<nat>)
    ensures r.Some? ==> r.value < |names| && names[r.value] == name
    ensures r.None? ==> name !in names
  {
    if names == [] then None
    else if names[0] == name then Some(0)
    else
      var rest := IndexOf(names[1..], name);
      if rest.Some? then Some(rest.value + 1) else None
  }

  /** The elements whose names the other list does not have. */
  function Strangers(e: seq<Json>, names: seq<string>, others: seq<string>): seq<Json>
    requires |e| == |names|
  {
    if e == [] then []
    else
      var n := |e| - 1;
      Strangers(e[..n], names[..n], others) + if names[n] in others then [] else [e[n]]
  }

  /** Each template element merged with the existing one of its name, if there is one, and then the strangers. */
  function MergedByName(g: Lib, z: bool, t: seq<Json>, tNames: seq<string>, e: seq<Json>, eNames: seq<string>)
    : seq<Json>
    requires |t| == |tNames| && |e| == |eNames|
  {
    seq(|t|, i requires 0 <= i < |t| =>
      var k := IndexOf(eNames, tNames[i]);
      if k.Some? then MergeSpecs(g, z, t[i], e[k.value]) else t[i]) + Strangers(e, eNames, tNames)
  }

  /** Elements that print differently are each a group of one. */
  lemma {:induction false} EachIsAGroup(g: Lib, e: seq<Json>)
    requires Distinct(Keys(g, e))
    ensures Groups(g, e) == e
    ensures forall k :: 0 <= k < |e| ==> Needs(g, e)[k] == 1
  {
    GroupsAreAll(g, e);
    forall k | 0 <= k < |e|
      ensures Occurrences(g, e, e[k]) == 1
    {
      assert Keys(g, e)[k] == g.sprint(e[k]);
      DistinctCount(Keys(g, e), k);
    }
  }

  lemma {:induction false} GroupsAreAll(g: Lib, e: seq<Json>)
    requires Distinct(Keys(g, e))
    ensures Groups(g, e) == e
  {
    if e != [] {
      var n := |e| - 1;
      assert Keys(g, e)[..n] == Keys(g, e[..n]);
      GroupsAreAll(g, e[..n]);
      assert Keys(g, e)[n] == g.sprint(e[n]);
      assert e == e[..n] + [e[n]];
    }
  }

  lemma {:induction false} DistinctCount<T>(s: seq<T>, k: nat)
    requires Distinct(s) && k < |s|
    ensures multiset(s)[s[k]] == 1
  {
    assert s == s[..k] + [s[k]] + s[k + 1..];
    assert s[k] !in s[..k] && s[k] !in s[k + 1..];
  }

  /** The owners found by name. */
  ghost predicate OwnedByName(tNames: seq<string>, eNames: seq<string>, a: Assignment) {
    && |a.owners| == |tNames| && |a.left| == |eNames|
    && (forall i :: 0 <= i < |tNames| ==> a.owners[i] == IndexOf(eNames, tNames[i]))
    && (forall k :: 0 <= k < |eNames| ==> a.left[k] == if eNames[k] in tNames then 0 else 1)
  }

  lemma {:induction false} NameTable(g: Lib, z: bool, t: seq<Json>, tNames: seq<string>, e: seq<Json>,
                                     eNames: seq<string>)
    requires Named(g, t, tNames) && Named(g, e, eNames) && NamesApart(g, tNames, eNames)
    ensures forall k, i :: 0 <= k < |e| && 0 <= i < |t| ==> (Table(g, z, t, e)[k][i] <==> tNames[i] == eNames[k])
  {
    forall k, i | 0 <= k < |e| && 0 <= i < |t|
      ensures Matches(g, z, t[i], e[k]) <==> tNames[i] == eNames[k]
    {
      NamesDecide(g, z, t[i], e[k], tNames[i], eNames[k]);
    }
  }

  /** A table that holds exactly the pairs of equal names. */
  ghost predicate NamesTable(fits: seq<seq<bool>>, needs: seq<nat>, tNames: seq<string>, eNames: seq<string>) {
    && IsTable(|tNames|, fits, needs) && |fits| == |eNames| && Distinct(tNames) && Distinct(eNames)
    && (forall k :: 0 <= k < |needs| ==> needs[k] == 1)
    && (forall k, i :: 0 <= k < |fits| && 0 <= i < |tNames| ==> (fits[k][i] <==> tNames[i] == eNames[k]))
  }

  lemma {:induction false} OwnerByName(fits: seq<seq<bool>>, needs: seq<nat>, tNames: seq<string>,
                                       eNames: seq<string>, a: Assignment, i: nat)
    requires NamesTable(fits, needs, tNames, eNames) && |a.owners| == |tNames| && |a.left| == |fits| && i < |tNames|
    requires Sound(fits, |fits|, a.owners) && Maximal(fits, a.owners, a.left) && Conserved(needs, a.owners, a.left)
    ensures a.owners[i] == IndexOf(eNames, tNames[i])
  {
    var found := IndexOf(eNames, tNames[i]);
    if a.owners[i].None? && found.Some? {
      FullGroup(a.owners, found.value);
      var j :| 0 <= j < |tNames| && a.owners[j] == found;
      assert tNames[j] == tNames[i];
    }
  }

  /** Such a table is assigned by name. */
  lemma {:induction false} AssignByName(fits: seq<seq<bool>>, needs: seq<nat>, tNames: seq<string>,
                                        eNames: seq<string>)
    requires NamesTable(fits, needs, tNames, eNames)
    ensures OwnedByName(tNames, eNames, Assign(|tNames|, fits, needs, |fits|))
  {
    var n, a := |tNames|, Assign(|tNames|, fits, needs, |fits|);
    AssignIsSound(n, fits, needs, |fits|);
    AssignIsMaximal(n, fits, needs, |fits|);
    AssignConserves(n, fits, needs, |fits|);
    forall i | 0 <= i < n
      ensures a.owners[i] == IndexOf(eNames, tNames[i])
    {
      OwnerByName(fits, needs, tNames, eNames, a, i);
    }
    forall k | 0 <= k < |eNames|
      ensures a.left[k] == if eNames[k] in tNames then 0 else 1
    {
      LeftByName(tNames, eNames, a, k);
    }
  }

  lemma {:induction false} FullGroup(owners: Owners, k: nat)
    requires Owned(owners, k) > 0
    ensures exists j :: 0 <= j < |owners| && owners[j] == Some(k)
  {
    assert Some(k) in multiset(owners);
    assert Some(k) in owners;
  }

  lemma {:induction false} LeftByName(tNames: seq<string>, eNames: seq<string>, a: Assignment, k: nat)
    requires |a.owners| == |tNames| && |a.left| == |eNames| && k < |eNames| && Distinct(eNames)
    requires forall i :: 0 <= i < |tNames| ==> a.owners[i] == IndexOf(eNames, tNames[i])
    requires Owned(a.owners, k) + a.left[k] == 1
    ensures a.left[k] == if eNames[k] in tNames then 0 else 1
  {
    if eNames[k] in tNames {
      var i :| 0 <= i < |tNames| && tNames[i] == eNames[k];
      assert a.owners[i] == Some(k);
      assert a.owners[i] in multiset(a.owners);
    } else if Owned(a.owners, k) > 0 {
      FullGroup(a.owners, k);
    }
  }

  lemma {:induction false} StrangersAreLeft(e: seq<Json>, eNames: seq<string>, tNames: seq<string>, left: seq<nat>)
    requires |left| == |eNames| == |e|
    requires forall k :: 0 <= k < |e| ==> left[k] == if eNames[k] in tNames then 0 else 1
    ensures Flatten(e, left) == Strangers(e, eNames, tNames)
  {
    if e != [] {
      var n := |e| - 1;
      StrangersAreLeft(e[..n], eNames[..n], tNames, left[..n]);
      assert Repeat(e[n], left[n]) == if eNames[n] in tNames then [] else [e[n]];
    }
  }

  lemma {:induction false} NamesAreDistinct(g: Lib, s: seq<Json>, names: seq<string>)
    requires Named(g, s, names)
    ensures Distinct(names)
  {
    forall i, j | 0 <= i < j < |names|
      ensures names[i] != names[j]
    {
      assert !TextsAgree(g, names[i], names[j]);
    }
  }

  /**
   * Lists with names are merged by name: an element of the template is merged with the existing one of its name and
   * nothing else, and every existing element whose name the template does not have is appended as it is, in order.
   */
  lemma {:induction false} MergeByName(g: Lib, z: bool, t: seq<Json>, tNames: seq<string>, e: seq<Json>,
                                       eNames: seq<string>)
    requires Named(g, t, tNames) && Named(g, e, eNames) && NamesApart(g, tNames, eNames) && Distinct(Keys(g, e))
    ensures MergeArrays(g, z, t, e) == MergedByName(g, z, t, tNames, e, eNames)
  {
    NamesAreDistinct(g, t, tNames);
    NamesAreDistinct(g, e, eNames);
    EachIsAGroup(g, e);
    NameTable(g, z, t, tNames, e, eNames);
    AssignByName(Table(g, z, t, e), Needs(g, e), tNames, eNames);
    var a := Assigned(g, z, t, e);
    StrangersAreLeft(e, eNames, tNames, a.left);
    MergedParts(g, z, t, tNames, e, eNames, a);
  }

  lemma {:induction false} MergedParts(g: Lib, z: bool, t: seq<Json>, tNames: seq<string>, e: seq<Json>,
                                       eNames: seq<string>, a: Assignment)
    requires Named(g, t, tNames) && Named(g, e, eNames) && Groups(g, e) == e && a == Assigned(g, z, t, e)
    requires OwnedByName(tNames, eNames, a) && Flatten(e, a.left) == Strangers(e, eNames, tNames)
    ensures MergeArrays(g, z, t, e) == MergedByName(g, z, t, tNames, e, eNames)
  {
    var m, r := MergeArrays(g, z, t, e), MergedByName(g, z, t, tNames, e, eNames);
    TailOfMerge(g, z, t, e);
    TailByName(g, z, t, tNames, e, eNames);
    forall i | 0 <= i < |t|
      ensures m[i] == r[i]
    {
      PartByName(g, z, t, tNames, e, eNames, a, i);
    }
    SameParts(m, r, |t|);
  }

  lemma {:induction false} TailByName(g: Lib, z: bool, t: seq<Json>, tNames: seq<string>, e: seq<Json>,
                                      eNames: seq<string>)
    requires |t| == |tNames| && |e| == |eNames|
    ensures |MergedByName(g, z, t, tNames, e, eNames)| >= |t|
    ensures MergedByName(g, z, t, tNames, e, eNames)[|t|..] == Strangers(e, eNames, tNames)
  {
  }

  lemma {:induction false} PartByName(g: Lib, z: bool, t: seq<Json>, tNames: seq<string>, e: seq<Json>,
                                      eNames: seq<string>, a: Assignment, i: nat)
    requires Named(g, t, tNames) && Named(g, e, eNames) && Groups(g, e) == e && a == Assigned(g, z, t, e)
    requires i < |t| && a.owners[i] == IndexOf(eNames, tNames[i])
    ensures |MergeArrays(g, z, t, e)| >= |t|
    ensures MergeArrays(g, z, t, e)[i] == MergedByName(g, z, t, tNames, e, eNames)[i]
  {
    var k := IndexOf(eNames, tNames[i]);
    assert HasName(t[i], tNames[i]);
    assert k.Some? ==> HasName(e[k.value], eNames[k.value]);
    assert MergeOwned(g, z, t[i], e, k) == if k.Some? then MergeSpecs(g, z, t[i], e[k.value]) else t[i];
  }
}
