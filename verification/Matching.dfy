/** What the list matching of mergeArrays guarantees, without saying how it searches. */
module Matching {
  import opened Sorting
  import opened Json
  import opened Compare
  import opened Greedy
  import opened Merge

  lemma {:induction false} KeysAppend(g: Lib, a: seq<Json>, b: seq<Json>)
    ensures Keys(g, a + b) == Keys(g, a) + Keys(g, b)
  {
  }

  lemma {:induction false} KeysRepeat(g: Lib, v: Json, n: nat)
    ensures multiset(Keys(g, Repeat(v, n))) == multiset{}[g.sprint(v) := n]
  {
    if n > 0 {
      KeysRepeat(g, v, n - 1);
      assert Repeat(v, n) == Repeat(v, n - 1) + [v];
      KeysAppend(g, Repeat(v, n - 1), [v]);
    }
  }

  /** The groups are elements of the list, one for each text that occurs in it. */
  lemma {:induction false} GroupsRepresent(g: Lib, s: seq<Json>)
    ensures Distinct(Keys(g, Groups(g, s)))
    ensures forall v :: v in Groups(g, s) ==> v in s
    ensures forall k :: k in Keys(g, Groups(g, s)) <==> k in Keys(g, s)
  {
    if s != [] {
      var front, last := s[..|s| - 1], s[|s| - 1];
      GroupsRepresent(g, front);
      assert s == front + [last];
      KeysAppend(g, front, [last]);
      KeysAppend(g, Groups(g, front), [last]);
    }
  }

  lemma {:induction false} SumUpdate(s: seq<nat>, k: nat)
    requires k < |s|
    ensures Sum(s[k := s[k] + 1]) == Sum(s) + 1
  {
    var n := |s| - 1;
    if k < n {
      SumUpdate(s[..n], k);
      assert s[k := s[k] + 1][..n] == s[..n][k := s[k] + 1];
    } else {
      assert s[k := s[k] + 1][..n] == s[..n];
    }
  }

  lemma {:induction false} OccurrencesAppend(g: Lib, s: seq<Json>, x: Json, v: Json)
    ensures Occurrences(g, s + [x], v) == Occurrences(g, s, v) + if g.sprint(x) == g.sprint(v) then 1 else 0
  {
    KeysAppend(g, s, [x]);
    assert Keys(g, [x]) == [g.sprint(x)];
  }

  lemma {:induction false} NeedsOfSeen(g: Lib, front: seq<Json>, last: Json, k: nat)
    requires k < |Groups(g, front)| && g.sprint(Groups(g, front)[k]) == g.sprint(last)
    requires Groups(g, front + [last]) == Groups(g, front)
    ensures Needs(g, front + [last]) == Needs(g, front)[k := Needs(g, front)[k] + 1]
  {
    GroupsRepresent(g, front);
    var groups := Groups(g, front);
    var keys := Keys(g, groups);
    forall j | 0 <= j < |groups|
      ensures Needs(g, front + [last])[j] == Needs(g, front)[k := Needs(g, front)[k] + 1][j]
    {
      OccurrencesAppend(g, front, last, groups[j]);
      assert j < k ==> keys[j] != keys[k];
      assert k < j ==> keys[k] != keys[j];
    }
  }

  lemma {:induction false} NeedsOfNew(g: Lib, front: seq<Json>, last: Json)
    requires g.sprint(last) !in Keys(g, front)
    requires Groups(g, front + [last]) == Groups(g, front) + [last]
    ensures Needs(g, front + [last]) == Needs(g, front) + [1]
  {
    var n := |Groups(g, front)|;
    OccurrencesAppend(g, front, last, last);
    assert Groups(g, front + [last])[n] == last && Needs(g, front + [last])[n] == 1;
    forall j | 0 <= j < n
      ensures Needs(g, front + [last])[j] == Needs(g, front)[j]
    {
      assert Groups(g, front + [last])[j] == Groups(g, front)[j];
      NeedOfOther(g, front, last, j);
    }
    LongerByOne(Needs(g, front), Needs(g, front + [last]), 1);
  }

  /** An element with a new text adds nothing to the groups before it. */
  lemma {:induction false} NeedOfOther(g: Lib, front: seq<Json>, last: Json, j: nat)
    requires g.sprint(last) !in Keys(g, front) && j < |Groups(g, front)|
    ensures Occurrences(g, front + [last], Groups(g, front)[j]) == Occurrences(g, front, Groups(g, front)[j])
  {
    GroupsRepresent(g, front);
    OccurrencesAppend(g, front, last, Groups(g, front)[j]);
    assert Keys(g, Groups(g, front))[j] in Keys(g, front);
  }

  lemma {:induction false} LongerByOne<T>(a: seq<T>, b: seq<T>, last: T)
    requires |b| == |a| + 1 && b[|a|] == last && forall j :: 0 <= j < |a| ==> b[j] == a[j]
    ensures b == a + [last]
  {
  }

  /** Together the groups account for the whole list. */
  lemma {:induction false} NeedsTotal(g: Lib, s: seq<Json>)
    ensures Sum(Needs(g, s)) == |s|
  {
    if s != [] {
      var front, last := s[..|s| - 1], s[|s| - 1];
      assert s == front + [last];
      NeedsTotal(g, front);
      GroupsRepresent(g, front);
      if g.sprint(last) in Keys(g, front) {
        var keys := Keys(g, Groups(g, front));
        assert g.sprint(last) in keys;
        var k: nat :| k < |keys| && keys[k] == g.sprint(last);
        NeedsOfSeen(g, front, last, k);
        SumUpdate(Needs(g, front), k);
      } else {
        NeedsOfNew(g, front, last);
      }
    }
  }

  /** The appended part holds what each group has left over, and nothing else. */
  lemma {:induction false} FlattenMembers(groups: seq<Json>, left: seq<nat>)
    requires |left| == |groups|
    ensures |Flatten(groups, left)| == Sum(left)
    ensures forall v :: v in Flatten(groups, left) ==> exists k :: 0 <= k < |groups| && groups[k] == v && left[k] > 0
  {
    if groups != [] {
      var n := |groups| - 1;
      FlattenMembers(groups[..n], left[..n]);
      forall v | v in Flatten(groups, left)
        ensures exists k :: 0 <= k < |groups| && groups[k] == v && left[k] > 0
      {
        if v in Flatten(groups[..n], left[..n]) {
          var k :| 0 <= k < n && groups[..n][k] == v && left[..n][k] > 0;
          assert groups[k] == v && left[k] > 0;
        } else {
          assert v in Repeat(groups[n], left[n]);
          assert groups[n] == v && left[n] > 0;
        }
      }
    }
  }

  lemma {:induction false} FlattenCounts(g: Lib, groups: seq<Json>, left: seq<nat>, v: Json)
    requires |left| == |groups| && Distinct(Keys(g, groups))
    ensures forall k :: 0 <= k < |groups| && g.sprint(groups[k]) == g.sprint(v) ==>
      Occurrences(g, Flatten(groups, left), v) == left[k]
    ensures g.sprint(v) !in Keys(g, groups) ==> Occurrences(g, Flatten(groups, left), v) == 0
  {
    if groups != [] {
      var n := |groups| - 1;
      var keys := Keys(g, groups);
      assert keys[..n] == Keys(g, groups[..n]);
      FlattenCounts(g, groups[..n], left[..n], v);
      KeysAppend(g, Flatten(groups[..n], left[..n]), Repeat(groups[n], left[n]));
      KeysRepeat(g, groups[n], left[n]);
      if g.sprint(v) == keys[n] {
        assert keys[n] !in keys[..n];
      }
      forall k | 0 <= k < n && g.sprint(groups[k]) == g.sprint(v)
        ensures Occurrences(g, Flatten(groups, left), v) == left[k]
      {
        assert keys[k] != keys[n];
        assert groups[..n][k] == groups[k] && left[..n][k] == left[k];
      }
    }
  }

  /**
   * The template part of `m` keeps its order: a template element that is left free stays as it is, and one
   * that is owned was merged with a group it matches.
   */
  ghost predicate PrefixMerged(g: Lib, z: bool, t: seq<Json>, groups: seq<Json>, m: seq<Json>, owners: Owners) {
    |owners| == |t| <= |m| && forall i :: 0 <= i < |t| ==>
      match owners[i]
      case None => m[i] == t[i]
      case Some(k) =>
        k < |groups| && m[i] == MergeElement(g, z, t[i], groups[k]) &&
        (SameNamed(t[i], groups[k]) || EqualObj(g, m[i], groups[k], z))
  }

  /** Each occurrence of a group in `e` is either owned by one template element or once in `tail`. */
  ghost predicate OccurrencesPlaced(g: Lib, e: seq<Json>, groups: seq<Json>, tail: seq<Json>, owners: Owners) {
    forall k :: 0 <= k < |groups| ==>
      Owned(owners, k) + Occurrences(g, tail, groups[k]) == Occurrences(g, e, groups[k])
  }

  /** What is appended comes from the existing list, and no free template element matches it. */
  ghost predicate TailUnmatched(g: Lib, z: bool, t: seq<Json>, groups: seq<Json>, tail: seq<Json>, owners: Owners) {
    |owners| == |t| && forall v :: v in tail ==>
      v in groups && forall i :: 0 <= i < |t| && owners[i].None? ==> !Matches(g, z, t[i], v)
  }

  /** A matching of template `t` into list `e`, with result `m`. */
  ghost predicate ListMatching(g: Lib, z: bool, t: seq<Json>, e: seq<Json>, m: seq<Json>, owners: Owners) {
    var groups := Groups(g, e);
    && PrefixMerged(g, z, t, groups, m, owners)
    && OccurrencesPlaced(g, e, groups, m[|t|..], owners)
    && TailUnmatched(g, z, t, groups, m[|t|..], owners)
    && |m| + Taken(owners) == |t| + |e|
  }

  lemma {:induction false} TailOfMerge(g: Lib, z: bool, t: seq<Json>, e: seq<Json>)
    ensures |MergeArrays(g, z, t, e)| >= |t|
    ensures MergeArrays(g, z, t, e)[|t|..] == Flatten(Groups(g, e), Assigned(g, z, t, e).left)
  {
  }

  lemma {:induction false} MergePrefix(g: Lib, z: bool, t: seq<Json>, e: seq<Json>)
    ensures PrefixMerged(g, z, t, Groups(g, e), MergeArrays(g, z, t, e), Assigned(g, z, t, e).owners)
  {
    var groups := Groups(g, e);
    var owners := Assigned(g, z, t, e).owners;
    var m := MergeArrays(g, z, t, e);
    AssignIsSound(|t|, Table(g, z, t, groups), Needs(g, e), |groups|);
    forall i | 0 <= i < |t|
      ensures m[i] == MergeOwned(g, z, t[i], groups, owners[i])
      ensures owners[i].Some? ==> owners[i].value < |groups| && Matches(g, z, t[i], groups[owners[i].value])
    {
    }
  }

  lemma {:induction false} MergePlaces(g: Lib, z: bool, t: seq<Json>, e: seq<Json>)
    ensures var a := Assigned(g, z, t, e);
      OccurrencesPlaced(g, e, Groups(g, e), Flatten(Groups(g, e), a.left), a.owners)
  {
    var groups := Groups(g, e);
    AssignConserves(|t|, Table(g, z, t, groups), Needs(g, e), |groups|);
    GroupsRepresent(g, e);
    ConservedPlaces(g, e, groups, Needs(g, e), Assigned(g, z, t, e));
  }

  lemma {:induction false} ConservedPlaces(g: Lib, e: seq<Json>, groups: seq<Json>, needs: seq<nat>, a: Assignment)
    requires |needs| == |a.left| == |groups| && Conserved(needs, a.owners, a.left) && Distinct(Keys(g, groups))
    requires forall k :: 0 <= k < |groups| ==> needs[k] == Occurrences(g, e, groups[k])
    ensures OccurrencesPlaced(g, e, groups, Flatten(groups, a.left), a.owners)
  {
    forall k | 0 <= k < |groups|
      ensures Owned(a.owners, k) + Occurrences(g, Flatten(groups, a.left), groups[k]) == Occurrences(g, e, groups[k])
    {
      FlattenCounts(g, groups, a.left, groups[k]);
    }
  }

  lemma {:induction false} MergeTail(g: Lib, z: bool, t: seq<Json>, e: seq<Json>)
    ensures var a := Assigned(g, z, t, e);
      TailUnmatched(g, z, t, Groups(g, e), Flatten(Groups(g, e), a.left), a.owners)
  {
    var groups := Groups(g, e);
    AssignIsMaximal(|t|, Table(g, z, t, groups), Needs(g, e), |groups|);
    MaximalTail(g, z, t, groups, Assigned(g, z, t, e));
  }

  lemma {:induction false} MaximalTail(g: Lib, z: bool, t: seq<Json>, groups: seq<Json>, a: Assignment)
    requires |a.left| == |groups| && |a.owners| == |t| && Maximal(Table(g, z, t, groups), a.owners, a.left)
    ensures TailUnmatched(g, z, t, groups, Flatten(groups, a.left), a.owners)
  {
    var fits := Table(g, z, t, groups);
    FlattenMembers(groups, a.left);
    forall v, i | v in Flatten(groups, a.left) && 0 <= i < |t| && a.owners[i].None?
      ensures !Matches(g, z, t[i], v)
    {
      var k :| 0 <= k < |groups| && groups[k] == v && a.left[k] > 0;
      assert !fits[k][i];
    }
  }

  /** mergeArrays computes a maximal matching of the template into the existing list. */
  lemma {:induction false} MergeArraysMatches(g: Lib, z: bool, t: seq<Json>, e: seq<Json>)
    ensures ListMatching(g, z, t, e, MergeArrays(g, z, t, e), Assigned(g, z, t, e).owners)
  {
    var groups := Groups(g, e);
    var a := Assigned(g, z, t, e);
    TailOfMerge(g, z, t, e);
    MergePrefix(g, z, t, e);
    MergePlaces(g, z, t, e);
    MergeTail(g, z, t, e);
    AssignTotal(|t|, Table(g, z, t, groups), Needs(g, e), |groups|);
    assert Needs(g, e)[..|groups|] == Needs(g, e);
    NeedsTotal(g, e);
    FlattenMembers(groups, a.left);
  }
}
