/** Merging a template list into a list that already has the template in its first part. */
module MergeAgain {
  import opened Sorting
  import opened Json
  import opened Greedy
  import opened Merge
  import opened Matching

  /** The elements with one text stand together, as often as they occur. */
  ghost predicate Grouped(g: Lib, s: seq<Json>) {
    s == Flatten(Groups(g, s), Needs(g, s))
  }

  lemma {:induction false} GroupsOfRun(g: Lib, s: seq<Json>, v: Json, n: nat)
    requires g.sprint(v) !in Keys(g, s) && n > 0
    ensures Groups(g, s + Repeat(v, n)) == Groups(g, s) + [v]
    ensures Needs(g, s + Repeat(v, n)) == Needs(g, s) + [n]
  {
    var shorter := s + Repeat(v, n - 1);
    assert s + Repeat(v, n) == shorter + [v];
    if n == 1 {
      assert shorter == s;
      NeedsOfNew(g, s, v);
    } else {
      GroupsOfRun(g, s, v, n - 1);
      assert Keys(g, shorter)[|s|] == g.sprint(v);
      NeedsOfSeen(g, shorter, v, |Groups(g, s)|);
    }
  }

  lemma {:induction false} FlattenIsGrouped(g: Lib, groups: seq<Json>, left: seq<nat>)
    requires |left| == |groups| && Distinct(Keys(g, groups))
    ensures Grouped(g, Flatten(groups, left))
  {
    if groups != [] {
      var n := |groups| - 1;
      var keys := Keys(g, groups);
      var front := Flatten(groups[..n], left[..n]);
      assert keys[..n] == Keys(g, groups[..n]);
      FlattenIsGrouped(g, groups[..n], left[..n]);
      if left[n] > 0 {
        assert keys[n] !in keys[..n];
        FlattenCounts(g, groups[..n], left[..n], groups[n]);
        GroupsOfRun(g, front, groups[n], left[n]);
        var groups', needs' := Groups(g, Flatten(groups, left)), Needs(g, Flatten(groups, left));
        assert groups'[..|groups'| - 1] == Groups(g, front) && needs'[..|groups'| - 1] == Needs(g, front);
      } else {
        assert Flatten(groups, left) == front;
      }
    }
  }

  /** No other element of the list prints like element `i`. */
  ghost predicate UniqueKey(g: Lib, s: seq<Json>, i: nat)
    requires i < |s|
  {
    forall j :: 0 <= j < |s| && j != i ==> g.sprint(s[j]) != g.sprint(s[i])
  }

  /**
   * Template element `i` may stand in the list several times: it is no map, and it matches, and prints like, and is
   * matched by, nothing but elements equal to it.
   */
  ghost predicate Repeats(g: Lib, z: bool, t: seq<Json>, m: seq<Json>, i: nat)
    requires i < |t| && i < |m|
  {
    && !t[i].Map?
    && (forall x :: x in m && (g.sprint(x) == g.sprint(m[i]) || Matches(g, z, t[i], x)) ==> x == m[i])
    && (forall j :: 0 <= j < |t| && Matches(g, z, t[j], m[i]) ==> t[j] == t[i])
  }

  /** The template elements print uniquely, or may be repeated. */
  ghost predicate Placed(g: Lib, z: bool, t: seq<Json>, m: seq<Json>) {
    |t| <= |m| && forall i :: 0 <= i < |t| ==> UniqueKey(g, m, i) || Repeats(g, z, t, m, i)
  }

  /** The first part of the list is what the template elements have become, and the rest is grouped. */
  ghost predicate Kept(g: Lib, z: bool, t: seq<Json>, m: seq<Json>) {
    && Placed(g, z, t, m) && Grouped(g, m[|t|..])
    && forall i :: 0 <= i < |t| ==> MergeElement(g, z, t[i], m[i]) == m[i] && Matches(g, z, t[i], m[i])
  }

  // ---------- the groups by their first occurrence ----------

  /** Where each text occurs first. */
  ghost function FirstOf(keys: seq<string>): seq<nat> {
    if keys == [] then []
    else
      var n := |keys| - 1;
      FirstOf(keys[..n]) + if keys[n] in keys[..n] then [] else [n]
  }

  ghost predicate Ordered(first: seq<nat>, n: nat) {
    && (forall k :: 0 <= k < |first| ==> first[k] < n)
    && (forall j, k :: 0 <= j < k < |first| ==> first[j] < first[k])
  }

  lemma {:induction false} FirstOfIsOrdered(keys: seq<string>)
    ensures Ordered(FirstOf(keys), |keys|)
  {
    if keys != [] {
      FirstOfIsOrdered(keys[..|keys| - 1]);
    }
  }

  lemma {:induction false} FirstOfFinds(keys: seq<string>, x: nat) returns (k: nat)
    requires x < |keys|
    ensures k < |FirstOf(keys)| && FirstOf(keys)[k] <= x && keys[FirstOf(keys)[k]] == keys[x]
  {
    var n := |keys| - 1;
    if x < n {
      k := FirstOfFinds(keys[..n], x);
    } else if keys[n] in keys[..n] {
      var y :| 0 <= y < n && keys[..n][y] == keys[n];
      k := FirstOfFinds(keys[..n], y);
    } else {
      k := |FirstOf(keys[..n])|;
    }
  }

  lemma {:induction false} GroupsAreFirst(g: Lib, s: seq<Json>)
    ensures |Groups(g, s)| == |FirstOf(Keys(g, s))| && Ordered(FirstOf(Keys(g, s)), |s|)
    ensures forall k :: 0 <= k < |Groups(g, s)| ==> Groups(g, s)[k] == s[FirstOf(Keys(g, s))[k]]
  {
    FirstOfIsOrdered(Keys(g, s));
    if s != [] {
      var n := |s| - 1;
      GroupsAreFirst(g, s[..n]);
      assert Keys(g, s)[..n] == Keys(g, s[..n]);
    }
  }

  lemma {:induction false} FirstOfUnique(first: seq<nat>, n: nat, j: nat, k: nat)
    requires Ordered(first, n) && j < |first| && k < |first|
    ensures first[j] == first[k] <==> j == k
    ensures first[j] < first[k] <==> j < k
  {
  }

  lemma {:induction false} HomeExists(g: Lib, m: seq<Json>, i: nat)
    requires i < |m| && UniqueKey(g, m, i)
    ensures exists k :: 0 <= k < |FirstOf(Keys(g, m))| && FirstOf(Keys(g, m))[k] == i
  {
    FirstOfIsOrdered(Keys(g, m));
    var k := FirstOfFinds(Keys(g, m), i);
    assert FirstOf(Keys(g, m))[k] == i;
  }

  /** The group of an element that prints uniquely. */
  ghost function HomeOf(g: Lib, m: seq<Json>, i: nat): (k: nat)
    requires i < |m| && UniqueKey(g, m, i)
    ensures k < |Groups(g, m)| == |FirstOf(Keys(g, m))|
    ensures FirstOf(Keys(g, m))[k] == i && Groups(g, m)[k] == m[i]
  {
    GroupsAreFirst(g, m);
    HomeExists(g, m, i);
    var k :| 0 <= k < |FirstOf(Keys(g, m))| && FirstOf(Keys(g, m))[k] == i;
    k
  }

  ghost function HomesOf(g: Lib, m: seq<Json>, n: nat): (r: seq<Option<nat>>)
    requires n <= |m|
    ensures |r| == n
    ensures forall i :: 0 <= i < n && UniqueKey(g, m, i) ==> r[i] == Some(HomeOf(g, m, i))
    ensures forall i :: 0 <= i < n && !UniqueKey(g, m, i) ==> r[i] == None
  {
    seq(n, i requires 0 <= i < n => if UniqueKey(g, m, i) then Some(HomeOf(g, m, i)) else None)
  }

  lemma {:induction false} HomeNeedsOne(g: Lib, m: seq<Json>, i: nat)
    requires i < |m| && UniqueKey(g, m, i)
    ensures Needs(g, m)[HomeOf(g, m, i)] == 1
  {
    UniqueOccursOnce(Keys(g, m), i);
  }

  /** A group that comes before a home, and is none itself, is one of repeated template elements. */
  lemma {:induction false} EarlierGroup(g: Lib, m: seq<Json>, n: nat, i: nat, k: nat) returns (j: nat)
    requires n <= |m| && i < n && UniqueKey(g, m, i)
    requires k < HomeOf(g, m, i) && Some(k) !in HomesOf(g, m, n)
    ensures j < i && Groups(g, m)[k] == m[j] && !UniqueKey(g, m, j)
  {
    GroupsAreFirst(g, m);
    var first := FirstOf(Keys(g, m));
    j := first[k];
    FirstOfUnique(first, |m|, k, HomeOf(g, m, i));
    if UniqueKey(g, m, j) {
      FirstOfUnique(first, |m|, k, HomeOf(g, m, j));
    }
  }

  lemma {:induction false} OtherGroupsStayAway(g: Lib, z: bool, t: seq<Json>, m: seq<Json>, i: nat, k: nat)
    requires Kept(g, z, t, m) && i < |t| && UniqueKey(g, m, i)
    requires k < HomeOf(g, m, i) && Some(k) !in HomesOf(g, m, |t|)
    ensures !Matches(g, z, t[i], Groups(g, m)[k])
  {
    var j := EarlierGroup(g, m, |t|, i, k);
    assert Repeats(g, z, t, m, j);
    assert MergeElement(g, z, t[i], m[i]) == m[i] && MergeElement(g, z, t[j], m[j]) == m[j];
  }

  lemma {:induction false} HomesInOrder(g: Lib, m: seq<Json>, i: nat, j: nat)
    requires i < j < |m| && UniqueKey(g, m, i) && UniqueKey(g, m, j)
    ensures HomeOf(g, m, i) < HomeOf(g, m, j)
  {
    GroupsAreFirst(g, m);
    FirstOfUnique(FirstOf(Keys(g, m)), |m|, HomeOf(g, m, i), HomeOf(g, m, j));
  }

  lemma {:induction false} PlacedHomes(g: Lib, z: bool, t: seq<Json>, m: seq<Json>)
    requires Kept(g, z, t, m)
    ensures Homes(Table(g, z, t, Groups(g, m)), Needs(g, m), HomesOf(g, m, |t|))
  {
    var home, fits, needs := HomesOf(g, m, |t|), Table(g, z, t, Groups(g, m)), Needs(g, m);
    forall i | 0 <= i < |t| && home[i].Some?
      ensures var k := home[i].value; k < |fits| && needs[k] == 1 && fits[k][i]
    {
      HomeNeedsOne(g, m, i);
    }
    forall i, j | 0 <= i < j < |t| && home[i].Some? && home[j].Some?
      ensures home[i].value < home[j].value
    {
      HomesInOrder(g, m, i, j);
    }
    forall i, j | 0 <= j < i < |t| && home[i].Some? && home[j].None?
      ensures !fits[home[i].value][j]
    {
      RepeatedStaysAway(g, z, t, m, i, j);
    }
    forall i, k | 0 <= i < |t| && home[i].Some? && 0 <= k < home[i].value && Some(k) !in home
      ensures !fits[k][i]
    {
      OtherGroupsStayAway(g, z, t, m, i, k);
    }
  }

  lemma {:induction false} RepeatedStaysAway(g: Lib, z: bool, t: seq<Json>, m: seq<Json>, i: nat, j: nat)
    requires Placed(g, z, t, m) && j < i < |t| && UniqueKey(g, m, i) && !UniqueKey(g, m, j)
    ensures !Matches(g, z, t[j], m[i])
  {
    assert Repeats(g, z, t, m, j) && m[i] in m;
  }

  // ---------- every template element takes what it has become ----------

  /** Elements that print like a repeated template element are its equals. */
  lemma {:induction false} RepeatedKeys(g: Lib, z: bool, t: seq<Json>, m: seq<Json>, i: nat, k: nat)
    requires Kept(g, z, t, m) && i < |t| && Repeats(g, z, t, m, i) && k < |Groups(g, m)| && Groups(g, m)[k] == m[i]
    ensures forall j :: 0 <= j < |t| && Assigned(g, z, t, m).owners[j] == Some(k) ==>
      Keys(g, m[..|t|])[j] == g.sprint(m[i])
  {
    AssignIsSound(|t|, Table(g, z, t, Groups(g, m)), Needs(g, m), |Groups(g, m)|);
    forall j | 0 <= j < |t| && Assigned(g, z, t, m).owners[j] == Some(k)
      ensures Keys(g, m[..|t|])[j] == g.sprint(m[i])
    {
      assert Matches(g, z, t[j], m[i]);
      assert MergeElement(g, z, t[j], m[j]) == m[j] && MergeElement(g, z, t[i], m[i]) == m[i];
    }
  }

  lemma {:induction false} RepeatedGroup(g: Lib, z: bool, t: seq<Json>, m: seq<Json>, i: nat) returns (k: nat)
    requires Kept(g, z, t, m) && i < |t| && Repeats(g, z, t, m, i)
    ensures k < |Groups(g, m)| && Groups(g, m)[k] == m[i]
  {
    GroupsAreFirst(g, m);
    k := FirstOfFinds(Keys(g, m), i);
    assert Groups(g, m)[k] in m;
  }

  lemma {:induction false} PrefixCount(g: Lib, m: seq<Json>, n: nat, key: string)
    requires n <= |m|
    ensures multiset(Keys(g, m))[key] == multiset(Keys(g, m[..n]))[key] + multiset(Keys(g, m[n..]))[key]
  {
    assert m == m[..n] + m[n..];
    KeysAppend(g, m[..n], m[n..]);
  }

  lemma {:induction false} RepeatedIsOwned(g: Lib, z: bool, t: seq<Json>, m: seq<Json>, i: nat)
    requires Kept(g, z, t, m) && i < |t| && Repeats(g, z, t, m, i)
    ensures Assigned(g, z, t, m).owners[i].Some?
  {
    var groups, fits, needs := Groups(g, m), Table(g, z, t, Groups(g, m)), Needs(g, m);
    var a := Assigned(g, z, t, m);
    var k := RepeatedGroup(g, z, t, m, i);
    AssignIsMaximal(|t|, fits, needs, |groups|);
    AssignConserves(|t|, fits, needs, |groups|);
    RepeatedKeys(g, z, t, m, i, k);
    PrefixCount(g, m, |t|, g.sprint(m[i]));
    assert fits[k][i];
    if a.owners[i].None? {
      FewerOwned(a.owners, Keys(g, m[..|t|]), k, g.sprint(m[i]), i);
    }
  }

  lemma {:induction false} OwnPlaces(g: Lib, z: bool, t: seq<Json>, m: seq<Json>, i: nat)
    requires Kept(g, z, t, m) && i < |t|
    ensures var o := Assigned(g, z, t, m).owners[i];
      o.Some? && o.value < |Groups(g, m)| && Groups(g, m)[o.value] == m[i]
  {
    var groups, fits, needs := Groups(g, m), Table(g, z, t, Groups(g, m)), Needs(g, m);
    if UniqueKey(g, m, i) {
      PlacedHomes(g, z, t, m);
      AssignHomes(fits, needs, HomesOf(g, m, |t|), |groups|);
      assert HomesOf(g, m, |t|)[i] == Some(HomeOf(g, m, i));
    } else {
      RepeatedIsOwned(g, z, t, m, i);
      AssignIsSound(|t|, fits, needs, |groups|);
      var k := Assigned(g, z, t, m).owners[i].value;
      GroupsRepresent(g, m);
      assert groups[k] in m && Matches(g, z, t[i], groups[k]);
    }
  }

  /** The texts of the groups that own the template elements. */
  function OwnerKeys(g: Lib, groups: seq<Json>, owners: Owners): seq<string>
    requires forall i :: 0 <= i < |owners| ==> owners[i].Some? && owners[i].value < |groups|
  {
    seq(|owners|, i requires 0 <= i < |owners| => g.sprint(groups[owners[i].value]))
  }

  lemma {:induction false} OwnerKeysCount(g: Lib, groups: seq<Json>, owners: Owners, k: nat)
    requires forall i :: 0 <= i < |owners| ==> owners[i].Some? && owners[i].value < |groups|
    requires Distinct(Keys(g, groups)) && k < |groups|
    ensures multiset(OwnerKeys(g, groups, owners))[g.sprint(groups[k])] == Owned(owners, k)
  {
    if owners != [] {
      var n := |owners| - 1;
      OwnerKeysCount(g, groups, owners[..n], k);
      assert owners == owners[..n] + [owners[n]];
      assert OwnerKeys(g, groups, owners) == OwnerKeys(g, groups, owners[..n]) + [g.sprint(groups[owners[n].value])];
      var keys := Keys(g, groups);
      assert keys[owners[n].value] == keys[k] ==> owners[n].value == k;
    }
  }

  /** Each group has taken as many template elements as print like it. */
  lemma {:induction false} OwnCount(g: Lib, z: bool, t: seq<Json>, m: seq<Json>, k: nat)
    requires Kept(g, z, t, m) && k < |Groups(g, m)|
    ensures Owned(Assigned(g, z, t, m).owners, k) == multiset(Keys(g, m[..|t|]))[g.sprint(Groups(g, m)[k])]
  {
    var groups, owners := Groups(g, m), Assigned(g, z, t, m).owners;
    forall i | 0 <= i < |t|
      ensures owners[i].Some? && owners[i].value < |groups| && groups[owners[i].value] == m[i]
    {
      OwnPlaces(g, z, t, m, i);
    }
    GroupsRepresent(g, m);
    OwnerKeysCount(g, groups, owners, k);
    assert OwnerKeys(g, groups, owners) == Keys(g, m[..|t|]);
  }

  /** What a group has left over are its elements in the second part of the list. */
  lemma {:induction false} LeftCount(g: Lib, z: bool, t: seq<Json>, m: seq<Json>, k: nat)
    requires Kept(g, z, t, m) && k < |Groups(g, m)|
    ensures Assigned(g, z, t, m).left[k] == multiset(Keys(g, m[|t|..]))[g.sprint(Groups(g, m)[k])]
  {
    AssignConserves(|t|, Table(g, z, t, Groups(g, m)), Needs(g, m), |Groups(g, m)|);
    OwnCount(g, z, t, m, k);
    PrefixCount(g, m, |t|, g.sprint(Groups(g, m)[k]));
  }

  // ---------- what is appended ----------

  lemma {:induction false} GroupsApart(g: Lib, a: seq<Json>, b: seq<Json>)
    requires forall key :: key in Keys(g, b) ==> key !in Keys(g, a)
    ensures Groups(g, a + b) == Groups(g, a) + Groups(g, b)
  {
    if b == [] {
      assert a + b == a;
    } else {
      var n := |b| - 1;
      var front := b[..n];
      assert (a + b)[..|a| + n] == a + front && Keys(g, b)[..n] == Keys(g, front);
      KeysAppend(g, a, front);
      assert Keys(g, b)[n] == g.sprint(b[n]);
      GroupsApart(g, a, front);
    }
  }

  /** No element of the second part prints like one of the first. */
  ghost predicate Apart(g: Lib, m: seq<Json>, n: nat)
    requires n <= |m|
  {
    forall key :: key in Keys(g, m[n..]) ==> key !in Keys(g, m[..n])
  }

  lemma {:induction false} ApartCount(g: Lib, a: seq<Json>, b: seq<Json>, k: nat)
    requires forall key :: key in Keys(g, b) ==> key !in Keys(g, a)
    requires k < |Groups(g, a)| + |Groups(g, b)|
    ensures var p := |Groups(g, a)|;
      multiset(Keys(g, b))[g.sprint((Groups(g, a) + Groups(g, b))[k])] == if k < p then 0 else Needs(g, b)[k - p]
  {
    if k < |Groups(g, a)| {
      GroupsRepresent(g, a);
      assert Keys(g, Groups(g, a))[k] in Keys(g, a);
    }
  }

  lemma {:induction false} ApartTail(g: Lib, z: bool, t: seq<Json>, m: seq<Json>)
    requires Kept(g, z, t, m) && Apart(g, m, |t|)
    ensures Flatten(Groups(g, m), Assigned(g, z, t, m).left) == m[|t|..]
  {
    var a, b := m[..|t|], m[|t|..];
    assert m == a + b;
    GroupsApart(g, a, b);
    LeftCounts(g, z, t, m);
    ApartLefts(g, a, b, Groups(g, m), Assigned(g, z, t, m).left);
    FlattenSecond(g, a, b, Assigned(g, z, t, m).left);
  }

  /** Each group has its elements among `b` left. */
  ghost predicate LeavesCounts(g: Lib, groups: seq<Json>, left: seq<nat>, b: seq<Json>) {
    |left| == |groups| && forall k :: 0 <= k < |left| ==> left[k] == multiset(Keys(g, b))[g.sprint(groups[k])]
  }

  lemma {:induction false} LeftCounts(g: Lib, z: bool, t: seq<Json>, m: seq<Json>)
    requires Kept(g, z, t, m)
    ensures LeavesCounts(g, Groups(g, m), Assigned(g, z, t, m).left, m[|t|..])
  {
    forall k | 0 <= k < |Groups(g, m)|
      ensures Assigned(g, z, t, m).left[k] == multiset(Keys(g, m[|t|..]))[g.sprint(Groups(g, m)[k])]
    {
      LeftCount(g, z, t, m, k);
    }
  }

  ghost predicate LeftOf(left: seq<nat>, p: nat, needs: seq<nat>) {
    |left| == p + |needs| && forall k :: 0 <= k < |left| ==> left[k] == if k < p then 0 else needs[k - p]
  }

  lemma {:induction false} ApartLefts(g: Lib, a: seq<Json>, b: seq<Json>, groups: seq<Json>, left: seq<nat>)
    requires forall key :: key in Keys(g, b) ==> key !in Keys(g, a)
    requires groups == Groups(g, a) + Groups(g, b) && LeavesCounts(g, groups, left, b)
    ensures LeftOf(left, |Groups(g, a)|, Needs(g, b))
  {
    forall k | 0 <= k < |left|
      ensures left[k] == if k < |Groups(g, a)| then 0 else Needs(g, b)[k - |Groups(g, a)|]
    {
      ApartCount(g, a, b, k);
    }
  }

  lemma {:induction false} FlattenSecond(g: Lib, a: seq<Json>, b: seq<Json>, left: seq<nat>)
    requires LeftOf(left, |Groups(g, a)|, Needs(g, b)) && Grouped(g, b)
    ensures Flatten(Groups(g, a) + Groups(g, b), left) == b
  {
    var p := |Groups(g, a)|;
    SplitLeft(left, p, Needs(g, b));
    FlattenSkips(Groups(g, a), left[..p], Groups(g, b), Needs(g, b));
  }

  lemma {:induction false} SplitLeft(left: seq<nat>, p: nat, needs: seq<nat>)
    requires LeftOf(left, p, needs)
    ensures left == left[..p] + needs && forall k :: 0 <= k < p ==> left[k] == 0
  {
  }

  /** Elements of the list that print alike are equal. */
  ghost predicate Faithful(g: Lib, s: seq<Json>) {
    forall x, y :: x in s && y in s && g.sprint(x) == g.sprint(y) ==> x == y
  }

  lemma {:induction false} CountByText(g: Lib, s: seq<Json>, v: Json)
    requires forall x :: x in s && g.sprint(x) == g.sprint(v) ==> x == v
    ensures multiset(s)[v] == multiset(Keys(g, s))[g.sprint(v)]
  {
    if s != [] {
      var n := |s| - 1;
      CountByText(g, s[..n], v);
      assert s == s[..n] + [s[n]] && Keys(g, s) == Keys(g, s[..n]) + [g.sprint(s[n])];
    }
  }

  lemma {:induction false} GroupedIsFaithful(g: Lib, s: seq<Json>)
    requires Grouped(g, s)
    ensures Faithful(g, s)
  {
    FlattenMembers(Groups(g, s), Needs(g, s));
    GroupsRepresent(g, s);
    var keys := Keys(g, Groups(g, s));
    forall x, y | x in s && y in s && g.sprint(x) == g.sprint(y)
      ensures x == y
    {
      var j :| 0 <= j < |keys| && Groups(g, s)[j] == x;
      var k :| 0 <= k < |keys| && Groups(g, s)[k] == y;
      assert keys[j] == keys[k];
      assert j == k;
    }
  }

  lemma {:induction false} KeptIsFaithful(g: Lib, z: bool, t: seq<Json>, m: seq<Json>)
    requires Kept(g, z, t, m)
    ensures Faithful(g, m)
  {
    GroupedIsFaithful(g, m[|t|..]);
    forall x, y | x in m && y in m && g.sprint(x) == g.sprint(y)
      ensures x == y
    {
      var i :| 0 <= i < |m| && m[i] == x;
      var j :| 0 <= j < |m| && m[j] == y;
      if i < |t| {
        assert UniqueKey(g, m, i) || Repeats(g, z, t, m, i);
      } else if j < |t| {
        assert UniqueKey(g, m, j) || Repeats(g, z, t, m, j);
      } else {
        assert m[|t|..][i - |t|] == x && m[|t|..][j - |t|] == y;
      }
    }
  }

  /** The elements appended the second time are those of the second part, in some order. */
  lemma {:induction false} SameTail(g: Lib, z: bool, t: seq<Json>, m: seq<Json>)
    requires Kept(g, z, t, m)
    ensures multiset(Flatten(Groups(g, m), Assigned(g, z, t, m).left)) == multiset(m[|t|..])
  {
    var groups, left, tail := Groups(g, m), Assigned(g, z, t, m).left, m[|t|..];
    var r := Flatten(groups, left);
    KeptIsFaithful(g, z, t, m);
    GroupsRepresent(g, m);
    FlattenMembers(groups, left);
    forall v
      ensures multiset(r)[v] == multiset(tail)[v]
    {
      if v in m {
        SameCount(g, z, t, m, v);
      }
      assert v in r ==> v in m;
      assert v in tail ==> v in m;
      assert v !in r ==> multiset(r)[v] == 0;
      assert v !in tail ==> multiset(tail)[v] == 0;
    }
  }

  lemma {:induction false} SameCount(g: Lib, z: bool, t: seq<Json>, m: seq<Json>, v: Json)
    requires Kept(g, z, t, m) && Faithful(g, m) && v in m
    ensures multiset(Flatten(Groups(g, m), Assigned(g, z, t, m).left))[v] == multiset(m[|t|..])[v]
  {
    var groups, left, tail := Groups(g, m), Assigned(g, z, t, m).left, m[|t|..];
    GroupsRepresent(g, m);
    FlattenMembers(groups, left);
    var i :| 0 <= i < |m| && m[i] == v;
    assert Keys(g, m)[i] in Keys(g, groups);
    var k :| 0 <= k < |groups| && Keys(g, groups)[k] == g.sprint(v);
    assert groups[k] in m;
    LeftCount(g, z, t, m, k);
    FlattenCounts(g, groups, left, v);
    CountByText(g, Flatten(groups, left), v);
    CountByText(g, tail, v);
  }

  /**
   * Merging in the template again changes at most the order of what the list has beyond it, and nothing when that
   * prints apart from the template's part.
   */
  lemma {:induction false} MergeArraysAgain(g: Lib, z: bool, t: seq<Json>, m: seq<Json>)
    requires Kept(g, z, t, m)
    ensures var r := MergeArrays(g, z, t, m);
      && multiset(r) == multiset(m) && |r| >= |t| && r[..|t|] == m[..|t|]
      && (Apart(g, m, |t|) ==> r == m)
  {
    var n, r := |t|, MergeArrays(g, z, t, m);
    TailOfMerge(g, z, t, m);
    SameTail(g, z, t, m);
    forall i | 0 <= i < n
      ensures r[i] == m[i]
    {
      OwnPlaces(g, z, t, m, i);
      assert r[i] == MergeOwned(g, z, t[i], Groups(g, m), Assigned(g, z, t, m).owners[i]);
    }
    assert r == r[..n] + r[n..] && m == m[..n] + m[n..] && r[..n] == m[..n];
    if Apart(g, m, n) {
      ApartTail(g, z, t, m);
    }
  }

  lemma {:induction false} UniqueOccursOnce(s: seq<string>, i: nat)
    requires i < |s| && forall j :: 0 <= j < |s| && j != i ==> s[j] != s[i]
    ensures multiset(s)[s[i]] == 1
  {
    assert s == s[..i] + [s[i]] + s[i + 1..];
    assert s[i] !in s[..i] && s[i] !in s[i + 1..];
  }

  lemma {:induction false} FlattenNothing(groups: seq<Json>, left: seq<nat>)
    requires |left| == |groups| && forall k :: 0 <= k < |left| ==> left[k] == 0
    ensures Flatten(groups, left) == []
  {
    if groups != [] {
      FlattenNothing(groups[..|groups| - 1], left[..|groups| - 1]);
    }
  }

  /** Groups with nothing left over add nothing to the appended part. */
  lemma {:induction false} FlattenSkips(first: seq<Json>, zeros: seq<nat>, groups: seq<Json>, left: seq<nat>)
    requires |zeros| == |first| && |left| == |groups| && forall k :: 0 <= k < |zeros| ==> zeros[k] == 0
    ensures Flatten(first + groups, zeros + left) == Flatten(groups, left)
  {
    if groups == [] {
      FlattenNothing(first, zeros);
      assert first + groups == first && zeros + left == zeros;
    } else {
      var n := |groups| - 1;
      FlattenSkips(first, zeros, groups[..n], left[..n]);
      assert (first + groups)[..|first| + n] == first + groups[..n];
      assert (zeros + left)[..|first| + n] == zeros + left[..n];
    }
  }

  lemma {:induction false} SameParts<T>(a: seq<T>, b: seq<T>, n: nat)
    requires n <= |a| && n <= |b| && a[n..] == b[n..]
    requires forall i :: 0 <= i < n ==> a[i] == b[i]
    ensures a == b
  {
    assert a == a[..n] + a[n..] && b == b[..n] + b[n..];
  }
}
