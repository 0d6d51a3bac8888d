/** Inputs on which the merge and the comparison do less than their documentation suggests. */
module Limits {
  import opened Json
  import opened Compare
  import opened Greedy
  import opened Merge
  import opened Matching
  import opened MergeAgain
  import opened Sorting
  import opened Convergence
  import opened Soundness
  import opened ObjectKeys
  import opened SecondEvaluation

  function One(k: string, v: Json): Json {
    Map(map[k := v])
  }

  function Two(k1: string, v1: Json, k2: string, v2: Json): Json {
    Map(map[k1 := v1, k2 := v2])
  }

  lemma {:induction false} SortListOfOne(g: Lib, v: Json)
    ensures g.sortList([v]) == [v]
  {
    SortListPermutes(g, [v]);
    assert g.sortList([v])[0] in g.sortList([v]);
  }

  lemma {:induction false} OnesMatch(g: Lib, existing: Json, merged: Json)
    ensures ListsMatch(g, [existing], [merged]) <==> ElementMatches(g, merged, existing)
  {
    SortListOfOne(g, existing);
    SortListOfOne(g, merged);
  }

  /**
   * A top-level list is compared with the roles exchanged, so a mustonlyhave template [{a: 1}] accepts [{b: 0}]:
   * the existing zero is read as an absent entry.
   */
  lemma {:induction false} MustOnlyHaveListUnsound(g: Lib)
    requires g.sprint(Num(0.0)) != g.sprint(Num(1.0))
    ensures var t, e := One("a", Num(1.0)), One("b", Num(0.0));
      EqualObj(g, List([t]), List([e]), false) && !Satisfies(g, true, t, Some(e))
  {
    var t, e := One("a", Num(1.0)), One("b", Num(0.0));
    OnesMatch(g, t, e);
    assert FieldMatches(g, Num(0.0), LookupOption(t, "b"), true);
    assert !Satisfies(g, true, t.fields["a"], LookupOption(e, "a"));
  }

  lemma {:induction false} GroupsOfOne(g: Lib, e: Json)
    ensures Groups(g, [e]) == [e] && Needs(g, [e]) == [1]
  {
    assert [e][..0] == [];
    assert Groups(g, [e]) == [e];
    assert Keys(g, [e]) == [g.sprint(e)];
  }

  lemma {:induction false} OwnedAt(g: Lib, z: bool, t: seq<Json>, e: seq<Json>, i: nat)
    requires i < |t|
    ensures |MergeArrays(g, z, t, e)| >= |t|
    ensures MergeArrays(g, z, t, e)[i] == MergeOwned(g, z, t[i], Groups(g, e), Assigned(g, z, t, e).owners[i])
  {
  }

  /** A list none of whose existing elements is left over. */
  lemma {:induction false} NothingAppended(g: Lib, z: bool, t: seq<Json>, e: seq<Json>, m: seq<Json>, groups: seq<Json>,
                                           a: Assignment)
    requires groups == Groups(g, e) && a == Assigned(g, z, t, e) && |m| == |t|
    requires forall i :: 0 <= i < |t| ==> m[i] == MergeOwned(g, z, t[i], groups, a.owners[i])
    requires forall k :: 0 <= k < |groups| ==> a.left[k] == 0
    ensures MergeArrays(g, z, t, e) == m
  {
    FlattenNothing(groups, a.left);
    TailOfMerge(g, z, t, e);
    forall i | 0 <= i < |t|
      ensures MergeArrays(g, z, t, e)[i] == m[i]
    {
      OwnedAt(g, z, t, e, i);
    }
    SameParts(MergeArrays(g, z, t, e), m, |t|);
  }

  lemma {:induction false} SingleAssignment(g: Lib, z: bool, t: seq<Json>, groups: seq<Json>, needs: seq<nat>)
    requires |t| == |groups| == |needs| == 1 && needs[0] == 1 && Matches(g, z, t[0], groups[0])
    ensures Assign(1, Table(g, z, t, groups), needs, 1) == Assignment([Some(0)], [0])
  {
    var fits := Table(g, z, t, groups);
    assert Nobody(1)[0 := Some(0)] == [Some(0)];
    AbsorbFirst(fits[0], Nobody(1), 0, 0, 0);
    assert Assign(1, fits, needs, 0) == Assignment(Nobody(1), []);
  }

  lemma {:induction false} MergeSingles(g: Lib, z: bool, t: seq<Json>, e: seq<Json>)
    requires |t| == |e| == 1 && Groups(g, e) == e && Needs(g, e) == [1] && Matches(g, z, t[0], e[0])
    ensures MergeArrays(g, z, t, e) == [MergeElement(g, z, t[0], e[0])]
  {
    SingleAssignment(g, z, t, e, Needs(g, e));
    NothingAppended(g, z, t, e, [MergeElement(g, z, t[0], e[0])], e, Assignment([Some(0)], [0]));
  }

  lemma {:induction false} MergeOneIntoOne(g: Lib, z: bool, t: Json, e: Json)
    requires Matches(g, z, t, e)
    ensures MergeArrays(g, z, [t], [e]) == [MergeElement(g, z, t, e)]
  {
    GroupsOfOne(g, e);
    MergeSingles(g, z, [t], [e]);
  }

  /**
   * A same-named element of a top-level list is absorbed without comparing it, and the exchanged roles then let
   * an existing empty map stand for any template value.
   */
  lemma {:induction false} SameNameListUnsound(g: Lib)
    requires g.sprint(Map(map[])) != g.sprint(Num(5.0))
    ensures var t, e := Two("name", Str("x"), "k", Num(5.0)), Two("name", Str("x"), "k", Map(map[]));
      && EqualObj(g, List(MergeArrays(g, false, [t], [e])), List([e]), false)
      && !Satisfies(g, true, t, Some(e))
  {
    var t, e := Two("name", Str("x"), "k", Num(5.0)), Two("name", Str("x"), "k", Map(map[]));
    EmptyMapAccepted(g, t, e);
    assert !Satisfies(g, true, t.fields["k"], LookupOption(e, "k"));
  }

  lemma {:induction false} ScalarsStay(g: Lib, z: bool, t: Json, e: Json)
    requires t.Map? && e.Map? && t.fields.Keys == e.fields.Keys
    requires forall k :: k in t.fields ==> t.fields[k].Str? || t.fields[k].Num?
    ensures MergeElement(g, z, t, e) == t
  {
    assert MergeSpecs(g, z, t, e).fields == t.fields;
  }

  lemma {:induction false} EmptyMapMatches(g: Lib, t: Json, e: Json)
    requires t == Two("name", Str("x"), "k", Num(5.0)) && e == Two("name", Str("x"), "k", Map(map[]))
    ensures ElementMatches(g, e, t)
  {
    FieldMatchesItself(g, Str("x"), true);
    assert FieldMatches(g, e.fields["k"], LookupOption(t, "k"), true);
  }

  lemma {:induction false} EmptyMapAccepted(g: Lib, t: Json, e: Json)
    requires t == Two("name", Str("x"), "k", Num(5.0)) && e == Two("name", Str("x"), "k", Map(map[]))
    ensures EqualObj(g, List(MergeArrays(g, false, [t], [e])), List([e]), false)
  {
    assert SameNamed(t, e);
    MergeOneIntoOne(g, false, t, e);
    ScalarsStay(g, false, t, e);
    OnesMatch(g, t, e);
    EmptyMapMatches(g, t, e);
  }

  lemma {:induction false} KeysOfOne(g: Lib, x: Json)
    ensures Keys(g, [x]) == [g.sprint(x)]
  {
  }

  lemma {:induction false} AnotherGroup(g: Lib, s: seq<Json>, v: Json)
    requires g.sprint(v) !in Keys(g, s)
    ensures Groups(g, s + [v]) == Groups(g, s) + [v]
  {
    assert (s + [v])[..|s|] == s;
  }

  lemma {:induction false} AnotherNeed(g: Lib, s: seq<Json>, v: Json)
    requires g.sprint(v) !in Keys(g, s) && Groups(g, s) == s && Needs(g, s) == [1]
    ensures Groups(g, s + [v]) == s + [v] && Needs(g, s + [v]) == [1, 1]
  {
    AnotherGroup(g, s, v);
    NeedsOfNew(g, s, v);
  }

  lemma {:induction false} TwoGroups(g: Lib, one: seq<Json>, two: seq<Json>, v: Json)
    requires two == one + [v] && g.sprint(v) !in Keys(g, one) && Groups(g, one) == one && Needs(g, one) == [1]
    ensures Groups(g, two) == two && Needs(g, two) == [1, 1]
  {
    AnotherNeed(g, one, v);
  }

  lemma {:induction false} GroupsOfTwo(g: Lib, x: Json, y: Json)
    requires g.sprint(x) != g.sprint(y)
    ensures Groups(g, [x, y]) == [x, y] && Needs(g, [x, y]) == [1, 1]
  {
    GroupsOfOne(g, x);
    KeysOfOne(g, x);
    TwoGroups(g, [x], [x, y], y);
  }

  lemma {:induction false} OnlyFirstTaken(g: Lib)
    ensures Assign(2, [[true, true], [true, false]], [1, 1], 2) == Assignment([Some(0), None], [0, 1])
  {
    var fits: seq<seq<bool>>, needs: seq<nat> := [[true, true], [true, false]], [1, 1];
    assert Nobody(2) == [None, None];
    assert Absorb(fits[0], [None, None], 0, 1, 0) == Scan([Some(0), None], 1);
    assert Assign(2, fits, needs, 1) == Assignment([Some(0), None], [0]);
    assert Absorb(fits[1], [Some(0), None], 1, 1, 2) == Scan([Some(0), None], 0);
    assert Absorb(fits[1], [Some(0), None], 1, 1, 1) == Scan([Some(0), None], 0);
    assert Absorb(fits[1], [Some(0), None], 1, 1, 0) == Scan([Some(0), None], 0);
  }

  /** A map whose merge is the existing value matches it. */
  lemma {:induction false} ContainedMatches(g: Lib, t: Json, v: Json)
    requires t.Map? && v.Map? && MergeSpecs(g, false, t, v).fields == v.fields
    ensures Matches(g, false, t, v)
  {
    EqualObjReflexive(g, v, false);
  }

  /** A template that demands a non-zero number the existing value lacks does not match it. */
  lemma {:induction false} MissingNumberMismatches(g: Lib, z: bool, t: Json, k: string, v: Json)
    requires t.Map? && k in t.fields && t.fields[k].Num? && v.Map? && k !in v.fields && !SameNamed(t, v)
    requires g.sprint(Num(0.0)) != g.sprint(t.fields[k])
    ensures !Matches(g, z, t, v)
  {
    var m := MergeSpecs(g, z, t, v);
    assert k in m.fields && !FieldMatches(g, m.fields[k], LookupOption(v, k), z);
  }

  lemma {:induction false} SumOfTwo(x: nat, y: nat)
    ensures Sum([x, y]) == x + y
  {
    assert [x, y][..1] == [x] && Sum([x][..0]) == 0;
  }

  /** The first existing element takes the first template element; the second finds nothing left it matches. */
  lemma {:induction false} FirstTakesFirst(g: Lib, t0: Json, t1: Json, e0: Json, e1: Json)
    requires g.sprint(e0) != g.sprint(e1)
    requires Matches(g, false, t0, e0) && Matches(g, false, t0, e1)
    requires Matches(g, false, t1, e0) && !Matches(g, false, t1, e1)
    ensures |MergeArrays(g, false, [t0, t1], [e0, e1])| == 3
  {
    FirstTableOf(g, t0, t1, e0, e1);
    GroupsOfTwo(g, e0, e1);
    OnlyFirstTaken(g);
    TailOfMerge(g, false, [t0, t1], [e0, e1]);
    FlattenMembers([e0, e1], [0, 1]);
    SumOfTwo(0, 1);
  }

  lemma {:induction false} FirstTableOf(g: Lib, t0: Json, t1: Json, e0: Json, e1: Json)
    requires Matches(g, false, t0, e0) && Matches(g, false, t0, e1)
    requires Matches(g, false, t1, e0) && !Matches(g, false, t1, e1)
    ensures Table(g, false, [t0, t1], [e0, e1]) == [[true, true], [true, false]]
  {
    var fits := Table(g, false, [t0, t1], [e0, e1]);
    assert fits[0] == [true, true] && fits[1] == [true, false];
  }

  lemma {:induction false} ListFreeSatisfied(g: Lib, t: Json, v: Json)
    requires t.Map? && ListFree(t) && Matches(g, false, t, v) && !SameNamed(t, v)
    ensures ListElementSatisfied(g, false, t, v)
  {
    ListFreeLosesNothing(g, false, t, v);
    OwnedElementSatisfied(g, false, t, v);
  }

  lemma {:induction false} GreedyMisses(g: Lib, t0: Json, t1: Json, e0: Json, e1: Json)
    requires g.sprint(e0) != g.sprint(e1)
    requires Matches(g, false, t0, e0) && Matches(g, false, t0, e1) && !SameNamed(t0, e1)
    requires Matches(g, false, t1, e0) && !Matches(g, false, t1, e1) && !SameNamed(t1, e0)
    requires t0.Map? && ListFree(t0) && t1.Map? && ListFree(t1)
    ensures ListElementSatisfied(g, false, t0, e1) && ListElementSatisfied(g, false, t1, e0)
    ensures !EqualObj(g, List(MergeArrays(g, false, [t0, t1], [e0, e1])), List([e0, e1]), false)
  {
    FirstTakesFirst(g, t0, t1, e0, e1);
    ListFreeSatisfied(g, t0, e1);
    ListFreeSatisfied(g, t1, e0);
  }

  /**
   * The matching is greedy: template [{}, {a: 1}] is satisfied element by element by [{a: 1}, {b: 2}], but {} takes
   * {a: 1} first, so the merged list is longer than the existing one and an update is asked for.
   */
  lemma {:induction false} GreedyIsIncomplete(g: Lib)
    requires g.sprint(Num(0.0)) != g.sprint(Num(1.0))
    requires g.sprint(One("a", Num(1.0))) != g.sprint(One("b", Num(2.0)))
    ensures var empty, a1, b2 := Map(map[]), One("a", Num(1.0)), One("b", Num(2.0));
      && ListElementSatisfied(g, false, empty, b2) && ListElementSatisfied(g, false, a1, a1)
      && !EqualObj(g, List(MergeArrays(g, false, [empty, a1], [a1, b2])), List([a1, b2]), false)
  {
    EmptyTakesFirst(g, One("a", Num(1.0)), One("b", Num(2.0)));
  }

  lemma {:induction false} EmptyIsContained(g: Lib, v: Json)
    requires v.Map?
    ensures Matches(g, false, Map(map[]), v)
  {
    ContainedMatches(g, Map(map[]), v);
  }

  lemma {:induction false} OneIsListFree(a1: Json)
    requires a1 == One("a", Num(1.0))
    ensures ListFree(a1) && ListFree(Map(map[]))
  {
    assert ListFree(a1.fields["a"]);
  }

  lemma {:induction false} EmptyTakesFirst(g: Lib, a1: Json, b2: Json)
    requires a1 == One("a", Num(1.0)) && b2 == One("b", Num(2.0))
    requires g.sprint(Num(0.0)) != g.sprint(Num(1.0)) && g.sprint(a1) != g.sprint(b2)
    ensures ListElementSatisfied(g, false, Map(map[]), b2) && ListElementSatisfied(g, false, a1, a1)
    ensures !EqualObj(g, List(MergeArrays(g, false, [Map(map[]), a1], [a1, b2])), List([a1, b2]), false)
  {
    EmptyIsContained(g, a1);
    EmptyIsContained(g, b2);
    ContainedMerges(g, false, a1, a1);
    MissingNumberMismatches(g, false, a1, "a", b2);
    OneIsListFree(a1);
    GreedyMisses(g, Map(map[]), a1, a1, b2);
  }

  lemma {:induction false} GroupsOfPairLast(g: Lib, x: Json, y: Json)
    requires g.sprint(x) != g.sprint(y)
    ensures Groups(g, [x, y, y]) == [x, y] && Needs(g, [x, y, y]) == [1, 2]
  {
    GroupsOfTwo(g, x, y);
    assert [x, y, y] == [x, y] + [y] && Keys(g, [x, y])[1] == g.sprint(y);
    NeedsOfSeen(g, [x, y], y, 1);
  }

  lemma {:induction false} GroupsOfPairAround(g: Lib, x: Json, y: Json)
    requires g.sprint(x) != g.sprint(y)
    ensures Groups(g, [x, y, x]) == [x, y] && Needs(g, [x, y, x]) == [2, 1]
  {
    GroupsOfTwo(g, x, y);
    assert [x, y, x] == [x, y] + [x] && Keys(g, [x, y])[0] == g.sprint(x);
    NeedsOfSeen(g, [x, y], x, 0);
  }

  lemma {:induction false} PairFindsBothEnds()
    ensures Assign(3, [[false, true, false], [true, true, true]], [1, 2], 2) ==
            Assignment([Some(1), Some(0), Some(1)], [0, 0])
  {
    var fits: seq<seq<bool>> := [[false, true, false], [true, true, true]];
    assert Nobody(3) == [None, None, None];
    var free: Owners := [None, None, None];
    assert Absorb(fits[0], free, 0, 1, 1) == Scan([None, Some(0), None], 1);
    assert Absorb(fits[0], free, 0, 1, 0) == Scan([None, Some(0), None], 1);
    assert Assign(3, fits, [1, 2], 1) == Assignment([None, Some(0), None], [0]);
    var second: Owners := [Some(1), Some(0), None];
    assert Absorb(fits[1], second, 1, 1, 2) == Scan([Some(1), Some(0), Some(1)], 1);
    assert Absorb(fits[1], second, 1, 1, 1) == Scan([Some(1), Some(0), Some(1)], 1);
    assert [None, Some(0), None][0 := Some(1)] == second;
    assert Absorb(fits[1], [None, Some(0), None], 1, 2, 0) == Scan([Some(1), Some(0), Some(1)], 2);
  }

  lemma {:induction false} PairTakesTheMiddle()
    ensures Assign(3, [[true, true, true], [false, true, false]], [2, 1], 2) ==
            Assignment([Some(0), Some(0), None], [0, 1])
  {
    var fits: seq<seq<bool>> := [[true, true, true], [false, true, false]];
    assert Nobody(3) == [None, None, None];
    var free: Owners := [None, None, None];
    assert free[0 := Some(0)][1 := Some(0)] == [Some(0), Some(0), None];
    assert Absorb(fits[0], [Some(0), Some(0), None], 0, 0, 2) == Scan([Some(0), Some(0), None], 0);
    assert Absorb(fits[0], [Some(0), None, None], 0, 1, 1) == Scan([Some(0), Some(0), None], 1);
    assert Absorb(fits[0], free, 0, 2, 0) == Scan([Some(0), Some(0), None], 2);
    assert Assign(3, fits, [2, 1], 1) == Assignment([Some(0), Some(0), None], [0]);
    var after: Owners := [Some(0), Some(0), None];
    assert Absorb(fits[1], after, 1, 1, 3) == Scan(after, 0);
    assert Absorb(fits[1], after, 1, 1, 2) == Scan(after, 0);
    assert Absorb(fits[1], after, 1, 1, 1) == Scan(after, 0);
    assert Absorb(fits[1], after, 1, 1, 0) == Scan(after, 0);
  }

  lemma {:induction false} PairAssignment(g: Lib, x: Json, y: Json, u: Json, w: Json)
    requires g.sprint(u) != g.sprint(w)
    requires !Matches(g, false, x, u) && Matches(g, false, y, u)
    requires Matches(g, false, x, w) && Matches(g, false, y, w)
    ensures Assigned(g, false, [x, y, x], [u, w, w]) == Assignment([Some(1), Some(0), Some(1)], [0, 0])
  {
    GroupsOfPairLast(g, u, w);
    var fits := Table(g, false, [x, y, x], [u, w]);
    assert fits[0] == [false, true, false] && fits[1] == [true, true, true];
    assert fits == [[false, true, false], [true, true, true]];
    PairFindsBothEnds();
  }

  /** Two existing elements that print alike take the outer template elements when they come last ... */
  lemma {:induction false} PairMergesLast(g: Lib, x: Json, y: Json, u: Json, w: Json)
    requires g.sprint(u) != g.sprint(w)
    requires !Matches(g, false, x, u) && Matches(g, false, y, u) && MergeElement(g, false, y, u) == u
    requires Matches(g, false, x, w) && Matches(g, false, y, w) && MergeElement(g, false, x, w) == w
    ensures MergeArrays(g, false, [x, y, x], [u, w, w]) == [w, u, w]
  {
    PairAssignment(g, x, y, u, w);
    GroupsOfPairLast(g, u, w);
    NothingAppended(g, false, [x, y, x], [u, w, w], [w, u, w], [u, w], Assignment([Some(1), Some(0), Some(1)], [0, 0]));
  }

  lemma {:induction false} PairTable(g: Lib, x: Json, y: Json, u: Json, w: Json)
    requires !Matches(g, false, x, u) && Matches(g, false, y, u)
    requires Matches(g, false, x, w) && Matches(g, false, y, w)
    ensures Table(g, false, [x, y, x], [w, u]) == [[true, true, true], [false, true, false]]
  {
    var fits := Table(g, false, [x, y, x], [w, u]);
    assert fits[0] == [true, true, true] && fits[1] == [false, true, false];
  }

  /** ... and the middle one, which they leave without a partner, when they come first. */
  lemma {:induction false} PairMergesFirst(g: Lib, x: Json, y: Json, u: Json, w: Json)
    requires g.sprint(u) != g.sprint(w)
    requires !Matches(g, false, x, u) && Matches(g, false, y, u)
    requires Matches(g, false, x, w) && Matches(g, false, y, w)
    ensures |MergeArrays(g, false, [x, y, x], [w, u, w])| == 4
  {
    GroupsOfPairAround(g, w, u);
    PairTable(g, x, y, u, w);
    PairTakesTheMiddle();
    TailOfMerge(g, false, [x, y, x], [w, u, w]);
    FlattenMembers([w, u], [0, 1]);
    SumOfTwo(0, 1);
  }

  lemma {:induction false} LengthsTellApart(g: Lib, a: seq<Json>, b: seq<Json>)
    requires |a| != |b|
    ensures !EqualObj(g, List(a), List(b), false)
  {
  }

  lemma {:induction false} PairDiverges(g: Lib, x: Json, y: Json, u: Json, w: Json)
    requires g.sprint(u) != g.sprint(w)
    requires !Matches(g, false, x, u) && Matches(g, false, y, u) && MergeElement(g, false, y, u) == u
    requires Matches(g, false, x, w) && Matches(g, false, y, w) && MergeElement(g, false, x, w) == w
    ensures Diverges(g, List([x, y, x]), List([u, w, w]))
  {
    PairMergesLast(g, x, y, u, w);
    PairMergesFirst(g, x, y, u, w);
    assert MergeSpecs(g, false, List([x, y, x]), List([u, w, w])) == List([w, u, w]);
    LengthsTellApart(g, MergeArrays(g, false, [x, y, x], [w, u, w]), [w, u, w]);
  }

  /** Merging the template into its own result changes it, and the comparison asks for another update. */
  ghost predicate Diverges(g: Lib, t: Json, e: Json) {
    var m := MergeSpecs(g, false, t, e);
    var again := MergeSpecs(g, false, t, m);
    again != m && !EqualObj(g, again, m, false)
  }

  lemma {:induction false} ContainedMerges(g: Lib, z: bool, t: Json, v: Json)
    requires t.Map? && v.Map? && t.fields.Keys <= v.fields.Keys
    requires forall k :: k in t.fields ==> MergeSpecs(g, z, t.fields[k], v.fields[k]) == v.fields[k]
    ensures MergeElement(g, z, t, v) == v && Matches(g, z, t, v)
    ensures ListFree(t) ==> SentElement(g, z, t, v) == v
  {
    assert MergeSpecs(g, z, t, v).fields == v.fields;
    EqualObjReflexive(g, v, z);
    if ListFree(t) {
      ListFreeLosesNothing(g, z, t, v);
      SentIsMerged(g, z, t, v);
    }
  }

  /**
   * Enforcement need not converge when elements print alike: template [{a: 1}, {b: 2}, {a: 1}] merged into
   * [{b: 2, c: 3}, {a: 1, b: 2}, {a: 1, b: 2}] gives a list that is still not as the template wants it.
   */
  lemma {:induction false} RepeatedKeysDiverge(g: Lib, a1: Json, b2: Json, bc: Json, ab: Json)
    requires a1 == One("a", Num(1.0)) && b2 == One("b", Num(2.0))
    requires bc == Two("b", Num(2.0), "c", Num(3.0)) && ab == Two("a", Num(1.0), "b", Num(2.0))
    requires g.sprint(Num(0.0)) != g.sprint(Num(1.0)) && g.sprint(bc) != g.sprint(ab)
    ensures Diverges(g, List([a1, b2, a1]), List([bc, ab, ab]))
  {
    MissingNumberMismatches(g, false, a1, "a", bc);
    ContainedMerges(g, false, b2, bc);
    ContainedMerges(g, false, a1, ab);
    ContainedMerges(g, false, b2, ab);
    PairDiverges(g, a1, b2, bc, ab);
  }

  // ---------- elements lost to empty maps ----------

  /** An existing empty map takes a template element that is no map ... */
  lemma {:induction false} EmptyMapTakesScalar(g: Lib, z: bool, x: Json)
    requires !x.Map?
    ensures Matches(g, z, x, EMPTY) && MergeArrays(g, z, [x], [EMPTY]) == [EMPTY]
  {
    ScalarMeetsMap(g, z, x, EMPTY);
    MergeOneIntoOne(g, z, x, EMPTY);
  }

  /** ... so the template {k: ["x"]} accepts {k: [{}]}, which has no "x" in it. */
  lemma {:induction false} ScalarIsLost(g: Lib, z: bool, x: Json)
    requires !x.Map?
    ensures var t, e := One("k", List([x])), One("k", List([EMPTY]));
      && MergeSpecs(g, z, t, e) == e && EqualObj(g, MergeSpecs(g, z, t, e), e, z)
      && !Satisfies(g, z, t, Some(e)) && !Covers(g, MergeSpecs(g, z, t, e), t)
  {
    var t, e := One("k", List([x])), One("k", List([EMPTY]));
    EmptyMapTakesScalar(g, z, x);
    assert MergeSpecs(g, z, t, e).fields == e.fields;
    EqualObjReflexive(g, e, z);
    EmptyMapIsNo(g, z, x);
    assert !Satisfies(g, z, t.fields["k"], LookupOption(e, "k"));
    assert !Covers(g, e.fields["k"], t.fields["k"]);
  }

  lemma {:induction false} EmptyMapIsNo(g: Lib, z: bool, x: Json)
    requires !x.Map?
    ensures !Satisfies(g, z, List([x]), Some(List([EMPTY]))) && !Covers(g, List([EMPTY]), List([x]))
  {
    forall p: seq<nat> | Injection(p, 1, 1)
      ensures !ElementSatisfies(g, [x][0], [EMPTY][p[0]])
    {
      assert p[0] == 0;
    }
    assert [EMPTY][0] != [x][0];
  }

  /** Whatever element of a list is no map can be lost. */
  lemma {:induction false} AnyScalarCanBeLost(g: Lib, z: bool, t: seq<Json>, i: nat)
    requires i < |t| && !t[i].Map?
    ensures !NothingLost(g, z, List(t), List(Repeat(EMPTY, |t|)))
  {
    var e := Repeat(EMPTY, |t|);
    var groups, a := Groups(g, e), Assigned(g, z, t, e);
    GroupsOfRepeat(g, EMPTY, |t|);
    ScalarMeetsMap(g, z, t[i], EMPTY);
    OnlyGroupTakesAll(|t|, Table(g, z, t, groups), Needs(g, e), i);
    AssignIsSound(|t|, Table(g, z, t, groups), Needs(g, e), 1);
    assert !OwnedKept(g, z, t[i], groups, a.owners[i]);
  }

  /** A group that wants all positions takes every one that fits it. */
  lemma {:induction false} OnlyGroupTakesAll(n: nat, fits: seq<seq<bool>>, needs: seq<nat>, i: nat)
    requires IsTable(n, fits, needs) && |fits| == 1 && needs[0] == n && i < n && fits[0][i]
    ensures Assign(n, fits, needs, 1).owners[i].Some?
  {
    assert Assign(n, fits, needs, 0) == Assignment(Nobody(n), []);
    var scan := Absorb(fits[0], Nobody(n), 0, n, 0);
    AbsorbTakes(fits[0], Nobody(n), 0, n, 0);
    AbsorbCounts(fits[0], Nobody(n), 0, n, 0);
    NothingTaken(n);
    if scan.count == n {
      AllTaken(scan.owners);
    }
  }

  lemma {:induction false} GroupsOfRepeat(g: Lib, v: Json, n: nat)
    requires n > 0
    ensures Groups(g, Repeat(v, n)) == [v] && Needs(g, Repeat(v, n)) == [n]
  {
    GroupOfRepeat(g, v, n);
    KeysRepeat(g, v, n);
    assert Occurrences(g, Repeat(v, n), v) == n;
  }

  lemma {:induction false} GroupOfRepeat(g: Lib, v: Json, n: nat)
    requires n > 0
    ensures Groups(g, Repeat(v, n)) == [v]
  {
    var s := Repeat(v, n);
    assert s[..n - 1] == Repeat(v, n - 1);
    if n > 1 {
      GroupOfRepeat(g, v, n - 1);
      assert Keys(g, s[..n - 1])[0] == g.sprint(v);
    } else {
      assert s[..0] == [];
    }
  }

  lemma {:induction false} FirstIsTaken(n: nat, fits: seq<seq<bool>>, needs: seq<nat>)
    requires IsTable(n, fits, needs) && |fits| == 1 && n > 0 && fits[0][0] && needs[0] == 1
    ensures var a := Assign(n, fits, needs, 1);
      a.owners[0] == Some(0) && a.left[0] == 0 && forall i :: 1 <= i < n ==> a.owners[i].None?
  {
    assert Assign(n, fits, needs, 0) == Assignment(Nobody(n), []);
    AbsorbFirst(fits[0], Nobody(n), 0, 0, 0);
  }

  /**
   * The nil map that a lost element has become is stored as null: the template ["x", "y"] enforced on [{}] stores
   * [null, "y"], and the next evaluation asks for another update.
   */
  lemma {:induction false} NilMapIsStoredAsNull(g: Lib, z: bool, x: string, y: string)
    requires x != y && x != "" && g.sprint(Null) != x
    ensures var t, stored := List([Str(x), Str(y)]), List([Null, Str(y)]);
      && SentSpecs(g, z, t, List([EMPTY])) == stored
      && !EqualObj(g, MergeSpecs(g, z, t, List([EMPTY])), List([EMPTY]), z)
      && !EqualObj(g, MergeSpecs(g, z, t, stored), stored, z)
  {
    PairOnEmptyMap(g, z, Str(x), Str(y));
    NullIsNo(g, z, x, y);
  }

  lemma {:induction false} PairOnEmptyMap(g: Lib, z: bool, x: Json, y: Json)
    requires !x.Map?
    ensures SentArrays(g, z, [x, y], [EMPTY]) == [Null, y]
    ensures !EqualObj(g, MergeSpecs(g, z, List([x, y]), List([EMPTY])), List([EMPTY]), z)
  {
    GroupsOfOne(g, EMPTY);
    PairOnOne(g, z, [x, y], [EMPTY], y);
  }

  lemma {:induction false} PairOnOne(g: Lib, z: bool, t: seq<Json>, e: seq<Json>, y: Json)
    requires |t| == 2 && !t[0].Map? && |e| == 1 && e[0] == EMPTY && Groups(g, e) == e && Needs(g, e) == [1]
    requires t[1] == y
    ensures SentArrays(g, z, t, e) == [Null, y]
    ensures !EqualObj(g, MergeSpecs(g, z, List(t), List(e)), List(e), z)
  {
    FirstIsSentAsNull(g, z, t, e);
    LongerDiffers(g, z, t, e);
  }

  lemma {:induction false} LongerDiffers(g: Lib, z: bool, t: seq<Json>, e: seq<Json>)
    requires e != [] && |MergeArrays(g, z, t, e)| != |e|
    ensures !EqualObj(g, MergeSpecs(g, z, List(t), List(e)), List(e), z)
  {
  }

  lemma {:induction false} FirstIsSentAsNull(g: Lib, z: bool, t: seq<Json>, e: seq<Json>)
    requires |t| == 2 && !t[0].Map? && |e| == 1 && e[0] == EMPTY && Groups(g, e) == e && Needs(g, e) == [1]
    ensures var s := SentArrays(g, z, t, e);
      |s| == |MergeArrays(g, z, t, e)| == 2 && s[0] == Null && s[1] == t[1]
  {
    ScalarMeetsMap(g, z, t[0], e[0]);
    FirstIsTaken(2, Table(g, z, t, e), Needs(g, e));
    FlattenNothing(e, Assigned(g, z, t, e).left);
    TailOfMerge(g, z, t, e);
    SentAt(g, z, t, e, 0);
    SentAt(g, z, t, e, 1);
  }

  lemma {:induction false} SentAt(g: Lib, z: bool, t: seq<Json>, e: seq<Json>, i: nat)
    requires i < |t|
    ensures |SentArrays(g, z, t, e)| == |t| + |Flatten(Groups(g, e), Assigned(g, z, t, e).left)|
    ensures SentArrays(g, z, t, e)[i] == SentOwned(g, z, t[i], Groups(g, e), Assigned(g, z, t, e).owners[i])
  {
  }

  lemma {:induction false} NullIsNo(g: Lib, z: bool, x: string, y: string)
    requires x != y && x != "" && g.sprint(Null) != x
    ensures var t, e := [Str(x), Str(y)], [Null, Str(y)];
      !EqualObj(g, List(MergeArrays(g, z, t, e)), List(e), z)
  {
    var t, e := [Str(x), Str(y)], [Null, Str(y)];
    GroupsRepresent(g, e);
    StringMatches(g, z, Str(x), Str(y));
    assert g.sprint(Str(x)) == x && g.sprint(Str("")) == "";
    assert !Matches(g, z, Str(x), Null);
    if EqualObj(g, List(MergeArrays(g, z, t, e)), List(e), z) {
      FirstIsMatched(g, z, t, e);
    }
  }

  /** Some existing element matches the first one of an accepted template. */
  lemma {:induction false} FirstIsMatched(g: Lib, z: bool, t: seq<Json>, e: seq<Json>)
    requires t != [] && EqualObj(g, List(MergeArrays(g, z, t, e)), List(e), z)
    ensures exists v :: v in e && Matches(g, z, t[0], v)
  {
    AcceptedIsOwned(g, z, t, e);
    GroupsRepresent(g, e);
    var owner := Assigned(g, z, t, e).owners[0];
    assert Groups(g, e)[owner.value] in e;
  }

  lemma {:induction false} EqualSizes(a: set<string>, b: set<string>)
    requires |a| >= |b|
    ensures |b - a| <= |a - b| && (a <= b <==> a == b)
  {
    assert a == (a - b) + (a * b) && b == (b - a) + (a * b);
    if a <= b {
      assert a - b == {};
      assert b - a == {};
    }
  }

  /** A mustonlyhave map may have keys the template lacks, when zero values of the template make up the number. */
  lemma {:induction false} MustOnlyHaveExtraKeys(g: Lib, z: bool, t: Json, e: Json)
    requires t.Map? && e.Map? && EqualObj(g, t, e, z)
    ensures |e.fields.Keys - t.fields.Keys| <= |t.fields.Keys - e.fields.Keys|
    ensures forall k :: k in t.fields && k !in e.fields ==> FieldMatches(g, t.fields[k], None, z)
    ensures t.fields.Keys <= e.fields.Keys <==> t.fields.Keys == e.fields.Keys
  {
    EqualSizes(t.fields.Keys, e.fields.Keys);
    forall k | k in t.fields && k !in e.fields
      ensures FieldMatches(g, t.fields[k], None, z)
    {
      assert FieldMatches(g, t.fields[k], LookupOption(e, k), z);
    }
  }

  lemma {:induction false} MustOnlyHaveMapUnsound(g: Lib, v: Json)
    ensures EqualObj(g, One("a", Num(0.0)), One("b", v), false)
  {
    assert FieldMatches(g, Num(0.0), LookupOption(One("b", v), "a"), false);
  }

  /**
   * A label that is no string: template {enabled: true} asks for an update of the labels {app: "x"}, which drops them
   * all, and then asks for the same update for ever.
   */
  lemma {:induction false} BooleanLabelUnsettled(g: Lib, isNamespace: bool)
    requires g.sprint(Bool(true)) != g.sprint(Bool(false))
    ensures var d, e := One("labels", One("enabled", Bool(true))), One("labels", One("app", Str("x")));
      var first := SingleMetadata(g, false, MustHave, d, e, isNamespace);
      && first.update && first.merged.Map? && SetMetadata(e, first.merged) == Map(map[])
      && var again := SingleMetadata(g, false, MustHave, d, Map(map[]), isNamespace);
         again.update && again.merged.Map? && SetMetadata(Map(map[]), again.merged) == Map(map[])
  {
    var d, e := One("labels", One("enabled", Bool(true))), One("labels", One("app", Str("x")));
    LabelsAreNotAnnotations();
    assert One("enabled", Bool(true)).fields["enabled"] == Bool(true);
    assert StringMaps(e) && !StringMap(One("enabled", Bool(true)));
    BooleanIsMissing(g, isNamespace);
    MetadataByField(g, false, MustHave, d, e, isNamespace);
    MetadataSettles(g, MustHave, d, e, isNamespace);
    OnlyLabels(e, SingleMetadata(g, false, MustHave, d, e, isNamespace).merged, One("app", Str("x")));
  }

  lemma {:induction false} OnlyLabels(e: Json, m: Json, labels: Json)
    requires e == One("labels", labels) && m.Map? && "annotations" !in m.fields
    requires "labels" in m.fields && !StringMap(m.fields["labels"])
    ensures SetMetadata(e, m) == Map(map[])
  {
    assert SetMetadata(e, m).fields == map[];
  }

  lemma {:induction false} BooleanIsMissing(g: Lib, isNamespace: bool)
    requires g.sprint(Bool(true)) != g.sprint(Bool(false))
    ensures var d, e := Some(One("enabled", Bool(true))), Some(One("app", Str("x")));
      var f := FieldOf(g, false, MustHave, isNamespace, "labels", d, e);
      f.Some? && !StringMap(f.value) && FieldDiffers(g, false, "labels", f, e)
  {
    var d, e := One("enabled", Bool(true)), One("app", Str("x"));
    LabelsAreNotAnnotations();
    assert |"app"| != |"enabled"|;
    MapField(g, MustHave, isNamespace, "labels", d, Some(e));
    var f := FieldOf(g, false, MustHave, isNamespace, "labels", Some(d), Some(e)).value;
    assert f.fields["enabled"] == Bool(true) && "enabled" !in e.fields;
    assert !FieldMatches(g, f.fields["enabled"], LookupOption(e, "enabled"), false);
  }
}
