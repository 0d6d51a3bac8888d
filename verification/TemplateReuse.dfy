/** Templates whose top-level lists a comparison has overwritten, and that are used again. */
module TemplateReuse {
  import opened Json
  import opened Compare
  import opened Greedy
  import opened Merge
  import opened Matching
  import opened MergeAgain
  import opened Soundness
  import opened ObjectKeys
  import opened CallersSlice
  import opened EvaluationCache
  import opened NameList
  import opened Limits

  /** The existing element of another group is appended before the one that the template element takes. */
  lemma {:induction false} SecondTakes()
    ensures Assign(1, [[false], [true]], [1, 1], 2) == Assignment([Some(1)], [1, 0])
  {
    var fits: seq<seq<bool>> := [[false], [true]];
    assert Nobody(1) == [None];
    assert Absorb(fits[0], [None], 0, 1, 1) == Scan([None], 0);
    assert Absorb(fits[0], [None], 0, 1, 0) == Scan([None], 0);
    assert Assign(1, fits, [1, 1], 1) == Assignment([None], [1]);
    assert [None][0 := Some(1)] == [Some(1)];
    assert Absorb(fits[1], [None], 1, 1, 0) == Scan([Some(1)], 1);
  }

  /**
   * With no room behind the slice, the template [{a: 1}] stays as it is for the caller when it is merged into
   * [{z: 9}, {a: 1, b: 2}]: {z: 9} is appended before {a: 1} is merged, so the element written goes elsewhere.
   */
  lemma {:induction false} MovedSliceMissesElement(g: Lib, z: bool, a1: Json, ab: Json, z9: Json)
    requires a1 == One("a", Num(1.0)) && ab == Two("a", Num(1.0), "b", Num(2.0)) && z9 == One("z", Num(9.0))
    requires g.sprint(Num(0.0)) != g.sprint(Num(1.0)) && g.sprint(z9) != g.sprint(ab)
    ensures MergeArrays(g, z, [a1], [z9, ab]) == [ab, z9] && CallersList(g, z, [a1], [z9, ab], 0) == [a1]
  {
    GroupsOfTwo(g, z9, ab);
    MissingNumberMismatches(g, z, a1, "a", z9);
    ContainedMerges(g, z, a1, ab);
    AssignedAfterMove(g, z, a1, z9, ab);
    MergedAfterMove(g, z, a1, z9, ab);
    LeftAfterMove(g, z, a1, z9, ab);
  }

  lemma {:induction false} TableAfterMove(g: Lib, z: bool, t: Json, u: Json, w: Json)
    requires !Matches(g, z, t, u) && Matches(g, z, t, w)
    ensures Table(g, z, [t], [u, w]) == [[false], [true]]
  {
    var fits := Table(g, z, [t], [u, w]);
    assert fits[0] == [false] && fits[1] == [true];
  }

  lemma {:induction false} AssignedAfterMove(g: Lib, z: bool, t: Json, u: Json, w: Json)
    requires Groups(g, [u, w]) == [u, w] && Needs(g, [u, w]) == [1, 1]
    requires !Matches(g, z, t, u) && Matches(g, z, t, w)
    ensures Assigned(g, z, [t], [u, w]) == Assignment([Some(1)], [1, 0])
  {
    TableAfterMove(g, z, t, u, w);
    SecondTakes();
  }

  lemma {:induction false} FirstIsLeft(u: Json, w: Json)
    ensures Flatten([u, w], [1, 0]) == [u]
  {
    assert [u, w][..1] == [u] && [1, 0][..1] == [1] && [u][..0] == [];
    assert Flatten([u], [1]) == [u];
  }

  lemma {:induction false} MergedAfterMove(g: Lib, z: bool, t: Json, u: Json, w: Json)
    requires Groups(g, [u, w]) == [u, w] && Assigned(g, z, [t], [u, w]) == Assignment([Some(1)], [1, 0])
    requires MergeElement(g, z, t, w) == w
    ensures MergeArrays(g, z, [t], [u, w]) == [w, u]
  {
    OwnedAt(g, z, [t], [u, w], 0);
    TailOfMerge(g, z, [t], [u, w]);
    FirstIsLeft(u, w);
    SameParts(MergeArrays(g, z, [t], [u, w]), [w, u], 1);
  }

  lemma {:induction false} LeftAfterMove(g: Lib, z: bool, t: Json, u: Json, w: Json)
    requires Assigned(g, z, [t], [u, w]) == Assignment([Some(1)], [1, 0])
    ensures CallersList(g, z, [t], [u, w], 0) == [t]
  {
    assert Sum([1, 0][..1]) == 1 by {
      assert [1, 0][..1] == [1] && Sum([1][..0]) == 0;
    }
    CallersElement(g, z, [t], [u, w], 0, 0);
  }

  /** A template whose list is overwritten, and an object with a list. */
  function Rules(kind: string, rules: seq<Json>): Template {
    Template(map["type" := Str(kind), "rules" := List(rules)], MustHave, None)
  }

  function HasRules(kind: string, rules: seq<Json>): Object {
    map["metadata" := Map(map[]), "type" := Str(kind), "rules" := List(rules)]
  }

  lemma {:induction false} RulesKeys(kind: string, rules: seq<Json>, key: string)
    ensures CompareKey(Rules(kind, rules), key) <==> key == "type" || key == "rules"
    ensures key in Rules(kind, rules).definition <==> key == "type" || key == "rules"
    ensures "type" != "metadata" && "rules" != "metadata" && "type" != "status" && "rules" != "status"
    ensures "type" != "rules"
  {
    assert "type"[0] != "kind"[0];
    assert |"type"| != |"apiVersion"| && |"rules"| != |"kind"| && |"rules"| != |"apiVersion"|;
    assert |"type"| != |"metadata"| && |"rules"| != |"metadata"| && |"type"| != |"status"| && |"rules"| != |"status"|;
    assert |"type"| != |"rules"|;
  }

  /** Whether the rules of an object are accepted. */
  predicate RulesDiffer(g: Lib, z: bool, rules: seq<Json>, has: seq<Json>) {
    !EqualObj(g, List(MergeArrays(g, z, rules, has)), List(has), z)
  }

  lemma {:induction false} TypeCompared(g: Lib, z: bool, t: Template, o: Object, kind: string, other: string)
    requires "type" in t.definition && t.definition["type"] == Str(kind) && t.ct == MustHave
    requires OnCluster(o) && ValueAt(o, "type") == Str(other)
    ensures SingleKey(g, z, t, o, "type") == Compared(kind != other, Str(kind))
  {
    assert "type" != "metadata" by {
      assert |"type"| != |"metadata"|;
    }
    assert g.sprint(Str(kind)) == kind && g.sprint(Str(other)) == other;
  }

  lemma {:induction false} ListCompared(g: Lib, z: bool, t: Template, o: Object, rules: seq<Json>, has: seq<Json>)
    requires "rules" in t.definition && t.definition["rules"] == List(rules) && t.ct == MustHave
    requires OnCluster(o) && ValueAt(o, "rules") == List(has) && has != []
    ensures SingleKey(g, z, t, o, "rules") ==
      Compared(RulesDiffer(g, z, rules, has), List(SentArrays(g, z, rules, has)))
  {
    assert "rules" != "metadata" by {
      assert |"rules"| != |"metadata"|;
    }
  }

  lemma {:induction false} RulesCompared(g: Lib, z: bool, kind: string, rules: seq<Json>, other: string, has: seq<Json>)
    requires rules != [] && has != []
    ensures var t, o := Rules(kind, rules), HasRules(other, has);
      && OnCluster(o)
      && SingleKey(g, z, t, o, "type") == Compared(kind != other, Str(kind))
      && SingleKey(g, z, t, o, "rules") == Compared(RulesDiffer(g, z, rules, has), List(SentArrays(g, z, rules, has)))
  {
    RulesKeys(kind, rules, "type");
    TypeCompared(g, z, Rules(kind, rules), HasRules(other, has), kind, other);
    ListCompared(g, z, Rules(kind, rules), HasRules(other, has), rules, has);
  }

  lemma {:induction false} ListLeft(g: Lib, z: bool, t: Template, o: Object, rules: seq<Json>, has: seq<Json>,
                                    spare: Spare)
    requires "rules" in t.definition && t.definition["rules"] == List(rules) && t.ct == MustHave
    requires ValueAt(o, "rules") == List(has)
    ensures KeyLeft(g, z, t, o, "rules", spare) == List(CallersList(g, z, rules, has, spare("rules")))
  {
    assert |"rules"| != |"metadata"| && |"rules"| != |"kind"| && |"rules"| != |"apiVersion"|;
  }

  lemma {:induction false} RulesLeft(g: Lib, z: bool, kind: string, rules: seq<Json>, other: string, has: seq<Json>,
                                     spare: Spare)
    requires rules != [] && has != []
    ensures var t := Rules(kind, rules);
      DefinitionLeft(g, z, t, HasRules(other, has), t.definition.Keys, spare) ==
        Rules(kind, CallersList(g, z, rules, has, spare("rules"))).definition
  {
    var t, o := Rules(kind, rules), HasRules(other, has);
    var left := DefinitionLeft(g, z, t, o, t.definition.Keys, spare);
    RulesKeys(kind, rules, "type");
    ListLeft(g, z, t, o, rules, has, spare);
    assert left["type"] == Str(kind);
  }

  lemma {:induction false} RulesMatch(g: Lib, kind: string, rules: seq<Json>, other: string, has: seq<Json>)
    requires rules != [] && has != []
    ensures MatchesTemplate(g, Rules(kind, rules), HasRules(other, has)) <==>
      kind == other && !RulesDiffer(g, true, rules, has)
  {
    var t := Rules(kind, rules);
    RulesCompared(g, true, kind, rules, other, has);
    RulesKeys(kind, rules, "type");
    RulesKeys(kind, rules, "rules");
    forall key | key in t.definition
      ensures key == "type" || key == "rules"
    {
      RulesKeys(kind, rules, key);
    }
  }

  lemma {:induction false} RulesUpdated(g: Lib, kind: string, rules: seq<Json>, other: string, has: seq<Json>)
    requires rules != [] && has != []
    ensures var t, o := Rules(kind, rules), HasRules(other, has);
      !Fails(g, t, o) && (UpdateNeeded(g, t, o) <==> kind != other || RulesDiffer(g, false, rules, has))
  {
    var t := Rules(kind, rules);
    RulesCompared(g, false, kind, rules, other, has);
    RulesKeys(kind, rules, "type");
    RulesKeys(kind, rules, "rules");
    forall key | key in t.definition
      ensures key == "type" || key == "rules"
    {
      RulesKeys(kind, rules, key);
    }
  }

  /** An element that has all of the template's is accepted, and takes its place in the template. */
  lemma {:induction false} TakesItsPlace(g: Lib, z: bool, t: Json, v: Json, spare: nat)
    requires v.Map? && MergeElement(g, z, t, v) == SentElement(g, z, t, v) == v && Matches(g, z, t, v)
    ensures !RulesDiffer(g, z, [t], [v]) && CallersList(g, z, [t], [v], spare) == [v]
  {
    MergeOneIntoOne(g, z, t, v);
    EqualObjReflexive(g, List([v]), z);
    OnlyElementLeft(g, z, t, v, spare);
  }

  /** One element that matches is overwritten before anything is appended. */
  lemma {:induction false} OnlyElementLeft(g: Lib, z: bool, t: Json, v: Json, spare: nat)
    requires Matches(g, z, t, v)
    ensures CallersList(g, z, [t], [v], spare) == [Found(ElementValue(g, z, t, v))]
    ensures CallersSent(g, z, [t], [v], spare) == [SentElement(g, z, t, v)]
  {
    GroupsOfOne(g, v);
    OnlyValueLeft(g, z, [t], [v], spare);
    OnlyValueMeans(g, z, [t], [v], spare, ElementValue(g, z, t, v));
  }

  lemma {:induction false} OnlyValueMeans(g: Lib, z: bool, t: seq<Json>, e: seq<Json>, spare: nat, value: Value)
    requires |t| == 1 && CallersValues(g, z, t, e, spare) == [value]
    ensures CallersList(g, z, t, e, spare) == [Found(value)] && CallersSent(g, z, t, e, spare) == [value.sent]
  {
  }

  lemma {:induction false} OnlyValueLeft(g: Lib, z: bool, t: seq<Json>, e: seq<Json>, spare: nat)
    requires |t| == |e| == 1 && Groups(g, e) == e && Needs(g, e) == [1] && Matches(g, z, t[0], e[0])
    ensures CallersValues(g, z, t, e, spare) == [ElementValue(g, z, t[0], e[0])]
  {
    SingleAssignment(g, z, t, e, Needs(g, e));
    CallersElement(g, z, t, e, spare, 0);
    assert Sum([0][..0]) == 0;
  }

  /** The list ["x"] is spoilt by an object that has an empty map in its place. */
  lemma {:induction false} EmptyMapSpoilsList(g: Lib, z: bool, x: Json, spare: nat)
    requires !x.Map?
    ensures CallersList(g, z, [x], [EMPTY], spare) == [EMPTY] && CallersSent(g, z, [x], [EMPTY], spare) == [Null]
  {
    EmptyMapTakesScalar(g, z, x);
    OnlyElementLeft(g, z, x, EMPTY, spare);
  }

  lemma {:induction false} AcceptedFirst(g: Lib, z: bool, t: seq<Json>, e: seq<Json>)
    requires |t| == |e| == 1 && Groups(g, e) == e && EqualObj(g, List(MergeArrays(g, z, t, e)), List(e), z)
    ensures Matches(g, z, t[0], e[0])
  {
    AcceptedIsOwned(g, z, t, e);
    assert Assigned(g, z, t, e).owners[0].Some?;
  }

  lemma {:induction false} AcceptedMatches(g: Lib, z: bool, t: Json, v: Json)
    ensures RulesDiffer(g, z, [t], [v]) || Matches(g, z, t, v)
  {
    GroupsOfOne(g, v);
    if !RulesDiffer(g, z, [t], [v]) {
      AcceptedFirst(g, z, [t], [v]);
    }
  }

  lemma {:induction false} ContainedTakesItsPlace(g: Lib, z: bool, a1: Json, v: Json, spare: nat)
    requires a1 == One("a", Num(1.0)) && v.Map? && "a" in v.fields && v.fields["a"] == Num(1.0)
    ensures !RulesDiffer(g, z, [a1], [v]) && CallersList(g, z, [a1], [v], spare) == [v]
  {
    ContainedMerges(g, z, a1, v);
    TakesItsPlace(g, z, a1, v, spare);
  }

  lemma {:induction false} MissingDiffers(g: Lib, z: bool, ab: Json, a1: Json)
    requires a1 == One("a", Num(1.0)) && ab == Two("a", Num(1.0), "b", Num(2.0))
    requires g.sprint(Num(0.0)) != g.sprint(Num(2.0))
    ensures RulesDiffer(g, z, [ab], [a1])
  {
    MissingNumberMismatches(g, z, ab, "b", a1);
    AcceptedMatches(g, z, ab, a1);
  }

  /** What the template [{a: 1}] and the lists [{a: 1, b: 2}] and [{a: 1}] are to each other. */
  lemma {:induction false} RulesOfTwo(g: Lib, z: bool, a1: Json, ab: Json, spare: nat)
    requires a1 == One("a", Num(1.0)) && ab == Two("a", Num(1.0), "b", Num(2.0))
    requires g.sprint(Num(0.0)) != g.sprint(Num(2.0))
    ensures !RulesDiffer(g, z, [a1], [ab]) && CallersList(g, z, [a1], [ab], spare) == [ab]
    ensures !RulesDiffer(g, z, [a1], [a1]) && CallersList(g, z, [a1], [a1], spare) == [a1]
    ensures RulesDiffer(g, z, [ab], [a1])
  {
    ContainedTakesItsPlace(g, z, a1, ab, spare);
    ContainedTakesItsPlace(g, z, a1, a1, spare);
    MissingDiffers(g, z, ab, a1);
  }

  /**
   * The rules [{a: 1}] match both objects, but the one that has more of them spoils the template for the other, so
   * which names are listed depends on the order.
   */
  lemma {:induction false} NamesDependOnOrder(g: Lib, a1: Json, ab: Json, spare: Spare)
    requires a1 == One("a", Num(1.0)) && ab == Two("a", Num(1.0), "b", Num(2.0))
    requires g.sprint(Num(0.0)) != g.sprint(Num(2.0))
    ensures var t := Rules("x", [a1]);
      var more, same := Listed("more", HasRules("x", [ab])), Listed("same", HasRules("x", [a1]));
      && AllOnCluster([more, same]) && AllOnCluster([same, more])
      && MatchesTemplate(g, t, more.content) && MatchesTemplate(g, t, same.content)
      && Selected(g, t, [more, same], spare) == [more] && Selected(g, t, [same, more], spare) == [same, more]
  {
    var t := Rules("x", [a1]);
    var more, same := Listed("more", HasRules("x", [ab])), Listed("same", HasRules("x", [a1]));
    RulesOfTwo(g, true, a1, ab, spare("rules"));
    RulesMatch(g, "x", [a1], "x", [ab]);
    RulesMatch(g, "x", [a1], "x", [a1]);
    RulesMatch(g, "x", [ab], "x", [a1]);
    RulesLeft(g, true, "x", [a1], "x", [ab], spare);
    RulesLeft(g, true, "x", [a1], "x", [a1], spare);
    SelectedOfTwo(g, t, more, same, spare);
    SelectedOfTwo(g, t, same, more, spare);
  }

  lemma {:induction false} SelectedOfTwo(g: Lib, t: Template, x: Listed, y: Listed, spare: Spare)
    requires OnCluster(x.content) && OnCluster(y.content)
    ensures AllOnCluster([x, y])
    ensures Selected(g, t, [x, y], spare) ==
      (if MatchesTemplate(g, t, x.content) then [x] else []) +
      (if MatchesTemplate(g, After(g, t, x.content, spare), y.content) then [y] else [])
  {
    var t' := After(g, t, x.content, spare);
    assert [x, y][1..] == [y] && [y][1..] == [];
    assert Selected(g, t', [y], spare) == if MatchesTemplate(g, t', y.content) then [y] else [] by {
      assert Selected(g, After(g, t', y.content, spare), [], spare) == [];
    }
  }

  /**
   * A conflict while the rules [{a: 1}] are enforced on an object that has more of them: compared anew, the object that
   * others have stored meanwhile is as the template wants it, but compared with the template as it was left it is not.
   */
  lemma {:induction false} RetryMisjudges(g: Lib, a1: Json, ab: Json, spare: Spare)
    requires a1 == One("a", Num(1.0)) && ab == Two("a", Num(1.0), "b", Num(2.0))
    requires g.sprint(Num(0.0)) != g.sprint(Num(2.0))
    ensures var t, o, o' := Rules("x", [a1]), HasRules("y", [ab]), HasRules("x", [a1]);
      && !Fails(g, t, o) && UpdateNeeded(g, t, o)
      && !Fails(g, t, o') && !UpdateNeeded(g, t, o')
      && var again := t.(definition := Left(g, t, o, spare));
         !Fails(g, again, o') && UpdateNeeded(g, again, o')
  {
    RulesOfTwo(g, false, a1, ab, spare("rules"));
    RulesUpdated(g, "x", [a1], "y", [ab]);
    RulesUpdated(g, "x", [a1], "x", [a1]);
    RulesUpdated(g, "x", [ab], "x", [a1]);
    RulesLeft(g, false, "x", [a1], "y", [ab], spare);
  }
}
