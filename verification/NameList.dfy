/**
 * Which listed objects match a template without a name (controllers/configurationpolicy_controller.go, buildNameList).
 * Every object is compared with the template that the objects before it have left.
 */
module NameList {
  import opened Json
  import opened ObjectKeys
  import opened CallersSlice

  datatype Listed = Listed(name: string, content: Object)

  predicate KeyMatches(g: Lib, t: Template, o: Object, key: string)
    requires key in t.definition && OnCluster(o)
  {
    var r := SingleKey(g, true, t, o, key);
    CompareKey(t, key) ==> r.Compared? && !r.update
  }

  /** The object is as the template wants it, where an absent entry counts as zero. */
  predicate MatchesTemplate(g: Lib, t: Template, o: Object)
    requires OnCluster(o)
  {
    forall key | key in t.definition :: KeyMatches(g, t, o, key)
  }

  predicate AllOnCluster(objects: seq<Listed>) {
    forall o | o in objects :: OnCluster(o.content)
  }

  /** The template as comparing it with the object leaves it. */
  function After(g: Lib, t: Template, o: Object, spare: Spare): Template {
    t.(definition := DefinitionLeft(g, true, t, o, t.definition.Keys, spare))
  }

  function Selected(g: Lib, t: Template, objects: seq<Listed>, spare: Spare): seq<Listed>
    requires AllOnCluster(objects)
    decreases |objects|
  {
    if objects == [] then []
    else
      var o := objects[0];
      (if MatchesTemplate(g, t, o.content) then [o] else []) +
      Selected(g, After(g, t, o.content, spare), objects[1..], spare)
  }

  function Names(objects: seq<Listed>): seq<string> {
    seq(|objects|, i requires 0 <= i < |objects| => objects[i].name)
  }

  /** The keys in `visited` have been compared. */
  ghost predicate MatchedUpTo(g: Lib, t: Template, o: Object, spare: Spare, visited: set<string>, matched: bool,
                              left: Object)
    requires OnCluster(o) && visited <= t.definition.Keys
  {
    && (matched <==> forall key | key in visited :: KeyMatches(g, t, o, key))
    && left == DefinitionLeft(g, true, t, o, visited, spare)
  }

  lemma {:induction false} MatchAnother(g: Lib, t: Template, o: Object, spare: Spare, visited: set<string>,
                                        matched: bool, left: Object, key: string)
    requires OnCluster(o) && visited <= t.definition.Keys && key in t.definition && key !in visited
    requires MatchedUpTo(g, t, o, spare, visited, matched, left)
    ensures key in left
    ensures var now := t.(definition := left);
      MatchedUpTo(g, t, o, spare, visited + {key}, matched && KeyMatches(g, now, o, key),
        left[key := KeyLeft(g, true, now, o, key, spare)])
  {
    NotVisited(g, true, t, o, visited, spare, key);
    VisitAnother(g, true, t, o, visited, spare, key);
    assert KeyMatches(g, t.(definition := left), o, key) == KeyMatches(g, t, o, key);
    assert forall k :: k in visited + {key} <==> k in visited || k == key;
  }

  /** The loop over the keys, in any order: a mismatch does not end it. */
  method CompareListed(g: Lib, t: Template, o: Object, spare: Spare) returns (matched: bool, left: Object)
    requires OnCluster(o)
    ensures matched <==> MatchesTemplate(g, t, o)
    ensures left == After(g, t, o, spare).definition
  {
    matched, left := true, t.definition;
    var keys := t.definition.Keys;
    ghost var visited: set<string> := {};
    while keys != {}
      invariant keys <= t.definition.Keys && visited == t.definition.Keys - keys
      invariant MatchedUpTo(g, t, o, spare, visited, matched, left)
      decreases keys
    {
      var key :| key in keys;
      keys := keys - {key};
      MatchAnother(g, t, o, spare, visited, matched, left, key);
      var now := t.(definition := left);
      matched := matched && KeyMatches(g, now, o, key);
      left := left[key := KeyLeft(g, true, now, o, key, spare)];
      visited := visited + {key};
    }
    assert visited == t.definition.Keys;
  }

  /** buildNameList, with the definition of the template that is overwritten on the way. */
  method BuildNameList(g: Lib, definition: Object, ct: ComplianceType, objects: seq<Listed>, spare: Spare)
    returns (names: seq<string>)
    requires AllOnCluster(objects)
    ensures names == Names(Selected(g, Template(definition, ct, None), objects, spare))
  {
    var t := Template(definition, ct, None);
    names := [];
    for i := 0 to |objects|
      invariant names + Names(Selected(g, t, objects[i..], spare)) ==
        Names(Selected(g, Template(definition, ct, None), objects, spare))
    {
      var o := objects[i];
      var matched, left := CompareListed(g, t, o.content, spare);
      SelectNext(g, t, objects, spare, i, names);
      if matched {
        names := names + [o.name];
      }
      t := t.(definition := left);
    }
  }

  lemma {:induction false} NamesAppend(a: seq<Listed>, b: seq<Listed>)
    ensures Names(a + b) == Names(a) + Names(b)
  {
  }

  lemma {:induction false} SelectNext(g: Lib, t: Template, objects: seq<Listed>, spare: Spare, i: nat,
                                      names: seq<string>)
    requires AllOnCluster(objects) && i < |objects|
    ensures var o := objects[i];
      names + Names(Selected(g, t, objects[i..], spare)) ==
        (if MatchesTemplate(g, t, o.content) then names + [o.name] else names) +
        Names(Selected(g, After(g, t, o.content, spare), objects[i + 1..], spare))
  {
    var o := objects[i];
    assert objects[i..][1..] == objects[i + 1..];
    var first := if MatchesTemplate(g, t, o.content) then [o] else [];
    NamesAppend(first, Selected(g, After(g, t, o.content, spare), objects[i + 1..], spare));
    assert Names(first) == if MatchesTemplate(g, t, o.content) then [o.name] else [];
  }

  // ---------- when the objects do not interfere ----------

  ghost predicate AllLeaveAlone(g: Lib, t: Template, objects: seq<Listed>, spare: Spare) {
    forall o | o in objects :: LeavesAlone(g, true, t, o.content, spare)
  }

  lemma {:induction false} SteadfastInAnyList(g: Lib, t: Template, objects: seq<Listed>, spare: Spare)
    requires forall o :: o in objects ==> Steadfast(t, o.content)
    ensures AllLeaveAlone(g, t, objects, spare)
  {
    forall o | o in objects
      ensures LeavesAlone(g, true, t, o.content, spare)
    {
      SteadfastIsLeft(g, true, t, o.content, spare);
    }
  }

  /** A template that is left as it is selects exactly the objects that match it. */
  lemma {:induction false} SelectedExactly(g: Lib, t: Template, objects: seq<Listed>, spare: Spare, x: Listed)
    requires AllOnCluster(objects) && AllLeaveAlone(g, t, objects, spare)
    ensures multiset(Selected(g, t, objects, spare))[x] ==
      if x in objects && MatchesTemplate(g, t, x.content) then multiset(objects)[x] else 0
    decreases |objects|
  {
    if objects != [] {
      var o := objects[0];
      assert After(g, t, o.content, spare) == t;
      SelectedExactly(g, t, objects[1..], spare, x);
      assert objects == [o] + objects[1..];
      assert x in objects <==> x == o || x in objects[1..];
    }
  }

  /** The order in which the objects are listed makes no difference then. */
  lemma {:induction false} OrderIsIrrelevant(g: Lib, t: Template, objects: seq<Listed>, others: seq<Listed>,
                                             spare: Spare)
    requires AllOnCluster(objects) && AllOnCluster(others) && multiset(objects) == multiset(others)
    requires AllLeaveAlone(g, t, objects, spare)
    ensures multiset(Selected(g, t, objects, spare)) == multiset(Selected(g, t, others, spare))
  {
    forall o | o in others
      ensures o in objects
    {
      assert o in multiset(others);
    }
    forall x
      ensures multiset(Selected(g, t, objects, spare))[x] == multiset(Selected(g, t, others, spare))[x]
    {
      SelectedExactly(g, t, objects, spare, x);
      SelectedExactly(g, t, others, spare, x);
      assert x in objects <==> x in multiset(objects);
      assert x in others <==> x in multiset(others);
    }
  }
}
