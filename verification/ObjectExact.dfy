/**
 * When exactly the comparison of whole objects asks for nothing, for musthave templates whose lists are lists of
 * strings (controllers/configurationpolicy_controller.go, handleKeys and buildNameList).
 */
module ObjectExact {
  import opened Sorting
  import opened Json
  import opened Compare
  import opened Merge
  import opened Soundness
  import opened Verdicts
  import opened StringLists
  import opened ObjectKeys
  import opened SecondEvaluation
  import opened ObjectVerdict
  import opened NameList
  import opened Namesakes

  // ---------- one key ----------

  /** The entry prints like the zero value of its own type. */
  predicate PrintsAsZero(g: Lib, e: Json) {
    match e
    case Null => true
    case Bool(_) => g.sprint(e) == g.sprint(Bool(false))
    case Num(_) => g.sprint(e) == g.sprint(Num(0.0))
    case Str(s) => s == ""
    case List(_) => g.sprint(e) == g.sprint(List([]))
    case Map(_) => g.sprint(e) == g.sprint(Map(map[]))
  }

  /**
   * What the template demands of an entry at the top of an object, which is nil if it is absent. With `z` nil and the
   * zero value of a scalar are as good as each other.
   */
  ghost predicate EntrySatisfied(g: Lib, z: bool, d: Json, e: Json) {
    match d
    case Map(_) => e.Map? && Satisfies(g, z, d, Some(e))
    case List(items) => if e.List? then multiset(items) <= multiset(e.items) else e.Null? && items == []
    case Null => if z then PrintsAsZero(g, e) else g.sprint(e) == g.sprint(Null)
    case Str(s) => if z && e.Null? then s == "" else g.sprint(e) == s
    case _ => if z && e.Null? then PrintsAsZero(g, d) else g.sprint(e) == g.sprint(d)
  }

  /** The lists of the template's value are lists of strings, and those that the object has in their places too. */
  ghost predicate StringValue(z: bool, d: Json, e: Json) {
    ListsStrings(d) && MeetsStrings(d, e) && (z && d.Map? ==> NullFree(d))
  }

  lemma {:induction false} EntryExact(g: Lib, z: bool, d: Json, e: Json)
    requires StringValue(z, d, e)
    ensures var r := SingleValue(g, z, MustHave, d, e);
      r.Compared? && !r.update <==> EntrySatisfied(g, z, d, e)
  {
    if d.Map? && e.Map? {
      StringTemplateExact(g, z, z, d, e);
    } else if d.List? && e.List? {
      if e.items == [] {
        NothingInNothing(g, z, d.items);
      } else {
        StringListsExact(g, z, d.items, e.items);
      }
    } else if !d.Map? && !d.List? {
      ScalarExact(g, z, d, e);
    }
  }

  lemma {:induction false} NothingInNothing(g: Lib, z: bool, s: seq<Json>)
    ensures EqualObj(g, List(s), List([]), z) <==> s == []
    ensures multiset(s) <= multiset([]) <==> s == []
  {
    EqualObjReflexive(g, List([]), z);
    if s != [] {
      assert s[0] in multiset(s);
    }
  }

  lemma {:induction false} ScalarExact(g: Lib, z: bool, d: Json, e: Json)
    requires !d.Map? && !d.List?
    ensures EqualObj(g, d, e, z) <==> EntrySatisfied(g, z, d, e)
  {
    assert d.Str? ==> g.sprint(Str(d.s)) == d.s;
    assert e.Str? ==> g.sprint(Str(e.s)) == e.s;
    assert g.sprint(Str("")) == "";
  }

  /** Where zero values print apart from all others, an absent entry is as good as false and 0 and nothing else. */
  lemma {:induction false} AbsentIsZero(g: Lib, z: bool, b: bool, n: real, s: string)
    requires g.sprint(Bool(true)) != g.sprint(Bool(false))
    requires n != 0.0 ==> g.sprint(Num(n)) != g.sprint(Num(0.0))
    requires forall v: Json :: v.Bool? || v.Num? || (v.Str? && v.s != "<nil>") ==> g.sprint(v) != g.sprint(Null)
    ensures EqualObj(g, Bool(b), Null, z) <==> z && !b
    ensures EqualObj(g, Num(n), Null, z) <==> z && n == 0.0
    ensures s != "<nil>" ==> (EqualObj(g, Str(s), Null, z) <==> z && s == "")
  {
    ScalarExact(g, z, Bool(b), Null);
    ScalarExact(g, z, Num(n), Null);
    ScalarExact(g, z, Str(s), Null);
    assert g.sprint(Str(s)) == s;
    assert !z ==> g.sprint(Bool(b)) != g.sprint(Null) && g.sprint(Num(n)) != g.sprint(Null);
  }

  // ---------- metadata ----------

  /** The annotation that kubectl keeps is not compared. */
  predicate Skipped(key: string, k: string) {
    key == "annotations" && k == "kubectl.kubernetes.io/last-applied-configuration"
  }

  /** Every label or annotation of the template is there. Without `z` the field must be there even if it is empty. */
  predicate FieldSatisfied(g: Lib, z: bool, key: string, d: map<string, Json>, e: Option<Json>)
    requires (forall k :: k in d ==> d[k].Str?) && (e.Some? ==> StringMap(e.value))
  {
    if e.None? then z && forall k | k in d :: Skipped(key, k)
    else
      forall k | k in d :: !Skipped(key, k) ==>
        k in e.value.fields && TextsAgree(g, d[k].s, e.value.fields[k].s)
  }

  lemma {:induction false} TextMatches(g: Lib, z: bool, a: string, o: Option<Json>)
    requires o.Some? ==> o.value.Str?
    ensures FieldMatches(g, Str(a), o, z) <==> o.Some? && TextsAgree(g, a, o.value.s)
  {
    assert o.Some? ==> g.sprint(Str(o.value.s)) == o.value.s;
  }

  function Unskipped(key: string, fields: map<string, Json>): map<string, Json> {
    map k | k in fields && !Skipped(key, k) :: fields[k]
  }

  /** The template's labels or annotations over the existing ones. */
  function Over(key: string, d: map<string, Json>, e: map<string, Json>): map<string, Json> {
    Unskipped(key, e) + Unskipped(key, d)
  }

  lemma {:induction false} CleanedFields(key: string, v: Json)
    requires v.Map? && (key == "labels" || key == "annotations")
    ensures var c := Clean(key, Some(v)).value;
      c.Map? && c.fields == Unskipped(key, v.fields)
  {
    LabelsAreNotAnnotations();
    if key == "annotations" {
      assert v.fields - {LAST_APPLIED} == Unskipped(key, v.fields);
    } else {
      assert v.fields == Unskipped(key, v.fields);
    }
  }

  /** What labels or annotations are compared: the template's over the existing ones. */
  lemma {:induction false} StringsOverlaid(g: Lib, z: bool, isNamespace: bool, key: string, d: Json, e: Json)
    requires StringMap(d) && StringMap(e) && (key == "labels" || key == "annotations")
    ensures FieldOf(g, z, MustHave, isNamespace, key, Some(d), Some(e)) == Some(Map(Over(key, d.fields, e.fields)))
  {
    CleanedFields(key, d);
    CleanedFields(key, e);
    var m := MergeSpecs(g, z, Clean(key, Some(d)).value, e);
    CleanedFields(key, m);
    StringsMerged(g, z, Unskipped(key, d.fields), e);
    var over := Over(key, d.fields, e.fields);
    OverIsMerged(key, d.fields, e.fields);
    assert MergedField(g, z, MustHave, key, Some(d), Some(e)) == Some(Map(over));
    if isNamespace && key == "annotations" {
      SccIsWithin(e, over);
    }
  }

  lemma {:induction false} OverIsMerged(key: string, d: map<string, Json>, e: map<string, Json>)
    ensures Unskipped(key, e + Unskipped(key, d)) == Over(key, d, e)
  {
  }

  lemma {:induction false} StringsMerged(g: Lib, z: bool, d: map<string, Json>, e: Json)
    requires StringMap(Map(d)) && StringMap(e)
    ensures MergeSpecs(g, z, Map(d), e) == Map(e.fields + d)
  {
    var m := MergeSpecs(g, z, Map(d), e).fields;
    forall k | k in m
      ensures m[k] == (e.fields + d)[k]
    {
      if k in d && k in e.fields {
        ScalarWins(g, z, d[k], e.fields[k]);
      }
    }
    assert m == e.fields + d;
  }

  lemma {:induction false} SccIsWithin(e: Json, fields: map<string, Json>)
    requires e.Map? && forall k :: k in e.fields && !Skipped("annotations", k) ==> k in fields
    ensures Scc(WithoutLastApplied(e)) + fields == fields
  {
    forall k | k in Scc(WithoutLastApplied(e))
      ensures k in fields
    {
      assert k in e.fields && k != LAST_APPLIED;
    }
  }

  lemma {:induction false} FieldExact(g: Lib, z: bool, isNamespace: bool, key: string, d: Json, e: Option<Json>)
    requires StringMap(d) && (e.Some? ==> StringMap(e.value)) && (key == "labels" || key == "annotations")
    ensures FieldDiffers(g, z, key, FieldOf(g, z, MustHave, isNamespace, key, Some(d), e), e) <==>
      !FieldSatisfied(g, z, key, d.fields, e)
  {
    if e.None? {
      CleanedFields(key, d);
      CleanedTwice(key, d);
      var c := Clean(key, Some(d)).value;
      assert |c.fields| == 0 <==> forall k :: k in d.fields ==> Skipped(key, k) by {
        if |c.fields| > 0 {
          var k :| k in c.fields;
          assert !Skipped(key, k);
        }
        assert forall k :: k in d.fields && !Skipped(key, k) ==> k in c.fields;
      }
    } else {
      StringsOverlaid(g, z, isNamespace, key, d, e.value);
      CleanedFields(key, e.value);
      OverlaidExact(g, z, key, d.fields, e.value.fields);
    }
  }

  lemma {:induction false} CleanedTwice(key: string, v: Json)
    requires v.Map?
    ensures Clean(key, Clean(key, Some(v))) == Clean(key, Some(v))
  {
    assert v.fields - {LAST_APPLIED} - {LAST_APPLIED} == v.fields - {LAST_APPLIED};
  }

  lemma {:induction false} OverlaidExact(g: Lib, z: bool, key: string, d: map<string, Json>, e: map<string, Json>)
    requires StringMap(Map(d)) && StringMap(Map(e))
    ensures FieldMatches(g, Map(Over(key, d, e)), Some(Map(Unskipped(key, e))), z) <==>
      FieldSatisfied(g, z, key, d, Some(Map(e)))
  {
    var f, c := Over(key, d, e), Unskipped(key, e);
    FieldsMatch(g, z, f, c);
    forall k | k in f
      ensures KeyAgrees(g, z, f, c, k) <==> TextKept(g, d, e, k)
    {
      OverlaidKey(g, z, key, d, e, k);
    }
    assert forall k :: k in d && !Skipped(key, k) <==> k in d && k in f;
  }

  predicate KeyAgrees(g: Lib, z: bool, f: map<string, Json>, c: map<string, Json>, k: string)
    requires k in f
  {
    FieldMatches(g, f[k], LookupOption(Map(c), k), z)
  }

  predicate TextKept(g: Lib, d: map<string, Json>, e: map<string, Json>, k: string)
    requires StringMap(Map(d)) && StringMap(Map(e))
  {
    k in d ==> k in e && TextsAgree(g, d[k].s, e[k].s)
  }

  lemma {:induction false} FieldsMatch(g: Lib, z: bool, f: map<string, Json>, c: map<string, Json>)
    requires c.Keys <= f.Keys
    ensures FieldMatches(g, Map(f), Some(Map(c)), z) <==> forall k | k in f :: KeyAgrees(g, z, f, c, k)
  {
    SubsetSize(c.Keys, f.Keys);
    assert |c| == |c.Keys| && |f| == |f.Keys|;
  }

  lemma {:induction false} OverlaidKey(g: Lib, z: bool, key: string, d: map<string, Json>, e: map<string, Json>,
                                       k: string)
    requires StringMap(Map(d)) && StringMap(Map(e)) && k in Over(key, d, e)
    ensures KeyAgrees(g, z, Over(key, d, e), Unskipped(key, e), k) <==> TextKept(g, d, e, k)
  {
    TextMatches(g, z, Over(key, d, e)[k].s, LookupOption(Map(Unskipped(key, e)), k));
  }

  ghost predicate StringLabels(d: Json) {
    d.Map? && forall key :: (key == "labels" || key == "annotations") && key in d.fields ==> StringMap(d.fields[key])
  }

  ghost predicate MetadataSatisfied(g: Lib, z: bool, d: Json, e: Json)
    requires StringLabels(d) && StringMaps(e)
  {
    forall key :: (key == "labels" || key == "annotations") && key in d.fields ==>
      FieldSatisfied(g, z, key, d.fields[key].fields, LookupOption(e, key))
  }

  lemma {:induction false} MetadataExact(g: Lib, z: bool, d: Json, e: Json, isNamespace: bool)
    requires StringLabels(d) && StringMaps(e)
    ensures SingleMetadata(g, z, MustHave, d, e, isNamespace).update <==> !MetadataSatisfied(g, z, d, e)
  {
    MetadataByField(g, z, MustHave, d, e, isNamespace);
    forall key | key == "labels" || key == "annotations"
      ensures FieldDiffers(g, z, key,
        FieldOf(g, z, MustHave, isNamespace, key, LookupOption(d, key), LookupOption(e, key)),
          LookupOption(e, key)) <==>
        key in d.fields && !FieldSatisfied(g, z, key, d.fields[key].fields, LookupOption(e, key))
    {
      if key in d.fields {
        FieldExact(g, z, isNamespace, key, d.fields[key], LookupOption(e, key));
      } else {
        UnwantedField(g, z, isNamespace, key, LookupOption(e, key));
      }
    }
  }

  /** Labels or annotations that the template does not mention do not differ. */
  lemma {:induction false} UnwantedField(g: Lib, z: bool, isNamespace: bool, key: string, e: Option<Json>)
    requires e.Some? ==> StringMap(e.value)
    requires key == "labels" || key == "annotations"
    ensures !FieldDiffers(g, z, key, FieldOf(g, z, MustHave, isNamespace, key, None, e), e)
  {
    if e.Some? {
      CleanedFields(key, e.value);
      var c := Clean(key, e).value;
      if isNamespace && key == "annotations" {
        SccIsWithin(e.value, c.fields);
      }
      FieldMatchesItself(g, c, z);
    }
  }

  // ---------- whole objects ----------

  /** A musthave template of lists of strings and string labels, and an object that the API server has stored. */
  ghost predicate Simple(t: Template, o: Object, z: bool) {
    && t.ct.MustHave? && (t.metadataCt.Some? ==> t.metadataCt.value.MustHave?) && Served(o)
    && forall key | key in t.definition && CompareKey(t, key) ::
      if key == "metadata" then StringLabels(t.definition[key])
      else StringValue(z, t.definition[key], ValueAt(o, key))
  }

  ghost predicate KeySatisfied(g: Lib, z: bool, t: Template, o: Object, key: string)
    requires Simple(t, o, z) && key in t.definition && CompareKey(t, key)
  {
    if key == "metadata" then MetadataSatisfied(g, z, t.definition[key], o[key])
    else EntrySatisfied(g, z, t.definition[key], ValueAt(o, key))
  }

  lemma {:induction false} KeyExact(g: Lib, z: bool, t: Template, o: Object, key: string)
    requires Simple(t, o, z) && key in t.definition && CompareKey(t, key)
    ensures var r := SingleKey(g, z, t, o, key); r.Compared? && !r.update <==> KeySatisfied(g, z, t, o, key)
  {
    if key == "metadata" {
      MetadataExact(g, z, t.definition[key], o[key], IsNamespace(t.definition));
    } else {
      EntryExact(g, z, t.definition[key], ValueAt(o, key));
    }
  }

  /** A listed object matches a simple template exactly if it satisfies every key but apiVersion and kind. */
  lemma {:induction false} MatchesExactly(g: Lib, t: Template, o: Object)
    requires Simple(t, o, true)
    ensures MatchesTemplate(g, t, o) <==>
      forall key | key in t.definition && key != "apiVersion" && key != "kind" :: KeySatisfied(g, true, t, o, key)
  {
    forall key | key in t.definition && CompareKey(t, key)
      ensures KeyMatches(g, t, o, key) <==> KeySatisfied(g, true, t, o, key)
    {
      KeyExact(g, true, t, o, key);
    }
    assert forall key :: key in t.definition && !CompareKey(t, key) ==> KeyMatches(g, t, o, key);
  }

  /** Nothing is asked of an object exactly if it satisfies every key of a simple template but apiVersion and kind. */
  lemma {:induction false} AcceptedExactly(g: Lib, t: Template, o: Object)
    requires Simple(t, o, false)
    ensures Accepted(g, t, o) <==>
      forall key | key in t.definition && key != "apiVersion" && key != "kind" :: KeySatisfied(g, false, t, o, key)
  {
    forall key | key in t.definition && CompareKey(t, key)
      ensures var r := SingleKey(g, false, t, o, key);
        r.Compared? && !r.update <==> KeySatisfied(g, false, t, o, key)
    {
      KeyExact(g, false, t, o, key);
    }
    AcceptedByKeys(g, t, o);
  }

  lemma {:induction false} AcceptedByKeys(g: Lib, t: Template, o: Object)
    requires OnCluster(o) && t.ct.MustHave?
    ensures Accepted(g, t, o) <==>
      forall key | key in t.definition && CompareKey(t, key) ::
        SingleKey(g, false, t, o, key).Compared? && !SingleKey(g, false, t, o, key).update
  {
    if Accepted(g, t, o) {
      forall key | key in t.definition && CompareKey(t, key)
        ensures SingleKey(g, false, t, o, key).Compared? && !SingleKey(g, false, t, o, key).update
      {
        AcceptedKey(g, t, o, key);
      }
    }
    if forall key | key in t.definition && CompareKey(t, key) ::
      SingleKey(g, false, t, o, key).Compared? && !SingleKey(g, false, t, o, key).update
    {
      assert "status" in t.definition ==> CompareKey(t, "status") by {
        assert |"status"| != |"kind"| && |"status"| != |"apiVersion"|;
      }
      assert forall key :: !Removed(t, o, key);
    }
  }
}
