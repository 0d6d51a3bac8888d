/**
 * Templates all of whose lists are lists of strings: what can be said of them without looking at a merged value
 * (controllers/configurationpolicy_controller.go, controllers/configurationpolicy_utils.go).
 */
module StringLists {
  import opened Sorting
  import opened Json
  import opened Compare
  import opened Merge
  import opened Convergence
  import opened Soundness
  import opened Verdicts
  import opened ObjectKeys
  import opened SecondEvaluation
  import opened CallersSlice
  import opened EvaluationCache

  /** Every list of the template, at any depth of maps, is a list of strings. */
  ghost predicate ListsStrings(t: Json) {
    && (t.List? ==> Strings(t.items))
    && (t.Map? ==> forall k | k in t.fields :: ListsStrings(t.fields[k]))
  }

  /** So is every list that the existing value has where the template has one. */
  ghost predicate MeetsStrings(t: Json, e: Json) {
    && (t.List? && e.List? ==> Strings(e.items))
    && (t.Map? && e.Map? ==> forall k | k in t.fields && k in e.fields :: MeetsStrings(t.fields[k], e.fields[k]))
  }

  lemma {:induction false} SettlesOnItself(g: Lib, z: bool, t: Json)
    requires ListsStrings(t)
    ensures Settling(g, z, t, t)
  {
    if t.Map? {
      forall k | k in t.fields
        ensures Settling(g, z, t.fields[k], t.fields[k])
      {
        SettlesOnItself(g, z, t.fields[k]);
      }
    } else if t.List? {
      MergedStringsSettle(g, z, t.items, []);
    }
  }

  lemma {:induction false} MergedSettles(g: Lib, z: bool, t: Json, e: Json)
    requires ListsStrings(t) && MeetsStrings(t, e)
    ensures Settling(g, z, t, MergeSpecs(g, z, t, e))
    decreases t
  {
    SettlesOnItself(g, z, t);
    if t.Map? && e.Map? {
      var m := MergeSpecs(g, z, t, e);
      forall k | k in t.fields && k in m.fields
        ensures Settling(g, z, t.fields[k], m.fields[k])
      {
        SettlesOnItself(g, z, t.fields[k]);
        if k in e.fields {
          MergedSettles(g, z, t.fields[k], e.fields[k]);
        }
      }
    } else if t.List? && e.List? {
      MergedStringsSettle(g, z, t.items, e.items);
    }
  }

  /** Lists of strings have no maps that anything could be lost to. */
  lemma {:induction false} StringsHaveNoMaps(t: Json, e: Json)
    requires ListsStrings(t) && MeetsStrings(t, e)
    ensures NoEmptyMaps(t, e)
    decreases t
  {
    if t.Map? && e.Map? {
      forall k | k in t.fields && k in e.fields
        ensures NoEmptyMaps(t.fields[k], e.fields[k])
      {
        StringsHaveNoMaps(t.fields[k], e.fields[k]);
      }
    }
  }

  lemma {:induction false} SentSettles(g: Lib, z: bool, t: Json, e: Json)
    requires ListsStrings(t) && MeetsStrings(t, e)
    ensures NothingLost(g, z, t, e) && SentSpecs(g, z, t, e) == MergeSpecs(g, z, t, e)
    ensures Covers(g, MergeSpecs(g, z, t, e), t) && Settling(g, z, t, MergeSpecs(g, z, t, e))
  {
    StringsHaveNoMaps(t, e);
    NoEmptyMapsLoseNothing(g, z, t, e);
    MergeCovers(g, z, t, e);
    SentIsMerged(g, z, t, e);
    MergedSettles(g, z, t, e);
  }

  /** Enforcing such a template settles, whatever else the existing value has. */
  lemma {:induction false} StringTemplateSettles(g: Lib, z: bool, t: Json, e: Json)
    requires ListsStrings(t) && MeetsStrings(t, e)
    ensures var m := SentSpecs(g, z, t, e);
      Covers(g, m, t) && Settling(g, z, t, m) && EqualObj(g, MergeSpecs(g, z, t, m), m, z)
  {
    SentSettles(g, z, t, e);
    EnforcementSettles(g, z, t, e);
  }

  // ---------- the verdict ----------

  lemma {:induction false} StringSatisfied(g: Lib, t: Json, o: Json)
    requires t.Str? && o.Str?
    ensures ElementSatisfies(g, t, o) <==> t == o
  {
    StringMatches(g, false, t, o);
    assert t == o ==> ElementCovers(g, t, t);
  }

  /** A list of strings is satisfied exactly by the lists that have each of them as often. */
  lemma {:induction false} StringsSatisfied(g: Lib, z: bool, t: seq<Json>, e: seq<Json>)
    requires Strings(t) && Strings(e)
    ensures Satisfies(g, z, List(t), Some(List(e))) <==> multiset(t) <= multiset(e)
  {
    if p: seq<nat> :| Injection(p, |t|, |e|) && forall i | 0 <= i < |t| :: ElementSatisfies(g, t[i], e[p[i]]) {
      forall i | 0 <= i < |t|
        ensures t[i] == e[p[i]]
      {
        assert t[i] in t && e[p[i]] in e;
        StringSatisfied(g, t[i], e[p[i]]);
      }
      InjectionEmbeds(t, e, p);
    }
    if multiset(t) <= multiset(e) {
      var p := EmbeddingIndices(t, e);
      forall i | 0 <= i < |t|
        ensures ElementSatisfies(g, t[i], e[p[i]])
      {
        assert t[i] in t && e[p[i]] in e;
        StringSatisfied(g, t[i], e[p[i]]);
      }
    }
  }

  /** Inside a map the merged list of strings is compared with the same result as at the top. */
  lemma {:induction false} NestedStringsMatch(g: Lib, merging: bool, z: bool, t: seq<Json>, e: seq<Json>)
    requires Strings(t) && Strings(e) && multiset(t) <= multiset(e)
    ensures FieldMatches(g, MergeSpecs(g, merging, List(t), List(e)), Some(List(e)), z)
  {
    if e == [] {
      assert forall x :: x in t ==> x in multiset(e);
      assert t == [];
      FieldMatchesItself(g, List(t), z);
    } else {
      StringsAbsorbed(g, merging, t, e);
      StringKeys(g, e);
      ListsMatchIgnoresOrder(g, e, MergeArrays(g, merging, t, e));
    }
  }

  /** A satisfied template passes the comparison. */
  lemma {:induction false} SatisfiedPasses(g: Lib, merging: bool, z: bool, t: Json, o: Option<Json>)
    requires ListsStrings(t) && (z ==> NullFree(t)) && Satisfies(g, z, t, o)
    requires o.Some? ==> MeetsStrings(t, o.value)
    ensures FieldMatches(g, if o.Some? then MergeSpecs(g, merging, t, o.value) else t, o, z)
    decreases t
  {
    if t.Map? && o.Some? && o.value.Map? {
      MapPasses(g, merging, z, t, o.value);
    } else if t.List? && o.Some? && o.value.List? {
      StringsSatisfied(g, z, t.items, o.value.items);
      NestedStringsMatch(g, merging, z, t.items, o.value.items);
    } else if t.Null? && o.Some? && o.value.Map? {
      FieldMatchesItself(g, o.value, z);
    }
  }

  lemma {:induction false} MapPasses(g: Lib, merging: bool, z: bool, t: Json, e: Json)
    requires t.Map? && e.Map? && ListsStrings(t) && (z ==> NullFree(t)) && Satisfies(g, z, t, Some(e))
    requires MeetsStrings(t, e)
    ensures FieldMatches(g, MergeSpecs(g, merging, t, e), Some(e), z)
    decreases t, 0
  {
    var m := MergeSpecs(g, merging, t, e);
    assert m.fields.Keys >= e.fields.Keys;
    SubsetSize(e.fields.Keys, m.fields.Keys);
    forall k | k in m.fields
      ensures FieldMatches(g, m.fields[k], LookupOption(e, k), z)
    {
      if k in t.fields {
        SatisfiedPasses(g, merging, z, t.fields[k], LookupOption(e, k));
      } else {
        FieldMatchesItself(g, e.fields[k], z);
      }
    }
  }

  /**
   * For a template whose lists are lists of strings the verdict is exactly whether the existing object satisfies it;
   * where absent entries count as zero, if it has no nil entries.
   */
  lemma {:induction false} StringTemplateExact(g: Lib, merging: bool, z: bool, t: Json, e: Json)
    requires t.Map? && e.Map? && ListsStrings(t) && MeetsStrings(t, e) && (z ==> NullFree(t))
    ensures EqualObj(g, MergeSpecs(g, merging, t, e), e, z) <==> Satisfies(g, z, t, Some(e))
  {
    if EqualObj(g, MergeSpecs(g, merging, t, e), e, z) {
      SentSettles(g, merging, t, e);
      MergeCovers(g, merging, t, e);
      MatchSatisfies(g, z, t, MergeSpecs(g, merging, t, e), Some(e));
    }
    if Satisfies(g, z, t, Some(e)) {
      MapPasses(g, merging, z, t, e);
    }
  }

  // ---------- whole objects ----------

  ghost predicate KeyMeetsStrings(t: Template, o: Object, key: string)
    requires key in t.definition
  {
    ListsStrings(t.definition[key]) && MeetsStrings(t.definition[key], ValueAt(o, key))
  }

  /** A template of lists of strings, for an object that has lists of strings in the same places. */
  ghost predicate StringTemplate(t: Template, o: Object) {
    forall key | key in t.definition :: CompareKey(t, key) && key != "metadata" ==> KeyMeetsStrings(t, o, key)
  }

  lemma {:induction false} ComparedSettles(g: Lib, ct: ComplianceType, d: Json, e: Json, spare: nat)
    requires ListsStrings(d) && MeetsStrings(d, e)
    ensures SingleValue(g, false, ct, d, e).Compared? ==>
      WrittenSettles(g, d, SingleValue(g, false, ct, d, e).merged)
    ensures WrittenSettles(g, d, ValueCreated(g, false, ct, d, e, spare))
  {
    CoversItself(g, d);
    SettlesOnItself(g, false, d);
    SentSettles(g, false, d, e);
    if d.List? && e.List? {
      assert !HasMaps(d.items) && EMPTY !in e.items;
      ScalarsAreLeft(g, false, d.items, e.items, spare);
    }
  }

  /**
   * What an evaluation writes of such a template settles, and a conflict does no harm; so if the labels and annotations
   * can be stored, nothing else has to be known of the object.
   */
  lemma {:induction false} StringTemplateIsSafe(g: Lib, t: Template, o: Object, spare: Spare)
    requires OnCluster(o) && StringTemplate(t, o)
    ensures Steadfast(t, o) && SettlingKeys(g, t, Recreated(g, t, o, spare))
    ensures !Fails(g, t, o) ==> SettlingKeys(g, t, Result(g, t, o))
    ensures StorableMetadata(g, t) ==> Settles(g, t, o, spare)
  {
    forall key | CompareKey(t, key) && key != "metadata"
      ensures WrittenSettles(g, t.definition[key], Recreated(g, t, o, spare)[key])
      ensures !Fails(g, t, o) ==>
        key in Result(g, t, o) && WrittenSettles(g, t.definition[key], Result(g, t, o)[key])
      ensures Overwrites(t, o, key) ==>
        !HasMaps(t.definition[key].items) && EMPTY !in ValueAt(o, key).items
    {
      assert KeyMeetsStrings(t, o, key);
      ComparedSettles(g, t.ct, t.definition[key], ValueAt(o, key), spare(key));
      if !Fails(g, t, o) {
        WrittenKey(g, t, o, key);
        assert SingleKey(g, false, t, o, key).Compared?;
      }
    }
    assert forall key :: key in t.definition && CompareKey(t, key) && key != "metadata" ==> KeyMeetsStrings(t, o, key);
  }
}
