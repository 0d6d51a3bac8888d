/**
 * Labels and annotations with mustonlyhave: the object has those of the template and no others, except the annotations
 * that OpenShift keeps on a namespace (controllers/configurationpolicy_utils.go, fmtMetadataForCompare).
 */
module OnlyMetadata {
  import opened Sorting
  import opened Json
  import opened Compare
  import opened ObjectKeys
  import opened SecondEvaluation
  import opened Namesakes
  import opened ObjectExact

  predicate LeftToNamespace(isNamespace: bool, key: string, k: string) {
    isNamespace && key == "annotations" && "openshift.io/sa.scc." <= k
  }

  /** All that the template has is there, and nothing else is but what is not compared. */
  predicate OnlyThose(g: Lib, z: bool, isNamespace: bool, key: string, d: map<string, Json>, e: Option<Json>)
    requires StringMap(Map(d)) && StringOption(e)
  {
    && FieldSatisfied(g, z, key, d, e)
    && (e.Some? ==> forall k | k in e.value.fields ::
          k in d || Skipped(key, k) || LeftToNamespace(isNamespace, key, k))
  }

  /** What is written of the labels or annotations. */
  function Kept(isNamespace: bool, key: string, d: map<string, Json>, e: map<string, Json>): map<string, Json> {
    (map k | k in e && LeftToNamespace(isNamespace, key, k) && !Skipped(key, k) :: e[k]) + Unskipped(key, d)
  }

  lemma {:induction false} PrefixMeans(k: string)
    ensures IsScc(k) <==> "openshift.io/sa.scc." <= k
  {
  }

  lemma {:induction false} KeptIsCompared(g: Lib, z: bool, isNamespace: bool, key: string, d: Json, e: Json)
    requires StringMap(d) && StringMap(e) && (key == "labels" || key == "annotations")
    ensures FieldOf(g, z, MustOnlyHave, isNamespace, key, Some(d), Some(e)) ==
      Some(Map(Kept(isNamespace, key, d.fields, e.fields)))
  {
    CleanedFields(key, d);
    CleanedTwice(key, d);
    var own, kept := Unskipped(key, d.fields), Kept(isNamespace, key, d.fields, e.fields);
    assert MergedField(g, z, MustOnlyHave, key, Some(d), Some(e)) == Some(Map(own));
    if isNamespace && key == "annotations" {
      CleanedFields(key, e);
      forall k
        ensures IsScc(k) <==> LeftToNamespace(isNamespace, key, k)
      {
        PrefixMeans(k);
      }
      assert Scc(WithoutLastApplied(e)) + own == kept;
    } else {
      assert own == kept;
    }
  }

  /** Two maps of strings match exactly if they have the same keys and the texts agree. */
  lemma {:induction false} TextsMatch(g: Lib, z: bool, f: map<string, Json>, c: map<string, Json>)
    requires StringMap(Map(f)) && StringMap(Map(c))
    ensures FieldMatches(g, Map(f), Some(Map(c)), z) <==>
      f.Keys == c.Keys && forall k | k in f && k in c :: TextsAgree(g, f[k].s, c[k].s)
  {
    forall k | k in f
      ensures KeyAgrees(g, z, f, c, k) <==> k in c && TextsAgree(g, f[k].s, c[k].s)
    {
      TextMatches(g, z, f[k].s, LookupOption(Map(c), k));
    }
    assert FieldMatches(g, Map(f), Some(Map(c)), z) <==>
      |f.Keys| >= |c.Keys| && forall k | k in f :: KeyAgrees(g, z, f, c, k) by {
      assert |c| == |c.Keys| && |f| == |f.Keys|;
    }
    if |f.Keys| >= |c.Keys| && f.Keys <= c.Keys {
      SameSize(f.Keys, c.Keys);
    }
  }

  lemma {:induction false} SameSize(a: set<string>, b: set<string>)
    requires a <= b && |a| >= |b|
    ensures a == b
  {
    forall k | k in b
      ensures k in a
    {
      if k !in a {
        SubsetSize(a, b - {k});
      }
    }
  }

  predicate OnlyTheseKeys(isNamespace: bool, key: string, d: set<string>, e: set<string>) {
    && (forall k | k in d :: !Skipped(key, k) ==> k in e)
    && (forall k | k in e :: k in d || Skipped(key, k) || LeftToNamespace(isNamespace, key, k))
  }

  lemma {:induction false} KeptKey(isNamespace: bool, key: string, d: map<string, Json>, e: map<string, Json>)
    ensures forall k :: k in Kept(isNamespace, key, d, e).Keys <==>
      !Skipped(key, k) && (k in d || (k in e && LeftToNamespace(isNamespace, key, k)))
    ensures forall k :: k in Unskipped(key, e).Keys <==> k in e && !Skipped(key, k)
  {
  }

  lemma {:induction false} KeptKeys(isNamespace: bool, key: string, d: map<string, Json>, e: map<string, Json>)
    ensures Kept(isNamespace, key, d, e).Keys == Unskipped(key, e).Keys <==>
      OnlyTheseKeys(isNamespace, key, d.Keys, e.Keys)
  {
    var f, c := Kept(isNamespace, key, d, e).Keys, Unskipped(key, e).Keys;
    KeptKey(isNamespace, key, d, e);
    if f == c {
      forall k | k in e
        ensures k in d || Skipped(key, k) || LeftToNamespace(isNamespace, key, k)
      {
        assert k in c <==> k in f;
      }
    } else {
      assert exists k :: (k in f) != (k in c);
    }
  }

  lemma {:induction false} KeptTexts(g: Lib, isNamespace: bool, key: string, d: map<string, Json>,
                                     e: map<string, Json>)
    requires StringMap(Map(d)) && StringMap(Map(e))
    ensures var f, c := Kept(isNamespace, key, d, e), Unskipped(key, e);
      (forall k | k in f && k in c :: TextsAgree(g, f[k].s, c[k].s)) <==>
        forall k | k in d && k in e :: !Skipped(key, k) ==> TextsAgree(g, d[k].s, e[k].s)
  {
    var f, c := Kept(isNamespace, key, d, e), Unskipped(key, e);
    assert forall k :: k in d && k in e && !Skipped(key, k) ==> k in f && k in c && f[k] == d[k] && c[k] == e[k];
  }

  lemma {:induction false} KeptExact(g: Lib, z: bool, isNamespace: bool, key: string, d: map<string, Json>,
                                     e: map<string, Json>)
    requires StringMap(Map(d)) && StringMap(Map(e))
    ensures FieldMatches(g, Map(Kept(isNamespace, key, d, e)), Some(Map(Unskipped(key, e))), z) <==>
      OnlyThose(g, z, isNamespace, key, d, Some(Map(e)))
  {
    TextsMatch(g, z, Kept(isNamespace, key, d, e), Unskipped(key, e));
    KeptKeys(isNamespace, key, d, e);
    KeptTexts(g, isNamespace, key, d, e);
  }

  /** The comparison of the labels or of the annotations. */
  lemma {:induction false} OnlyFieldExact(g: Lib, z: bool, isNamespace: bool, key: string, d: Json, e: Option<Json>)
    requires StringMap(d) && StringOption(e) && (key == "labels" || key == "annotations")
    ensures FieldDiffers(g, z, key, FieldOf(g, z, MustOnlyHave, isNamespace, key, Some(d), e), e) <==>
      !OnlyThose(g, z, isNamespace, key, d.fields, e)
  {
    if e.None? {
      FieldExact(g, z, isNamespace, key, d, e);
      assert FieldOf(g, z, MustOnlyHave, isNamespace, key, Some(d), e) ==
        FieldOf(g, z, MustHave, isNamespace, key, Some(d), e);
    } else {
      KeptIsCompared(g, z, isNamespace, key, d, e.value);
      CleanedFields(key, e.value);
      KeptExact(g, z, isNamespace, key, d.fields, e.value.fields);
    }
  }

  /** What is written when the object has the field or not; a field that the template does not have is dropped. */
  function Written(isNamespace: bool, key: string, d: Option<Json>, e: Option<Json>): Option<Json>
    requires StringOption(d) && StringOption(e)
  {
    if d.None? then None
    else Some(Map(Kept(isNamespace, key, d.value.fields, if e.Some? then e.value.fields else map[])))
  }

  lemma {:induction false} FieldWritten(g: Lib, z: bool, isNamespace: bool, key: string, d: Option<Json>,
                                        e: Option<Json>)
    requires StringOption(d) && StringOption(e) && (key == "labels" || key == "annotations")
    ensures Stored(FieldOf(g, z, MustOnlyHave, isNamespace, key, d, e)) == Written(isNamespace, key, d, e)
  {
    if d.Some? {
      CleanedFields(key, d.value);
      CleanedTwice(key, d.value);
      if e.Some? {
        KeptIsCompared(g, z, isNamespace, key, d.value, e.value);
      } else {
        assert Kept(isNamespace, key, d.value.fields, map[]) == Unskipped(key, d.value.fields);
      }
    }
  }

  // ---------- the metadata of an object ----------

  ghost predicate OnlyMetadata(t: Template, o: Object) {
    && "metadata" in t.definition && StringLabels(t.definition["metadata"]) && Served(o)
    && if t.metadataCt.Some? then t.metadataCt.value.MustOnlyHave? else t.ct.MustOnlyHave?
  }

  predicate OfNamespace(t: Template) {
    && "kind" in t.definition && t.definition["kind"] == Str("Namespace")
    && "apiVersion" in t.definition && t.definition["apiVersion"] == Str("v1")
  }

  lemma {:induction false} NamespaceMeans(t: Template)
    ensures IsNamespace(t.definition) <==> OfNamespace(t)
  {
  }

  /** The labels and annotations of the template are those of the object. */
  ghost predicate OnlyTheirs(g: Lib, z: bool, isNamespace: bool, d: Json, e: Json)
    requires StringLabels(d) && StringMaps(e)
  {
    forall key :: (key == "labels" || key == "annotations") && key in d.fields ==>
      OnlyThose(g, z, isNamespace, key, d.fields[key].fields, LookupOption(e, key))
  }

  lemma {:induction false} OnlyFieldDiffers(g: Lib, z: bool, isNamespace: bool, key: string, d: Json, e: Json)
    requires StringLabels(d) && StringMaps(e) && (key == "labels" || key == "annotations")
    ensures FieldDiffers(g, z, key,
      FieldOf(g, z, MustOnlyHave, isNamespace, key, LookupOption(d, key), LookupOption(e, key)),
      LookupOption(e, key)) <==>
      key in d.fields && !OnlyThose(g, z, isNamespace, key, d.fields[key].fields, LookupOption(e, key))
  {
    if key in d.fields {
      OnlyFieldExact(g, z, isNamespace, key, d.fields[key], LookupOption(e, key));
    }
  }

  lemma {:induction false} OnlyTheirsExact(g: Lib, z: bool, d: Json, e: Json, isNamespace: bool)
    requires StringLabels(d) && StringMaps(e)
    ensures SingleMetadata(g, z, MustOnlyHave, d, e, isNamespace).update <==> !OnlyTheirs(g, z, isNamespace, d, e)
  {
    MetadataByField(g, z, MustOnlyHave, d, e, isNamespace);
    OnlyFieldDiffers(g, z, isNamespace, "labels", d, e);
    OnlyFieldDiffers(g, z, isNamespace, "annotations", d, e);
  }

  /**
   * With mustonlyhave, metadata needs no update exactly if the object has the labels and annotations that the template
   * asks for, and no others beside them but, on a namespace, those of OpenShift.
   */
  lemma {:induction false} OnlyMetadataExact(g: Lib, z: bool, t: Template, o: Object)
    requires OnlyMetadata(t, o)
    ensures SingleKey(g, z, t, o, "metadata").update <==>
      !OnlyTheirs(g, z, OfNamespace(t), t.definition["metadata"], o["metadata"])
  {
    NamespaceMeans(t);
    OnlyTheirsExact(g, z, t.definition["metadata"], o["metadata"], OfNamespace(t));
  }

  /** What is sent of the labels or of the annotations, and of the other metadata, which stays. */
  lemma {:induction false} OnlyTheirsWritten(g: Lib, z: bool, d: Json, e: Json, isNamespace: bool)
    requires StringLabels(d) && StringMaps(e)
    ensures var r := SetMetadata(e, SingleMetadata(g, z, MustOnlyHave, d, e, isNamespace).merged);
      && LookupOption(r, "labels") ==
           Written(isNamespace, "labels", LookupOption(d, "labels"), LookupOption(e, "labels"))
      && LookupOption(r, "annotations") ==
           Written(isNamespace, "annotations", LookupOption(d, "annotations"), LookupOption(e, "annotations"))
      && forall key :: key != "labels" && key != "annotations" ==> LookupOption(r, key) == LookupOption(e, key)
  {
    MetadataByField(g, z, MustOnlyHave, d, e, isNamespace);
    FieldWritten(g, z, isNamespace, "labels", LookupOption(d, "labels"), LookupOption(e, "labels"));
    FieldWritten(g, z, isNamespace, "annotations", LookupOption(d, "annotations"), LookupOption(e, "annotations"));
    var labels := FieldOf(g, z, MustOnlyHave, isNamespace, "labels", LookupOption(d, "labels"),
      LookupOption(e, "labels"));
    var annotations := FieldOf(g, z, MustOnlyHave, isNamespace, "annotations", LookupOption(d, "annotations"),
      LookupOption(e, "annotations"));
    StoredFields(e, labels, annotations);
    OthersStay(e, TwoFields(labels, annotations));
  }

  lemma {:induction false} OthersStay(e: Json, merged: Json)
    requires e.Map? && merged.Map?
    ensures forall key :: key != "labels" && key != "annotations" ==>
      LookupOption(SetMetadata(e, merged), key) == LookupOption(e, key)
  {
  }

  /** So an update with mustonlyhave leaves a namespace the annotations of OpenShift, and drops all others. */
  lemma {:induction false} OnlyMetadataWritten(g: Lib, z: bool, t: Template, o: Object)
    requires OnlyMetadata(t, o)
    ensures var d, e := t.definition["metadata"], o["metadata"];
      var r := Rewritten(o, "metadata", SingleKey(g, z, t, o, "metadata").merged);
      && LookupOption(r, "labels") ==
           Written(OfNamespace(t), "labels", LookupOption(d, "labels"), LookupOption(e, "labels"))
      && LookupOption(r, "annotations") ==
           Written(OfNamespace(t), "annotations", LookupOption(d, "annotations"), LookupOption(e, "annotations"))
      && forall key :: key != "labels" && key != "annotations" ==> LookupOption(r, key) == LookupOption(e, key)
  {
    NamespaceMeans(t);
    OnlyTheirsWritten(g, z, t.definition["metadata"], o["metadata"], OfNamespace(t));
  }
}
