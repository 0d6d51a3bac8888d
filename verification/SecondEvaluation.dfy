/** After an update that the server stored as sent: what evaluating the object again finds. */
module SecondEvaluation {
  import opened Sorting
  import opened Json
  import opened Compare
  import opened Merge
  import opened Convergence
  import opened ObjectKeys

  /** Merging the template again leaves every written key but metadata as it is. */
  ghost predicate UnambiguousKeys(g: Lib, t: Template, written: Object) {
    forall key :: CompareKey(t, key) && key != "metadata" && key in written ==>
      Unambiguous(g, false, t.definition[key], written[key])
  }

  /** The written value has all of the template, and merging it again leaves no difference that the comparison sees. */
  ghost predicate WrittenSettles(g: Lib, d: Json, written: Json) {
    Covers(g, written, d) && Settling(g, false, d, written)
  }

  ghost predicate SettlingKeys(g: Lib, t: Template, written: Object) {
    forall key :: CompareKey(t, key) && key != "metadata" && key in written ==>
      WrittenSettles(g, t.definition[key], written[key])
  }

  /** The API server keeps labels and annotations as maps from strings to strings. */
  predicate StringMaps(md: Json) {
    md.Map? && forall key | key in md.fields :: key == "labels" || key == "annotations" ==> StringMap(md.fields[key])
  }

  predicate Served(o: Object) {
    OnCluster(o) && StringMaps(o["metadata"])
  }

  lemma {:induction false} ValueSettles(g: Lib, ct: ComplianceType, d: Json, e: Json)
    requires SingleValue(g, false, ct, d, e).Compared?
    requires WrittenSettles(g, d, SingleValue(g, false, ct, d, e).merged)
    ensures var m := SingleValue(g, false, ct, d, e).merged;
      && SingleValue(g, false, ct, d, m).Compared? && !SingleValue(g, false, ct, d, m).update
      && (Unambiguous(g, false, d, m) ==> SingleValue(g, false, ct, d, m).merged == m)
  {
    var m := SingleValue(g, false, ct, d, e).merged;
    MergeSeenEqual(g, false, d, m);
    SeenEqualItself(g, m);
    if Unambiguous(g, false, d, m) {
      MergeSettles(g, false, d, m);
      SentAgain(g, false, d, m);
    }
  }

  // ---------- metadata, field by field ----------

  function Clean(key: string, v: Option<Json>): Option<Json> {
    if key == "annotations" && v.Some? then Some(WithoutLastApplied(v.value)) else v
  }

  function Scc(v: Json): map<string, Json>
    requires v.Map?
  {
    map k | k in v.fields && IsScc(k) :: v.fields[k]
  }

  /** The template's labels or annotations, whatever they are, merged into the existing ones. */
  function MergedField(g: Lib, z: bool, ct: ComplianceType, key: string, d: Option<Json>, e: Option<Json>)
    : Option<Json> {
    var d' := Clean(key, d);
    Clean(key,
      if d'.None? then (if ct.MustOnlyHave? then None else e)
      else if ct.MustOnlyHave? || e.None? then d'
      else Some(MergeSpecs(g, z, d'.value, e.value)))
  }

  /** With the SCC annotations of an existing namespace. */
  function WithScc(isNamespace: bool, key: string, f: Option<Json>, e: Option<Json>): Option<Json> {
    if isNamespace && key == "annotations" && f.Some? && f.value.Map? && e.Some? && e.value.Map? then
      Some(Map(Scc(WithoutLastApplied(e.value)) + f.value.fields))
    else f
  }

  function FieldOf(g: Lib, z: bool, ct: ComplianceType, isNamespace: bool, key: string, d: Option<Json>,
                   e: Option<Json>): Option<Json>
  {
    WithScc(isNamespace, key, MergedField(g, z, ct, key, d, e), e)
  }

  /** The comparison of one of the two fields. */
  predicate FieldDiffers(g: Lib, z: bool, key: string, f: Option<Json>, e: Option<Json>) {
    f.Some? && !FieldMatches(g, f.value, Clean(key, e), z)
  }

  /** Metadata with nothing but the two compared fields. */
  function TwoFields(labels: Option<Json>, annotations: Option<Json>): Json {
    Map((if labels.Some? then map["labels" := labels.value] else map[]) +
        (if annotations.Some? then map["annotations" := annotations.value] else map[]))
  }

  lemma {:induction false} LabelsAreNotAnnotations()
    ensures "labels" != "annotations"
  {
    assert |"labels"| != |"annotations"|;
  }

  lemma {:induction false} TwoFieldsHave(labels: Option<Json>, annotations: Option<Json>)
    ensures LookupOption(TwoFields(labels, annotations), "labels") == labels
    ensures LookupOption(TwoFields(labels, annotations), "annotations") == annotations
  {
    LabelsAreNotAnnotations();
  }

  ghost predicate OnlyTwoFields(md: Json) {
    md.Map? && md.fields.Keys <= {"labels", "annotations"}
  }

  lemma {:induction false} FormattedFields(md: Json)
    requires md.Map?
    ensures OnlyTwoFields(FormatMetadata(md))
    ensures forall key :: key == "labels" || key == "annotations" ==>
      LookupOption(FormatMetadata(md), key) == Clean(key, LookupOption(md, key))
  {
    LabelsAreNotAnnotations();
  }

  lemma {:induction false} MergedFields(g: Lib, z: bool, ct: ComplianceType, d: Json, e: Json, key: string)
    requires d.Map? && e.Map? && (key == "labels" || key == "annotations")
    ensures LookupOption(FormatMetadata(MetadataMerge(g, z, ct, FormatMetadata(d), e)), key) ==
      MergedField(g, z, ct, key, LookupOption(d, key), LookupOption(e, key))
  {
    FormattedFields(d);
    FormattedFields(MetadataMerge(g, z, ct, FormatMetadata(d), e));
  }

  lemma {:induction false} ComparedFields(merged: Json, e: Json, key: string)
    requires merged.Map? && e.Map? && (key == "labels" || key == "annotations")
    ensures LookupOption(ComparedMetadata(merged, e), key) ==
      if key in merged.fields then Clean(key, LookupOption(e, key)) else None
  {
    FormattedFields(e);
  }

  lemma {:induction false} KeptSccFields(merged: Json, e: Json, key: string)
    requires OnlyTwoFields(merged) && e.Map? && (key == "labels" || key == "annotations")
    ensures OnlyTwoFields(KeepScc(merged, ComparedMetadata(merged, e)))
    ensures KeepScc(merged, ComparedMetadata(merged, e)).fields.Keys == merged.fields.Keys
    ensures LookupOption(KeepScc(merged, ComparedMetadata(merged, e)), key) ==
      WithScc(true, key, LookupOption(merged, key), LookupOption(e, key))
  {
    LabelsAreNotAnnotations();
    ComparedFields(merged, e, "annotations");
  }

  /** The comparison of metadata is that of its labels and its annotations. */
  lemma {:induction false} MetadataByField(g: Lib, z: bool, ct: ComplianceType, d: Json, e: Json, isNamespace: bool)
    requires d.Map? && e.Map?
    ensures var labels :=
      FieldOf(g, z, ct, isNamespace, "labels", LookupOption(d, "labels"), LookupOption(e, "labels"));
      var annotations :=
        FieldOf(g, z, ct, isNamespace, "annotations", LookupOption(d, "annotations"), LookupOption(e, "annotations"));
      && SingleMetadata(g, z, ct, d, e, isNamespace).merged == TwoFields(labels, annotations)
      && (SingleMetadata(g, z, ct, d, e, isNamespace).update <==>
            FieldDiffers(g, z, "labels", labels, LookupOption(e, "labels")) ||
            FieldDiffers(g, z, "annotations", annotations, LookupOption(e, "annotations")))
  {
    var formatted := FormatMetadata(MetadataMerge(g, z, ct, FormatMetadata(d), e));
    var existing := ComparedMetadata(formatted, e);
    var merged := if isNamespace then KeepScc(formatted, existing) else formatted;
    FormattedFields(MetadataMerge(g, z, ct, FormatMetadata(d), e));
    MergedFields(g, z, ct, d, e, "labels");
    MergedFields(g, z, ct, d, e, "annotations");
    KeptSccFields(formatted, e, "labels");
    KeptSccFields(formatted, e, "annotations");
    ComparedFields(formatted, e, "labels");
    ComparedFields(formatted, e, "annotations");
    FromTwoFields(merged);
    ComparedByField(g, z, merged, existing);
  }

  lemma {:induction false} FromTwoFields(md: Json)
    requires OnlyTwoFields(md)
    ensures md == TwoFields(LookupOption(md, "labels"), LookupOption(md, "annotations"))
  {
    LabelsAreNotAnnotations();
    assert md.fields == TwoFields(LookupOption(md, "labels"), LookupOption(md, "annotations")).fields;
  }

  lemma {:induction false} ComparedByField(g: Lib, z: bool, merged: Json, existing: Json)
    requires OnlyTwoFields(merged) && existing.Map? && existing.fields.Keys <= merged.fields.Keys
    ensures EqualObj(g, merged, existing, z) <==> forall key :: key == "labels" || key == "annotations" ==>
      key in merged.fields ==> FieldMatches(g, merged.fields[key], LookupOption(existing, key), z)
  {
    SubsetSize(existing.fields.Keys, merged.fields.Keys);
    assert |existing.fields| == |existing.fields.Keys| && |merged.fields| == |merged.fields.Keys|;
  }

  // ---------- what is written ----------

  /** SetLabels and SetAnnotations store a map of strings, and drop the field for anything else. */
  function Stored(f: Option<Json>): Option<Json> {
    if f.Some? && StringMap(f.value) then f else None
  }

  ghost predicate StringOption(v: Option<Json>) {
    v.Some? ==> StringMap(v.value)
  }

  /**
   * Labels or annotations of a template that can be stored: there are none, they are a map of strings, or they are no
   * map and an absent field is as good as them.
   */
  predicate StorableField(g: Lib, key: string, d: Option<Json>) {
    d.Some? ==> var v := Clean(key, d).value; if v.Map? then StringMap(v) else Blank(g, v)
  }

  predicate Storable(g: Lib, d: Json)
    requires d.Map?
  {
    StorableField(g, "labels", LookupOption(d, "labels")) &&
      StorableField(g, "annotations", LookupOption(d, "annotations"))
  }

  lemma {:induction false} StoredFields(e: Json, labels: Option<Json>, annotations: Option<Json>)
    requires StringMaps(e)
    ensures var e' := SetMetadata(e, TwoFields(labels, annotations));
      && StringMaps(e')
      && LookupOption(e', "labels") == Stored(labels) && LookupOption(e', "annotations") == Stored(annotations)
  {
    LabelsAreNotAnnotations();
    TwoFieldsHave(labels, annotations);
  }

  /** Writing the same two fields again changes nothing. */
  lemma {:induction false} StoredTwice(e: Json, labels: Option<Json>, annotations: Option<Json>)
    requires e.Map? && LookupOption(e, "labels") == Stored(labels) &&
      LookupOption(e, "annotations") == Stored(annotations)
    ensures SetMetadata(e, TwoFields(labels, annotations)) == e
  {
    LabelsAreNotAnnotations();
    TwoFieldsHave(labels, annotations);
    assert SetMetadata(e, TwoFields(labels, annotations)).fields == e.fields;
  }

  lemma {:induction false} MergeStringMaps(g: Lib, a: Json, b: Json)
    requires a.Map? && StringMap(b)
    ensures MergeSpecs(g, false, a, b) == Map(b.fields + a.fields)
  {
    var m := MergeSpecs(g, false, a, b);
    forall k | k in a.fields && k in b.fields
      ensures MergeSpecs(g, false, a.fields[k], b.fields[k]) == a.fields[k]
    {
      assert b.fields[k].Str?;
    }
    assert m.fields == b.fields + a.fields;
  }

  lemma {:induction false} LastAppliedIsNotScc()
    ensures !IsScc(LAST_APPLIED)
  {
    assert LAST_APPLIED[19] == 'i' && SCC_PREFIX[19] == '.';
  }

  /** The maps among the values a field can take. */
  function Overlaid(ct: ComplianceType, isNamespace: bool, key: string, d: map<string, Json>,
                    e: map<string, Json>): map<string, Json>
  {
    var m := if ct.MustOnlyHave? then d else e + d;
    var f := if key == "annotations" then m - {LAST_APPLIED} else m;
    if isNamespace && key == "annotations" then Scc(Map(e - {LAST_APPLIED})) + f else f
  }

  lemma {:induction false} OverlaidSettles(ct: ComplianceType, isNamespace: bool, key: string, d: map<string, Json>,
                                           e: map<string, Json>)
    requires key == "annotations" ==> LAST_APPLIED !in d
    ensures var m := Overlaid(ct, isNamespace, key, d, e);
      && Overlaid(ct, isNamespace, key, d, m) == m
      && (key == "annotations" ==> LAST_APPLIED !in m)
      && d.Keys <= m.Keys && (forall k :: k in d ==> m[k] == d[k])
      && (forall k :: k in m && k !in d ==> k in e && m[k] == e[k])
  {
    LastAppliedIsNotScc();
    var m := Overlaid(ct, isNamespace, key, d, e);
    assert Overlaid(ct, isNamespace, key, d, m) == m;
  }

  lemma {:induction false} OverlaidItself(ct: ComplianceType, isNamespace: bool, key: string, d: map<string, Json>)
    requires key == "annotations" ==> LAST_APPLIED !in d
    ensures Overlaid(ct, isNamespace, key, d, d) == d
  {
    assert d + d == d && (key == "annotations" ==> d - {LAST_APPLIED} == d);
    assert Scc(Map(d)) + d == d;
  }

  lemma {:induction false} MapField(g: Lib, ct: ComplianceType, isNamespace: bool, key: string, d: Json,
                                    e: Option<Json>)
    requires d.Map? && StringOption(e)
    ensures var c := WithoutLastApplied(d).fields;
      FieldOf(g, false, ct, isNamespace, key, Some(d), e) == Some(Map(
        if e.Some? then Overlaid(ct, isNamespace, key, if key == "annotations" then c else d.fields, e.value.fields)
        else if key == "annotations" then c else d.fields))
  {
    var c := WithoutLastApplied(d);
    assert c.fields - {LAST_APPLIED} == c.fields;
    if e.Some? {
      MergeStringMaps(g, c, e.value);
      MergeStringMaps(g, d, e.value);
    }
  }

  lemma {:induction false} NonMapField(g: Lib, ct: ComplianceType, isNamespace: bool, key: string, d: Json,
                                       e: Option<Json>)
    requires !d.Map? && (d.Null? ==> e.None? || ct.MustOnlyHave?) && StringOption(e)
    ensures FieldOf(g, false, ct, isNamespace, key, Some(d), e) == Some(d)
  {
  }

  /** Without a template's field, and for a nil one, it is the existing one, cleaned. */
  lemma {:induction false} NoField(g: Lib, ct: ComplianceType, isNamespace: bool, key: string, d: Option<Json>,
                                   e: Option<Json>)
    requires !ct.MustOnlyHave? && StringOption(e) && (d.None? || (d.value.Null? && e.Some?))
    ensures FieldOf(g, false, ct, isNamespace, key, d, e) == Clean(key, e)
  {
    if e.Some? {
      var c := WithoutLastApplied(e.value);
      assert Scc(c) + c.fields == c.fields;
    }
  }

  /** What a second evaluation makes of a field, whatever the template has there. */
  ghost predicate FieldAgain(g: Lib, ct: ComplianceType, isNamespace: bool, key: string, d: Option<Json>,
                             f: Option<Json>)
  {
    var s := Stored(f);
    var f' := FieldOf(g, false, ct, isNamespace, key, d, s);
    && Stored(f') == s
    && (FieldDiffers(g, false, key, f', s) <==> !StorableField(g, key, d))
    && (StorableField(g, key, d) ==> f' == f)
  }

  lemma {:induction false} FieldSettles(g: Lib, ct: ComplianceType, isNamespace: bool, key: string, d: Option<Json>,
                                        e: Option<Json>)
    requires StringOption(e)
    ensures FieldAgain(g, ct, isNamespace, key, d, FieldOf(g, false, ct, isNamespace, key, d, e))
  {
    if d.None? {
      NoneSettles(g, ct, isNamespace, key, e);
    } else if d.value.Map? {
      MapSettles(g, ct, isNamespace, key, d.value, e);
    } else if d.value.Null? && e.Some? && !ct.MustOnlyHave? {
      NullSettles(g, ct, isNamespace, key, e);
    } else {
      NonMapField(g, ct, isNamespace, key, d.value, e);
      NonMapField(g, ct, isNamespace, key, d.value, None);
    }
  }

  lemma {:induction false} CleanedIsStored(g: Lib, key: string, e: Json)
    requires StringMap(e)
    ensures var c := Clean(key, Some(e));
      Stored(c) == c && Clean(key, c) == c && !FieldDiffers(g, false, key, c, c)
  {
    var c := Clean(key, Some(e));
    if key == "annotations" {
      assert c.value.fields - {LAST_APPLIED} == c.value.fields;
    }
    FieldMatchesItself(g, c.value, false);
  }

  lemma {:induction false} NoneSettles(g: Lib, ct: ComplianceType, isNamespace: bool, key: string, e: Option<Json>)
    requires StringOption(e)
    ensures FieldAgain(g, ct, isNamespace, key, None, FieldOf(g, false, ct, isNamespace, key, None, e))
  {
    if !ct.MustOnlyHave? {
      NoField(g, ct, isNamespace, key, None, e);
      if e.Some? {
        CleanedIsStored(g, key, e.value);
        NoField(g, ct, isNamespace, key, None, Clean(key, e));
      }
    }
  }

  lemma {:induction false} NullSettles(g: Lib, ct: ComplianceType, isNamespace: bool, key: string, e: Option<Json>)
    requires StringOption(e) && e.Some? && !ct.MustOnlyHave?
    ensures FieldAgain(g, ct, isNamespace, key, Some(Null), FieldOf(g, false, ct, isNamespace, key, Some(Null), e))
  {
    NoField(g, ct, isNamespace, key, Some(Null), e);
    CleanedIsStored(g, key, e.value);
    NoField(g, ct, isNamespace, key, Some(Null), Clean(key, e));
  }

  lemma {:induction false} MapSettles(g: Lib, ct: ComplianceType, isNamespace: bool, key: string, d: Json,
                                      e: Option<Json>)
    requires d.Map? && StringOption(e)
    ensures FieldAgain(g, ct, isNamespace, key, Some(d), FieldOf(g, false, ct, isNamespace, key, Some(d), e))
  {
    var c := Clean(key, Some(d)).value.fields;
    var f := FieldOf(g, false, ct, isNamespace, key, Some(d), e);
    MapField(g, ct, isNamespace, key, d, e);
    assert key == "annotations" ==> LAST_APPLIED !in c;
    var first := if e.Some? then e.value.fields else map[];
    OverlaidSettles(ct, isNamespace, key, c, first);
    MapField(g, ct, isNamespace, key, d, Stored(f));
    if StringMap(Map(c)) {
      assert StringMap(f.value);
      OverlaidItself(ct, isNamespace, key, c);
      assert Clean(key, f).value.fields == f.value.fields;
      FieldMatchesItself(g, f.value, false);
    } else {
      var k :| k in c && !c[k].Str?;
      assert f.value.fields[k] == c[k];
    }
  }

  /**
   * Metadata that was written differs from the template the next time exactly if the template's labels or annotations
   * cannot be stored; in any case the next evaluation would write the same.
   */
  lemma {:induction false} MetadataSettles(g: Lib, ct: ComplianceType, d: Json, e: Json, isNamespace: bool)
    requires d.Map? && StringMaps(e)
    ensures var m := SingleMetadata(g, false, ct, d, e, isNamespace).merged;
      && m.Map? && StringMaps(SetMetadata(e, m))
      && var again := SingleMetadata(g, false, ct, d, SetMetadata(e, m), isNamespace);
         && again.Compared? && again.merged.Map?
         && (again.update <==> !Storable(g, d))
         && SetMetadata(SetMetadata(e, m), again.merged) == SetMetadata(e, m)
  {
    var dl, da := LookupOption(d, "labels"), LookupOption(d, "annotations");
    var labels := FieldOf(g, false, ct, isNamespace, "labels", dl, LookupOption(e, "labels"));
    var annotations := FieldOf(g, false, ct, isNamespace, "annotations", da, LookupOption(e, "annotations"));
    var e' := SetMetadata(e, TwoFields(labels, annotations));
    MetadataByField(g, false, ct, d, e, isNamespace);
    StoredFields(e, labels, annotations);
    FieldSettles(g, ct, isNamespace, "labels", dl, LookupOption(e, "labels"));
    FieldSettles(g, ct, isNamespace, "annotations", da, LookupOption(e, "annotations"));
    MetadataByField(g, false, ct, d, e', isNamespace);
    StoredTwice(e', FieldOf(g, false, ct, isNamespace, "labels", dl, LookupOption(e', "labels")),
                FieldOf(g, false, ct, isNamespace, "annotations", da, LookupOption(e', "annotations")));
  }

  /** Object definitions name their kind and version, which are not compared. */
  ghost predicate NamesItsKind(t: Template) {
    "kind" in t.definition && "apiVersion" in t.definition
  }

  lemma {:induction false} DesiredMetadata(g: Lib, ct: ComplianceType, d: Json, e: Json, isNamespace: bool)
    requires e.Map? && !d.Map?
    ensures SingleMetadata(g, false, ct, d, e, isNamespace) == SingleMetadata(g, false, ct, Map(map[]), e, isNamespace)
  {
    assert FormatMetadata(Map(map[])) == Map(map[]);
  }

  lemma {:induction false} WrittenKey(g: Lib, t: Template, e: Object, key: string)
    requires OnCluster(e) && !Fails(g, t, e) && CompareKey(t, key)
    ensures key in Result(g, t, e)
    ensures Result(g, t, e)[key] == Rewritten(e, key, SingleKey(g, false, t, e, key).merged)
  {
  }

  lemma {:induction false} ResultOnCluster(g: Lib, t: Template, e: Object)
    requires OnCluster(e) && !Fails(g, t, e)
    ensures OnCluster(Result(g, t, e))
  {
    var r := Result(g, t, e);
    assert !Removed(t, e, "metadata");
    if CompareKey(t, "metadata") {
      WrittenKey(g, t, e, "metadata");
    }
  }

  /** The template's labels and annotations can be stored. */
  predicate StorableMetadata(g: Lib, t: Template) {
    "metadata" in t.definition && t.definition["metadata"].Map? ==> Storable(g, t.definition["metadata"])
  }

  /** What evaluating a key of the written object `r` finds. */
  ghost predicate KeyAgain(g: Lib, t: Template, r: Object, key: string)
    requires key in t.definition && OnCluster(r)
  {
    var again := SingleKey(g, false, t, r, key);
    again.Compared? && (again.update <==> key == "metadata" && !StorableMetadata(g, t))
  }

  ghost predicate WrittenAgain(g: Lib, t: Template, r: Object, key: string)
    requires key in t.definition && OnCluster(r)
  {
    var again := SingleKey(g, false, t, r, key);
    again.Compared? && key in r && (key == "metadata" ==> again.merged.Map?) &&
      Rewritten(r, key, again.merged) == r[key]
  }

  lemma {:induction false} MetadataKeySettles(g: Lib, t: Template, e: Object)
    requires Served(e) && !Fails(g, t, e) && CompareKey(t, "metadata")
    ensures Served(Result(g, t, e))
    ensures KeyAgain(g, t, Result(g, t, e), "metadata") && WrittenAgain(g, t, Result(g, t, e), "metadata")
  {
    ResultOnCluster(g, t, e);
    WrittenKey(g, t, e, "metadata");
    var ct := if t.metadataCt.Some? then t.metadataCt.value else t.ct;
    var d := t.definition["metadata"];
    var isNamespace := IsNamespace(t.definition);
    if d.Map? {
      MetadataSettles(g, ct, d, e["metadata"], isNamespace);
    } else {
      DesiredMetadata(g, ct, d, e["metadata"], isNamespace);
      DesiredMetadata(g, ct, d, Result(g, t, e)["metadata"], isNamespace);
      MetadataSettles(g, ct, Map(map[]), e["metadata"], isNamespace);
    }
  }

  lemma {:induction false} ValueKeySettles(g: Lib, t: Template, e: Object, key: string)
    requires OnCluster(e) && !Fails(g, t, e) && CompareKey(t, key) && key != "metadata"
    requires SettlingKeys(g, t, Result(g, t, e))
    ensures OnCluster(Result(g, t, e)) && KeyAgain(g, t, Result(g, t, e), key)
    ensures UnambiguousKeys(g, t, Result(g, t, e)) ==> WrittenAgain(g, t, Result(g, t, e), key)
  {
    ResultOnCluster(g, t, e);
    WrittenKey(g, t, e, key);
    ValueSettles(g, t.ct, t.definition[key], ValueAt(e, key));
  }

  lemma {:induction false} ResultIsServed(g: Lib, t: Template, e: Object)
    requires Served(e) && !Fails(g, t, e)
    ensures Served(Result(g, t, e))
  {
    ResultOnCluster(g, t, e);
    if CompareKey(t, "metadata") {
      MetadataKeySettles(g, t, e);
    } else {
      assert !Removed(t, e, "metadata");
      assert Result(g, t, e)["metadata"] == e["metadata"];
    }
  }

  /** Keys removed for mustonlyhave are gone; the kind that exempts some of them is kept. */
  lemma {:induction false} NothingLeftToRemove(g: Lib, t: Template, e: Object, key: string)
    requires OnCluster(e) && !Fails(g, t, e) && NamesItsKind(t)
    ensures !Removed(t, Result(g, t, e), key)
  {
    var r := Result(g, t, e);
    assert !Removed(t, e, "kind") && !Removed(t, e, "apiVersion");
    assert "kind" in r <==> "kind" in e;
    assert "apiVersion" in r <==> "apiVersion" in e;
    if key in r && key !in t.definition {
      assert key in e && !Removed(t, e, key);
    }
  }

  /**
   * A second evaluation of what was written asks for an update exactly if the template's labels or annotations cannot
   * be stored; and where no list is reordered either, it would write the same object.
   */
  lemma {:induction false} ObjectSettles(g: Lib, t: Template, e: Object)
    requires Served(e) && !Fails(g, t, e) && NamesItsKind(t)
    requires SettlingKeys(g, t, Result(g, t, e))
    ensures var r := Result(g, t, e);
      && Served(r) && !Fails(g, t, r) && !StatusMismatch(g, t, r)
      && (UpdateNeeded(g, t, r) <==> !StorableMetadata(g, t))
      && (UnambiguousKeys(g, t, r) ==> Result(g, t, r) == r)
  {
    var r := Result(g, t, e);
    ResultIsServed(g, t, e);
    forall key | CompareKey(t, key)
      ensures KeyAgain(g, t, r, key)
      ensures UnambiguousKeys(g, t, r) ==> WrittenAgain(g, t, r, key)
    {
      if key == "metadata" {
        MetadataKeySettles(g, t, e);
      } else {
        ValueKeySettles(g, t, e, key);
      }
    }
    forall key
      ensures !Removed(t, r, key)
    {
      NothingLeftToRemove(g, t, e, key);
    }
    FoundAgain(g, t, r);
    if UnambiguousKeys(g, t, r) {
      NothingToWrite(g, t, r);
    }
  }

  lemma {:induction false} FoundAgain(g: Lib, t: Template, r: Object)
    requires OnCluster(r) && (forall key :: !Removed(t, r, key)) &&
      (forall key :: CompareKey(t, key) ==> KeyAgain(g, t, r, key))
    ensures !Fails(g, t, r) && !StatusMismatch(g, t, r)
    ensures UpdateNeeded(g, t, r) <==> !StorableMetadata(g, t)
  {
    if "status" in t.definition {
      assert |"status"| != |"kind"| && |"status"| != |"apiVersion"| && |"status"| != |"metadata"|;
      assert CompareKey(t, "status");
    }
    if !StorableMetadata(g, t) {
      assert CompareKey(t, "metadata") && Differs(g, t, r, "metadata");
    }
  }

  lemma {:induction false} NothingToWrite(g: Lib, t: Template, r: Object)
    requires OnCluster(r) && !Fails(g, t, r) && forall key :: !Removed(t, r, key)
    requires forall key :: CompareKey(t, key) ==> WrittenAgain(g, t, r, key)
    ensures Result(g, t, r) == r
  {
    assert forall key :: key in Result(g, t, r) <==> key in r;
    assert Result(g, t, r) == r;
  }
}
