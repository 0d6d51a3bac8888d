/** An object for which handleKeys asks for no update satisfies its template, key by key. */
module ObjectVerdict {
  import opened Sorting
  import opened Json
  import opened Compare
  import opened Merge
  import opened Convergence
  import opened Soundness
  import opened Verdicts
  import opened ObjectKeys
  import opened SecondEvaluation

  /** What is known of an accepted list that is itself a top-level key. */
  ghost predicate ListAccepted(g: Lib, ct: ComplianceType, t: seq<Json>, e: seq<Json>) {
    if ct.MustOnlyHave? then
      && |t| == |e|
      && exists p: seq<nat> ::
           Injection(p, |e|, |t|) && forall i :: 0 <= i < |e| ==> ElementSatisfies(g, e[i], t[p[i]])
    else
      exists p: seq<nat>, with: seq<Json> :: ListPlaced(g, t, e, p, with)
  }

  /** Each template element has been absorbed by an existing element of its own. */
  ghost predicate ListPlaced(g: Lib, t: seq<Json>, e: seq<Json>, p: seq<nat>, with: seq<Json>) {
    && Injection(p, |t|, |e|) && |with| == |t|
    && forall i :: 0 <= i < |t| ==>
      with[i] in e && g.sprint(with[i]) == g.sprint(e[p[i]]) && Absorbed(g, false, t[i], with[i])
  }

  /** A map is satisfied if no element of the template is lost, which it cannot be with mustonlyhave. */
  ghost predicate ValueSatisfied(g: Lib, ct: ComplianceType, d: Json, e: Json) {
    match d
    case Map(_) => e.Map? && (ct.MustOnlyHave? || NothingLost(g, false, d, e) ==> Satisfies(g, false, d, Some(e)))
    case List(items) => if e.List? then ListAccepted(g, ct, items, e.items) else e.Null? && items == []
    case _ => g.sprint(d) == g.sprint(e)
  }

  lemma {:induction false} AcceptedList(g: Lib, ct: ComplianceType, t: seq<Json>, e: seq<Json>)
    requires EqualObj(g, MergeFor(g, false, ct, List(t), List(e)), List(e), false)
    ensures ListAccepted(g, ct, t, e)
  {
    if ct.MustOnlyHave? {
      var p := MustOnlyHaveListMeans(g, false, t, e);
    } else if e == [] {
      assert ListPlaced(g, t, e, [], []);
    } else {
      var p, with := ListVerdictSound(g, false, t, e);
      assert ListPlaced(g, t, e, p, with);
    }
  }

  lemma {:induction false} AcceptedValue(g: Lib, ct: ComplianceType, d: Json, e: Json)
    requires SingleValue(g, false, ct, d, e).Compared? && !SingleValue(g, false, ct, d, e).update
    ensures ValueSatisfied(g, ct, d, e)
  {
    if d.List? && e.List? {
      AcceptedList(g, ct, d.items, e.items);
    } else if d.Map? && e.Map? {
      if ct.MustOnlyHave? {
        MustOnlyHaveSound(g, false, d, e);
      } else if NothingLost(g, false, d, e) {
        VerdictSound(g, false, d, e);
      }
    }
  }

  /** Nothing is asked for. */
  ghost predicate Accepted(g: Lib, t: Template, o: Object) {
    OnCluster(o) && !Fails(g, t, o) && !UpdateNeeded(g, t, o) && !StatusMismatch(g, t, o)
  }

  lemma {:induction false} AcceptedKey(g: Lib, t: Template, o: Object, key: string)
    requires Accepted(g, t, o) && CompareKey(t, key)
    ensures SingleKey(g, false, t, o, key).Compared? && !SingleKey(g, false, t, o, key).update
  {
    assert key != "status" ==> !Differs(g, t, o, key);
  }

  /** Every key of the template but metadata is satisfied, as far as none of its list elements is lost. */
  lemma {:induction false} NoUpdateMeans(g: Lib, t: Template, o: Object, key: string)
    requires Accepted(g, t, o) && CompareKey(t, key) && key != "metadata"
    ensures ValueSatisfied(g, t.ct, t.definition[key], ValueAt(o, key))
  {
    AcceptedKey(g, t, o, key);
    AcceptedValue(g, t.ct, t.definition[key], ValueAt(o, key));
  }

  /** The merged labels or annotations have all that the template has there. */
  lemma {:induction false} FieldCovers(g: Lib, ct: ComplianceType, isNamespace: bool, key: string, d: Option<Json>,
                                       e: Option<Json>)
    requires d.Some? && (e.Some? ==> ct.MustOnlyHave? || NothingLost(g, false, Clean(key, d).value, e.value))
    ensures var f := FieldOf(g, false, ct, isNamespace, key, d, e);
      f.Some? && Covers(g, f.value, Clean(key, d).value)
  {
    var d' := Clean(key, d).value;
    CoversItself(g, d');
    if !ct.MustOnlyHave? && e.Some? {
      MergeCovers(g, false, d', e.value);
      CleanCovers(g, key, MergeSpecs(g, false, d', e.value), d);
    } else {
      CleanCovers(g, key, d', d);
    }
    var f := MergedField(g, false, ct, key, d, e);
    assert Covers(g, f.value, d');
    var w := FieldOf(g, false, ct, isNamespace, key, d, e);
    if d'.Map? && w != f {
      assert forall k :: k in f.value.fields ==> k in w.value.fields && w.value.fields[k] == f.value.fields[k];
    }
  }

  lemma {:induction false} CleanCovers(g: Lib, key: string, m: Json, d: Option<Json>)
    requires d.Some? && Covers(g, m, Clean(key, d).value)
    ensures Covers(g, Clean(key, Some(m)).value, Clean(key, d).value)
  {
  }

  /** Maps of strings have no maps in lists that anything could be lost to. */
  lemma {:induction false} StringMapLosesNothing(g: Lib, d: Json, e: Json)
    requires StringMap(e)
    ensures NothingLost(g, false, d, e)
  {
  }

  /** The template's labels and annotations, those that are compared, are satisfied by those of a stored object. */
  lemma {:induction false} NoUpdateMetadata(g: Lib, t: Template, o: Object, key: string)
    requires Accepted(g, t, o) && Served(o) && CompareKey(t, "metadata") && t.definition["metadata"].Map?
    requires key == "labels" || key == "annotations"
    ensures var d, e := LookupOption(t.definition["metadata"], key), LookupOption(o["metadata"], key);
      d.Some? ==> Satisfies(g, false, Clean(key, d).value, Clean(key, e))
  {
    var ct := if t.metadataCt.Some? then t.metadataCt.value else t.ct;
    var isNamespace := IsNamespace(t.definition);
    var d, e := LookupOption(t.definition["metadata"], key), LookupOption(o["metadata"], key);
    AcceptedKey(g, t, o, "metadata");
    MetadataByField(g, false, ct, t.definition["metadata"], o["metadata"], isNamespace);
    if d.Some? {
      if e.Some? {
        StringMapLosesNothing(g, Clean(key, d).value, e.value);
      }
      FieldCovers(g, ct, isNamespace, key, d, e);
      MatchSatisfies(g, false, Clean(key, d).value, FieldOf(g, false, ct, isNamespace, key, d, e).value, Clean(key, e));
    }
  }
}
