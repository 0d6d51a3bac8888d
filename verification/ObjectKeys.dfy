/**
 * The key by key comparison of a desired object with the existing one
 * (controllers/configurationpolicy_controller.go, handleSingleKey and handleKeys).
 */
module ObjectKeys {
  import opened Json
  import opened Compare
  import opened Merge

  datatype ComplianceType = MustHave | MustNotHave | MustOnlyHave

  type Object = map<string, Json>

  function MergeFor(g: Lib, z: bool, ct: ComplianceType, d: Json, e: Json): Json {
    if ct.MustOnlyHave? then d else MergeSpecs(g, z, d, e)
  }

  /** The merged value as it would be sent. */
  function SentFor(g: Lib, z: bool, ct: ComplianceType, d: Json, e: Json): Json {
    if ct.MustOnlyHave? then d else SentSpecs(g, z, d, e)
  }

  /** The result for one key: a type mismatch, or whether the merged value differs, and what would be sent of it. */
  datatype KeyResult = TypeMismatch | Compared(update: bool, merged: Json)

  predicate DenyListed(key: string) {
    key == "apiVersion" || key == "kind"
  }

  /** handleSingleKey for every key but metadata. `e` is Null when the key is absent. */
  function SingleValue(g: Lib, z: bool, ct: ComplianceType, d: Json, e: Json): KeyResult {
    if (d.List? && e.List?) || (d.Map? && e.Map?) then
      Compared(!EqualObj(g, MergeFor(g, z, ct, d, e), e, z), SentFor(g, z, ct, d, e))
    else if (d.List? || d.Map?) && !e.Null? then TypeMismatch
    else Compared(!EqualObj(g, d, e, z), d)
  }

  /** The types do not match exactly if the template has a list or a map, and the object has something else there. */
  lemma {:induction false} MismatchMeans(g: Lib, z: bool, ct: ComplianceType, d: Json, e: Json)
    ensures SingleValue(g, z, ct, d, e) == TypeMismatch <==>
      (d.List? && e != Null && !e.List?) || (d.Map? && e != Null && !e.Map?)
    ensures d.Map? && e == Null ==> SingleValue(g, z, ct, d, e) == Compared(true, d)
    ensures d.List? && e == Null ==> SingleValue(g, z, ct, d, e) == Compared(d != List([]), d)
    ensures !d.List? && !d.Map? ==> SingleValue(g, z, ct, d, e).Compared? && SingleValue(g, z, ct, d, e).merged == d
    ensures ct == MustOnlyHave && SingleValue(g, z, ct, d, e).Compared? ==> SingleValue(g, z, ct, d, e).merged == d
  {
  }

  const LAST_APPLIED := "kubectl.kubernetes.io/last-applied-configuration"

  const SCC_PREFIX := "openshift.io/sa.scc."

  function WithoutLastApplied(v: Json): Json {
    if v.Map? then Map(v.fields - {LAST_APPLIED}) else v
  }

  /** formatMetadata: the labels, and the annotations that are compared. */
  function FormatMetadata(md: Json): Json
    requires md.Map?
  {
    Map(map k | k in md.fields && (k == "labels" || k == "annotations") ::
          if k == "labels" then md.fields[k] else WithoutLastApplied(md.fields[k]))
  }

  predicate IsScc(key: string) {
    SCC_PREFIX <= key
  }

  /** The SCC annotations of an existing namespace are carried over. */
  function KeepScc(merged: Json, existing: Json): Json
    requires merged.Map? && existing.Map?
  {
    if !("annotations" in merged.fields && "annotations" in existing.fields) then merged
    else
      var m, e := merged.fields["annotations"], existing.fields["annotations"];
      if !m.Map? || !e.Map? then merged
      else
        Map(merged.fields["annotations" :=
          Map((map k | k in e.fields && IsScc(k) :: e.fields[k]) + m.fields)])
  }

  /** fmtMetadataForCompare, the existing side: what the merged side lacks is not compared. */
  function ComparedMetadata(merged: Json, existing: Json): Json
    requires merged.Map? && existing.Map?
  {
    Map(map k | k in FormatMetadata(existing).fields && k in merged.fields :: FormatMetadata(existing).fields[k])
  }

  /** handleSingleKey for metadata. */
  function SingleMetadata(g: Lib, z: bool, ct: ComplianceType, d: Json, e: Json, isNamespace: bool): KeyResult
    requires e.Map?
  {
    var desired := if d.Map? then FormatMetadata(d) else Map(map[]);
    var formatted := FormatMetadata(MetadataMerge(g, z, ct, desired, e));
    var existing := ComparedMetadata(formatted, e);
    var merged := if isNamespace then KeepScc(formatted, existing) else formatted;
    Compared(!EqualObj(g, merged, existing, z), merged)
  }

  function MetadataMerge(g: Lib, z: bool, ct: ComplianceType, d: Json, e: Json): (r: Json)
    requires d.Map? && e.Map?
    ensures r.Map?
  {
    MergeFor(g, z, ct, d, e)
  }

  predicate StringMap(v: Json) {
    v.Map? && forall k | k in v.fields :: v.fields[k].Str?
  }

  /** SetLabels or SetAnnotations with the string map found under `key`, which is removed if there is none. */
  function SetStringMap(md: map<string, Json>, key: string, merged: map<string, Json>): map<string, Json> {
    if key in merged && StringMap(merged[key]) then md[key := merged[key]] else md - {key}
  }

  function SetMetadata(md: Json, merged: Json): Json
    requires md.Map? && merged.Map?
  {
    Map(SetStringMap(SetStringMap(md.fields, "annotations", merged.fields), "labels", merged.fields))
  }

  /** What handleKeys is called with, apart from the existing object. */
  datatype Template = Template(definition: Object, ct: ComplianceType, metadataCt: Option<ComplianceType>)

  /** For each key of a template that holds a list, how much room there is behind the slice. */
  type Spare = string -> nat

  function IsString(o: Object, key: string, s: string): bool {
    key in o && o[key] == Str(s)
  }

  predicate IsNamespace(o: Object) {
    IsString(o, "kind", "Namespace") && IsString(o, "apiVersion", "v1")
  }

  /** Objects read from the cluster have a metadata map. */
  predicate OnCluster(o: Object) {
    "metadata" in o && o["metadata"].Map?
  }

  function ValueAt(o: Object, key: string): Json {
    if key in o then o[key] else Null
  }

  function SingleKey(g: Lib, z: bool, t: Template, existing: Object, key: string): KeyResult
    requires key in t.definition && OnCluster(existing)
  {
    if key == "metadata" then
      var ct := if t.metadataCt.Some? then t.metadataCt.value else t.ct;
      SingleMetadata(g, z, ct, t.definition[key], existing[key], IsNamespace(t.definition))
    else SingleValue(g, z, t.ct, t.definition[key], ValueAt(existing, key))
  }

  /** The value a compared key gets in the object that would be sent to the API server. */
  function Rewritten(existing: Object, key: string, merged: Json): Json
    requires OnCluster(existing) && (key == "metadata" ==> merged.Map?)
  {
    if key == "metadata" then SetMetadata(existing[key], merged) else merged
  }

  predicate CompareKey(t: Template, key: string) {
    key in t.definition && !DenyListed(key)
  }

  /** What comparing leaves of a template value: a list that is itself a top-level key is overwritten by mergeArrays. */
  function ValueLeft(g: Lib, z: bool, ct: ComplianceType, d: Json, e: Json, spare: nat): Json {
    if d.List? && e.List? && !ct.MustOnlyHave? then List(CallersList(g, z, d.items, e.items, spare)) else d
  }

  /** And what is sent of it when the object is created from the template. */
  function ValueCreated(g: Lib, z: bool, ct: ComplianceType, d: Json, e: Json, spare: nat): Json {
    if d.List? && e.List? && !ct.MustOnlyHave? then List(CallersSent(g, z, d.items, e.items, spare)) else d
  }

  function KeyLeft(g: Lib, z: bool, t: Template, existing: Object, key: string, spare: Spare): Json
    requires key in t.definition
  {
    if CompareKey(t, key) && key != "metadata" then
      ValueLeft(g, z, t.ct, t.definition[key], ValueAt(existing, key), spare(key))
    else t.definition[key]
  }

  function KeyCreated(g: Lib, z: bool, t: Template, existing: Object, key: string, spare: Spare): Json
    requires key in t.definition
  {
    if CompareKey(t, key) && key != "metadata" then
      ValueCreated(g, z, t.ct, t.definition[key], ValueAt(existing, key), spare(key))
    else t.definition[key]
  }

  /** The template's definition when the keys in `visited` have been compared. */
  function DefinitionLeft(g: Lib, z: bool, t: Template, existing: Object, visited: set<string>, spare: Spare): Object
    requires visited <= t.definition.Keys
  {
    map key | key in t.definition ::
      if key in visited then KeyLeft(g, z, t, existing, key, spare) else t.definition[key]
  }

  function DefinitionCreated(g: Lib, z: bool, t: Template, existing: Object, visited: set<string>, spare: Spare): Object
    requires visited <= t.definition.Keys
  {
    map key | key in t.definition ::
      if key in visited then KeyCreated(g, z, t, existing, key, spare) else t.definition[key]
  }

  /** A key that has not been visited is compared as if none had been. */
  lemma {:induction false} NotVisited(g: Lib, z: bool, t: Template, existing: Object, visited: set<string>,
                                      spare: Spare, key: string)
    requires visited <= t.definition.Keys && key in t.definition && key !in visited && OnCluster(existing)
    ensures var t' := t.(definition := DefinitionLeft(g, z, t, existing, visited, spare));
      && SingleKey(g, z, t', existing, key) == SingleKey(g, z, t, existing, key)
      && KeyLeft(g, z, t', existing, key, spare) == KeyLeft(g, z, t, existing, key, spare)
      && KeyCreated(g, z, t', existing, key, spare) == KeyCreated(g, z, t, existing, key, spare)
  {
  }

  lemma {:induction false} VisitAnother(g: Lib, z: bool, t: Template, existing: Object, visited: set<string>,
                                        spare: Spare, key: string)
    requires visited <= t.definition.Keys && key in t.definition
    ensures DefinitionLeft(g, z, t, existing, visited + {key}, spare) ==
      DefinitionLeft(g, z, t, existing, visited, spare)[key := KeyLeft(g, z, t, existing, key, spare)]
  {
  }

  lemma {:induction false} CreateAnother(g: Lib, z: bool, t: Template, existing: Object, visited: set<string>,
                                         spare: Spare, key: string)
    requires visited <= t.definition.Keys && key in t.definition
    ensures DefinitionCreated(g, z, t, existing, visited + {key}, spare) ==
      DefinitionCreated(g, z, t, existing, visited, spare)[key := KeyCreated(g, z, t, existing, key, spare)]
  {
  }

  /** Keys that mustonlyhave removes from the existing object. */
  predicate Removed(t: Template, existing: Object, key: string) {
    && t.ct.MustOnlyHave?
    && key in existing && key !in t.definition && key != "status" && key != "metadata"
    && !(IsString(existing, "kind", "ServiceAccount") && IsString(existing, "apiVersion", "v1") &&
         (key == "secrets" || key == "imagePullSecrets"))
  }

  /** Some key of the template has another type than the existing one. */
  predicate Fails(g: Lib, t: Template, existing: Object)
    requires OnCluster(existing)
  {
    exists key | key in t.definition :: CompareKey(t, key) && SingleKey(g, false, t, existing, key).TypeMismatch?
  }

  predicate Differs(g: Lib, t: Template, existing: Object, key: string)
    requires key in t.definition && OnCluster(existing)
  {
    var r := SingleKey(g, false, t, existing, key);
    r.Compared? && r.update
  }

  predicate StatusMismatch(g: Lib, t: Template, existing: Object)
    requires OnCluster(existing)
  {
    "status" in t.definition && Differs(g, t, existing, "status")
  }

  /** Some key outside status needs an update. */
  predicate KeyUpdate(g: Lib, t: Template, existing: Object, visited: set<string>)
    requires OnCluster(existing) && visited <= t.definition.Keys
  {
    exists key | key in visited :: CompareKey(t, key) && key != "status" && Differs(g, t, existing, key)
  }

  predicate UpdateNeeded(g: Lib, t: Template, existing: Object)
    requires OnCluster(existing)
  {
    || KeyUpdate(g, t, existing, t.definition.Keys)
    || (exists key | key in existing :: Removed(t, existing, key))
  }

  predicate Comparable(g: Lib, t: Template, existing: Object, visited: set<string>)
    requires OnCluster(existing) && visited <= t.definition.Keys
  {
    forall key | key in visited :: CompareKey(t, key) ==> SingleKey(g, false, t, existing, key).Compared?
  }

  /** The existing object with the compared keys among `visited` rewritten. */
  function Overwritten(g: Lib, t: Template, existing: Object, visited: set<string>): Object
    requires OnCluster(existing) && visited <= t.definition.Keys && Comparable(g, t, existing, visited)
  {
    map key | key in existing.Keys + visited && (key in existing || CompareKey(t, key)) ::
      if key in visited && CompareKey(t, key) then
        Rewritten(existing, key, SingleKey(g, false, t, existing, key).merged)
      else existing[key]
  }

  /** The existing object as handleKeys leaves it. */
  function Result(g: Lib, t: Template, existing: Object): Object
    requires OnCluster(existing) && !Fails(g, t, existing)
  {
    var all := Overwritten(g, t, existing, t.definition.Keys);
    map key | key in all && !Removed(t, existing, key) :: all[key]
  }

  lemma {:induction false} UpdateOne(g: Lib, t: Template, existing: Object, visited: set<string>, key: string)
    requires OnCluster(existing) && visited <= t.definition.Keys && key in t.definition
    ensures KeyUpdate(g, t, existing, visited + {key}) <==>
      KeyUpdate(g, t, existing, visited) || (CompareKey(t, key) && key != "status" && Differs(g, t, existing, key))
  {
    if CompareKey(t, key) && key != "status" && Differs(g, t, existing, key) {
      assert key in visited + {key};
    }
    if KeyUpdate(g, t, existing, visited) {
      var k :| k in visited && CompareKey(t, k) && k != "status" && Differs(g, t, existing, k);
      assert k in visited + {key};
    }
  }

  lemma {:induction false} OverwriteOne(g: Lib, t: Template, existing: Object, visited: set<string>, key: string)
    requires OnCluster(existing) && visited <= t.definition.Keys && key in t.definition && key !in visited
    requires Comparable(g, t, existing, visited)
    requires CompareKey(t, key) ==> SingleKey(g, false, t, existing, key).Compared?
    ensures Comparable(g, t, existing, visited + {key})
    ensures Overwritten(g, t, existing, visited + {key}) ==
      if CompareKey(t, key) then
        Overwritten(g, t, existing, visited)[
          key := Rewritten(existing, key, SingleKey(g, false, t, existing, key).merged)]
      else Overwritten(g, t, existing, visited)
  {
  }

  /**
   * What handleKeys has found and changed so far: the flags, the existing object, and the template as the next
   * comparison finds it and as it would be sent.
   */
  datatype Progress = Progress(update: bool, statusMismatch: bool, result: Object, left: Object, created: Object)

  /** The keys in `visited` have been compared. */
  ghost predicate ComparedUpTo(g: Lib, t: Template, existing: Object, spare: Spare, visited: set<string>, p: Progress)
    requires OnCluster(existing) && visited <= t.definition.Keys
  {
    && Comparable(g, t, existing, visited)
    && p.result == Overwritten(g, t, existing, visited)
    && p.left == DefinitionLeft(g, false, t, existing, visited, spare)
    && p.created == DefinitionCreated(g, false, t, existing, visited, spare)
    && p.statusMismatch == ("status" in visited && StatusMismatch(g, t, existing))
    && p.update == KeyUpdate(g, t, existing, visited)
  }

  lemma {:induction false} NothingCompared(g: Lib, t: Template, existing: Object, spare: Spare)
    requires OnCluster(existing)
    ensures ComparedUpTo(g, t, existing, spare, {}, Progress(false, false, existing, t.definition, t.definition))
  {
  }

  /** A deny-listed key is passed over. */
  lemma {:induction false} PassOver(g: Lib, t: Template, existing: Object, spare: Spare, visited: set<string>,
                                    p: Progress, key: string)
    requires OnCluster(existing) && visited <= t.definition.Keys && key in t.definition && key !in visited
    requires ComparedUpTo(g, t, existing, spare, visited, p) && DenyListed(key)
    ensures ComparedUpTo(g, t, existing, spare, visited + {key}, p)
  {
    UpdateOne(g, t, existing, visited, key);
    VisitAnother(g, false, t, existing, visited, spare, key);
    CreateAnother(g, false, t, existing, visited, spare, key);
    OverwriteOne(g, t, existing, visited, key);
  }

  /** One round of the loop: None if the types do not match. The template is compared as earlier rounds have left it. */
  function NextProgress(g: Lib, t: Template, existing: Object, spare: Spare, p: Progress, key: string): Option<Progress>
    requires OnCluster(existing) && key in p.left
  {
    var now := t.(definition := p.left);
    var r := SingleKey(g, false, now, existing, key);
    if r.TypeMismatch? then None
    else
      Some(Progress(
        p.update || (r.update && key != "status"),
        p.statusMismatch || (r.update && key == "status"),
        p.result[key := Rewritten(existing, key, r.merged)],
        p.left[key := KeyLeft(g, false, now, existing, key, spare)],
        p.created[key := KeyCreated(g, false, now, existing, key, spare)]))
  }

  /** A key that has not been visited is compared as if none had been, and what it gives is noted. */
  lemma {:induction false} CompareAnother(g: Lib, t: Template, existing: Object, spare: Spare, visited: set<string>,
                                          p: Progress, key: string)
    requires OnCluster(existing) && visited <= t.definition.Keys && key in t.definition && key !in visited
    requires ComparedUpTo(g, t, existing, spare, visited, p) && !DenyListed(key)
    ensures key in p.left
    ensures var next := NextProgress(g, t, existing, spare, p, key);
      if next.None? then Fails(g, t, existing)
      else ComparedUpTo(g, t, existing, spare, visited + {key}, next.value)
  {
    NotVisited(g, false, t, existing, visited, spare, key);
    if SingleKey(g, false, t, existing, key).Compared? {
      UpdateOne(g, t, existing, visited, key);
      VisitAnother(g, false, t, existing, visited, spare, key);
      CreateAnother(g, false, t, existing, visited, spare, key);
      OverwriteOne(g, t, existing, visited, key);
    }
  }

  lemma {:induction false} NothingFails(g: Lib, t: Template, existing: Object)
    requires OnCluster(existing)
    ensures Comparable(g, t, existing, t.definition.Keys) <==> !Fails(g, t, existing)
  {
  }

  /** The first loop of handleKeys: the template's keys, in any order, up to the first type mismatch. */
  method CompareKeys(g: Lib, t: Template, existing: Object, spare: Spare) returns (failed: bool, p: Progress)
    requires OnCluster(existing)
    ensures failed <==> Fails(g, t, existing)
    ensures !failed ==> ComparedUpTo(g, t, existing, spare, t.definition.Keys, p)
  {
    p := Progress(false, false, existing, t.definition, t.definition);
    NothingCompared(g, t, existing, spare);
    var keys := t.definition.Keys;
    ghost var visited: set<string> := {};
    while keys != {}
      invariant keys <= t.definition.Keys && visited == t.definition.Keys - keys
      invariant ComparedUpTo(g, t, existing, spare, visited, p)
      decreases keys
    {
      var key :| key in keys;
      keys := keys - {key};
      if DenyListed(key) {
        PassOver(g, t, existing, spare, visited, p, key);
      } else {
        CompareAnother(g, t, existing, spare, visited, p, key);
        var next := NextProgress(g, t, existing, spare, p, key);
        if next.None? {
          return true, p;
        }
        p := next.value;
      }
      visited := visited + {key};
    }
    assert visited == t.definition.Keys;
    NothingFails(g, t, existing);
    failed := false;
  }

  /** The second loop of handleKeys, for mustonlyhave. */
  method RemoveKeys(t: Template, existing: Object, all: Object) returns (update: bool, result: Object)
    requires existing.Keys <= all.Keys
    ensures update <==> exists key | key in existing :: Removed(t, existing, key)
    ensures result == map key | key in all && !Removed(t, existing, key) :: all[key]
  {
    update, result := false, all;
    var left := all.Keys;
    while left != {}
      invariant left <= all.Keys
      invariant result == map key | key in all && (key in left || !Removed(t, existing, key)) :: all[key]
      invariant update <==> exists key | key in existing :: key !in left && Removed(t, existing, key)
      decreases left
    {
      var key :| key in left;
      left := left - {key};
      if Removed(t, existing, key) {
        result := result - {key};
        update := true;
      }
    }
  }

  /** A key that the template lacks and mustonlyhave removes nevertheless leaves alone. */
  predicate LeftAlone(existing: Object, key: string) {
    || key == "status" || key == "metadata"
    || ((key == "secrets" || key == "imagePullSecrets") &&
        "kind" in existing && existing["kind"] == Str("ServiceAccount") &&
        "apiVersion" in existing && existing["apiVersion"] == Str("v1"))
  }

  /** The keys outside the template stay, but mustonlyhave drops all that are not left alone; there are no new keys. */
  ghost predicate OthersHandled(t: Template, existing: Object, result: Object) {
    && (forall key :: key in existing && key !in t.definition ==>
          if t.ct == MustOnlyHave && !LeftAlone(existing, key) then key !in result
          else key in result && result[key] == existing[key])
    && (forall key :: (key == "apiVersion" || key == "kind") && key in t.definition ==>
          (key in result <==> key in existing) && (key in result ==> result[key] == existing[key]))
    && (forall key :: key in t.definition && key != "apiVersion" && key != "kind" ==> key in result)
    && (forall key :: key in result ==> key in existing || key in t.definition)
  }

  ghost predicate HasUnwanted(t: Template, existing: Object) {
    t.ct == MustOnlyHave && exists key :: key in existing && key !in t.definition && !LeftAlone(existing, key)
  }

  lemma {:induction false} ResultOfOthers(g: Lib, t: Template, existing: Object)
    requires OnCluster(existing) && !Fails(g, t, existing)
    ensures OthersHandled(t, existing, Result(g, t, existing))
    ensures HasUnwanted(t, existing) ==> UpdateNeeded(g, t, existing)
    ensures UpdateNeeded(g, t, existing) ==>
      HasUnwanted(t, existing) || exists key :: CompareKey(t, key) && key != "status" && Differs(g, t, existing, key)
  {
    if HasUnwanted(t, existing) {
      var key :| key in existing && key !in t.definition && !LeftAlone(existing, key);
      assert Removed(t, existing, key);
    }
    if exists key | key in existing :: Removed(t, existing, key) {
      var key :| key in existing && Removed(t, existing, key);
      assert !LeftAlone(existing, key);
    }
  }

  /** handleKeys: the outcome does not depend on the order in which the maps are visited. */
  method HandleKeys(g: Lib, t: Template, existing: Object, spare: Spare)
    returns (failed: bool, violation: bool, p: Progress)
    requires OnCluster(existing)
    ensures (failed <==> Fails(g, t, existing)) && (failed ==> violation && p.update)
    ensures !failed ==> violation == p.statusMismatch == StatusMismatch(g, t, existing)
    ensures !failed ==> p.update == UpdateNeeded(g, t, existing)
    ensures !failed ==> p.result == Result(g, t, existing)
    ensures !failed ==> OthersHandled(t, existing, p.result) && (HasUnwanted(t, existing) ==> p.update)
    ensures !failed ==> p.left == DefinitionLeft(g, false, t, existing, t.definition.Keys, spare)
    ensures !failed ==> p.created == DefinitionCreated(g, false, t, existing, t.definition.Keys, spare)
  {
    failed, p := CompareKeys(g, t, existing, spare);
    if failed {
      return true, true, p.(update := true);
    }
    violation := p.statusMismatch;
    ResultOfOthers(g, t, existing);
    if t.ct.MustOnlyHave? {
      var removed, kept := RemoveKeys(t, existing, p.result);
      p := p.(update := p.update || removed, result := kept);
    }
  }
}
