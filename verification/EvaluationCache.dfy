/**
 * The cache of evaluated objects (controllers/configurationpolicy_controller.go, setEvaluatedObject,
 * alreadyEvaluated and the decisions of checkAndUpdateResource), with a server that stores what it is sent.
 */
module EvaluationCache {
  import opened Json
  import opened Compare
  import opened Merge
  import opened Convergence
  import opened ObjectKeys
  import opened SecondEvaluation
  import opened CallersSlice

  /** removeFieldsForComparison. */
  function Stripped(o: Object): Object
    requires OnCluster(o)
  {
    var md := o["metadata"].fields - {"managedFields", "generation"};
    o["metadata" := Map(if "annotations" in md then md["annotations" := WithoutLastApplied(md["annotations"])] else md)]
  }

  /** What is left out of the comparison with the answer to a dry run, and nothing else. */
  lemma {:induction false} StrippedMeans(o: Object)
    requires OnCluster(o)
    ensures var r := Stripped(o);
      && r.Keys == o.Keys && r["metadata"].Map?
      && (forall key :: key in o && key != "metadata" ==> r[key] == o[key])
      && var md, md' := o["metadata"].fields, r["metadata"].fields;
         && (forall k :: k in md' <==> k in md && k != "managedFields" && k != "generation")
         && (forall k :: k in md' && k != "annotations" ==> md'[k] == md[k])
         && ("annotations" in md && !md["annotations"].Map? ==> md'["annotations"] == md["annotations"])
         && ("annotations" in md && md["annotations"].Map? ==>
               md'["annotations"] == Map(map k | k in md["annotations"].fields &&
                 k != "kubectl.kubernetes.io/last-applied-configuration" :: md["annotations"].fields[k]))
  {
    AnnotationsStay();
    var md := o["metadata"].fields;
    if "annotations" in md && md["annotations"].Map? {
      var a := md["annotations"].fields;
      assert a - {LAST_APPLIED} == map k | k in a && k != "kubectl.kubernetes.io/last-applied-configuration" :: a[k];
    }
  }

  lemma {:induction false} AnnotationsStay()
    ensures "annotations" != "managedFields" && "annotations" != "generation"
  {
    assert |"annotations"| != |"managedFields"| && |"annotations"| != |"generation"|;
  }

  datatype DryRun = Accepted | Invalid | BadRequest

  ghost predicate AcceptsUnchanged(answer: (Object, Object) -> DryRun) {
    forall o :: answer(o, o) == Accepted
  }

  /**
   * What the API server answers to a dry-run update: it depends on the object it has stored and the one it is sent,
   * and the stored one can be sent back.
   */
  type Validation = answer: (Object, Object) -> DryRun | AcceptsUnchanged(answer) ghost witness AcceptingAll()

  function AcceptingAll(): (Object, Object) -> DryRun {
    (stored, sent) => Accepted
  }

  predicate Unchanged(rewritten: Object, o: Object)
    requires OnCluster(o)
  {
    OnCluster(rewritten) && Stripped(rewritten) == Stripped(o)
  }

  /** What comparing the object anew would report, with the dry run that follows a difference. */
  ghost predicate Verdict(g: Lib, dryRun: Validation, t: Template, o: Object)
    requires OnCluster(o) && !Fails(g, t, o)
  {
    if UpdateNeeded(g, t, o) then
      var r := Result(g, t, o);
      dryRun(o, r) == Accepted && Unchanged(r, o)
    else !StatusMismatch(g, t, o)
  }

  /** The object created from the template, some of whose top-level lists the comparison has overwritten. */
  function Recreated(g: Lib, t: Template, o: Object, spare: Spare): Object {
    DefinitionCreated(g, false, t, o, t.definition.Keys, spare)
  }

  /** The template as the comparison leaves it for the next one. */
  function Left(g: Lib, t: Template, o: Object, spare: Spare): Object {
    DefinitionLeft(g, false, t, o, t.definition.Keys, spare)
  }

  /** The metadata of an object created from the template is as the template wants it. */
  lemma {:induction false} CreatedField(g: Lib, ct: ComplianceType, isNamespace: bool, key: string, d: Option<Json>)
    requires StringOption(d)
    ensures !FieldDiffers(g, false, key, FieldOf(g, false, ct, isNamespace, key, d, d), d)
  {
    if d.Some? {
      MapField(g, ct, isNamespace, key, d.value, d);
      CleanedIsStored(g, key, d.value);
      var c := Clean(key, d).value.fields;
      assert Overlaid(ct, isNamespace, key, c, d.value.fields) == c;
    }
  }

  lemma {:induction false} CreatedMetadataSettles(g: Lib, ct: ComplianceType, d: Json, isNamespace: bool)
    requires StringMaps(d)
    ensures SingleMetadata(g, false, ct, d, d, isNamespace).Compared? &&
      !SingleMetadata(g, false, ct, d, d, isNamespace).update
  {
    MetadataByField(g, false, ct, d, d, isNamespace);
    CreatedField(g, ct, isNamespace, "labels", LookupOption(d, "labels"));
    CreatedField(g, ct, isNamespace, "annotations", LookupOption(d, "annotations"));
  }

  /** What an update or a recreate sends for a key has all of the template, if no element of it is lost. */
  lemma {:induction false} WrittenCovers(g: Lib, ct: ComplianceType, d: Json, e: Json, spare: nat)
    requires ct.MustOnlyHave? || NothingLost(g, false, d, e)
    ensures Covers(g, ValueCreated(g, false, ct, d, e, spare), d)
    ensures SingleValue(g, false, ct, d, e).Compared? ==> Covers(g, SingleValue(g, false, ct, d, e).merged, d)
  {
    CoversItself(g, d);
    if !ct.MustOnlyHave? {
      MergeCovers(g, false, d, e);
      SentIsMerged(g, false, d, e);
      if d.List? && e.List? {
        CallersListCovers(g, false, d.items, e.items, spare);
      }
    }
  }

  lemma {:induction false} RecreatedValueSettles(g: Lib, ct: ComplianceType, d: Json, e: Json, spare: nat)
    requires WrittenSettles(g, d, ValueCreated(g, false, ct, d, e, spare))
    ensures var v := ValueCreated(g, false, ct, d, e, spare);
      SingleValue(g, false, ct, d, v).Compared? && !SingleValue(g, false, ct, d, v).update
  {
    var v := ValueCreated(g, false, ct, d, e, spare);
    CoversItself(g, d);
    MergeSeenEqual(g, false, d, v);
    SeenEqualItself(g, v);
  }

  lemma {:induction false} CreatedIsServed(g: Lib, t: Template, o: Object, spare: Spare)
    requires OnCluster(t.definition)
    ensures Served(Recreated(g, t, o, spare)) <==> StringMaps(t.definition["metadata"])
  {
    assert Recreated(g, t, o, spare)["metadata"] == t.definition["metadata"];
  }

  lemma {:induction false} RecreatedSettles(g: Lib, t: Template, o: Object, spare: Spare)
    requires NamesItsKind(t) && OnCluster(t.definition)
    requires Served(Recreated(g, t, o, spare)) && SettlingKeys(g, t, Recreated(g, t, o, spare))
    ensures var r := Recreated(g, t, o, spare); !Fails(g, t, r) && !UpdateNeeded(g, t, r) && !StatusMismatch(g, t, r)
  {
    var r := Recreated(g, t, o, spare);
    assert r["metadata"] == t.definition["metadata"];
    forall key | CompareKey(t, key)
      ensures SingleKey(g, false, t, r, key).Compared? && !SingleKey(g, false, t, r, key).update
    {
      var d := t.definition[key];
      if key == "metadata" {
        var ct := if t.metadataCt.Some? then t.metadataCt.value else t.ct;
        CreatedMetadataSettles(g, ct, d, IsNamespace(t.definition));
      } else {
        RecreatedValueSettles(g, t.ct, d, ValueAt(o, key), spare(key));
      }
    }
  }

  lemma {:induction false} CreatedIsCompliant(g: Lib, dryRun: Validation, t: Template, o: Object, spare: Spare)
    requires NamesItsKind(t) && OnCluster(t.definition)
    requires Served(Recreated(g, t, o, spare)) && SettlingKeys(g, t, Recreated(g, t, o, spare))
    ensures var r := Recreated(g, t, o, spare); !Fails(g, t, r) && Verdict(g, dryRun, t, r)
  {
    RecreatedSettles(g, t, o, spare);
  }

  /**
   * An object that was updated is found compliant: its values are seen as they were written, and if the template's
   * labels or annotations cannot be stored, another update would not change anything either.
   */
  ghost predicate Updatable(g: Lib, t: Template, written: Object) {
    SettlingKeys(g, t, written) && (StorableMetadata(g, t) || UnambiguousKeys(g, t, written))
  }

  lemma {:induction false} UpdatedIsCompliant(g: Lib, dryRun: Validation, t: Template, o: Object)
    requires Served(o) && !Fails(g, t, o) && NamesItsKind(t)
    requires Updatable(g, t, Result(g, t, o)) && dryRun(o, Result(g, t, o)) == Accepted
    ensures var r := Result(g, t, o); Served(r) && !Fails(g, t, r) && Verdict(g, dryRun, t, r)
  {
    ObjectSettles(g, t, o);
  }

  /**
   * When the labels or annotations of the template cannot be stored, the updated object is reported compliant by a
   * dry run that changes nothing, although the comparison goes on asking for the same update.
   */
  lemma {:induction false} UnstorableIsReportedCompliant(g: Lib, dryRun: Validation, t: Template, o: Object)
    requires Served(o) && !Fails(g, t, o) && NamesItsKind(t)
    requires UnambiguousKeys(g, t, Result(g, t, o)) && dryRun(o, Result(g, t, o)) == Accepted
    requires SettlingKeys(g, t, Result(g, t, o)) && !StorableMetadata(g, t)
    ensures var r := Result(g, t, o);
      Served(r) && !Fails(g, t, r) && UpdateNeeded(g, t, r) && Result(g, t, r) == r && Verdict(g, dryRun, t, r)
  {
    ObjectSettles(g, t, o);
  }

  datatype Stored = Stored(name: string, uid: string, version: string, content: Object)

  datatype CachedResult = CachedResult(version: string, compliant: bool)

  type Cache = map<string, CachedResult>

  datatype RecreateOption = Never | IfRequired | Always

  /** What follows from the answer to the dry run: a verdict, or a write, which may have to create the object anew. */
  datatype Next = Report(compliant: bool) | Proceed(anew: bool)

  function AfterDryRun(answer: DryRun, same: bool, enforce: bool, recreate: RecreateOption): Next {
    if answer == BadRequest || (answer == Invalid && (!enforce || recreate == Never)) then Report(false)
    else if answer == Accepted && same then Report(true)
    else if !enforce then Report(false)
    else Proceed(answer == Invalid || recreate == Always)
  }

  /** A reported verdict is what comparing the object anew would report. */
  lemma {:induction false} DryRunDecides(g: Lib, dryRun: Validation, t: Template, o: Object, rewritten: Object,
                                         enforce: bool, recreate: RecreateOption)
    requires OnCluster(o) && !Fails(g, t, o) && UpdateNeeded(g, t, o) && rewritten == Result(g, t, o)
    ensures var next := AfterDryRun(dryRun(o, rewritten), Unchanged(rewritten, o), enforce, recreate);
      && (next.Report? ==> next.compliant == Verdict(g, dryRun, t, o))
      && (next.Proceed? ==> enforce && (!next.anew ==> dryRun(o, rewritten) == Accepted))
  {
  }

  /**
   * An attempt that meets a conflict, when the dry run or the update is sent: others have stored or deleted the object
   * in between, and it can be read again or not. `outage` is a failing dry run of the attempt that follows.
   */
  datatype Conflict = Conflict(
    atDryRun: bool, uid: string, version: string, content: Option<Object>, readable: bool, outage: bool)

  /** What the server has under the name, if it is not as before, was stored or deleted by others. */
  ghost predicate ByOthers(before: map<string, Stored>, after: map<string, Stored>, name: string,
                           conflicts: seq<Conflict>)
  {
    after == before || exists c | c in conflicts :: after == ChangedBy(before, name, c)
  }

  /** What an evaluation does to the server; `silent` if the controller stores nothing itself. */
  ghost predicate Outcome(before: map<string, Stored>, after: map<string, Stored>, name: string,
                          conflicts: seq<Conflict>, silent: bool, storable: bool)
  {
    && after - {name} == before - {name}
    && (silent ==> ByOthers(before, after, name, conflicts))
    // The object is lost only to others, or in an attempt to create it anew with unstorable labels or annotations.
    && (name !in after ==> ByOthers(before, after, name, conflicts) || !storable)
  }

  function ChangedBy(before: map<string, Stored>, name: string, c: Conflict): map<string, Stored> {
    if c.content.None? then before - {name} else before[name := Stored(name, c.uid, c.version, c.content.value)]
  }

  lemma {:induction false} NothingStored(server: map<string, Stored>, name: string, conflicts: seq<Conflict>,
                                         silent: bool, storable: bool)
    ensures Outcome(server, server, name, conflicts, silent, storable)
  {
  }

  lemma {:induction false} OutcomeOfWrite(before: map<string, Stored>, after: map<string, Stored>, name: string,
                                          conflicts: seq<Conflict>, storable: bool)
    requires if name in after then after == before[name := after[name]] else after == before - {name} && !storable
    ensures Outcome(before, after, name, conflicts, false, storable)
  {
  }

  lemma {:induction false} OutcomeOfConflict(before: map<string, Stored>, name: string, conflicts: seq<Conflict>,
                                             silent: bool, storable: bool)
    requires conflicts != []
    ensures Outcome(before, ChangedBy(before, name, conflicts[0]), name, conflicts, silent, storable)
  {
    assert conflicts[0] in conflicts;
  }

  lemma {:induction false} OutcomeAfterConflict(before: map<string, Stored>, after: map<string, Stored>, name: string,
                                                conflicts: seq<Conflict>, silent: bool, storable: bool)
    requires conflicts != []
    requires Outcome(ChangedBy(before, name, conflicts[0]), after, name, conflicts[1..], silent, storable)
    ensures Outcome(before, after, name, conflicts, silent, storable)
  {
    var between := ChangedBy(before, name, conflicts[0]);
    if ByOthers(between, after, name, conflicts[1..]) {
      if after == between {
        assert conflicts[0] in conflicts;
      } else {
        var c :| c in conflicts[1..] && after == ChangedBy(between, name, c);
        assert c in conflicts && ChangedBy(between, name, c) == ChangedBy(before, name, c);
      }
    }
  }

  /** What handleKeys makes of the object and the template. */
  ghost predicate Rewrites(g: Lib, t: Template, o: Object, spare: Spare, p: Progress)
    requires OnCluster(o) && !Fails(g, t, o)
  {
    p.result == Result(g, t, o) && p.left == Left(g, t, o, spare) && p.created == Recreated(g, t, o, spare)
  }

  /** What an enforced write leaves: `anew` the object is deleted and created from the template, as far as it can be. */
  ghost predicate Wrote(g: Lib, t: Template, o: Stored, spare: Spare, anew: bool, uid: string, version: string,
                        before: map<string, Stored>, after: map<string, Stored>, cached: Cache, cached': Cache,
                        compliant: bool)
    requires OnCluster(o.content) && !Fails(g, t, o.content) && OnCluster(t.definition)
  {
    if anew && !StringMaps(t.definition["metadata"]) then
      after == before - {o.name} && cached' == cached && !compliant
    else
      var written := if anew then Stored(o.name, uid, version, Recreated(g, t, o.content, spare))
                     else Stored(o.name, o.uid, version, Result(g, t, o.content));
      && after == before[o.name := written]
      && compliant == !StatusMismatch(g, t, o.content)
      && cached' == if compliant then cached[written.uid := CachedResult(version, true)] else cached
  }

  /** Nothing is written, and the verdict on the object is kept. */
  ghost predicate Judged(o: Stored, verdict: bool, before: map<string, Stored>, after: map<string, Stored>,
                         cached: Cache, cached': Cache, compliant: bool)
  {
    after == before && compliant == verdict && cached' == cached[o.uid := CachedResult(o.version, verdict)]
  }

  /** Which of these a differing object comes to when no conflict is met, by the answer to the dry run. */
  ghost predicate Answered(g: Lib, t: Template, o: Stored, spare: Spare, answer: DryRun, enforce: bool,
                           recreate: RecreateOption, uid: string, version: string, before: map<string, Stored>,
                           after: map<string, Stored>, cached: Cache, cached': Cache, compliant: bool)
    requires OnCluster(o.content) && !Fails(g, t, o.content) && OnCluster(t.definition)
  {
    var same := Unchanged(Result(g, t, o.content), o.content);
    match answer
    case BadRequest => Judged(o, false, before, after, cached, cached', compliant)
    case Invalid =>
      if enforce && (recreate == IfRequired || recreate == Always) then
        Wrote(g, t, o, spare, true, uid, version, before, after, cached, cached', compliant)
      else Judged(o, false, before, after, cached, cached', compliant)
    case Accepted =>
      if same then Judged(o, true, before, after, cached, cached', compliant)
      else if !enforce then Judged(o, false, before, after, cached, cached', compliant)
      else if recreate == Always then
        Wrote(g, t, o, spare, true, uid, version, before, after, cached, cached', compliant)
      else Wrote(g, t, o, spare, false, uid, version, before, after, cached, cached', compliant)
  }

  lemma {:induction false} NextIsAnswered(g: Lib, t: Template, o: Stored, spare: Spare, answer: DryRun, enforce: bool,
                                          recreate: RecreateOption, uid: string, version: string,
                                          before: map<string, Stored>, after: map<string, Stored>, cached: Cache,
                                          cached': Cache, compliant: bool)
    requires OnCluster(o.content) && !Fails(g, t, o.content) && OnCluster(t.definition)
    requires
      var next := AfterDryRun(answer, Unchanged(Result(g, t, o.content), o.content), enforce, recreate);
      if next.Report? then Judged(o, next.compliant, before, after, cached, cached', compliant)
      else Wrote(g, t, o, spare, next.anew, uid, version, before, after, cached, cached', compliant)
    ensures Answered(g, t, o, spare, answer, enforce, recreate, uid, version, before, after, cached, cached', compliant)
  {
  }

  /** The object is updated in place, which may meet a conflict. */
  predicate InPlace(answer: DryRun, same: bool, enforce: bool, recreate: RecreateOption) {
    answer == Accepted && !same && enforce && recreate != Always
  }

  ghost predicate ReadFromCluster(conflicts: seq<Conflict>) {
    forall i :: 0 <= i < |conflicts| && conflicts[i].content.Some? ==> OnCluster(conflicts[i].content.value)
  }

  /** What an evaluation comes to. */
  ghost predicate Concluded(g: Lib, dryRun: Validation, t: Template, o: Stored, spare: Spare, enforce: bool,
                            recreate: RecreateOption, outage: bool, conflicts: seq<Conflict>, uid: string,
                            version: string, before: map<string, Stored>, after: map<string, Stored>, cached: Cache,
                            cached': Cache, compliant: bool)
    requires OnCluster(o.content) && OnCluster(t.definition) && ReadFromCluster(conflicts)
    decreases |conflicts|, 2
  {
    if Fails(g, t, o.content) then after == before && cached' == cached && !compliant
    else if !UpdateNeeded(g, t, o.content) then
      Judged(o, !StatusMismatch(g, t, o.content), before, after, cached, cached', compliant)
    else if outage then after == before && cached' == cached && !compliant
    else if conflicts != [] && conflicts[0].atDryRun then
      AfterConflict(g, dryRun, t, o.name, spare, enforce, recreate, conflicts, uid, version, before, after, cached,
        cached', compliant)
    else
      Sent(g, dryRun, t, o, spare, dryRun(o.content, Result(g, t, o.content)), enforce, recreate, conflicts, uid,
        version, before, after, cached, cached', compliant)
  }

  /** What a differing object comes to with this answer to the dry run. */
  ghost predicate Sent(g: Lib, dryRun: Validation, t: Template, o: Stored, spare: Spare, answer: DryRun, enforce: bool,
                       recreate: RecreateOption, conflicts: seq<Conflict>, uid: string, version: string,
                       before: map<string, Stored>, after: map<string, Stored>, cached: Cache, cached': Cache,
                       compliant: bool)
    requires OnCluster(o.content) && !Fails(g, t, o.content)
    requires OnCluster(t.definition) && ReadFromCluster(conflicts)
    decreases |conflicts|, 1
  {
    if conflicts != [] && InPlace(answer, Unchanged(Result(g, t, o.content), o.content), enforce, recreate) then
      AfterConflict(g, dryRun, t, o.name, spare, enforce, recreate, conflicts, uid, version, before, after, cached,
        cached', compliant)
    else
      Answered(g, t, o, spare, answer, enforce, recreate, uid, version, before, after, cached, cached', compliant)
  }

  /** Others have changed the object: it is evaluated as they have left it, if it is there and can be read. */
  ghost predicate AfterConflict(g: Lib, dryRun: Validation, t: Template, name: string, spare: Spare, enforce: bool,
                                recreate: RecreateOption, conflicts: seq<Conflict>, uid: string, version: string,
                                before: map<string, Stored>, after: map<string, Stored>, cached: Cache,
                                cached': Cache, compliant: bool)
    requires OnCluster(t.definition) && ReadFromCluster(conflicts) && conflicts != []
    decreases |conflicts|, 0
  {
    var c, between := conflicts[0], ChangedBy(before, name, conflicts[0]);
    if c.content.None? || !c.readable then after == between && cached' == cached && !compliant
    else
      Concluded(g, dryRun, t, Stored(name, c.uid, c.version, c.content.value), spare, enforce, recreate, c.outage,
        conflicts[1..], uid, version, between, after, cached, cached', compliant)
  }

  /** What an enforced write comes to. */
  ghost predicate Enforced(g: Lib, dryRun: Validation, t: Template, o: Stored, spare: Spare, anew: bool,
                           recreate: RecreateOption, conflicts: seq<Conflict>, uid: string, version: string,
                           before: map<string, Stored>, after: map<string, Stored>, cached: Cache, cached': Cache,
                           compliant: bool)
    requires OnCluster(o.content) && !Fails(g, t, o.content)
    requires OnCluster(t.definition) && ReadFromCluster(conflicts)
  {
    if conflicts != [] && !anew then
      AfterConflict(g, dryRun, t, o.name, spare, true, recreate, conflicts, uid, version, before, after, cached,
        cached', compliant)
    else Wrote(g, t, o, spare, anew, uid, version, before, after, cached, cached', compliant)
  }

  lemma {:induction false} NextIsSent(g: Lib, dryRun: Validation, t: Template, o: Stored, spare: Spare,
                                      answer: DryRun, enforce: bool, recreate: RecreateOption,
                                      conflicts: seq<Conflict>, uid: string, version: string,
                                      before: map<string, Stored>, after: map<string, Stored>, cached: Cache,
                                      cached': Cache, compliant: bool)
    requires OnCluster(o.content) && !Fails(g, t, o.content)
    requires OnCluster(t.definition) && ReadFromCluster(conflicts)
    requires
      var next := AfterDryRun(answer, Unchanged(Result(g, t, o.content), o.content), enforce, recreate);
      if next.Report? then Judged(o, next.compliant, before, after, cached, cached', compliant)
      else
        Enforced(g, dryRun, t, o, spare, next.anew, recreate, conflicts, uid, version, before, after, cached, cached',
          compliant)
    ensures Sent(g, dryRun, t, o, spare, answer, enforce, recreate, conflicts, uid, version, before, after, cached,
      cached', compliant)
  {
    var next := AfterDryRun(answer, Unchanged(Result(g, t, o.content), o.content), enforce, recreate);
    if next.Report? || conflicts == [] || next.anew {
      NextIsAnswered(g, t, o, spare, answer, enforce, recreate, uid, version, before, after, cached, cached',
        compliant);
    }
  }

  /** What is written for an object that differs. */
  ghost predicate WrittenFor(g: Lib, t: Template, spare: Spare, o: Object, content: Object) {
    && OnCluster(o) && !Fails(g, t, o) && UpdateNeeded(g, t, o)
    && (content == Result(g, t, o) || content == Recreated(g, t, o, spare))
  }

  /** The object that was evaluated first, or one that others have stored since. */
  ghost predicate Met(o: Object, conflicts: seq<Conflict>, x: Object) {
    x == o || exists c | c in conflicts :: c.content == Some(x)
  }

  /** What the server has is an object that was met, or what is written for it. */
  ghost predicate Explained(g: Lib, t: Template, spare: Spare, o: Object, conflicts: seq<Conflict>, content: Object) {
    exists x :: Met(o, conflicts, x) && (content == x || WrittenFor(g, t, spare, x, content))
  }

  lemma {:induction false} Explain(g: Lib, t: Template, spare: Spare, o: Object, conflicts: seq<Conflict>, x: Object,
                                   content: Object)
    requires Met(o, conflicts, x) && (content == x || WrittenFor(g, t, spare, x, content))
    ensures Explained(g, t, spare, o, conflicts, content)
  {
  }

  lemma {:induction false} ExplainAfter(g: Lib, t: Template, spare: Spare, o: Object, conflicts: seq<Conflict>,
                                        content: Object)
    requires conflicts != [] && conflicts[0].content.Some?
    requires Explained(g, t, spare, conflicts[0].content.value, conflicts[1..], content)
    ensures Explained(g, t, spare, o, conflicts, content)
  {
    var first := conflicts[0].content.value;
    var x :| Met(first, conflicts[1..], x) && (content == x || WrittenFor(g, t, spare, x, content));
    if x == first {
      assert conflicts[0] in conflicts;
    } else {
      var c :| c in conflicts[1..] && c.content == Some(x);
      assert c in conflicts;
    }
    Explain(g, t, spare, o, conflicts, x, content);
  }

  /** Nothing is lost or written but as the outcome and the explanation have it. */
  ghost predicate Accounted(g: Lib, t: Template, spare: Spare, o: Stored, conflicts: seq<Conflict>, silent: bool,
                            before: map<string, Stored>, after: map<string, Stored>)
    requires OnCluster(t.definition)
  {
    && Outcome(before, after, o.name, conflicts, silent, StringMaps(t.definition["metadata"]))
    && (o.name in after ==> Explained(g, t, spare, o.content, conflicts, after[o.name].content))
  }

  lemma {:induction false} LeftIsAccounted(g: Lib, t: Template, spare: Spare, o: Stored, conflicts: seq<Conflict>,
                                           silent: bool, server: map<string, Stored>)
    requires OnCluster(t.definition) && o.name in server && server[o.name] == o
    ensures Accounted(g, t, spare, o, conflicts, silent, server, server)
  {
    NothingStored(server, o.name, conflicts, silent, StringMaps(t.definition["metadata"]));
    Explain(g, t, spare, o.content, conflicts, o.content, o.content);
  }

  lemma {:induction false} WriteIsAccounted(g: Lib, t: Template, spare: Spare, o: Stored, conflicts: seq<Conflict>,
                                            anew: bool, uid: string, version: string, before: map<string, Stored>,
                                            after: map<string, Stored>, cached: Cache, cached': Cache,
                                            compliant: bool)
    requires OnCluster(o.content) && !Fails(g, t, o.content) && UpdateNeeded(g, t, o.content)
    requires OnCluster(t.definition)
    requires Wrote(g, t, o, spare, anew, uid, version, before, after, cached, cached', compliant)
    ensures Accounted(g, t, spare, o, conflicts, false, before, after)
  {
    OutcomeOfWrite(before, after, o.name, conflicts, StringMaps(t.definition["metadata"]));
    if o.name in after {
      Explain(g, t, spare, o.content, conflicts, o.content, after[o.name].content);
    }
  }

  lemma {:induction false} AnswerIsAccounted(g: Lib, t: Template, o: Stored, spare: Spare, answer: DryRun,
                                             enforce: bool, recreate: RecreateOption, conflicts: seq<Conflict>,
                                             uid: string, version: string, before: map<string, Stored>,
                                             after: map<string, Stored>, cached: Cache, cached': Cache,
                                             compliant: bool)
    requires OnCluster(o.content) && !Fails(g, t, o.content) && UpdateNeeded(g, t, o.content)
    requires OnCluster(t.definition) && o.name in before && before[o.name] == o
    requires Answered(g, t, o, spare, answer, enforce, recreate, uid, version, before, after, cached, cached',
      compliant)
    ensures Accounted(g, t, spare, o, conflicts, !enforce, before, after)
  {
    var next := AfterDryRun(answer, Unchanged(Result(g, t, o.content), o.content), enforce, recreate);
    if next.Report? {
      LeftIsAccounted(g, t, spare, o, conflicts, !enforce, before);
    } else {
      WriteIsAccounted(g, t, spare, o, conflicts, next.anew, uid, version, before, after, cached, cached', compliant);
    }
  }

  /**
   * What the server has after an evaluation is the object as it was or as others have stored it, or is written for one
   * of these; nothing is written unless the policy is enforced and the object differs.
   */
  lemma {:induction false} ConclusionIsAccounted(g: Lib, dryRun: Validation, t: Template, o: Stored, spare: Spare,
                                                 enforce: bool, recreate: RecreateOption, outage: bool,
                                                 conflicts: seq<Conflict>, uid: string, version: string,
                                                 before: map<string, Stored>, after: map<string, Stored>,
                                                 cached: Cache, cached': Cache, compliant: bool)
    requires OnCluster(o.content) && OnCluster(t.definition) && ReadFromCluster(conflicts)
    requires o.name in before && before[o.name] == o
    requires Concluded(g, dryRun, t, o, spare, enforce, recreate, outage, conflicts, uid, version, before, after,
      cached, cached', compliant)
    ensures var silent := !enforce || Fails(g, t, o.content) || !UpdateNeeded(g, t, o.content);
      Accounted(g, t, spare, o, conflicts, silent, before, after)
    decreases |conflicts|, 1
  {
    if Fails(g, t, o.content) || !UpdateNeeded(g, t, o.content) || outage {
      LeftIsAccounted(g, t, spare, o, conflicts, true, before);
    } else {
      var answer := dryRun(o.content, Result(g, t, o.content));
      if conflicts != [] && (conflicts[0].atDryRun ||
                             InPlace(answer, Unchanged(Result(g, t, o.content), o.content), enforce, recreate)) {
        ConflictIsAccounted(g, dryRun, t, o, spare, enforce, recreate, conflicts, uid, version, before, after, cached,
          cached', compliant);
      } else {
        AnswerIsAccounted(g, t, o, spare, answer, enforce, recreate, conflicts, uid, version, before, after, cached,
          cached', compliant);
      }
    }
  }

  lemma {:induction false} ConflictIsAccounted(g: Lib, dryRun: Validation, t: Template, o: Stored, spare: Spare,
                                               enforce: bool, recreate: RecreateOption, conflicts: seq<Conflict>,
                                               uid: string, version: string, before: map<string, Stored>,
                                               after: map<string, Stored>, cached: Cache, cached': Cache,
                                               compliant: bool)
    requires OnCluster(t.definition) && ReadFromCluster(conflicts) && conflicts != []
    requires AfterConflict(g, dryRun, t, o.name, spare, enforce, recreate, conflicts, uid, version, before, after,
      cached, cached', compliant)
    ensures Accounted(g, t, spare, o, conflicts, !enforce, before, after)
    decreases |conflicts|, 0
  {
    var c, between := conflicts[0], ChangedBy(before, o.name, conflicts[0]);
    var storable := StringMaps(t.definition["metadata"]);
    if c.content.None? || !c.readable {
      OutcomeOfConflict(before, o.name, conflicts, !enforce, storable);
      if c.content.Some? {
        assert c in conflicts;
        Explain(g, t, spare, o.content, conflicts, c.content.value, c.content.value);
      }
    } else {
      var o' := Stored(o.name, c.uid, c.version, c.content.value);
      ConclusionIsAccounted(g, dryRun, t, o', spare, enforce, recreate, c.outage, conflicts[1..], uid, version,
        between, after, cached, cached', compliant);
      OutcomeAfterConflict(before, after, o.name, conflicts, !enforce, storable);
      if o.name in after {
        ExplainAfter(g, t, spare, o.content, conflicts, after[o.name].content);
      }
    }
  }

  /** The conflicts that one evaluation may meet: what others store has versions of its own, and settles too. */
  ghost predicate Foreseen(g: Lib, history: map<string, Stored>, conflicts: seq<Conflict>, t: Template, spare: Spare,
                           version: string)
  {
    && version != "" && version !in history
    && (forall i :: 0 <= i < |conflicts| ==>
          conflicts[i].version != "" && conflicts[i].version != version && conflicts[i].version !in history)
    && (forall i, j :: 0 <= i < j < |conflicts| ==> conflicts[i].version != conflicts[j].version)
    && (forall i :: 0 <= i < |conflicts| && conflicts[i].content.Some? ==>
          Served(conflicts[i].content.value) && Settles(g, t, conflicts[i].content.value, spare))
    // A template that is compared again must have been left as it was.
    && (forall i :: 0 <= i < |conflicts| - 1 && conflicts[i].content.Some? ==>
          LeavesAlone(g, false, t, conflicts[i].content.value, spare))
  }

  lemma {:induction false} ForeseenRest(g: Lib, history: map<string, Stored>, conflicts: seq<Conflict>, t: Template,
                                        spare: Spare, version: string, o: Stored)
    requires conflicts != [] && Foreseen(g, history, conflicts, t, spare, version)
    ensures Foreseen(g, history[conflicts[0].version := o], conflicts[1..], t, spare, version)
  {
  }

  /** The values that would be written for the object settle. */
  ghost predicate Settles(g: Lib, t: Template, o: Object, spare: Spare)
    requires OnCluster(o)
  {
    !Fails(g, t, o) ==> Updatable(g, t, Result(g, t, o)) && SettlingKeys(g, t, Recreated(g, t, o, spare))
  }

  type Templates = map<string, Template>

  ghost predicate NameTheirKinds(templates: Templates) {
    forall name :: name in templates ==> NamesItsKind(templates[name])
  }

  /** What an entry says of the object it was made for. */
  ghost predicate Confirms(g: Lib, dryRun: Validation, templates: Templates, o: Stored, uid: string, compliant: bool) {
    && o.uid == uid && o.name in templates
    && OnCluster(o.content) && !Fails(g, templates[o.name], o.content)
    && compliant == Verdict(g, dryRun, templates[o.name], o.content)
  }

  /** An entry is right for the templates of the generation it was made for. */
  ghost predicate RightFor(g: Lib, dryRun: Validation, history: map<string, Stored>, specs: map<int, Templates>,
                           made: map<string, int>, uid: string, entry: CachedResult)
  {
    && entry.version in history && uid in made && made[uid] in specs
    && Confirms(g, dryRun, specs[made[uid]], history[entry.version], uid, entry.compliant)
  }

  ghost predicate AllRight(g: Lib, dryRun: Validation, history: map<string, Stored>, specs: map<int, Templates>,
                           made: map<string, int>, cache: Cache)
  {
    forall uid :: uid in cache ==> RightFor(g, dryRun, history, specs, made, uid, cache[uid])
  }

  lemma {:induction false} StaysRight(g: Lib, dryRun: Validation, history: map<string, Stored>,
                                      history': map<string, Stored>, specs: map<int, Templates>,
                                      specs': map<int, Templates>, made: map<string, int>, cache: Cache)
    requires AllRight(g, dryRun, history, specs, made, cache)
    requires forall version :: version in history ==> version in history' && history'[version] == history[version]
    requires forall n :: n in specs ==> n in specs' && specs'[n] == specs[n]
    ensures AllRight(g, dryRun, history', specs', made, cache)
  {
    forall uid | uid in cache
      ensures RightFor(g, dryRun, history', specs', made, uid, cache[uid])
    {
      assert RightFor(g, dryRun, history, specs, made, uid, cache[uid]);
      var n := made[uid];
      assert n in specs && n in specs' && specs'[n] == specs[n];
    }
  }

  lemma {:induction false} DroppedStaysRight(g: Lib, dryRun: Validation, history: map<string, Stored>,
                                             specs: map<int, Templates>, made: map<string, int>, cache: Cache,
                                             recorded: int, generation: int)
    requires AllRight(g, dryRun, history, specs, made, cache)
    ensures AllRight(g, dryRun, history, specs, made, DropIfChanged(cache, recorded, generation))
  {
  }

  lemma {:induction false} AddedIsRight(g: Lib, dryRun: Validation, history: map<string, Stored>,
                                        specs: map<int, Templates>, made: map<string, int>, cache: Cache, o: Stored,
                                        compliant: bool, generation: int)
    requires AllRight(g, dryRun, history, specs, made, cache)
    requires generation in specs && o.version in history && history[o.version] == o
    requires Confirms(g, dryRun, specs[generation], o, o.uid, compliant)
    ensures AllRight(g, dryRun, history, specs, made[o.uid := generation],
      cache[o.uid := CachedResult(o.version, compliant)])
  {
    var made', cache' := made[o.uid := generation], cache[o.uid := CachedResult(o.version, compliant)];
    forall uid | uid in cache'
      ensures RightFor(g, dryRun, history, specs, made', uid, cache'[uid])
    {
      if uid != o.uid {
        assert RightFor(g, dryRun, history, specs, made, uid, cache[uid]);
      }
    }
  }

  ghost predicate AllMadeFor(made: map<string, int>, cache: Cache, generation: int) {
    forall uid :: uid in cache ==> uid in made && made[uid] == generation
  }

  /** Which entries are for the new generation, when all were made for the old one. */
  lemma {:induction false} KeptEntries(made: map<string, int>, cache: Cache, before: int, recorded: int, after: int)
    requires AllMadeFor(made, cache, before)
    ensures AllMadeFor(made, DropIfChanged(cache, recorded, after), after) <==>
      recorded != after || before == after || cache == map[]
  {
    if recorded == after && cache != map[] {
      var uid :| uid in cache;
      assert made[uid] == before;
    }
  }

  ghost predicate ServesHistory(server: map<string, Stored>, history: map<string, Stored>) {
    forall name :: name in server ==>
      var o := server[name];
      o.name == name && Served(o.content) && o.version != "" && o.version in history && history[o.version] == o
  }

  /** The start of a reconcile: the entries are dropped if the generation differs from the recorded one. */
  function DropIfChanged(cache: Cache, recorded: int, generation: int): Cache {
    if recorded != generation then map[] else cache
  }

  function Hit(cache: Cache, o: Stored): bool {
    o.uid in cache && cache[o.uid].version != "" && cache[o.uid].version == o.version
  }

  // ---------- an entry that outlives its generation ----------

  function OneValue(s: string): Template {
    Template(
      map["kind" := Str("ConfigMap"), "apiVersion" := Str("v1"), "data" := Map(map["key" := Str(s)])], MustHave, None)
  }

  function HoldsValue(s: string): Object {
    map["metadata" := Map(map[]), "data" := Map(map["key" := Str(s)])]
  }

  lemma {:induction false} ComparedOnData(t: Template, s: string, key: string)
    requires t == OneValue(s)
    ensures CompareKey(t, key) <==> key == "data"
  {
    assert |"data"| != |"kind"| || "data"[0] != "kind"[0];
    assert |"data"| != |"apiVersion"|;
  }

  lemma {:induction false} ValueVerdict(g: Lib, dryRun: Validation, wanted: string, has: string)
    requires g.quantity(wanted).None?
    ensures var t, o := OneValue(wanted), HoldsValue(has);
      OnCluster(o) && !Fails(g, t, o) && (Verdict(g, dryRun, t, o) <==> wanted == has)
  {
    var t, o := OneValue(wanted), HoldsValue(has);
    var d, e := t.definition["data"], o["data"];
    assert |"data"| != |"metadata"| && |"data"| != |"status"|;
    forall key
      ensures CompareKey(t, key) <==> key == "data"
    {
      ComparedOnData(t, wanted, key);
    }
    OneValueMerged(g, wanted, has);
    assert SingleKey(g, false, t, o, "data") == Compared(wanted != has, d);
    if wanted != has {
      assert KeyUpdate(g, t, o, t.definition.Keys);
      var r := Result(g, t, o);
      assert r["data"] == d && r["metadata"] == o["metadata"];
      assert Stripped(r)["data"] == d && Stripped(o)["data"] == e && d.fields["key"] != e.fields["key"];
    }
  }

  lemma {:induction false} OneValueMerged(g: Lib, wanted: string, has: string)
    requires g.quantity(wanted).None?
    ensures var d, e := Map(map["key" := Str(wanted)]), Map(map["key" := Str(has)]);
      && MergeSpecs(g, false, d, e) == SentSpecs(g, false, d, e) == d
      && (EqualObj(g, d, e, false) <==> wanted == has)
  {
    var d, e := Map(map["key" := Str(wanted)]), Map(map["key" := Str(has)]);
    assert MergeSpecs(g, false, d, e).fields == d.fields;
    assert SentSpecs(g, false, d, e).fields == d.fields;
    assert g.sprint(Str(has)) == has;
    assert FieldMatches(g, d.fields["key"], LookupOption(e, "key"), false) <==> wanted == has;
  }

  /**
   * When the generation that is recorded is not the one that was evaluated, an entry made for the old templates
   * survives, and a hit reports what is no longer so.
   */
  lemma {:induction false} StaleEntrySurvives(g: Lib, dryRun: Validation, recorded: int, generation: int)
    requires g.quantity("a").None? && g.quantity("b").None?
    ensures var o := Stored("object", "uid", "7", HoldsValue("a"));
      var before, after: Templates := map["object" := OneValue("a")], map["object" := OneValue("b")];
      var cache: Cache := map["uid" := CachedResult("7", true)];
      && Confirms(g, dryRun, before, o, "uid", true) && Confirms(g, dryRun, after, o, "uid", false)
      && (Hit(DropIfChanged(cache, recorded, generation), o) <==> recorded == generation)
  {
    ValueVerdict(g, dryRun, "a", "a");
    ValueVerdict(g, dryRun, "b", "a");
  }

  /** One policy, with one template for each object, its processed-object cache, and the server. */
  class Evaluator {
    const g: Lib
    const dryRun: Validation
    // The policy as the current evaluation sees it.
    var templates: Templates
    var generation: int
    // status.lastEvaluatedGeneration
    var recorded: int
    var server: map<string, Stored>
    // processedPolicyCache for this policy, by object UID.
    var cache: Cache
    // Every object the server has stored, by its resource version; the templates of every generation that was
    // evaluated; and the generation each cached entry was made for.
    ghost var history: map<string, Stored>
    ghost var specs: map<int, Templates>
    ghost var made: map<string, int>

    constructor (g: Lib, dryRun: Validation, templates: Templates, generation: int)
      requires NameTheirKinds(templates)
      ensures Valid() && cache == map[] && server == map[] && this.templates == templates &&
        this.generation == generation && recorded == 0
    {
      this.g, this.dryRun, this.templates, this.generation, recorded := g, dryRun, templates, generation, 0;
      server, cache, history, specs, made := map[], map[], map[], map[generation := templates], map[];
    }

    /** What holds in any case: the entries are right for the generations they were made for. */
    ghost predicate Sound()
      reads this
    {
      && NameTheirKinds(templates) && generation in specs && specs[generation] == templates
      && ServesHistory(server, history) && AllRight(g, dryRun, history, specs, made, cache)
    }

    /** All entries are for the current generation. */
    ghost predicate Current()
      reads this
    {
      AllMadeFor(made, cache, generation)
    }

    ghost predicate Valid()
      reads this
    {
      Sound() && Current()
    }

    /** What the server has under the object's name has been met, or is written for what has. */
    ghost predicate ExplainedNow(t: Template, spare: Spare, o: Stored, conflicts: seq<Conflict>)
      reads this
    {
      o.name in server ==> Explained(g, t, spare, o.content, conflicts, server[o.name].content)
    }

    /** The server has the object, and comparing it anew finds it compliant. */
    ghost predicate FoundCompliant(name: string)
      reads this
    {
      && name in server && name in templates && Served(server[name].content)
      && !Fails(g, templates[name], server[name].content) && Verdict(g, dryRun, templates[name], server[name].content)
    }

    /**
     * The start of a reconcile, which reads the policy and drops the entries if its generation is not the recorded
     * one. Afterwards all entries are for the current templates exactly if they were dropped, or the last evaluation
     * was of this generation, or there are none; so always when the recorded generation was the evaluated one.
     */
    method Begin(newTemplates: Templates, newGeneration: int)
      requires Valid() && NameTheirKinds(newTemplates)
      // The API server gives every change of the templates another generation.
      requires newGeneration in specs ==> specs[newGeneration] == newTemplates
      modifies this`templates, this`generation, this`cache, this`specs
      ensures Sound() && templates == newTemplates && generation == newGeneration
      ensures cache == DropIfChanged(old(cache), recorded, newGeneration)
      ensures Current() <==> recorded != newGeneration || old(generation) == newGeneration || old(cache) == map[]
      ensures recorded == old(generation) ==> Valid()
    {
      ghost var before := generation;
      Read(newTemplates, newGeneration);
      DroppedStaysRight(g, dryRun, history, specs, made, cache, recorded, newGeneration);
      KeptEntries(made, cache, before, recorded, newGeneration);
      if recorded != newGeneration {
        cache := map[];
      }
    }

    method Read(newTemplates: Templates, newGeneration: int)
      requires Sound() && NameTheirKinds(newTemplates)
      requires newGeneration in specs ==> specs[newGeneration] == newTemplates
      modifies this`templates, this`generation, this`specs
      ensures Sound() && templates == newTemplates && generation == newGeneration
    {
      StaysRight(g, dryRun, history, history, specs, specs[newGeneration := newTemplates], made, cache);
      templates, generation, specs := newTemplates, newGeneration, specs[newGeneration := newTemplates];
    }

    /** The status update at the end of an evaluation, which records some generation as evaluated. */
    method RecordStatus(recordedGeneration: int)
      requires Valid()
      modifies this`recorded
      ensures Valid() && recorded == recordedGeneration
    {
      recorded := recordedGeneration;
    }

    /** setEvaluatedObject, called with the verdict on an object the server has stored. */
    method SetEvaluatedObject(o: Stored, compliant: bool)
      requires Valid() && o.version in history && history[o.version] == o && o.name in templates
      requires OnCluster(o.content) && !Fails(g, templates[o.name], o.content)
      requires compliant == Verdict(g, dryRun, templates[o.name], o.content)
      modifies this`cache, this`made
      ensures Valid() && cache == old(cache)[o.uid := CachedResult(o.version, compliant)]
    {
      AddedIsRight(g, dryRun, history, specs, made, cache, o, compliant, generation);
      cache, made := cache[o.uid := CachedResult(o.version, compliant)], made[o.uid := generation];
    }

    /** alreadyEvaluated: a hit reports what comparing the object anew would report. */
    method AlreadyEvaluated(o: Stored) returns (evaluated: bool, compliant: bool)
      requires Valid() && o.name in server && server[o.name] == o
      ensures evaluated == Hit(cache, o) && compliant == (o.uid in cache && cache[o.uid].compliant)
      ensures evaluated ==> o.name in templates && !Fails(g, templates[o.name], o.content)
      ensures evaluated ==> compliant == Verdict(g, dryRun, templates[o.name], o.content)
    {
      if o.uid !in cache {
        return false, false;
      }
      var result := cache[o.uid];
      assert RightFor(g, dryRun, history, specs, made, o.uid, result);
      return result.version != "" && result.version == o.version, result.compliant;
    }

    /** The server stores an object under a version it has not used before. */
    method Store(name: string, uid: string, version: string, content: Object) returns (o: Stored)
      requires Valid() && Served(content) && version != "" && version !in history
      modifies this`server, this`history
      ensures Valid() && o == Stored(name, uid, version, content)
      ensures server == old(server)[name := o] && history == old(history)[version := o]
    {
      o := Stored(name, uid, version, content);
      server, history := server[name := o], history[version := o];
      StaysRight(g, dryRun, old(history), history, specs, specs, made, cache);
    }

    /** The server deletes an object. */
    method Delete(name: string)
      requires Valid()
      modifies this`server
      ensures Valid() && server == old(server) - {name}
    {
      server := server - {name};
    }

    /** Somebody else changes or deletes an object. */
    method ChangeByOthers(name: string, uid: string, version: string, content: Option<Object>)
      requires Valid() && version != "" && version !in history
      requires content.Some? ==> Served(content.value)
      modifies this`server, this`history
      ensures Valid()
      ensures content.None? ==> server == old(server) - {name} && history == old(history)
      ensures content.Some? ==>
        var o := Stored(name, uid, version, content.value);
        server == old(server)[name := o] && history == old(history)[version := o]
    {
      if content.None? {
        Delete(name);
      } else {
        var _ := Store(name, uid, version, content.value);
      }
    }

    /** An update is stored as sent, and the next comparison accepts it. */
    method Update(o: Stored, t: Template, rewritten: Object, version: string) returns (updated: Stored)
      requires Valid() && o.name in templates && t == templates[o.name] && version != "" && version !in history
      requires Served(o.content) && !Fails(g, t, o.content) && rewritten == Result(g, t, o.content)
      requires Updatable(g, t, rewritten) && dryRun(o.content, rewritten) == Accepted
      modifies this`server, this`history
      ensures Valid() && server == old(server)[o.name := updated] &&
        updated == Stored(o.name, o.uid, version, rewritten)
      ensures version in history && history[version] == updated
      ensures Served(rewritten) && !Fails(g, t, rewritten) && Verdict(g, dryRun, t, rewritten)
    {
      UpdatedIsCompliant(g, dryRun, t, o.content);
      updated := Store(o.name, o.uid, version, rewritten);
    }

    /**
     * The object is deleted and created from the template as the comparison has left it. The server takes only labels
     * and annotations that are maps of strings.
     */
    method Recreate(o: Stored, t: Template, created: Object, ghost spare: Spare, uid: string, version: string)
      returns (updated: Option<Stored>)
      requires Valid() && o.name in templates && t == templates[o.name] && version != "" && version !in history
      requires OnCluster(t.definition) && created == Recreated(g, t, o.content, spare)
      modifies this`server, this`history
      ensures Valid() && (updated.Some? <==> StringMaps(t.definition["metadata"]))
      ensures updated.None? ==> server == old(server) - {o.name}
      ensures updated.Some? ==>
        && updated.value == Stored(o.name, uid, version, Recreated(g, t, o.content, spare))
        && server == old(server)[o.name := updated.value] && version in history && history[version] == updated.value
    {
      CreatedIsServed(g, t, o.content, spare);
      Delete(o.name);
      if !Served(created) {
        return None;
      }
      var stored := Store(o.name, uid, version, created);
      return Some(stored);
    }

    /**
     * The end of an enforced update; nothing is cached when the object could not be created anew, or its status
     * differs.
     */
    method Write(o: Stored, t: Template, rewritten: Object, created: Object, ghost spare: Spare, recreate: bool,
                 statusMismatch: bool, uid: string, version: string)
      returns (written: bool)
      requires Valid() && o.name in templates && t == templates[o.name] && version != "" && version !in history
      requires Served(o.content) && !Fails(g, t, o.content) && rewritten == Result(g, t, o.content)
      requires Updatable(g, t, rewritten) && (!recreate ==> dryRun(o.content, rewritten) == Accepted)
      requires OnCluster(t.definition) && created == Recreated(g, t, o.content, spare) && SettlingKeys(g, t, created)
      modifies this`cache, this`made, this`server, this`history
      ensures Valid() && (!written <==> recreate && !StringMaps(t.definition["metadata"]))
      ensures !written ==> server == old(server) - {o.name} && cache == old(cache)
      ensures written ==> o.name in server && server == old(server)[o.name := server[o.name]]
      ensures written ==> FoundCompliant(o.name)
      ensures written ==>
        var s := server[o.name];
        && s == (if recreate then Stored(o.name, uid, version, Recreated(g, t, o.content, spare))
                 else Stored(o.name, o.uid, version, Result(g, t, o.content)))
        && cache == if statusMismatch then old(cache) else old(cache)[s.uid := CachedResult(version, true)]
    {
      var updated := None;
      if recreate {
        updated := Recreate(o, t, created, spare, uid, version);
        if updated.None? {
          return false;
        }
        CreatedIsServed(g, t, o.content, spare);
        CreatedIsCompliant(g, dryRun, t, o.content, spare);
      } else {
        var stored := Update(o, t, rewritten, version);
        updated := Some(stored);
      }
      if !statusMismatch {
        SetEvaluatedObject(updated.value, true);
      }
      return true;
    }

    /**
     * checkAndUpdateResource, once the cache has missed. `definition` is the template as earlier attempts have left it,
     * `uid` and `version` are what the server assigns if it stores anything, and `outage` is a dry run that fails for a
     * reason other than the object. After a conflict the comparison starts again with the template it has left.
     */
    method CheckAndUpdate(o: Stored, definition: Object, spare: Spare, enforce: bool, recreate: RecreateOption,
                          outage: bool, conflicts: seq<Conflict>, uid: string, version: string)
      returns (compliant: bool)
      requires Valid() && o.name in server && server[o.name] == o && o.name in templates
      requires definition == templates[o.name].definition && OnCluster(definition)
      requires Foreseen(g, history, conflicts, templates[o.name], spare, version)
      requires Settles(g, templates[o.name], o.content, spare)
      requires conflicts != [] ==> LeavesAlone(g, false, templates[o.name], o.content, spare)
      modifies this`cache, this`made, this`server, this`history
      // A compliant report holds of what the server has now.
      ensures Valid() && (compliant ==> FoundCompliant(o.name))
      // Nothing is written unless the policy is enforced and the object differs.
      ensures
        var t := templates[o.name];
        var silent := !enforce || Fails(g, t, o.content) || !UpdateNeeded(g, t, o.content);
        Outcome(old(server), server, o.name, conflicts, silent, StringMaps(t.definition["metadata"]))
      // What is stored, what is cached and what is reported are all determined.
      ensures
        Concluded(g, dryRun, templates[o.name], o, spare, enforce, recreate, outage, conflicts, uid, version,
          old(server), server, old(cache), cache, compliant)
      // What the server has is the object as it was or as others have stored it, or is written for one of these.
      ensures ExplainedNow(templates[o.name], spare, o, conflicts)
    {
      ghost var before, cached := server, cache;
      compliant := Attempt(o, definition, spare, enforce, recreate, outage, conflicts, uid, version);
      ConclusionIsAccounted(g, dryRun, templates[o.name], o, spare, enforce, recreate, outage, conflicts, uid, version,
        before, server, cached, cache, compliant);
    }

    /** One attempt, and those that follow when it meets a conflict. */
    method Attempt(o: Stored, definition: Object, spare: Spare, enforce: bool, recreate: RecreateOption, outage: bool,
                   conflicts: seq<Conflict>, uid: string, version: string)
      returns (compliant: bool)
      requires Valid() && o.name in server && server[o.name] == o && o.name in templates
      requires definition == templates[o.name].definition && OnCluster(definition)
      requires Foreseen(g, history, conflicts, templates[o.name], spare, version)
      requires Settles(g, templates[o.name], o.content, spare)
      requires conflicts != [] ==> LeavesAlone(g, false, templates[o.name], o.content, spare)
      modifies this`cache, this`made, this`server, this`history
      ensures Valid() && (compliant ==> FoundCompliant(o.name))
      ensures
        Concluded(g, dryRun, templates[o.name], o, spare, enforce, recreate, outage, conflicts, uid, version,
          old(server), server, old(cache), cache, compliant)
      decreases |conflicts|, 3
    {
      var t := templates[o.name].(definition := definition);
      var failed, violation, p := HandleKeys(g, t, o.content, spare);
      if failed {
        return false;
      }
      if !p.update {
        SetEvaluatedObject(o, !violation);
        return !violation;
      }
      if outage {
        return false;
      }
      if conflicts != [] && conflicts[0].atDryRun {
        compliant := Retry(o, definition, p.left, spare, enforce, recreate, conflicts, uid, version);
        return;
      }
      compliant := SendUpdate(o, t, p, spare, enforce, recreate, conflicts, uid, version);
    }

    /** The object differs, and handleKeys has made `p` of it. */
    ghost predicate Different(o: Stored, t: Template, p: Progress, spare: Spare, conflicts: seq<Conflict>,
                              version: string)
      reads this
    {
      && o.name in templates && t == templates[o.name] && OnCluster(t.definition) && Served(o.content)
      && !Fails(g, t, o.content) && UpdateNeeded(g, t, o.content)
      && p.statusMismatch == StatusMismatch(g, t, o.content)
      && Rewrites(g, t, o.content, spare, p) && Updatable(g, t, p.result) && SettlingKeys(g, t, p.created)
      && Foreseen(g, history, conflicts, t, spare, version) && ReadFromCluster(conflicts)
      && (conflicts != [] ==> LeavesAlone(g, false, t, o.content, spare))
    }

    /** The object differs: what follows from the answer to the dry run. */
    method SendUpdate(o: Stored, t: Template, p: Progress, spare: Spare, enforce: bool, recreate: RecreateOption,
                      conflicts: seq<Conflict>, uid: string, version: string)
      returns (compliant: bool)
      requires Valid() && o.name in server && server[o.name] == o && Different(o, t, p, spare, conflicts, version)
      modifies this`cache, this`made, this`server, this`history
      ensures Valid() && (compliant ==> FoundCompliant(o.name))
      ensures
        Sent(g, dryRun, t, o, spare, dryRun(o.content, p.result), enforce, recreate, conflicts, uid,
          version, old(server), server, old(cache), cache, compliant)
      decreases |conflicts|, 2
    {
      ghost var before, cached := server, cache;
      var answer := dryRun(o.content, p.result);
      var next := AfterDryRun(answer, Unchanged(p.result, o.content), enforce, recreate);
      DryRunDecides(g, dryRun, t, o.content, p.result, enforce, recreate);
      if next.Report? {
        Report(o, t, next.compliant);
        NextIsSent(g, dryRun, t, o, spare, answer, enforce, recreate, conflicts, uid, version, before, server, cached,
          cache, next.compliant);
        return next.compliant;
      }
      compliant := Enforce(o, t, p, spare, recreate, next.anew, conflicts, uid, version);
      NextIsSent(g, dryRun, t, o, spare, answer, enforce, recreate, conflicts, uid, version, before, server, cached,
        cache, compliant);
    }

    /** The verdict is kept, and nothing written. */
    method Report(o: Stored, t: Template, verdict: bool)
      requires Valid() && o.name in templates && t == templates[o.name]
      requires o.name in server && server[o.name] == o && Served(o.content) && !Fails(g, t, o.content)
      requires verdict == Verdict(g, dryRun, t, o.content)
      modifies this`cache, this`made
      ensures Valid() && (verdict ==> FoundCompliant(o.name))
      ensures Judged(o, verdict, server, server, old(cache), cache, verdict)
    {
      SetEvaluatedObject(o, verdict);
    }

    /** The update of an enforced policy, or its deleting and creating the object. */
    method Enforce(o: Stored, t: Template, p: Progress, spare: Spare, recreate: RecreateOption, anew: bool,
                   conflicts: seq<Conflict>, uid: string, version: string)
      returns (compliant: bool)
      requires Valid() && Different(o, t, p, spare, conflicts, version)
      requires !anew ==> dryRun(o.content, p.result) == Accepted
      modifies this`cache, this`made, this`server, this`history
      ensures Valid() && (compliant ==> FoundCompliant(o.name))
      ensures
        Enforced(g, dryRun, t, o, spare, anew, recreate, conflicts, uid, version, old(server), server, old(cache),
          cache, compliant)
      decreases |conflicts|, 1
    {
      if conflicts != [] && !anew {
        compliant := Retry(o, t.definition, p.left, spare, true, recreate, conflicts, uid, version);
      } else {
        var written := Write(o, t, p.result, p.created, spare, anew, p.statusMismatch, uid, version);
        compliant := written && !p.statusMismatch;
      }
    }

    /** A conflict: the object is read again, and compared with the template as it was left. */
    method Retry(o: Stored, ghost definition: Object, left: Object, spare: Spare, enforce: bool,
                 recreate: RecreateOption, conflicts: seq<Conflict>, uid: string, version: string)
      returns (compliant: bool)
      requires Valid() && o.name in templates && conflicts != []
      requires LeavesAlone(g, false, templates[o.name], o.content, spare)
      requires definition == templates[o.name].definition && OnCluster(definition)
      requires left == Left(g, templates[o.name], o.content, spare)
      requires Foreseen(g, history, conflicts, templates[o.name], spare, version)
      modifies this`cache, this`made, this`server, this`history
      ensures Valid() && (compliant ==> FoundCompliant(o.name))
      ensures
        AfterConflict(g, dryRun, templates[o.name], o.name, spare, enforce, recreate, conflicts, uid, version,
          old(server), server, old(cache), cache, compliant)
      decreases |conflicts|, 0
    {
      ghost var past := history;
      var c := conflicts[0];
      ChangeByOthers(o.name, c.uid, c.version, c.content);
      if c.content.None? || !c.readable {
        return false;
      }
      var again := server[o.name];
      ForeseenRest(g, past, conflicts, templates[o.name], spare, version, again);
      compliant := Attempt(again, left, spare, enforce, recreate, c.outage, conflicts[1..], uid, version);
    }
  }
}
