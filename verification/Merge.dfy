/**
 * What merging a template into an existing value produces, as functions
 * (controllers/configurationpolicy_controller.go, mergeSpecsHelper and mergeArrays for every compliance
 * type but mustonlyhave). MergeInPlace.dfy proves that the loops of the source compute these.
 */
module Merge {
  import opened Json
  import opened Compare
  import opened Greedy

  const EMPTY: Json := Map(map[])

  /** mergeSpecsHelper. */
  function MergeSpecs(g: Lib, z: bool, t: Json, e: Json): Json
    decreases t, 1
  {
    match t
    case Map(fields) =>
      if e.Map? then
        Map(map k | k in fields.Keys + e.fields.Keys ::
              if k !in fields then e.fields[k]
              else if k in e.fields then MergeSpecs(g, z, fields[k], e.fields[k])
              else fields[k])
      else t
    case List(items) => if e.List? && e.items != [] then List(MergeArrays(g, z, items, e.items)) else t
    case Null => if e.Map? then e else t
    case _ => t
  }

  /** The text that groups the existing elements of a list. */
  function Keys(g: Lib, s: seq<Json>): (r: seq<string>)
    ensures |r| == |s|
  {
    seq(|s|, i requires 0 <= i < |s| => g.sprint(s[i]))
  }

  function Occurrences(g: Lib, s: seq<Json>, v: Json): nat {
    multiset(Keys(g, s))[g.sprint(v)]
  }

  /** The first element of each group, in order. */
  function Groups(g: Lib, s: seq<Json>): seq<Json> {
    if s == [] then []
    else
      var front, last := s[..|s| - 1], s[|s| - 1];
      if g.sprint(last) in Keys(g, front) then Groups(g, front) else Groups(g, front) + [last]
  }

  function Repeat<T>(v: T, n: nat): (r: seq<T>)
    ensures |r| == n
  {
    seq(n, _ => v)
  }

  /** Both are maps with the same non-empty string as their name. */
  predicate SameNamed(t: Json, v: Json) {
    && t.Map? && v.Map?
    && "name" in t.fields && "name" in v.fields
    && t.fields["name"].Str? && t.fields["name"] == v.fields["name"] && v.fields["name"].s != ""
  }

  /**
   * What a template element becomes when an existing element is merged into it. The source's variable for the template
   * element is shadowed by a failed type assertion, so an element that is no map becomes a nil map when it meets a map.
   * A nil map is compared and printed like an empty one.
   */
  function MergeElement(g: Lib, z: bool, t: Json, v: Json): Json
    decreases t, 2
  {
    if !v.Map? then t else if t.Map? then MergeSpecs(g, z, t, v) else EMPTY
  }

  predicate Matches(g: Lib, z: bool, t: Json, v: Json)
    decreases t, 3
  {
    SameNamed(t, v) || EqualObj(g, MergeElement(g, z, t, v), v, z)
  }

  /** Which template elements match which groups. */
  function Table(g: Lib, z: bool, t: seq<Json>, groups: seq<Json>): (r: seq<seq<bool>>)
    ensures |r| == |groups|
    ensures forall k :: 0 <= k < |r| ==> |r[k]| == |t|
    ensures forall k, i :: 0 <= k < |r| && 0 <= i < |t| ==> r[k][i] == Matches(g, z, t[i], groups[k])
    decreases t, 1
  {
    seq(|groups|, k requires 0 <= k < |groups| =>
      seq(|t|, i requires 0 <= i < |t| => Matches(g, z, t[i], groups[k])))
  }

  function Needs(g: Lib, s: seq<Json>): (r: seq<nat>)
    ensures |r| == |Groups(g, s)|
    ensures forall k :: 0 <= k < |r| ==> r[k] == Occurrences(g, s, Groups(g, s)[k])
  {
    seq(|Groups(g, s)|, k requires 0 <= k < |Groups(g, s)| => Occurrences(g, s, Groups(g, s)[k]))
  }

  function Assigned(g: Lib, z: bool, t: seq<Json>, e: seq<Json>): (r: Assignment)
    ensures |r.owners| == |t| && |r.left| == |Groups(g, e)|
    decreases t, 2
  {
    Assign(|t|, Table(g, z, t, Groups(g, e)), Needs(g, e), |Groups(g, e)|)
  }

  /** Template element `t`, merged with the group that took it. */
  function MergeOwned(g: Lib, z: bool, t: Json, groups: seq<Json>, owner: Option<nat>): Json
    decreases t, 3
  {
    if owner.Some? && owner.value < |groups| then MergeElement(g, z, t, groups[owner.value]) else t
  }

  /** The values appended for what the groups have left over. */
  function Flatten(groups: seq<Json>, left: seq<nat>): seq<Json>
    requires |left| == |groups|
  {
    if groups == [] then []
    else
      var n := |groups| - 1;
      Flatten(groups[..n], left[..n]) + Repeat(groups[n], left[n])
  }

  /** mergeArrays. */
  function MergeArrays(g: Lib, z: bool, t: seq<Json>, e: seq<Json>): seq<Json>
    decreases t, 3
  {
    var groups := Groups(g, e);
    var a := Assigned(g, z, t, e);
    seq(|t|, i requires 0 <= i < |t| => MergeOwned(g, z, t[i], groups, a.owners[i])) + Flatten(groups, a.left)
  }

  // ---------- nil maps ----------

  /** The merged value as json.Marshal writes it, which is as MergeSpecs has it but with null for a nil map. */
  function SentSpecs(g: Lib, z: bool, t: Json, e: Json): Json
    decreases t, 1
  {
    match t
    case Map(fields) =>
      if e.Map? then
        Map(map k | k in fields.Keys + e.fields.Keys ::
              if k !in fields then e.fields[k]
              else if k in e.fields then SentSpecs(g, z, fields[k], e.fields[k])
              else fields[k])
      else t
    case List(items) => if e.List? && e.items != [] then List(SentArrays(g, z, items, e.items)) else t
    case Null => if e.Map? then e else t
    case _ => t
  }

  function SentElement(g: Lib, z: bool, t: Json, v: Json): Json
    decreases t, 2
  {
    if !v.Map? then t else if t.Map? then SentSpecs(g, z, t, v) else Null
  }

  function SentOwned(g: Lib, z: bool, t: Json, groups: seq<Json>, owner: Option<nat>): Json
    decreases t, 3
  {
    if owner.Some? && owner.value < |groups| then SentElement(g, z, t, groups[owner.value]) else t
  }

  function SentArrays(g: Lib, z: bool, t: seq<Json>, e: seq<Json>): seq<Json>
    decreases t, 3
  {
    var groups := Groups(g, e);
    var a := Assigned(g, z, t, e);
    seq(|t|, i requires 0 <= i < |t| => SentOwned(g, z, t[i], groups, a.owners[i])) + Flatten(groups, a.left)
  }

  /** A Go value that may have nil maps in it: as it is compared and printed, and as it is marshalled. */
  datatype Value = Value(seen: Json, sent: Json)

  const NIL_MAP: Value := Value(EMPTY, Null)

  function MergedValue(g: Lib, z: bool, t: Json, e: Json): Value {
    Value(MergeSpecs(g, z, t, e), SentSpecs(g, z, t, e))
  }

  function ElementValue(g: Lib, z: bool, t: Json, v: Json): Value {
    Value(MergeElement(g, z, t, v), SentElement(g, z, t, v))
  }

  function OwnedValue(g: Lib, z: bool, t: Json, groups: seq<Json>, owner: Option<nat>): Value {
    Value(MergeOwned(g, z, t, groups, owner), SentOwned(g, z, t, groups, owner))
  }

  /** A list with no nil maps in it. */
  function AsValues(s: seq<Json>): (r: seq<Value>)
    ensures |r| == |s|
  {
    seq(|s|, i requires 0 <= i < |s| => Value(s[i], s[i]))
  }

  function SeenOf(s: seq<Value>): (r: seq<Json>)
    ensures |r| == |s|
  {
    seq(|s|, i requires 0 <= i < |s| => s[i].seen)
  }

  function SentOf(s: seq<Value>): (r: seq<Json>)
    ensures |r| == |s|
  {
    seq(|s|, i requires 0 <= i < |s| => s[i].sent)
  }

  function MergedValues(g: Lib, z: bool, t: seq<Json>, e: seq<Json>): seq<Value> {
    var groups := Groups(g, e);
    var a := Assigned(g, z, t, e);
    seq(|t|, i requires 0 <= i < |t| => OwnedValue(g, z, t[i], groups, a.owners[i])) + AsValues(Flatten(groups, a.left))
  }

  /**
   * The slice that mergeArrays was called with, as it leaves it. An append that needs more than the `spare` room behind
   * the slice moves it elsewhere, and what is written from then on does not reach the caller.
   */
  function CallersValues(g: Lib, z: bool, t: seq<Json>, e: seq<Json>, spare: nat): (r: seq<Value>)
    ensures |r| == |t|
  {
    var groups := Groups(g, e);
    var owners := Assigned(g, z, t, e).owners;
    var reach := Reach(|t|, Table(g, z, t, groups), Needs(g, e), |groups|, spare);
    seq(|t|, i requires 0 <= i < |t| => OwnedValue(g, z, t[i], groups, OwnerWithin(owners[i], reach)))
  }

  /**
   * A template element as the next comparison finds it: a map is copied through JSON before it is merged, and a nil map
   * takes any map it meets, like an empty one.
   */
  function Found(v: Value): Json {
    if v.seen.Map? && !v.sent.Map? then EMPTY else v.sent
  }

  /** The caller's slice as it is compared again, and as it is sent. */
  function CallersList(g: Lib, z: bool, t: seq<Json>, e: seq<Json>, spare: nat): (r: seq<Json>)
    ensures |r| == |t|
  {
    var values := CallersValues(g, z, t, e, spare);
    seq(|t|, i requires 0 <= i < |t| => Found(values[i]))
  }

  function CallersSent(g: Lib, z: bool, t: seq<Json>, e: seq<Json>, spare: nat): (r: seq<Json>)
    ensures |r| == |t|
  {
    SentOf(CallersValues(g, z, t, e, spare))
  }
}
