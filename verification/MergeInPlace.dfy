/**
 * The merge as the source runs it: loops over maps in any order, and a template slice that is overwritten in place
 * until an append moves it.
 */
module MergeInPlace {
  import opened Json
  import opened Compare
  import opened Greedy
  import opened Merge
  import opened Matching

  datatype CountedVal = CountedVal(value: Json, count: nat)

  /** The groups of a prefix are the first groups of the list. */
  lemma {:induction false} GroupsOfPrefix(g: Lib, s: seq<Json>, j: nat)
    requires j <= |s|
    ensures Groups(g, s[..j]) <= Groups(g, s)
  {
    if j < |s| {
      var front := s[..|s| - 1];
      assert front[..j] == s[..j];
      GroupsOfPrefix(g, front, j);
    } else {
      assert s[..j] == s;
    }
  }

  lemma {:induction false} GroupsStep(g: Lib, s: seq<Json>, j: nat)
    requires j < |s|
    ensures Keys(g, s[..j + 1]) == Keys(g, s[..j]) + [g.sprint(s[j])]
    ensures Groups(g, s[..j + 1]) ==
      if g.sprint(s[j]) in Keys(g, s[..j]) then Groups(g, s[..j]) else Groups(g, s[..j]) + [s[j]]
  {
    assert s[..j + 1][..j] == s[..j];
  }

  /** One counted entry for each text. */
  ghost predicate Counted(g: Lib, s: seq<Json>, items: map<string, CountedVal>) {
    && (forall key :: key in items <==> key in Keys(g, s))
    && (forall v :: v in Groups(g, s) ==>
          g.sprint(v) in items && items[g.sprint(v)] == CountedVal(v, Occurrences(g, s, v)))
  }

  function WithItem(g: Lib, items: map<string, CountedVal>, v: Json): map<string, CountedVal> {
    var key := g.sprint(v);
    items[key := if key in items then items[key].(count := items[key].count + 1) else CountedVal(v, 1)]
  }

  lemma {:induction false} CountAnother(g: Lib, s: seq<Json>, v: Json, items: map<string, CountedVal>)
    requires Counted(g, s, items)
    ensures Counted(g, s + [v], WithItem(g, items, v))
  {
    var after, items' := s + [v], WithItem(g, items, v);
    assert after[..|s|] == s;
    assert Keys(g, after) == Keys(g, s) + [g.sprint(v)];
    GroupsRepresent(g, s);
    forall u | u in Groups(g, after)
      ensures g.sprint(u) in items' && items'[g.sprint(u)] == CountedVal(u, Occurrences(g, after, u))
    {
      OccurrencesAppend(g, s, v, u);
    }
  }

  /** The first loop of mergeArrays. */
  method CountItems(g: Lib, existing: seq<Json>) returns (items: map<string, CountedVal>)
    ensures Counted(g, existing, items)
  {
    items := map[];
    for j := 0 to |existing|
      invariant Counted(g, existing[..j], items)
    {
      ghost var before := items;
      var key := g.sprint(existing[j]);
      if key in items {
        items := items[key := items[key].(count := items[key].count + 1)];
      } else {
        items := items[key := CountedVal(existing[j], 1)];
      }
      assert items == WithItem(g, before, existing[j]);
      CountAnother(g, existing[..j], existing[j], before);
      assert existing[..j + 1] == existing[..j] + [existing[j]];
    }
    assert existing[..|existing|] == existing;
  }

  /** What `desired` and `idxWritten` hold when `owners` have taken their elements. */
  ghost predicate Written(g: Lib, z: bool, t: seq<Json>, groups: seq<Json>, owners: Owners, desired: seq<Value>,
                          written: seq<bool>)
  {
    && |owners| == |desired| == |written| == |t|
    && forall i :: 0 <= i < |t| ==>
      written[i] == owners[i].Some? && desired[i] == OwnedValue(g, z, t[i], groups, owners[i])
  }

  lemma {:induction false} WriteAnother(g: Lib, z: bool, t: seq<Json>, groups: seq<Json>, owners: Owners,
                                        desired: seq<Value>, written: seq<bool>, i: nat, k: nat)
    requires Written(g, z, t, groups, owners, desired, written) && i < |t| && k < |groups|
    ensures Written(g, z, t, groups, owners[i := Some(k)], desired[i := ElementValue(g, z, t[i], groups[k])],
      written[i := true])
  {
  }

  /** A scan that has come to position `i`, with `count` elements taken and `after` the owners so far. */
  ghost predicate Scanning(fits: seq<bool>, owners: Owners, k: nat, need: nat, after: Owners, count: nat, i: nat) {
    && |after| == |owners| == |fits| && i <= |fits| && count <= need
    && var rest := Absorb(fits, after, k, need - count, i);
       Absorb(fits, owners, k, need, 0) == Scan(rest.owners, count + rest.count)
  }

  lemma {:induction false} ScanAnother(fits: seq<bool>, owners: Owners, k: nat, need: nat, after: Owners, count: nat,
                                       i: nat)
    requires Scanning(fits, owners, k, need, after, count, i) && i < |fits| && count < need
    ensures if after[i].None? && fits[i] then Scanning(fits, owners, k, need, after[i := Some(k)], count + 1, i + 1)
      else Scanning(fits, owners, k, need, after, count, i + 1)
  {
  }

  lemma {:induction false} ScanDone(fits: seq<bool>, owners: Owners, k: nat, need: nat, after: Owners, count: nat,
                                    i: nat)
    requires Scanning(fits, owners, k, need, after, count, i) && (i == |fits| || count == need)
    ensures Scan(after, count) == Absorb(fits, owners, k, need, 0)
  {
  }

  /** The body of the scan for a free position, which is taken if it matches. */
  method TryElement(g: Lib, z: bool, t: seq<Json>, ghost groups: seq<Json>, ghost k: nat, val2: Json, i: nat,
                    desired: array<Value>, written: array<bool>, ghost owners: Owners)
    returns (taken: bool)
    requires k < |groups| && groups[k] == val2 && i < |t|
    requires Written(g, z, t, groups, owners, desired[..], written[..])
    modifies desired, written
    ensures taken == Matches(g, z, t[i], val2)
    ensures Written(g, z, t, groups, if taken then owners[i := Some(k)] else owners, desired[..], written[..])
    decreases t, 0
  {
    var merged;
    merged, taken := MatchElement(g, z, t[i], val2);
    if taken {
      WriteAnother(g, z, t, groups, owners, desired[..], written[..], i, k);
      ghost var desired', written' := desired[..][i := merged], written[..][i := true];
      desired[i], written[i] := merged, true;
      assert desired[..] == desired' && written[..] == written';
    }
  }

  ghost predicate RowOf(g: Lib, z: bool, t: seq<Json>, v: Json, fits: seq<bool>) {
    |fits| == |t| && forall i :: 0 <= i < |t| ==> fits[i] == Matches(g, z, t[i], v)
  }

  /** The scan of the template for one group. */
  method ScanTemplate(g: Lib, z: bool, t: seq<Json>, ghost groups: seq<Json>, ghost k: nat, val2: Json, need: nat,
                      desired: array<Value>, written: array<bool>, ghost owners: Owners, ghost fits: seq<bool>)
    returns (count: nat, ghost after: Owners)
    requires k < |groups| && groups[k] == val2 && need > 0 && RowOf(g, z, t, val2, fits)
    requires Written(g, z, t, groups, owners, desired[..], written[..])
    modifies desired, written
    ensures Scan(after, count) == Absorb(fits, owners, k, need, 0)
    ensures Written(g, z, t, groups, after, desired[..], written[..])
    decreases t, 1, 0
  {
    count, after := 0, owners;
    var i := 0;
    while i < desired.Length
      invariant count < need
      invariant Written(g, z, t, groups, after, desired[..], written[..])
      invariant Scanning(fits, owners, k, need, after, count, i)
    {
      ScanAnother(fits, owners, k, need, after, count, i);
      if !written[i] {
        var taken := TryElement(g, z, t, groups, k, val2, i, desired, written, after);
        if taken {
          count := count + 1;
          after := after[i := Some(k)];
        }
        if count == need {
          ScanDone(fits, owners, k, need, after, count, i + 1);
          return;
        }
      }
      i := i + 1;
    }
    ScanDone(fits, owners, k, need, after, count, i);
  }

  /**
   * The body of that scan: the merged element, and whether it counts as a match. Where the template element is no map,
   * what is compared and written is the nil map of the failed type assertion.
   */
  method MatchElement(g: Lib, z: bool, val1: Json, val2: Json) returns (merged: Value, matched: bool)
    ensures merged == ElementValue(g, z, val1, val2) && matched == Matches(g, z, val1, val2)
    decreases val1, 2
  {
    var sameNamed := false;
    merged := Value(val1, val1);
    if val2.Map? {
      if !val1.Map? {
        merged := NIL_MAP;
      } else {
        if "name" in val2.fields && val2.fields["name"].Str? && val2.fields["name"].s != "" {
          if "name" in val1.fields && val1.fields["name"].Str? && val1.fields["name"].s == val2.fields["name"].s {
            sameNamed := true;
          }
        }
        merged := MergeSpecsHelper(g, z, val1, val2);
      }
    }
    matched := sameNamed || EqualObj(g, merged.seen, val2, z);
  }

  /** The values appended for the first `k` groups. */
  ghost function AppendedBy(g: Lib, z: bool, t: seq<Json>, e: seq<Json>, k: nat): seq<Json>
    requires k <= |Groups(g, e)|
  {
    Flatten(Groups(g, e)[..k], Assign(|t|, Table(g, z, t, Groups(g, e)), Needs(g, e), k).left)
  }

  ghost function OwnersAfter(g: Lib, z: bool, t: seq<Json>, e: seq<Json>, k: nat): (r: Owners)
    requires k <= |Groups(g, e)|
    ensures |r| == |t|
  {
    Assign(|t|, Table(g, z, t, Groups(g, e)), Needs(g, e), k).owners
  }

  lemma {:induction false} FlattenNext(groups: seq<Json>, left: seq<nat>, k: nat, more: nat)
    requires |left| == k < |groups|
    ensures Flatten(groups[..k + 1], left + [more]) == Flatten(groups[..k], left) + Repeat(groups[k], more)
  {
    assert groups[..k + 1][..k] == groups[..k] && (left + [more])[..k] == left;
  }

  lemma {:induction false} GroupHandled(g: Lib, z: bool, t: seq<Json>, e: seq<Json>, k: nat, after: Owners, count: nat)
    requires k < |Groups(g, e)|
    requires Scan(after, count) ==
      Absorb(Table(g, z, t, Groups(g, e))[k], OwnersAfter(g, z, t, e, k), k, Needs(g, e)[k], 0)
    ensures OwnersAfter(g, z, t, e, k + 1) == after && count <= Needs(g, e)[k]
    ensures AppendedBy(g, z, t, e, k + 1) == AppendedBy(g, z, t, e, k) + Repeat(Groups(g, e)[k], Needs(g, e)[k] - count)
  {
    var groups, needs, fits := Groups(g, e), Needs(g, e), Table(g, z, t, Groups(g, e));
    var left := Assign(|t|, fits, needs, k).left;
    AssignNext(|t|, fits, needs, k, after, count);
    FlattenNext(groups, left, k, needs[k] - count);
    assert Assign(|t|, fits, needs, k + 1).left == left + [needs[k] - count];
  }

  lemma {:induction false} AssignNext(n: nat, fits: seq<seq<bool>>, needs: seq<nat>, k: nat, after: Owners, count: nat)
    requires IsTable(n, fits, needs) && k < |fits|
    requires Scan(after, count) == Absorb(fits[k], Assign(n, fits, needs, k).owners, k, needs[k], 0)
    ensures count <= needs[k]
    ensures Assign(n, fits, needs, k + 1) == Assignment(after, Assign(n, fits, needs, k).left + [needs[k] - count])
  {
  }

  /** The first `k` groups have been handled. */
  ghost predicate Handled(g: Lib, z: bool, t: seq<Json>, e: seq<Json>, k: nat, desired: seq<Value>, written: seq<bool>,
                          appended: seq<Json>)
  {
    && k <= |Groups(g, e)|
    && Written(g, z, t, Groups(g, e), OwnersAfter(g, z, t, e, k), desired, written)
    && appended == AppendedBy(g, z, t, e, k)
  }

  lemma {:induction false} NoneHandled(g: Lib, z: bool, t: seq<Json>, e: seq<Json>, written: seq<bool>)
    requires |written| == |t| && forall i :: 0 <= i < |t| ==> !written[i]
    ensures Groups(g, e[..0]) == [] && Handled(g, z, t, e, 0, AsValues(t), written, [])
  {
  }

  lemma {:induction false} AllHandled(g: Lib, z: bool, t: seq<Json>, e: seq<Json>, desired: seq<Value>,
                                      written: seq<bool>, appended: seq<Json>)
    requires Handled(g, z, t, e, |Groups(g, e)|, desired, written, appended)
    ensures desired + AsValues(appended) == MergedValues(g, z, t, e)
  {
    var groups := Groups(g, e);
    assert groups[..|groups|] == groups;
  }

  lemma {:induction false} NewGroup(g: Lib, e: seq<Json>, j: nat)
    requires j < |e| && g.sprint(e[j]) !in Keys(g, e[..j])
    ensures var k := |Groups(g, e[..j])|;
      && k < |Groups(g, e)| && Groups(g, e)[k] == e[j] && k + 1 == |Groups(g, e[..j + 1])|
      && Needs(g, e)[k] == Occurrences(g, e, e[j]) > 0
  {
    GroupsStep(g, e, j);
    GroupsOfPrefix(g, e, j + 1);
    assert Keys(g, e)[j] == g.sprint(e[j]);
  }

  ghost predicate Seen(g: Lib, e: seq<Json>, j: nat, seen: set<string>)
    requires j <= |e|
  {
    forall key :: key in seen <==> key in Keys(g, e[..j])
  }

  /** An element with a new text is the next group, and its entry is what that group needs. */
  lemma {:induction false} SeeNext(g: Lib, e: seq<Json>, j: nat, seen: set<string>, items: map<string, CountedVal>)
    requires j < |e| && Seen(g, e, j, seen) && Counted(g, e, items)
    ensures var key, k := g.sprint(e[j]), |Groups(g, e[..j])|;
      if key in seen then Seen(g, e, j + 1, seen) && |Groups(g, e[..j + 1])| == k
      else
        && Seen(g, e, j + 1, seen + {key}) && |Groups(g, e[..j + 1])| == k + 1
        && key in items && k < |Groups(g, e)| && Groups(g, e)[k] == items[key].value
        && Needs(g, e)[k] == items[key].count > 0
  {
    GroupsStep(g, e, j);
    if g.sprint(e[j]) !in seen {
      NewGroup(g, e, j);
      assert Groups(g, e)[|Groups(g, e[..j])|] in Groups(g, e);
    }
  }

  // ---------- the caller's slice ----------

  lemma {:induction false} FlattenLength(groups: seq<Json>, left: seq<nat>)
    requires |left| == |groups|
    ensures |Flatten(groups, left)| == Sum(left)
  {
    if groups != [] {
      FlattenLength(groups[..|groups| - 1], left[..|groups| - 1]);
    }
  }

  ghost function ReachAfter(g: Lib, z: bool, t: seq<Json>, e: seq<Json>, k: nat, spare: nat): (r: nat)
    requires k <= |Groups(g, e)|
    ensures r <= k
  {
    Reach(|t|, Table(g, z, t, Groups(g, e)), Needs(g, e), k, spare)
  }

  /** What the caller's slice holds when `k` groups have been handled. */
  ghost predicate LeftBehind(g: Lib, z: bool, t: seq<Json>, e: seq<Json>, k: nat, spare: nat, desired: seq<Value>) {
    && k <= |Groups(g, e)| && |desired| == |t|
    && forall i :: 0 <= i < |t| ==>
      desired[i] == OwnedValue(g, z, t[i], Groups(g, e), OwnersAfter(g, z, t, e, ReachAfter(g, z, t, e, k, spare))[i])
  }

  lemma {:induction false} NothingLeftBehind(g: Lib, z: bool, t: seq<Json>, e: seq<Json>, spare: nat)
    ensures LeftBehind(g, z, t, e, 0, spare, AsValues(t))
  {
  }

  /** The slice has been written as long as the values appended before fit behind it. */
  lemma {:induction false} LeaveNext(g: Lib, z: bool, t: seq<Json>, e: seq<Json>, k: nat, spare: nat,
                                     before: seq<Json>, desired: seq<Value>, written: seq<bool>)
    requires k < |Groups(g, e)| && before == AppendedBy(g, z, t, e, k)
    requires
      if |before| <= spare then Written(g, z, t, Groups(g, e), OwnersAfter(g, z, t, e, k + 1), desired, written)
      else LeftBehind(g, z, t, e, k, spare, desired)
    ensures LeftBehind(g, z, t, e, k + 1, spare, desired)
  {
    FlattenLength(Groups(g, e)[..k], Assign(|t|, Table(g, z, t, Groups(g, e)), Needs(g, e), k).left);
  }

  lemma {:induction false} AllLeftBehind(g: Lib, z: bool, t: seq<Json>, e: seq<Json>, spare: nat, desired: seq<Value>)
    requires LeftBehind(g, z, t, e, |Groups(g, e)|, spare, desired)
    ensures desired == CallersValues(g, z, t, e, spare)
  {
    var m := |Groups(g, e)|;
    AssignKeeps(|t|, Table(g, z, t, Groups(g, e)), Needs(g, e), ReachAfter(g, z, t, e, m, spare), m);
  }

  /**
   * One group of mergeArrays: its scan of the template, and the appending of what is left over, which moves the slice
   * when the appended values need more than the `spare` room behind it for the first time.
   */
  method MergeGroup(g: Lib, z: bool, t: seq<Json>, ghost e: seq<Json>, ghost k: nat, val2: Json, need: nat,
                    slice: array<Value>, spare: nat, written: array<bool>, before: seq<Json>)
    returns (moved: array<Value>, appended: seq<Json>)
    requires Handled(g, z, t, e, k, slice[..], written[..], before)
    requires k < |Groups(g, e)| && Groups(g, e)[k] == val2 && Needs(g, e)[k] == need > 0
    modifies slice, written
    ensures Handled(g, z, t, e, k + 1, moved[..], written[..], appended)
    ensures |before| <= |appended|
    ensures if |before| <= spare < |appended| then fresh(moved) else moved == slice
    ensures moved[..] == slice[..]
    decreases t, 1, 1
  {
    ghost var owners, fits := OwnersAfter(g, z, t, e, k), Table(g, z, t, Groups(g, e))[k];
    var count, after := ScanTemplate(g, z, t, Groups(g, e), k, val2, need, slice, written, owners, fits);
    GroupHandled(g, z, t, e, k, after, count);
    appended := before;
    if count < need {
      appended := appended + Repeat(val2, need - count);
    }
    moved := slice;
    if |before| <= spare < |appended| {
      moved := new Value[slice.Length](i requires 0 <= i < slice.Length reads slice => slice[i]);
      assert moved[..] == slice[..];
    }
  }

  /** mergeArrays: the result, and the template slice, `spare` of whose capacity is not in use, as it is left behind. */
  method MergeArraysInPlace(g: Lib, z: bool, ghost t: seq<Json>, desired: array<Value>, spare: nat, existing: seq<Json>)
    returns (result: seq<Value>)
    requires desired[..] == AsValues(t)
    modifies desired
    ensures result == MergedValues(g, z, t, existing)
    ensures desired[..] == CallersValues(g, z, t, existing, spare)
    decreases t, 2
  {
    var copy := seq(desired.Length, i requires 0 <= i < desired.Length reads desired => desired[i].seen);
    assert copy == t;
    var slice := desired;
    var written := new bool[desired.Length](_ => false);
    var items := CountItems(g, existing);
    var seen: set<string> := {};
    var appended: seq<Json> := [];
    ghost var k := 0;
    NoneHandled(g, z, t, existing, written[..]);
    NothingLeftBehind(g, z, t, existing, spare);
    for j := 0 to |existing|
      invariant Seen(g, existing, j, seen) && k == |Groups(g, existing[..j])|
      invariant Handled(g, z, t, existing, k, slice[..], written[..], appended)
      invariant slice == desired <==> |appended| <= spare
      invariant slice != desired ==> fresh(slice)
      invariant LeftBehind(g, z, t, existing, k, spare, desired[..])
    {
      SeeNext(g, existing, j, seen, items);
      var key := g.sprint(existing[j]);
      if key !in seen {
        seen := seen + {key};
        ghost var before := appended;
        slice, appended :=
          MergeGroup(g, z, copy, existing, k, items[key].value, items[key].count, slice, spare, written, appended);
        LeaveNext(g, z, t, existing, k, spare, before, desired[..], written[..]);
        k := k + 1;
      }
    }
    assert k == |Groups(g, existing)| by {
      assert existing[..|existing|] == existing;
    }
    AllHandled(g, z, t, existing, slice[..], written[..], appended);
    AllLeftBehind(g, z, t, existing, spare, desired[..]);
    result := slice[..] + AsValues(appended);
  }

  /** The value a key of the template has once the keys outside `left` have been visited. */
  ghost function MergedField(g: Lib, z: bool, t: Json, e: Json, left: set<string>, k: string): Value
    requires t.Map? && e.Map? && (k in t.fields || k in e.fields)
  {
    if k !in t.fields then Value(e.fields[k], e.fields[k])
    else if k in e.fields && k !in left then MergedValue(g, z, t.fields[k], e.fields[k])
    else Value(t.fields[k], t.fields[k])
  }

  /** The keys of `e` outside `left` have been merged. */
  ghost predicate MergedUpTo(g: Lib, z: bool, t: Json, e: Json, left: set<string>, merged: map<string, Value>)
    requires t.Map? && e.Map?
  {
    && left <= e.fields.Keys
    && merged.Keys == t.fields.Keys + (e.fields.Keys - left)
    && forall k :: k in merged ==> merged[k] == MergedField(g, z, t, e, left, k)
  }

  lemma {:induction false} MergeAnother(g: Lib, z: bool, t: Json, e: Json, left: set<string>,
                                        merged: map<string, Value>, k: string)
    requires t.Map? && e.Map? && MergedUpTo(g, z, t, e, left, merged) && k in left
    ensures k in merged <==> k in t.fields
    ensures k in merged ==> merged[k] == Value(t.fields[k], t.fields[k])
    ensures
      var v := e.fields[k];
      MergedUpTo(g, z, t, e, left - {k},
        merged[k := if k in t.fields then MergedValue(g, z, t.fields[k], v) else Value(v, v)])
  {
  }

  lemma {:induction false} SeenAll(g: Lib, z: bool, t: Json, e: Json, merged: map<string, Value>)
    requires t.Map? && e.Map? && MergedUpTo(g, z, t, e, {}, merged)
    ensures MapValue(merged).seen == MergeSpecs(g, z, t, e)
  {
    assert MapValue(merged).seen.fields == MergeSpecs(g, z, t, e).fields;
  }

  lemma {:induction false} MergedAll(g: Lib, z: bool, t: Json, e: Json, merged: map<string, Value>)
    requires t.Map? && e.Map? && MergedUpTo(g, z, t, e, {}, merged)
    ensures MapValue(merged) == MergedValue(g, z, t, e)
  {
    SeenAll(g, z, t, e, merged);
    assert MapValue(merged).sent.fields == SentSpecs(g, z, t, e).fields;
  }

  function MapValue(merged: map<string, Value>): Value {
    Value(Map(map k | k in merged :: merged[k].seen), Map(map k | k in merged :: merged[k].sent))
  }

  /** Two maps: the existing keys are visited in any order and the template map updated. */
  method MergeMaps(g: Lib, z: bool, t: Json, e: Json) returns (r: Value)
    requires t.Map? && e.Map?
    ensures r == MergedValue(g, z, t, e)
    decreases t, 0
  {
    var merged := map k | k in t.fields :: Value(t.fields[k], t.fields[k]);
    var keys := e.fields.Keys;
    while keys != {}
      invariant MergedUpTo(g, z, t, e, keys, merged)
      decreases keys
    {
      var k :| k in keys;
      MergeAnother(g, z, t, e, keys, merged, k);
      keys := keys - {k};
      if k in merged {
        var v := MergeSpecsHelper(g, z, merged[k].seen, e.fields[k]);
        merged := merged[k := v];
      } else {
        merged := merged[k := Value(e.fields[k], e.fields[k])];
      }
    }
    MergedAll(g, z, t, e, merged);
    return MapValue(merged);
  }

  lemma {:induction false} ListValue(g: Lib, z: bool, t: seq<Json>, e: seq<Json>)
    ensures SeenOf(MergedValues(g, z, t, e)) == MergeArrays(g, z, t, e)
    ensures SentOf(MergedValues(g, z, t, e)) == SentArrays(g, z, t, e)
  {
  }

  /** mergeSpecsHelper, on its own copy of the template. */
  method MergeSpecsHelper(g: Lib, z: bool, t: Json, e: Json) returns (r: Value)
    ensures r == MergedValue(g, z, t, e)
    decreases t, 1
  {
    r := Value(t, t);
    match t
    case Map(fields) =>
      if e.Map? {
        r := MergeMaps(g, z, t, e);
      }
    case List(items) =>
      if e.List? && e.items != [] {
        var desired := new Value[|items|](i requires 0 <= i < |items| => Value(items[i], items[i]));
        assert desired[..] == AsValues(items);
        var spare: nat := *;
        var merged := MergeArraysInPlace(g, z, items, desired, spare, e.items);
        ListValue(g, z, items, e.items);
        r := Value(List(SeenOf(merged)), List(SentOf(merged)));
      }
    case Null =>
      if e.Map? {
        r := Value(e, e);
      }
    case _ =>
  }
}
