/**
 * The cache of selected namespaces (pkg/common/namespace_selection.go and pkg/common/pattern_util.go).
 */
module NamespaceSelection {
  import opened Sorting
  import opened Json

  datatype Namespace = Namespace(name: string, labels: map<string, string>)

  /** `selector` is the label selector as written, if there is one. */
  datatype Target = Target(selector: Option<string>, includes: seq<string>, excludes: seq<string>)

  /**
   * `glob` is `filepath.Match` (None for a malformed pattern), `selects` is label selection with a selector that
   * `parses`, and `show` is Target.String, by which targets are compared.
   */
  datatype Env = Env(
    glob: (string, string) -> Option<bool>,
    parses: string -> bool,
    selects: (string, map<string, string>) -> bool,
    show: Target -> string)

  /** The first pattern that matches or is malformed decides. */
  function AnyMatch(env: Env, patterns: seq<string>, name: string): Option<bool> {
    if patterns == [] then Some(false)
    else
      match env.glob(patterns[0], name)
      case None => None
      case Some(true) => Some(true)
      case Some(false) => AnyMatch(env, patterns[1..], name)
  }

  /** Whether a namespace is selected by name; None for a malformed pattern. */
  function Decision(env: Env, includes: seq<string>, excludes: seq<string>, name: string): Option<bool> {
    var included := if includes == [] then Some(true) else AnyMatch(env, includes, name);
    if included != Some(true) then included
    else
      match AnyMatch(env, excludes, name)
      case None => None
      case Some(excluded) => Some(!excluded)
  }

  /** A list, and whether an error came with it. */
  datatype Listing = Listing(names: seq<string>, failed: bool)

  /** The names selected before the first malformed pattern is met. */
  function Chosen(env: Env, includes: seq<string>, excludes: seq<string>, names: seq<string>): Listing {
    if names == [] then Listing([], false)
    else
      match Decision(env, includes, excludes, names[0])
      case None => Listing([], true)
      case Some(selected) =>
        var rest := Chosen(env, includes, excludes, names[1..]);
        Listing((if selected then [names[0]] else []) + rest.names, rest.failed)
  }

  /** A listing that goes on after the names found so far. */
  function After(names: seq<string>, rest: Listing): Listing {
    Listing(names + rest.names, rest.failed)
  }

  lemma {:induction false} AfterAnother(names: seq<string>, name: string, rest: Listing)
    ensures After(names, After([name], rest)) == After(names + [name], rest)
    ensures After(names, After([], rest)) == After(names, rest)
    ensures After(names, Listing([], true)) == Listing(names, true)
  {
  }

  lemma {:induction false} ChosenStep(env: Env, includes: seq<string>, excludes: seq<string>, names: seq<string>,
                                      i: nat)
    requires i < |names|
    ensures Chosen(env, includes, excludes, names[i..]) ==
      match Decision(env, includes, excludes, names[i])
      case None => Listing([], true)
      case Some(selected) =>
        After(if selected then [names[i]] else [], Chosen(env, includes, excludes, names[i + 1..]))
  {
    assert names[i..][0] == names[i] && names[i..][1..] == names[i + 1..];
  }

  /** The pattern loop of Matches. */
  method MatchPatterns(env: Env, patterns: seq<string>, name: string) returns (matched: bool, failed: bool)
    ensures AnyMatch(env, patterns, name) == if failed then None else Some(matched)
  {
    matched := false;
    for i := 0 to |patterns|
      invariant !matched && AnyMatch(env, patterns, name) == AnyMatch(env, patterns[i..], name)
    {
      match env.glob(patterns[i], name)
      case None => return false, true;
      case Some(true) => return true, false;
      case Some(false) =>
    }
    failed := false;
  }

  /** Matches: on a malformed pattern, what was found so far comes with the error. */
  method Matches(env: Env, names: seq<string>, includes: seq<string>, excludes: seq<string>)
    returns (matching: seq<string>, failed: bool)
    ensures Listing(matching, failed) == Chosen(env, includes, excludes, names)
  {
    matching := [];
    for i := 0 to |names|
      invariant Chosen(env, includes, excludes, names) == After(matching, Chosen(env, includes, excludes, names[i..]))
    {
      ChosenStep(env, includes, excludes, names, i);
      AfterAnother(matching, names[i], Chosen(env, includes, excludes, names[i + 1..]));
      var selected;
      selected, failed := MatchName(env, includes, excludes, names[i]);
      if failed {
        return;
      }
      if selected {
        matching := matching + [names[i]];
      }
    }
    failed := false;
  }

  /** The two pattern loops of Matches for one name. */
  method MatchName(env: Env, includes: seq<string>, excludes: seq<string>, name: string)
    returns (selected: bool, failed: bool)
    ensures Decision(env, includes, excludes, name) == if failed then None else Some(selected)
  {
    var included, excluded := |includes| == 0, false;
    failed := false;
    if |includes| > 0 {
      included, failed := MatchPatterns(env, includes, name);
      if failed {
        return false, true;
      }
    }
    if included {
      excluded, failed := MatchPatterns(env, excludes, name);
    }
    selected := included && !excluded;
  }

  predicate IsEmpty(t: Target) {
    t.selector.None? && t.includes == []
  }

  function LabelsMatch(env: Env, t: Target, ns: Namespace): bool {
    t.selector.Some? ==> env.selects(t.selector.value, ns.labels)
  }

  /** The names the API server lists for the target's label selector. */
  function Labelled(env: Env, t: Target, all: seq<Namespace>): seq<string> {
    if all == [] then []
    else (if LabelsMatch(env, t, all[0]) then [all[0].name] else []) + Labelled(env, t, all[1..])
  }

  /** filter: the namespaces a target selects, in order. */
  function Filter(env: Env, all: seq<Namespace>, t: Target): Listing {
    if IsEmpty(t) then Listing([], false)
    else if t.selector.Some? && !env.parses(t.selector.value) then Listing([], true)
    else
      var chosen := Chosen(env, t.includes, t.excludes, Labelled(env, t, all));
      Listing(Sort(ByString(), chosen.names), chosen.failed)
  }

  /** Patterns and selectors of the target are well formed. */
  ghost predicate WellFormed(env: Env, t: Target) {
    && (t.selector.Some? ==> env.parses(t.selector.value))
    && (forall p, name :: p in t.includes || p in t.excludes ==> env.glob(p, name).Some?)
  }

  ghost predicate Matching(env: Env, patterns: seq<string>, name: string) {
    exists p :: p in patterns && env.glob(p, name) == Some(true)
  }

  ghost predicate Selects(env: Env, t: Target, ns: Namespace) {
    && !IsEmpty(t) && LabelsMatch(env, t, ns)
    && (t.includes == [] || Matching(env, t.includes, ns.name)) && !Matching(env, t.excludes, ns.name)
  }

  lemma {:induction false} AnyMatchMeans(env: Env, patterns: seq<string>, name: string)
    requires forall p :: p in patterns ==> env.glob(p, name).Some?
    ensures AnyMatch(env, patterns, name) == Some(Matching(env, patterns, name))
  {
    if patterns != [] {
      AnyMatchMeans(env, patterns[1..], name);
      assert patterns == [patterns[0]] + patterns[1..];
    }
  }

  lemma {:induction false} ChosenMeans(env: Env, t: Target, names: seq<string>)
    requires WellFormed(env, t)
    ensures !Chosen(env, t.includes, t.excludes, names).failed
    ensures forall name :: name in Chosen(env, t.includes, t.excludes, names).names <==>
      name in names && (t.includes == [] || Matching(env, t.includes, name)) && !Matching(env, t.excludes, name)
  {
    if names != [] {
      ChosenMeans(env, t, names[1..]);
      AnyMatchMeans(env, t.includes, names[0]);
      AnyMatchMeans(env, t.excludes, names[0]);
      assert names == [names[0]] + names[1..];
    }
  }

  lemma {:induction false} LabelledMeans(env: Env, t: Target, all: seq<Namespace>)
    ensures forall name :: name in Labelled(env, t, all) <==>
      exists ns :: ns in all && ns.name == name && LabelsMatch(env, t, ns)
  {
    if all != [] {
      LabelledMeans(env, t, all[1..]);
      assert all == [all[0]] + all[1..];
    }
  }

  /** A well-formed target selects the namespaces that its labels, includes and excludes ask for, and no others. */
  lemma {:induction false} FilterMeans(env: Env, all: seq<Namespace>, t: Target)
    requires WellFormed(env, t)
    ensures !Filter(env, all, t).failed
    ensures SortedBy(ByString(), Filter(env, all, t).names)
    ensures forall name :: name in Filter(env, all, t).names <==>
      exists ns :: ns in all && ns.name == name && Selects(env, t, ns)
  {
    if !IsEmpty(t) {
      var labelled := Labelled(env, t, all);
      var chosen := Chosen(env, t.includes, t.excludes, labelled).names;
      LabelledMeans(env, t, all);
      ChosenMeans(env, t, labelled);
      ByStringIsTotal();
      SortPermutes(ByString(), chosen);
      SortSorts(ByString(), chosen);
      PermutationMembers(Sort(ByString(), chosen), chosen);
    }
  }

  /** A target without a selector and without includes selects nothing, whatever it excludes. */
  lemma {:induction false} NothingIsSelected(env: Env, all: seq<Namespace>, t: Target)
    ensures t.selector == None && |t.includes| == 0 ==> Filter(env, all, t) == Listing([], false)
    ensures t.selector.Some? && !env.parses(t.selector.value) ==> Filter(env, all, t) == Listing([], true)
  {
  }

  /** A target with a selector alone selects the namespaces with such labels; one with includes alone looks at all. */
  lemma {:induction false} SelectsMeans(env: Env, t: Target, ns: Namespace)
    ensures Selects(env, t, ns) <==>
      && (t.selector != None || |t.includes| > 0)
      && (t.selector == None || env.selects(t.selector.value, ns.labels))
      && (|t.includes| == 0 || exists p :: p in t.includes && env.glob(p, ns.name) == Some(true))
      && forall p :: p in t.excludes ==> env.glob(p, ns.name) != Some(true)
  {
  }
}
