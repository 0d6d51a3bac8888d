/** The selection cache itself: the reconciler with its operations run one at a time, and interleaved. */
module NamespaceCache {
  import opened Sorting
  import opened Json
  import opened NamespaceSelection

  datatype Selection = Selection(target: Target, names: seq<string>, hasUpdate: bool, failed: bool)

  type Selections = map<string, Selection>

  function ListingOf(s: Selection): Listing {
    Listing(s.names, s.failed)
  }

  /** What Get writes after listing the namespaces. */
  function GetResult(env: Env, t: Target, all: seq<Namespace>): Selection {
    var l := Filter(env, all, t);
    Selection(t, l.names, false, l.failed)
  }

  /** What Reconcile writes for an entry it has copied, if anything: an unchanged list is left alone. */
  function ReconcileResult(env: Env, s: Selection, all: seq<Namespace>): Option<Selection> {
    var l := Filter(env, all, s.target);
    if l.failed then Some(Selection(s.target, l.names, !s.failed, true))
    else if l.names != s.names then Some(Selection(s.target, l.names, true, false))
    else None
  }

  function Reconciled(env: Env, s: Selection, all: seq<Namespace>): Selection {
    var r := ReconcileResult(env, s, all);
    if r.Some? then r.value else s
  }

  predicate Hit(env: Env, selections: Selections, key: string, t: Target) {
    key in selections && env.show(selections[key].target) == env.show(t)
  }

  /** A well-formed entry: nothing has failed, and without an update pending it is what Get returned last. */
  ghost predicate Sound(env: Env, s: Selection, returned: Option<seq<string>>) {
    WellFormed(env, s.target) && !s.failed && (!s.hasUpdate ==> returned == Some(s.names))
  }

  /** After Reconcile a well-formed entry lists what its own target selects now, and is marked if that is news. */
  lemma {:induction false} ReconcileIsFresh(env: Env, s: Selection, all: seq<Namespace>, returned: Option<seq<string>>)
    requires Sound(env, s, returned)
    ensures var r := Reconciled(env, s, all);
      && Sound(env, r, returned) && r.target == s.target
      && ListingOf(r) == Filter(env, all, s.target)
      && (r.hasUpdate <==> s.hasUpdate || r.names != s.names)
      && (!r.hasUpdate ==> returned == Some(Filter(env, all, s.target).names))
  {
    FilterMeans(env, all, s.target);
  }

  class NamespaceSelectorReconciler {
    const env: Env
    var selections: Selections
    // What the last Get of each policy returned.
    ghost var returned: map<string, seq<string>>

    ghost predicate Valid()
      reads this
    {
      forall key :: key in selections ==>
        Sound(env, selections[key], if key in returned then Some(returned[key]) else None)
    }

    constructor (env: Env)
      ensures Valid() && selections == map[] && this.env == env
    {
      this.env, selections, returned := env, map[], map[];
    }

    /** update. */
    method Update(key: string, s: Selection)
      modifies this`selections
      ensures selections == old(selections)[key := s]
    {
      selections := selections[key := s];
    }

    /** Stop. */
    method Stop(key: string)
      modifies this`selections
      ensures selections == old(selections) - {key} && (old(Valid()) ==> Valid())
    {
      selections := selections - {key};
    }

    /** HasUpdate; the zero value stands for an absent entry. */
    method HasUpdate(key: string) returns (r: bool)
      ensures r <==> key in selections && selections[key].hasUpdate
      ensures Valid() && key in selections && !r ==> key in returned && selections[key].names == returned[key]
    {
      return key in selections && selections[key].hasUpdate;
    }

    /**
     * Get, with the namespaces the client lists: a hit returns the cached list, a miss computes the same as filter,
     * where the client has selected by the labels.
     */
    method Get(key: string, t: Target, all: seq<Namespace>) returns (names: seq<string>, failed: bool)
      modifies this`selections, this`returned
      ensures selections == old(selections)[key :=
        if Hit(env, old(selections), key, t) then old(selections)[key].(hasUpdate := false) else GetResult(env, t, all)]
      ensures Listing(names, failed) == ListingOf(selections[key])
      ensures returned == old(returned)[key := names]
      ensures old(Valid()) && WellFormed(env, t) ==> Valid()
    {
      FilterWellFormed(env, all, t);
      if key in selections && env.show(selections[key].target) == env.show(t) {
        var s := selections[key].(hasUpdate := false);
        returned := returned[key := s.names];
        selections := selections[key := s];
        return s.names, s.failed;
      }
      names, failed := FilterNames(t, all);
      returned := returned[key := names];
      Update(key, Selection(t, names, false, failed));
    }

    /** Reconcile, with the namespaces the client lists. */
    method Reconcile(all: seq<Namespace>)
      modifies this`selections
      ensures selections.Keys == old(selections).Keys
      ensures forall key :: key in selections ==> selections[key] == Reconciled(env, old(selections)[key], all)
      ensures old(Valid()) ==> Valid()
      ensures old(Valid()) ==> forall key :: key in selections ==>
        ListingOf(selections[key]) == Filter(env, all, selections[key].target)
    {
      var before := selections;
      var left := before.Keys;
      while left != {}
        invariant left <= before.Keys && selections.Keys == before.Keys
        invariant forall key :: key in before ==>
          selections[key] == if key in left then before[key] else Reconciled(env, before[key], all)
        decreases left
      {
        var key :| key in left;
        left := left - {key};
        var s := before[key];
        var names, failed := FilterNames(s.target, all);
        if failed {
          Update(key, Selection(s.target, names, !s.failed, failed));
        } else if names != s.names {
          Update(key, Selection(s.target, names, true, false));
        }
      }
      if old(Valid()) {
        forall key | key in before {
          ReconcileIsFresh(env, before[key], all, if key in returned then Some(returned[key]) else None);
        }
      }
    }

    /** filter. */
    method FilterNames(t: Target, all: seq<Namespace>) returns (names: seq<string>, failed: bool)
      ensures Listing(names, failed) == Filter(env, all, t)
    {
      if t.selector.None? && |t.includes| == 0 {
        return [], false;
      }
      if t.selector.Some? && !env.parses(t.selector.value) {
        return [], true;
      }
      names, failed := Matches(env, Labelled(env, t, all), t.includes, t.excludes);
      names := Sort(ByString(), names);
    }
  }

  lemma {:induction false} FilterWellFormed(env: Env, all: seq<Namespace>, t: Target)
    ensures WellFormed(env, t) ==> !Filter(env, all, t).failed
  {
    if WellFormed(env, t) {
      FilterMeans(env, all, t);
    }
  }

  // ---------- lock sections interleaved ----------

  /** A call between its lock sections. */
  datatype Thread =
    | GetMissed(key: string, target: Target)                                     // has looked up in vain
    | GetListed(key: string, target: Target, all: seq<Namespace>)                // has listed the namespaces
    | ReconcileStarted(snapshot: Selections)                                     // has copied the entries
    | ReconcileListed(snapshot: Selections, all: seq<Namespace>)                 // has entries of the copy left to do

  /** `past` are the namespaces the cluster has had so far. */
  datatype State = State(
    selections: Selections, all: seq<Namespace>, past: set<seq<Namespace>>, threads: multiset<Thread>)

  /** One lock section, or one call of the client between lock sections. */
  ghost predicate Next(env: Env, s: State, s': State) {
    || NamespacesChange(s, s') || GetStarts(env, s, s') || GetLists(s, s') || GetWrites(env, s, s')
    || ReconcileStarts(s, s') || ReconcileLists(s, s') || ReconcileWrites(env, s, s') || Stops(s, s')
  }

  ghost predicate NamespacesChange(s: State, s': State) {
    s' == s.(all := s'.all, past := s.past + {s'.all})
  }

  /** The first section of Get: a hit is complete with it. */
  ghost predicate GetStarts(env: Env, s: State, s': State) {
    exists key, t ::
      if key in s.selections && env.show(s.selections[key].target) == env.show(t) then
        s' == s.(selections := s.selections[key := s.selections[key].(hasUpdate := false)])
      else s' == s.(threads := s.threads + multiset{GetMissed(key, t)})
  }

  ghost predicate GetLists(s: State, s': State) {
    exists key, t :: GetMissed(key, t) in s.threads &&
      s' == s.(threads := s.threads - multiset{GetMissed(key, t)} + multiset{GetListed(key, t, s.all)})
  }

  ghost predicate GetWrites(env: Env, s: State, s': State) {
    exists key, t, all :: GetListed(key, t, all) in s.threads &&
      s' == s.(
        threads := s.threads - multiset{GetListed(key, t, all)},
        selections := s.selections[key := GetResult(env, t, all)])
  }

  ghost predicate ReconcileStarts(s: State, s': State) {
    s' == s.(threads := s.threads + multiset{ReconcileStarted(s.selections)})
  }

  ghost predicate ReconcileLists(s: State, s': State) {
    exists snapshot :: ReconcileStarted(snapshot) in s.threads &&
      s' == s.(threads := s.threads - multiset{ReconcileStarted(snapshot)} + multiset{ReconcileListed(snapshot, s.all)})
  }

  /** One entry of the copy: it is written when it failed or changed, whatever the cache holds by now. */
  ghost predicate ReconcileWrites(env: Env, s: State, s': State) {
    exists snapshot, all, key :: ReconcileListed(snapshot, all) in s.threads && key in snapshot &&
      var written := ReconcileResult(env, snapshot[key], all);
      var threads :=
        s.threads - multiset{ReconcileListed(snapshot, all)} + multiset{ReconcileListed(snapshot - {key}, all)};
      s' == s.(threads := threads,
               selections := if written.Some? then s.selections[key := written.value] else s.selections)
  }

  ghost predicate Stops(s: State, s': State) {
    exists key :: s' == s.(selections := s.selections - {key})
  }

  ghost predicate Init(s: State) {
    s.selections == map[] && s.threads == multiset{} && s.past == {s.all}
  }

  /** The entry is the filter of its own target over namespaces the cluster has had. */
  ghost predicate FromThePast(env: Env, past: set<seq<Namespace>>, s: Selection) {
    exists all :: all in past && ListingOf(s) == Filter(env, all, s.target)
  }

  ghost predicate ThreadFromThePast(env: Env, past: set<seq<Namespace>>, t: Thread) {
    match t
    case GetMissed(_, _) => true
    case GetListed(_, _, all) => all in past
    case ReconcileStarted(_) => true
    case ReconcileListed(_, all) => all in past
  }

  ghost predicate Invariant(env: Env, s: State) {
    && s.all in s.past
    && (forall key :: key in s.selections ==> FromThePast(env, s.past, s.selections[key]))
    && (forall t :: t in s.threads ==> ThreadFromThePast(env, s.past, t))
  }

  lemma {:induction false} PastGrows(env: Env, past: set<seq<Namespace>>, past': set<seq<Namespace>>, s: Selection,
                                     hasUpdate: bool)
    requires past <= past' && FromThePast(env, past, s)
    ensures FromThePast(env, past', s.(hasUpdate := hasUpdate))
  {
    var all :| all in past && ListingOf(s) == Filter(env, all, s.target);
    assert all in past' && ListingOf(s.(hasUpdate := hasUpdate)) == Filter(env, all, s.target);
  }

  /** A step that writes at most one entry, from a past listing, and leaves only threads that listed in the past. */
  lemma {:induction false} StepKeeps(env: Env, s: State, s': State)
    requires Invariant(env, s) && s.past <= s'.past && s'.all in s'.past
    requires forall key :: key in s'.selections ==>
      || FromThePast(env, s'.past, s'.selections[key])
      || (key in s.selections && s'.selections[key] == s.selections[key].(hasUpdate := s'.selections[key].hasUpdate))
    requires forall t :: t in s'.threads ==> t in s.threads || ThreadFromThePast(env, s'.past, t)
    ensures Invariant(env, s')
  {
    forall key | key in s'.selections
      ensures FromThePast(env, s'.past, s'.selections[key])
    {
      if key in s.selections && s'.selections[key] == s.selections[key].(hasUpdate := s'.selections[key].hasUpdate) {
        PastGrows(env, s.past, s'.past, s.selections[key], s'.selections[key].hasUpdate);
      }
    }
  }

  lemma {:induction false} GetWriteKeeps(env: Env, s: State, s': State)
    requires Invariant(env, s) && GetWrites(env, s, s')
    ensures Invariant(env, s')
  {
    var key, t, all :| GetListed(key, t, all) in s.threads &&
      s' == s.(
        threads := s.threads - multiset{GetListed(key, t, all)},
        selections := s.selections[key := GetResult(env, t, all)]);
    assert ThreadFromThePast(env, s.past, GetListed(key, t, all));
    assert ListingOf(GetResult(env, t, all)) == Filter(env, all, t);
    assert FromThePast(env, s.past, GetResult(env, t, all));
    StepKeeps(env, s, s');
  }

  lemma {:induction false} ReconcileWriteKeeps(env: Env, s: State, s': State)
    requires Invariant(env, s) && ReconcileWrites(env, s, s')
    ensures Invariant(env, s')
  {
    var snapshot, all, key :| ReconcileListed(snapshot, all) in s.threads && key in snapshot &&
      var written := ReconcileResult(env, snapshot[key], all);
      var threads :=
        s.threads - multiset{ReconcileListed(snapshot, all)} + multiset{ReconcileListed(snapshot - {key}, all)};
      s' == s.(threads := threads,
               selections := if written.Some? then s.selections[key := written.value] else s.selections);
    assert ThreadFromThePast(env, s.past, ReconcileListed(snapshot, all));
    WrittenFromThePast(env, s.past, snapshot[key], all);
    forall t | t in s'.threads
      ensures t in s.threads || ThreadFromThePast(env, s'.past, t)
    {
      assert t in s.threads || t == ReconcileListed(snapshot - {key}, all);
    }
    StepKeeps(env, s, s');
  }

  lemma {:induction false} WrittenFromThePast(env: Env, past: set<seq<Namespace>>, s: Selection, all: seq<Namespace>)
    requires all in past
    ensures var written := ReconcileResult(env, s, all); written.Some? ==> FromThePast(env, past, written.value)
  {
    var written := ReconcileResult(env, s, all);
    if written.Some? {
      assert ListingOf(written.value) == Filter(env, all, written.value.target);
    }
  }

  lemma {:induction false} GetStartKeeps(env: Env, s: State, s': State)
    requires Invariant(env, s) && GetStarts(env, s, s')
    ensures Invariant(env, s')
  {
    StepKeeps(env, s, s');
  }

  lemma {:induction false} ListKeeps(env: Env, s: State, s': State)
    requires Invariant(env, s) && (GetLists(s, s') || ReconcileLists(s, s') || ReconcileStarts(s, s'))
    ensures Invariant(env, s')
  {
    StepKeeps(env, s, s');
  }

  lemma {:induction false} ChangeKeeps(env: Env, s: State, s': State)
    requires Invariant(env, s) && (NamespacesChange(s, s') || Stops(s, s'))
    ensures Invariant(env, s')
  {
    StepKeeps(env, s, s');
  }

  lemma {:induction false} NextKeepsInvariant(env: Env, s: State, s': State)
    requires Invariant(env, s) && Next(env, s, s')
    ensures Invariant(env, s')
  {
    if GetWrites(env, s, s') {
      GetWriteKeeps(env, s, s');
    } else if ReconcileWrites(env, s, s') {
      ReconcileWriteKeeps(env, s, s');
    } else if GetStarts(env, s, s') {
      GetStartKeeps(env, s, s');
    } else if NamespacesChange(s, s') || Stops(s, s') {
      ChangeKeeps(env, s, s');
    } else {
      ListKeeps(env, s, s');
    }
  }

  ghost predicate Run(env: Env, states: seq<State>) {
    && states != [] && Init(states[0])
    && forall i :: 0 <= i < |states| - 1 ==> Next(env, states[i], states[i + 1])
  }

  /** However the lock sections interleave, no entry mixes one target with the namespaces selected for another. */
  lemma {:induction false} EveryRunKeepsInvariant(env: Env, states: seq<State>, n: nat)
    requires Run(env, states) && n < |states|
    ensures Invariant(env, states[n])
  {
    if n > 0 {
      EveryRunKeepsInvariant(env, states, n - 1);
      assert Next(env, states[n - 1], states[n - 1 + 1]);
      NextKeepsInvariant(env, states[n - 1], states[n]);
    }
  }

  /** A target that cannot be used leaves a failed entry, which is marked exactly if it had not failed before. */
  lemma {:induction false} ReconcileOfMalformed(env: Env, s: Selection, all: seq<Namespace>)
    requires Filter(env, all, s.target).failed
    ensures var r := Reconciled(env, s, all);
      r.failed && r.target == s.target && r.names == Filter(env, all, s.target).names && r.hasUpdate == !s.failed
  {
  }

  /** A cached list is used again only for a target of the same text; otherwise the namespaces are listed anew. */
  lemma {:induction false} HitMeans(env: Env, selections: Selections, key: string, t: Target, all: seq<Namespace>)
    ensures Hit(env, selections, key, t) <==> key in selections && env.show(t) == env.show(selections[key].target)
    ensures var r := GetResult(env, t, all);
      !r.hasUpdate && r.target == t && r.names == Filter(env, all, t).names && r.failed == Filter(env, all, t).failed
  {
  }
}
