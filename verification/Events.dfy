/**
 * Compliance events: their batches and the status made from a batch
 * (controllers/configurationpolicy_controller.go, batchedEvents; controllers/configurationpolicy_utils.go,
 * createStatus).
 */
module Events {

  datatype Event = Event(compliant: bool, reason: string, message: string)

  datatype Result = Result(objectNames: seq<string>, events: seq<Event>)

  datatype ResultWithEvent = ResultWithEvent(result: Result, event: Event)

  type Results = map<string, Result>

  /** The nil map of a batch that has no event yet reads like an empty one. */
  type Batch = map<string, ResultWithEvent>

  // ---------- batches ----------

  /** `length` is the length of the longest event list among `seen`. */
  ghost predicate Longest(results: Results, seen: set<string>, length: nat) {
    && (forall k :: k in seen && k in results ==> |results[k].events| <= length)
    && (length > 0 ==> exists k :: k in seen && k in results && |results[k].events| == length)
  }

  /**
   * Event lists are aligned at their ends: batch `b` of `length` has each list's event that many places from its end.
   */
  ghost function BatchAt(results: Results, seen: set<string>, length: nat, b: nat): Batch
    requires b < length && Longest(results, seen, length)
  {
    map k | k in seen && k in results && length - |results[k].events| <= b ::
      ResultWithEvent(results[k], results[k].events[b - (length - |results[k].events|)])
  }

  ghost predicate Aligned(results: Results, seen: set<string>, batches: seq<Batch>) {
    && Longest(results, seen, |batches|)
    && forall b :: 0 <= b < |batches| ==> batches[b] == BatchAt(results, seen, |batches|, b)
  }

  /** A batch with the events of `seen`, and that of `k` if it is among the first `i` of its list. */
  ghost function PartBatch(results: Results, seen: set<string>, k: string, i: nat, length: nat, b: nat): Batch
    requires k in results && b < length && |results[k].events| <= length
    requires forall q :: q in seen && q in results ==> |results[q].events| <= length
  {
    map q | q in seen + {k} && q in results && length - |results[q].events| <= b &&
            (q == k ==> b < length - |results[k].events| + i) ::
      ResultWithEvent(results[q], results[q].events[b - (length - |results[q].events|)])
  }

  /** The batches with the first `i` events of `k` in place. */
  ghost predicate PartlyAligned(results: Results, seen: set<string>, k: string, i: nat, batches: seq<Batch>) {
    && k in results && k !in seen && i <= |results[k].events| <= |batches|
    && (forall q :: q in seen && q in results ==> |results[q].events| <= |batches|)
    && (forall b :: 0 <= b < |batches| ==> batches[b] == PartBatch(results, seen, k, i, |batches|, b))
  }

  /** Empty batches are put in front, up to `n` in all. */
  function Lengthened(before: seq<Batch>, n: nat): (r: seq<Batch>)
    ensures |r| == if |before| < n then n else |before|
  {
    if |before| < n then seq(n - |before|, _ => map[]) + before else before
  }

  /**
   * One round of batchedEvents: the events of `k` go into the last batches, with new ones in front if there are too
   * few.
   */
  method AddEvents(results: Results, ghost seen: set<string>, k: string, before: seq<Batch>)
    returns (batches: seq<Batch>)
    requires Aligned(results, seen, before) && k in results && k !in seen
    ensures |batches| == (if |before| < |results[k].events| then |results[k].events| else |before|)
    ensures PartlyAligned(results, seen, k, |results[k].events|, batches)
  {
    var events := results[k].events;
    batches := Lengthened(before, |events|);
    PrependedAligned(results, seen, k, before);
    for i := 0 to |events|
      invariant |batches| == (if |before| < |events| then |events| else |before|)
      invariant PartlyAligned(results, seen, k, i, batches)
    {
      var b := |batches| - |events| + i;
      PlacedAligned(results, seen, k, i, batches);
      batches := batches[b := batches[b][k := ResultWithEvent(results[k], events[i])]];
    }
  }

  /** batchedEvents: batches are put in front while the map is visited in any order. */
  method BatchedEvents(results: Results) returns (batches: seq<Batch>)
    ensures Aligned(results, results.Keys, batches)
  {
    batches := [];
    var left := results.Keys;
    ghost var seen: set<string> := {};
    while left != {}
      invariant left <= results.Keys && seen == results.Keys - left
      invariant Aligned(results, seen, batches)
      decreases left
    {
      var k :| k in left;
      left := left - {k};
      ghost var before := batches;
      batches := AddEvents(results, seen, k, batches);
      CompletelyAligned(results, seen, k, before, batches);
      seen := seen + {k};
    }
    assert seen == results.Keys;
  }

  lemma {:induction false} PrependedAligned(results: Results, seen: set<string>, k: string, before: seq<Batch>)
    requires Aligned(results, seen, before) && k in results && k !in seen
    ensures PartlyAligned(results, seen, k, 0, Lengthened(before, |results[k].events|))
  {
    var batches := Lengthened(before, |results[k].events|);
    var extra := |batches| - |before|;
    forall b | 0 <= b < |batches|
      ensures batches[b] == PartBatch(results, seen, k, 0, |batches|, b)
    {
      if b >= extra {
        assert batches[b] == before[b - extra] == BatchAt(results, seen, |before|, b - extra);
      }
    }
  }

  lemma {:induction false} PlacedAligned(results: Results, seen: set<string>, k: string, i: nat, batches: seq<Batch>)
    requires PartlyAligned(results, seen, k, i, batches) && i < |results[k].events|
    ensures var b := |batches| - |results[k].events| + i;
      PartlyAligned(results, seen, k, i + 1,
        batches[b := batches[b][k := ResultWithEvent(results[k], results[k].events[i])]])
  {
    var b := |batches| - |results[k].events| + i;
    var after := batches[b := batches[b][k := ResultWithEvent(results[k], results[k].events[i])]];
    forall c | 0 <= c < |after|
      ensures after[c] == PartBatch(results, seen, k, i + 1, |after|, c)
    {
      assert batches[c] == PartBatch(results, seen, k, i, |batches|, c);
    }
  }

  lemma {:induction false} CompletelyAligned(results: Results, seen: set<string>, k: string, before: seq<Batch>,
                                             batches: seq<Batch>)
    requires Longest(results, seen, |before|) && k in results
    requires |batches| == (if |before| < |results[k].events| then |results[k].events| else |before|)
    requires PartlyAligned(results, seen, k, |results[k].events|, batches)
    ensures Aligned(results, seen + {k}, batches)
  {
    if |batches| > 0 {
      if |before| < |results[k].events| {
        assert k in seen + {k};
      } else {
        var q :| q in seen && q in results && |results[q].events| == |before|;
        assert q in seen + {k};
      }
    }
    assert Longest(results, seen + {k}, |batches|);
    forall b | 0 <= b < |batches|
      ensures batches[b] == BatchAt(results, seen + {k}, |batches|, b)
    {
    }
  }

  /** The batches are determined by the results; none is empty, and the last one has every final event. */
  lemma {:induction false} BatchesMeans(results: Results, batches: seq<Batch>, other: seq<Batch>)
    requires Aligned(results, results.Keys, batches) && Aligned(results, results.Keys, other)
    ensures batches == other
    ensures forall b :: 0 <= b < |batches| ==> batches[b] != map[]
    ensures forall k, i :: k in results && 0 <= i < |results[k].events| ==>
      var b := |batches| - |results[k].events| + i;
      0 <= b < |batches| && k in batches[b] && batches[b][k] == ResultWithEvent(results[k], results[k].events[i])
    ensures batches != [] ==> forall k :: k in batches[|batches| - 1] <==> k in results && results[k].events != []
  {
    SameLongest(results, |batches|, |other|);
    forall b | 0 <= b < |batches|
      ensures batches[b] == other[b] && batches[b] != map[]
    {
      assert batches[b] == BatchAt(results, results.Keys, |batches|, b);
      assert other[b] == BatchAt(results, results.Keys, |other|, b);
      var k :| k in results.Keys && k in results && |results[k].events| == |batches|;
      assert k in batches[b];
    }
    forall k, i | k in results && 0 <= i < |results[k].events|
      ensures var b := |batches| - |results[k].events| + i;
        0 <= b < |batches| && k in batches[b] && batches[b][k] == ResultWithEvent(results[k], results[k].events[i])
    {
      var b := |batches| - |results[k].events| + i;
      assert batches[b] == BatchAt(results, results.Keys, |batches|, b);
    }
  }

  lemma {:induction false} SameLongest(results: Results, a: nat, b: nat)
    requires Longest(results, results.Keys, a) && Longest(results, results.Keys, b)
    ensures a == b
  {
    if a > 0 {
      var k :| k in results.Keys && k in results && |results[k].events| == a;
    }
    if b > 0 {
      var k :| k in results.Keys && k in results && |results[k].events| == b;
    }
  }

  // ---------- the status of a batch ----------

  /** The events the status is about: all of them if all are compliant, and otherwise the noncompliant ones. */
  ghost function Relevant(batch: Batch): Batch {
    var compliant := AllCompliant(batch);
    map k | k in batch && batch[k].event.compliant == compliant :: batch[k]
  }

  ghost predicate AllCompliant(batch: Batch) {
    forall k :: k in batch ==> batch[k].event.compliant
  }

  ghost function WithReason(batch: Batch, reason: string): Batch {
    map k | k in batch && batch[k].event.reason == reason :: batch[k]
  }

  ghost predicate GroupedByReason(batch: Batch, byReason: map<string, Batch>) {
    && (forall reason :: reason in byReason <==> exists k :: k in batch && batch[k].event.reason == reason)
    && (forall reason :: reason in byReason ==> byReason[reason] == WithReason(batch, reason))
  }

  ghost function Restrict(batch: Batch, keys: set<string>): Batch {
    map k | k in batch && k in keys :: batch[k]
  }

  /** The first loop of createStatus, which starts over at the first noncompliant event, in any order of the map. */
  method CollectRelevant(batch: Batch) returns (compliant: bool, byReason: map<string, Batch>)
    ensures compliant <==> AllCompliant(batch)
    ensures GroupedByReason(Relevant(batch), byReason)
  {
    compliant, byReason := true, map[];
    var left := batch.Keys;
    ghost var seen: set<string> := {};
    while left != {}
      invariant left <= batch.Keys && seen == batch.Keys - left
      invariant compliant <==> AllCompliant(Restrict(batch, seen))
      invariant GroupedByReason(Relevant(Restrict(batch, seen)), byReason)
      decreases left
    {
      var k :| k in left;
      left := left - {k};
      ghost var before := Relevant(Restrict(batch, seen));
      var e := batch[k];
      RelevantStep(batch, seen, k);
      if compliant && !e.event.compliant {
        compliant, byReason := false, map[];
      }
      if compliant == e.event.compliant {
        var group := if e.event.reason in byReason then byReason[e.event.reason] else map[];
        GroupStep(if compliant == AllCompliant(Restrict(batch, seen)) then before else map[], byReason, k, e);
        byReason := byReason[e.event.reason := group[k := e]];
      }
      seen := seen + {k};
    }
    assert Restrict(batch, seen) == batch;
  }

  lemma {:induction false} RelevantStep(batch: Batch, seen: set<string>, k: string)
    requires k in batch && k !in seen
    ensures var before, after := Restrict(batch, seen), Restrict(batch, seen + {k});
      && (AllCompliant(after) <==> AllCompliant(before) && batch[k].event.compliant)
      && Relevant(after) ==
           if AllCompliant(before) && !batch[k].event.compliant then map[k := batch[k]]
           else if AllCompliant(before) == batch[k].event.compliant then Relevant(before)[k := batch[k]]
           else Relevant(before)
  {
    var before, after := Restrict(batch, seen), Restrict(batch, seen + {k});
    assert after == before[k := batch[k]];
    assert AllCompliant(after) <==> AllCompliant(before) && batch[k].event.compliant by {
      assert k in after;
      assert forall q :: q in before ==> q in after && after[q] == before[q];
    }
  }

  lemma {:induction false} GroupStep(batch: Batch, byReason: map<string, Batch>, k: string, e: ResultWithEvent)
    requires GroupedByReason(batch, byReason) && k !in batch
    ensures var group := if e.event.reason in byReason then byReason[e.event.reason] else map[];
      GroupedByReason(batch[k := e], byReason[e.event.reason := group[k := e]])
  {
    var group := if e.event.reason in byReason then byReason[e.event.reason] else map[];
    var after, byReason' := batch[k := e], byReason[e.event.reason := group[k := e]];
    forall reason
      ensures WithReason(after, reason) ==
        if reason == e.event.reason then WithReason(batch, reason)[k := e] else WithReason(batch, reason)
    {
    }
    if e.event.reason !in byReason {
      assert WithReason(batch, e.event.reason) == map[];
    }
    forall reason
      ensures reason in byReason' <==> exists q :: q in after && after[q].event.reason == reason
    {
      if reason in byReason' {
        if reason == e.event.reason {
          assert k in after;
        } else {
          var q :| q in batch && batch[q].event.reason == reason;
          assert q in after;
        }
      }
    }
  }
}
