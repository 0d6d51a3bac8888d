/**
 * When a ConfigurationPolicy is evaluated, and how its status is written
 * (controllers/configurationpolicy_controller.go, shouldEvaluatePolicy, addForUpdate and updatePolicyStatus).
 */
module Scheduling {
  import opened Json
  import opened GoStd

  const TEMPLATE_ERROR: string := "K8s update template error"
  const TIMED_OUT: string := "timed out waiting for the object to delete during recreate"

  /** `parseTime` and `formatSecond` are RFC 3339 times, `parseDuration` is time.ParseDuration (None on an error). */
  datatype TimeLib = TimeLib(
    parseTime: string -> Option<int>,
    formatSecond: int -> string,
    parseDuration: string -> Option<int>)

  /** Formatting keeps whole seconds, and reads back. */
  ghost predicate ReadsBack(t: TimeLib) {
    forall s :: t.formatSecond(s) != "" && t.parseTime(t.formatSecond(s)) == Some(s * SECOND)
  }

  type Times = t: TimeLib | ReadsBack(t) ghost witness (SampleReadsBack(); SampleTimes())

  function SampleFormat(s: int): string {
    if s >= 0 then seq(s + 1, _ => '+') else seq(-s, _ => '-')
  }

  function SampleParse(text: string): Option<int> {
    if text == "" then None else if text[0] == '+' then Some((|text| - 1) * SECOND) else Some(-|text| * SECOND)
  }

  /** A library that satisfies the law, so it is consistent. */
  function SampleTimes(): TimeLib {
    TimeLib(SampleParse, SampleFormat, _ => None)
  }

  lemma {:induction false} SampleReadsBack()
    ensures ReadsBack(SampleTimes())
  {
    forall s
      ensures SampleFormat(s) != "" && SampleParse(SampleFormat(s)) == Some(s * SECOND)
    {
      var text := SampleFormat(s);
      if s >= 0 {
        assert |text| == s + 1 && text[0] == '+';
      } else {
        assert |text| == -s && text[0] == '-';
      }
    }
  }

  datatype State = Unset | Compliant | NonCompliant | UnknownCompliancy | Terminating

  datatype Condition = Condition(reason: string, message: string)

  datatype Details = Details(state: State, conditions: seq<Condition>)

  datatype Status = Status(state: State, details: seq<Details>, lastEvaluated: string, lastEvaluatedGeneration: int)

  datatype Policy = Policy(
    finalizers: nat, deleted: bool, generation: int, usesSelector: bool,
    compliantInterval: string, noncompliantInterval: string, status: Status)

  datatype Interval = Watch | Never | Invalid | Every(duration: int)

  function ParseInterval(t: Times, text: string): Interval {
    if text == "" || text == "watch" then Watch
    else if text == "never" then Never
    else match t.parseDuration(text)
      case None => Invalid
      case Some(d) => Every(d)
  }

  /** The interval of the policy's state; a state that has been reset counts as an interval of nothing. */
  function CurrentInterval(t: Times, p: Policy): Interval {
    match p.status.state
    case Compliant => ParseInterval(t, p.compliantInterval)
    case NonCompliant => ParseInterval(t, p.noncompliantInterval)
    case _ => Every(0)
  }

  predicate Mentions(message: string, part: string) {
    exists i | 0 <= i <= |message| - |part| :: FoundAt(message, part, i)
  }

  predicate FoundAt(message: string, part: string, i: nat)
    requires i <= |message| - |part|
  {
    message[i..i + |part|] == part
  }

  predicate TimedOut(c: Condition) {
    c.reason == TEMPLATE_ERROR && Mentions(c.message, TIMED_OUT)
  }

  predicate RecreateTimedOut(s: Status) {
    s.state == NonCompliant && exists d, c | d in s.details && c in d.conditions :: TimedOut(c)
  }

  // ---------- whether to evaluate ----------

  /** The client's copy of the policy has the status that was written last. */
  predicate Synced(p: Policy, cached: Option<string>) {
    cached.None? || cached.value == p.status.lastEvaluated
  }

  /** A reason to evaluate the policy whatever the time is. */
  predicate Forced(t: Times, p: Policy, hasUpdate: bool) {
    || p.deleted
    || p.status.lastEvaluated == ""
    || p.status.lastEvaluatedGeneration != p.generation
    || RecreateTimedOut(p.status)
    || t.parseTime(p.status.lastEvaluated).None?
    || (p.usesSelector && hasUpdate)
    || p.status.state in {UnknownCompliancy, Terminating}
    || CurrentInterval(t, p).Invalid?
  }

  /** From when on a policy that nothing forces is evaluated again, if ever. */
  function Ready(t: Times, backoff: nat, p: Policy): Option<int>
    requires t.parseTime(p.status.lastEvaluated).Some?
  {
    var last := t.parseTime(p.status.lastEvaluated).value;
    match CurrentInterval(t, p)
    case Watch => Some(last + backoff * SECOND)
    case Every(d) => Some(last + d)
    case _ => None
  }

  datatype Decision = Evaluate | Refuse(delay: int)

  function Decide(t: Times, backoff: nat, p: Policy, cached: Option<string>, hasUpdate: bool, cleanup: bool,
                  now: int): Decision
  {
    if cleanup then if p.finalizers != 0 then Evaluate else Refuse(0)
    else if !Synced(p, cached) then Refuse(SECOND)
    else if Forced(t, p, hasUpdate) then Evaluate
    else match Ready(t, backoff, p)
      case None => Refuse(0)
      case Some(ready) => if ready <= now then Evaluate else Refuse(ready - now)
  }

  /**
   * A refusal is exact: with the same policy and selection, a positive delay is the time until the first
   * instant at which the answer is to evaluate, and a refusal without one stands for ever.
   */
  lemma {:induction false} RefusalIsExact(t: Times, backoff: nat, p: Policy, cached: Option<string>, hasUpdate: bool,
                                          now: int, other: int)
    requires Synced(p, cached) && Decide(t, backoff, p, cached, hasUpdate, false, now).Refuse?
    ensures var delay := Decide(t, backoff, p, cached, hasUpdate, false, now).delay;
      && delay >= 0
      && Decide(t, backoff, p, cached, hasUpdate, false, other) ==
           if delay == 0 then Refuse(0) else if other >= now + delay then Evaluate else Refuse(now + delay - other)
  {
    assert !Forced(t, p, hasUpdate);
  }

  /** How long Reconcile waits after an evaluation before it comes back by itself. */
  function RequeueAfter(t: Times, p: Policy): Option<int> {
    match ParseInterval(t, if p.status.state == Compliant then p.compliantInterval else p.noncompliantInterval)
    case Watch => None
    case Never => None
    case Invalid => Some(10 * SECOND)
    case Every(d) => Some(if d <= 0 then 0 else d)
  }

  // ---------- what is written ----------

  predicate AnyNonCompliant(details: seq<Details>) {
    exists d | d in details :: d.state == NonCompliant
  }

  function OverallState(deleted: bool, details: seq<Details>): State {
    if deleted then Terminating
    else if details == [] then UnknownCompliancy
    else if AnyNonCompliant(details) then NonCompliant
    else Compliant
  }

  function NewStatus(t: Times, p: Policy, details: seq<Details>, now: int): Status {
    Status(OverallState(p.deleted, details), details, t.formatSecond(now / SECOND), p.generation)
  }

  /**
   * An evaluation that is not overtaken is followed in time: coming back after the requeue delay, at
   * whatever instant the evaluation itself ended, the policy is not found to be too early.
   */
  lemma {:induction false} RequeueIsInTime(t: Times, backoff: nat, p: Policy, details: seq<Details>, hasUpdate: bool,
                                           written: int, ended: int)
    requires written <= ended
    ensures var after := p.(status := NewStatus(t, p, details, written));
      RequeueAfter(t, after).Some? ==>
        Decide(t, backoff, after, Some(after.status.lastEvaluated), hasUpdate, false,
          ended + RequeueAfter(t, after).value) == Evaluate
  {
    var after := p.(status := NewStatus(t, p, details, written));
    assert t.parseTime(after.status.lastEvaluated) == Some(written / SECOND * SECOND);
    assert written / SECOND * SECOND <= written;
  }

  /** What one attempt reads back (nothing when the read fails), and what becomes of the write. */
  datatype Answer = Accepted | Refused | Lost

  datatype Attempt = Attempt(read: Option<nat>, answer: Answer)

  /** The stored versions, the version the object in hand was read as, and whether an error is reported. */
  datatype Outcome = Outcome(versions: seq<Policy>, base: nat, failed: bool)

  function Reread(versions: seq<Policy>, base: nat, a: Attempt): nat {
    if a.read.Some? && a.read.value < |versions| then a.read.value else base
  }

  function Append(versions: seq<Policy>, status: Status): seq<Policy>
    requires versions != []
  {
    versions + [versions[|versions| - 1].(status := status)]
  }

  /** The API server takes a status only for the version it has, and the answer to a write it took may be lost. */
  function Write(versions: seq<Policy>, base: nat, status: Status, attempts: seq<Attempt>): (r: Outcome)
    requires base < |versions|
    ensures r.base < |r.versions|
    decreases |attempts|
  {
    if attempts == [] then Outcome(versions, base, true)
    else
      var read := Reread(versions, base, attempts[0]);
      var current := read == |versions| - 1;
      if current && attempts[0].answer == Accepted then Outcome(Append(versions, status), |versions|, false)
      else
        var versions' := if current && attempts[0].answer == Lost then Append(versions, status) else versions;
        Write(versions', read, status, attempts[1..])
  }

  /** Every version a write adds carries the status, and one without an error is the last. */
  ghost predicate Extends(versions: seq<Policy>, status: Status, r: Outcome) {
    && versions <= r.versions
    && (forall v :: |versions| <= v < |r.versions| ==> r.versions[v].status == status)
    && (!r.failed ==> r.base == |r.versions| - 1 >= |versions|)
  }

  lemma {:induction false} WriteExtends(versions: seq<Policy>, base: nat, status: Status, attempts: seq<Attempt>)
    requires base < |versions|
    ensures Extends(versions, status, Write(versions, base, status, attempts))
    decreases |attempts|
  {
    if attempts != [] {
      var read := Reread(versions, base, attempts[0]);
      var current := read == |versions| - 1;
      if !(current && attempts[0].answer == Accepted) {
        var versions' := if current && attempts[0].answer == Lost then Append(versions, status) else versions;
        WriteExtends(versions', read, status, attempts[1..]);
      }
    }
  }

  // ---------- the writes of one evaluation ----------

  /** One call of addForUpdate during an evaluation: a batch of events, or its end. */
  datatype StatusWrite = StatusWrite(details: seq<Details>, now: int, eventFails: bool, attempts: seq<Attempt>)

  /** The status is made for the version in hand, which is then the one that was read back or written. */
  function WriteOnce(t: Times, versions: seq<Policy>, base: nat, w: StatusWrite): (r: Outcome)
    requires base < |versions|
    ensures r.base < |r.versions|
  {
    if w.eventFails then Outcome(versions, base, true)
    else Write(versions, base, NewStatus(t, versions[base], w.details, w.now), w.attempts)
  }

  function WriteAll(t: Times, versions: seq<Policy>, base: nat, writes: seq<StatusWrite>): (r: Outcome)
    requires base < |versions|
    ensures r.base < |r.versions|
  {
    if writes == [] then Outcome(versions, base, true)
    else
      var n := |writes| - 1;
      var before := WriteAll(t, versions, base, writes[..n]);
      WriteOnce(t, before.versions, before.base, writes[n])
  }

  lemma {:induction false} WriteKeepsGeneration(versions: seq<Policy>, base: nat, status: Status,
                                                attempts: seq<Attempt>)
    requires base < |versions|
    ensures var r := Write(versions, base, status, attempts);
      && versions <= r.versions
      && forall v :: |versions| <= v < |r.versions| ==> r.versions[v].generation == versions[|versions| - 1].generation
    decreases |attempts|
  {
    if attempts != [] {
      var read := Reread(versions, base, attempts[0]);
      var current := read == |versions| - 1;
      if !(current && attempts[0].answer == Accepted) {
        var versions' := if current && attempts[0].answer == Lost then Append(versions, status) else versions;
        WriteKeepsGeneration(versions', read, status, attempts[1..]);
      }
    }
  }

  lemma {:induction false} WritesKeepGeneration(t: Times, versions: seq<Policy>, base: nat, writes: seq<StatusWrite>)
    requires base < |versions|
    ensures var r := WriteAll(t, versions, base, writes);
      && versions <= r.versions
      && forall v :: |versions| <= v < |r.versions| ==> r.versions[v].generation == versions[|versions| - 1].generation
  {
    if writes != [] {
      var n := |writes| - 1;
      WritesKeepGeneration(t, versions, base, writes[..n]);
      var before := WriteAll(t, versions, base, writes[..n]);
      if !writes[n].eventFails {
        WriteKeepsGeneration(before.versions, before.base,
                             NewStatus(t, before.versions[before.base], writes[n].details, writes[n].now),
                             writes[n].attempts);
      }
    }
  }

  /** The generation that the stored policy has recorded as evaluated is that of the version `base`. */
  ghost predicate RecordsEvaluated(versions: seq<Policy>, base: nat, r: Outcome)
    requires base < |versions| && r.base < |r.versions|
  {
    r.versions[r.base].status.lastEvaluatedGeneration == versions[base].generation
  }

  /**
   * When the last write of an evaluation succeeds, the recorded generation is the evaluated one if and only if the
   * version in hand before that write was still of that generation. So it always is when there is only one write, and
   * when an earlier write has just succeeded, if and only if the policy had not been changed since it was read.
   */
  lemma {:induction false} RecordedGenerationExact(t: Times, versions: seq<Policy>, base: nat, writes: seq<StatusWrite>)
    requires base < |versions| && writes != [] && !WriteAll(t, versions, base, writes).failed
    ensures var r, held := WriteAll(t, versions, base, writes), WriteAll(t, versions, base, writes[..|writes| - 1]);
      && (RecordsEvaluated(versions, base, r) <==> held.versions[held.base].generation == versions[base].generation)
      && (|writes| == 1 ==> RecordsEvaluated(versions, base, r))
      && (!held.failed ==>
            (RecordsEvaluated(versions, base, r) <==> versions[|versions| - 1].generation == versions[base].generation))
  {
    var n := |writes| - 1;
    var held := WriteAll(t, versions, base, writes[..n]);
    var status := NewStatus(t, held.versions[held.base], writes[n].details, writes[n].now);
    WriteExtends(held.versions, held.base, status, writes[n].attempts);
    WritesKeepGeneration(t, versions, base, writes[..n]);
    if !held.failed {
      SucceededIsLast(t, versions, base, writes[..n]);
    }
  }

  lemma {:induction false} SucceededIsLast(t: Times, versions: seq<Policy>, base: nat, writes: seq<StatusWrite>)
    requires base < |versions| && !WriteAll(t, versions, base, writes).failed
    ensures var r := WriteAll(t, versions, base, writes); r.base == |r.versions| - 1 >= |versions|
  {
    var n := |writes| - 1;
    var before := WriteAll(t, versions, base, writes[..n]);
    WritesKeepGeneration(t, versions, base, writes[..n]);
    WriteExtends(before.versions, before.base,
      NewStatus(t, before.versions[before.base], writes[n].details, writes[n].now), writes[n].attempts);
  }

  /**
   * A policy changed from `p` to `q` while it was evaluated, whose first batch of events and whose end are written:
   * the generation of `q` is recorded as evaluated, and with an interval of `never` it never is.
   */
  lemma {:induction false} NewerGenerationRecorded(t: Times, backoff: nat, p: Policy, q: Policy, details: seq<Details>,
                                                   now: int, later: int)
    requires p.generation != q.generation && q.compliantInterval == "never" && !q.deleted && !q.usesSelector
    requires details != [] && !AnyNonCompliant(details)
    ensures
      var batch := StatusWrite(details, now, false, [Attempt(Some(1), Accepted)]);
      var end := StatusWrite(details, now, false, [Attempt(None, Accepted)]);
      var r := WriteAll(t, [p, q], 0, [batch, end]);
      var stored := r.versions[r.base];
      && !r.failed && !RecordsEvaluated([p, q], 0, r)
      && stored.generation == stored.status.lastEvaluatedGeneration
      && Decide(t, backoff, stored, Some(stored.status.lastEvaluated), false, false, later) == Refuse(0)
  {
    var versions := [p, q];
    var batch := StatusWrite(details, now, false, [Attempt(Some(1), Accepted)]);
    var end := StatusWrite(details, now, false, [Attempt(None, Accepted)]);
    var status := NewStatus(t, p, details, now);
    assert [batch, end][..1] == [batch] && [batch][..0] == [];
    assert WriteAll(t, versions, 0, [batch]) == WriteOnce(t, versions, 0, batch) ==
      Outcome(Append(versions, status), 2, false);
    var held := Append(versions, status)[2];
    assert held == q.(status := status);
    var status' := NewStatus(t, held, details, now);
    assert WriteAll(t, versions, 0, [batch, end]) == Outcome(Append(Append(versions, status), status'), 3, false);
    assert t.parseTime(status'.lastEvaluated).Some?;
  }

  /**
   * A write that the server took, and an error nevertheless: the answer is lost, and the object in hand is outdated.
   */
  lemma {:induction false} LostAnswer(p: Policy, status: Status)
    ensures Write([p], 0, status, [Attempt(None, Lost), Attempt(None, Refused), Attempt(None, Refused)]) ==
      Outcome([p, p.(status := status)], 0, true)
  {
    var stored := [p, p.(status := status)];
    assert Append([p], status) == stored;
    assert Write(stored, 0, status, [Attempt(None, Refused)]) == Outcome(stored, 0, true);
    assert Write(stored, 0, status, [Attempt(None, Refused), Attempt(None, Refused)]) == Outcome(stored, 0, true);
    assert [Attempt(None, Lost), Attempt(None, Refused), Attempt(None, Refused)][1..] ==
      [Attempt(None, Refused), Attempt(None, Refused)];
  }

  // ---------- runs ----------

  predicate NotLater(a: Option<int>, b: Option<int>) {
    a.None? || (b.Some? && a.value <= b.value)
  }

  function Stamp(t: Times, p: Policy): Option<int> {
    t.parseTime(p.status.lastEvaluated)
  }

  /** The second that `now` is in. */
  function Second(now: int): Option<int> {
    Some(now / SECOND * SECOND)
  }

  /** Versions are never evaluated later than the versions after them, or than now. */
  ghost predicate InOrder(t: Times, versions: seq<Policy>, now: int) {
    && (forall u, v :: 0 <= u <= v < |versions| ==> NotLater(Stamp(t, versions[u]), Stamp(t, versions[v])))
    && (forall v :: 0 <= v < |versions| ==> NotLater(Stamp(t, versions[v]), Second(now)))
  }

  lemma {:induction false} StaysInOrder(t: Times, before: seq<Policy>, status: Status, after: seq<Policy>, now: int)
    requires InOrder(t, before, now) && before <= after
    requires status.lastEvaluated == t.formatSecond(now / SECOND)
    requires forall v :: |before| <= v < |after| ==> after[v].status == status
    ensures InOrder(t, after, now)
  {
    assert t.parseTime(status.lastEvaluated) == Second(now);
    assert forall v :: |before| <= v < |after| ==> Stamp(t, after[v]) == Second(now);
    assert forall v :: 0 <= v < |before| ==> after[v] == before[v];
  }

  /** One ConfigurationPolicy, as the API server has stored it and as the controller sees it. */
  class ConfigurationPolicyReconciler {
    const times: Times
    const backoff: nat
    var lastEvaluatedCache: Option<string>
    var now: int
    // Every version of the policy, and the one the client's cache shows.
    var versions: seq<Policy>
    var view: nat
    // The version last written without an error, when there is one.
    ghost var written: nat

    ghost predicate Valid()
      reads this
    {
      && view < |versions| && written < |versions|
      && (lastEvaluatedCache.Some? ==> lastEvaluatedCache.value == versions[written].status.lastEvaluated)
      && InOrder(times, versions, now)
    }

    /** The controller's last write reads the same as none of the versions from `from` on. */
    ghost predicate Blocked(from: nat)
      reads this
    {
      && from < |versions|
      && lastEvaluatedCache.Some?
      && forall v :: from <= v < |versions| ==> versions[v].status.lastEvaluated != lastEvaluatedCache.value
    }

    constructor (times: Times, backoff: nat, p: Policy, now: int)
      requires NotLater(Stamp(times, p), Second(now))
      ensures Valid() && this.times == times && this.backoff == backoff && this.now == now
      ensures versions == [p] && view == 0 && lastEvaluatedCache == None
    {
      this.times, this.backoff, this.now := times, backoff, now;
      lastEvaluatedCache, versions, view, written := None, [p], 0, 0;
    }

    method FindsTimeout(s: Status) returns (found: bool)
      ensures found <==> exists d, c | d in s.details && c in d.conditions :: TimedOut(c)
    {
      for i := 0 to |s.details|
        invariant forall d, c :: d in s.details[..i] && c in d.conditions ==> !TimedOut(c)
      {
        for j := 0 to |s.details[i].conditions|
          invariant forall c :: c in s.details[i].conditions[..j] ==> !TimedOut(c)
        {
          if TimedOut(s.details[i].conditions[j]) {
            return true;
          }
        }
      }
      return false;
    }

    /**
     * shouldEvaluatePolicy. Apart from a cleanup, an evaluation starts only from a status that reads like the
     * last one written, so from an older one only if both are of the same second; and unless something forces
     * it, no sooner after that write than the interval.
     */
    method ShouldEvaluatePolicy(cleanup: bool, hasUpdate: bool) returns (evaluate: bool, delay: int)
      requires Valid()
      ensures Decide(times, backoff, versions[view], lastEvaluatedCache, hasUpdate, cleanup, now) ==
        if evaluate then Evaluate else Refuse(delay)
      ensures evaluate ==> delay == 0
      ensures evaluate && !cleanup && lastEvaluatedCache.Some? ==>
        versions[view].status.lastEvaluated == versions[written].status.lastEvaluated
      ensures evaluate && !cleanup && lastEvaluatedCache.Some? ==>
        forall v :: view <= v <= written && Stamp(times, versions[view]).Some? ==>
          Stamp(times, versions[v]) == Stamp(times, versions[written])
      ensures evaluate && !cleanup && lastEvaluatedCache.Some? && !Forced(times, versions[view], hasUpdate) ==>
        match CurrentInterval(times, versions[view])
        case Watch => now >= Stamp(times, versions[written]).value + backoff * SECOND
        case Every(d) => now >= Stamp(times, versions[written]).value + d
        case _ => false
      ensures forall from: nat :: Blocked(from) && from <= view && !cleanup ==> !evaluate && delay == SECOND
    {
      var p := versions[view];
      if cleanup {
        return p.finalizers != 0, 0;
      }
      if lastEvaluatedCache.Some? && lastEvaluatedCache.value != p.status.lastEvaluated {
        return false, SECOND;
      }
      assert lastEvaluatedCache.Some? ==> forall v :: view <= v <= written && Stamp(times, versions[view]).Some? ==>
          Stamp(times, versions[v]) == Stamp(times, versions[written]) by {
        forall v | lastEvaluatedCache.Some? && view <= v <= written && Stamp(times, versions[view]).Some?
          ensures Stamp(times, versions[v]) == Stamp(times, versions[written])
        {
          assert NotLater(Stamp(times, versions[view]), Stamp(times, versions[v]));
          assert NotLater(Stamp(times, versions[v]), Stamp(times, versions[written]));
        }
      }
      if p.deleted || p.status.lastEvaluated == "" || p.status.lastEvaluatedGeneration != p.generation {
        return true, 0;
      }
      if p.status.state == NonCompliant {
        var found := FindsTimeout(p.status);
        if found {
          return true, 0;
        }
      }
      var lastEvaluated := times.parseTime(p.status.lastEvaluated);
      if lastEvaluated.None? || (p.usesSelector && hasUpdate) {
        return true, 0;
      }
      var interval := Every(0);
      match p.status.state {
        case Compliant => interval := ParseInterval(times, p.compliantInterval);
        case NonCompliant => interval := ParseInterval(times, p.noncompliantInterval);
        case Unset =>
        case _ => return true, 0;
      }
      var left := 0;
      match interval {
        case Never => return false, 0;
        case Invalid => return true, 0;
        case Watch => left := lastEvaluated.value + SECOND * backoff - now;
        case Every(d) => left := lastEvaluated.value + d - now;
      }
      return left <= 0, if left > 0 then left else 0;
    }

    /** updatePolicyStatus, with the three attempts it makes. */
    method UpdatePolicyStatus(base: nat, status: Status, eventFails: bool, attempts: seq<Attempt>)
      returns (base': nat, failed: bool)
      requires Valid() && base < |versions| && |attempts| == 3
      requires status.lastEvaluated == times.formatSecond(now / SECOND)
      modifies this`versions
      ensures Outcome(versions, base', failed) ==
        if eventFails then Outcome(old(versions), base, true) else Write(old(versions), base, status, attempts)
      ensures Extends(old(versions), status, Outcome(versions, base', failed))
      ensures Valid()
    {
      base', failed := base, true;
      if eventFails {
        return;
      }
      WriteExtends(versions, base, status, attempts);
      ghost var target := Write(versions, base, status, attempts);
      var i := 0;
      while i < 3 && failed
        invariant 0 <= i <= 3 && base' < |versions|
        invariant target ==
          if failed then Write(versions, base', status, attempts[i..]) else Outcome(versions, base', false)
      {
        base' := Reread(versions, base', attempts[i]);
        if base' == |versions| - 1 && attempts[i].answer != Refused {
          versions := Append(versions, status);
          if attempts[i].answer == Accepted {
            base', failed := |versions| - 1, false;
          }
        }
        i := i + 1;
      }
      StaysInOrder(times, old(versions), status, versions, now);
    }

    /**
     * addForUpdate, for the version of the policy in hand. The cache takes the value over exactly when no error is
     * reported. The versions written read unlike the cache, so that they block evaluations, if and only if the
     * server stored the status although an error is reported, and the cache is of another second.
     */
    method AddForUpdate(base: nat, details: seq<Details>, eventFails: bool, attempts: seq<Attempt>)
      returns (base': nat, failed: bool)
      requires Valid() && base < |versions| && |attempts| == 3
      modifies this`versions, this`lastEvaluatedCache, this`written
      ensures Valid()
      ensures var status := NewStatus(times, old(versions)[base], details, now);
        && Extends(old(versions), status, Outcome(versions, base', failed))
        && (!failed ==> written == |versions| - 1 && lastEvaluatedCache == Some(status.lastEvaluated))
      ensures Outcome(versions, base', failed) ==
        WriteOnce(times, old(versions), base, StatusWrite(details, now, eventFails, attempts))
      ensures failed ==> lastEvaluatedCache == old(lastEvaluatedCache) && written == old(written)
      ensures Blocked(|old(versions)|) <==>
        failed && |versions| > |old(versions)| && lastEvaluatedCache.Some? &&
        lastEvaluatedCache.value != times.formatSecond(now / SECOND)
    {
      var compliant := true;
      for i := 0 to |details|
        invariant compliant <==> !AnyNonCompliant(details[..i])
      {
        if details[i].state == NonCompliant {
          assert details[i] in details[..i + 1];
          compliant := false;
          assert details[i] in details;
          break;
        }
      }
      assert compliant ==> details[..|details|] == details;
      var p := versions[base];
      var state := if p.deleted then Terminating
        else if |details| == 0 then UnknownCompliancy
        else if compliant then Compliant else NonCompliant;
      var status := Status(state, details, times.formatSecond(now / SECOND), p.generation);
      base', failed := UpdatePolicyStatus(base, status, eventFails, attempts);
      if !failed {
        lastEvaluatedCache := Some(status.lastEvaluated);
        written := base';
      }
      if |versions| > |old(versions)| {
        assert versions[|old(versions)|].status == versions[|versions| - 1].status == status;
      }
    }

    /** The client's cache catches up, to any version. */
    method Observe(v: nat)
      requires Valid() && view <= v < |versions|
      modifies this`view
      ensures Valid() && view == v
    {
      view := v;
    }

    method Wait(elapsed: nat)
      requires Valid()
      modifies this`now
      ensures Valid() && now == old(now) + elapsed
    {
      now := now + elapsed;
      assert old(now) / SECOND <= now / SECOND;
    }

    /** Somebody else changes the policy: anything but when it was last evaluated. */
    method ChangeByOthers(p: Policy)
      requires Valid() && p.status.lastEvaluated == versions[|versions| - 1].status.lastEvaluated
      modifies this`versions
      ensures Valid() && versions == old(versions) + [p]
      ensures forall from: nat :: old(Blocked(from)) ==> Blocked(from)
    {
      versions := versions + [p];
      assert Stamp(times, p) == Stamp(times, versions[|versions| - 2]);
    }

    /** The policy is seen to be deleted, or the controller restarts. */
    method Forget()
      requires Valid()
      modifies this`lastEvaluatedCache
      ensures Valid() && lastEvaluatedCache == None
    {
      lastEvaluatedCache := None;
    }
  }

  // ---------- what the fields of a policy mean ----------

  ghost predicate ContainsText(message: string, part: string) {
    exists a, b :: message == a + part + b
  }

  lemma {:induction false} MentionsMeans(message: string, part: string)
    ensures Mentions(message, part) <==> ContainsText(message, part)
  {
    if Mentions(message, part) {
      var i :| 0 <= i <= |message| - |part| && FoundAt(message, part, i);
      assert message == message[..i] + part + message[i + |part|..];
    }
    if a, b :| message == a + part + b {
      assert message[|a|..|a| + |part|] == part;
      assert FoundAt(message, part, |a|);
    }
  }

  /** An event says that the object was not deleted in time to be created anew. */
  lemma {:induction false} TimeoutMeans(c: Condition)
    ensures TimedOut(c) <==>
      c.reason == "K8s update template error" &&
      ContainsText(c.message, "timed out waiting for the object to delete during recreate")
  {
    MentionsMeans(c.message, TIMED_OUT);
  }

  /** An interval that is none of the words for it must be a duration. */
  ghost predicate BadInterval(t: Times, text: string) {
    text !in ["", "watch", "never"] && t.parseDuration(text) == None
  }

  lemma {:induction false} IntervalMeans(t: Times, text: string)
    ensures ParseInterval(t, text) == Watch <==> |text| == 0 || text == ['w', 'a', 't', 'c', 'h']
    ensures ParseInterval(t, text) == Never <==> text == ['n', 'e', 'v', 'e', 'r']
    ensures ParseInterval(t, text) == Invalid <==> BadInterval(t, text)
    ensures forall d :: ParseInterval(t, text) == Every(d) <==>
      text !in ["", "watch", "never"] && t.parseDuration(text) == Some(d)
  {
    assert |"watch"| == 5 && "watch" == ['w', 'a', 't', 'c', 'h'];
    assert "never" == ['n', 'e', 'v', 'e', 'r'] && "never"[0] != "watch"[0];
  }

  /** What makes a policy be evaluated whatever the time is. */
  lemma {:induction false} ForcedMeans(t: Times, p: Policy, hasUpdate: bool)
    ensures Forced(t, p, hasUpdate) <==>
      || p.deleted || |p.status.lastEvaluated| == 0 || p.generation != p.status.lastEvaluatedGeneration
      || (p.status.state == NonCompliant && exists d, c :: d in p.status.details && c in d.conditions && TimedOut(c))
      || t.parseTime(p.status.lastEvaluated) == None
      || (p.usesSelector && hasUpdate)
      || p.status.state == UnknownCompliancy || p.status.state == Terminating
      || (p.status.state == Compliant && BadInterval(t, p.compliantInterval))
      || (p.status.state == NonCompliant && BadInterval(t, p.noncompliantInterval))
  {
    IntervalMeans(t, p.compliantInterval);
    IntervalMeans(t, p.noncompliantInterval);
  }

  /** Until when a policy that nothing forces is left alone: the interval of its state, and none after a reset. */
  lemma {:induction false} ReadyMeans(t: Times, backoff: nat, p: Policy)
    requires t.parseTime(p.status.lastEvaluated).Some?
    ensures var last := t.parseTime(p.status.lastEvaluated).value;
      match p.status.state
      case Compliant =>
        && (p.compliantInterval == "" ==> Ready(t, backoff, p) == Some(last + backoff * 1_000_000_000))
        && (ParseInterval(t, p.compliantInterval) == Never ==> Ready(t, backoff, p) == None)
        && forall d :: ParseInterval(t, p.compliantInterval) == Every(d) ==> Ready(t, backoff, p) == Some(last + d)
      case NonCompliant =>
        && (p.noncompliantInterval == "" ==> Ready(t, backoff, p) == Some(last + backoff * 1_000_000_000))
        && (ParseInterval(t, p.noncompliantInterval) == Never ==> Ready(t, backoff, p) == None)
        && forall d :: ParseInterval(t, p.noncompliantInterval) == Every(d) ==> Ready(t, backoff, p) == Some(last + d)
      case _ => Ready(t, backoff, p) == Some(last)
  {
  }

  /** A policy whose last written status is not seen yet is refused for a second, one to be cleaned up is not asked. */
  lemma {:induction false} DecideMeans(t: Times, backoff: nat, p: Policy, cached: Option<string>, hasUpdate: bool,
                                       now: int)
    ensures Decide(t, backoff, p, cached, hasUpdate, true, now) == if p.finalizers > 0 then Evaluate else Refuse(0)
    ensures cached.Some? && cached.value != p.status.lastEvaluated ==>
      Decide(t, backoff, p, cached, hasUpdate, false, now) == Refuse(1_000_000_000)
    ensures (cached.None? || cached.value == p.status.lastEvaluated) && Forced(t, p, hasUpdate) ==>
      Decide(t, backoff, p, cached, hasUpdate, false, now) == Evaluate
  {
  }

  /** The status that an evaluation writes. */
  lemma {:induction false} NewStatusMeans(t: Times, p: Policy, details: seq<Details>, now: int)
    ensures var s := NewStatus(t, p, details, now);
      && s.details == details && s.lastEvaluatedGeneration == p.generation
      && s.lastEvaluated == t.formatSecond(now / 1_000_000_000)
      && (s.state == Terminating <==> p.deleted)
      && (s.state == UnknownCompliancy <==> !p.deleted && |details| == 0)
      && (s.state == NonCompliant <==>
            !p.deleted && exists i :: 0 <= i < |details| && details[i].state == NonCompliant)
      && s.state != Unset
  {
    assert forall d :: d in details <==> exists i :: 0 <= i < |details| && details[i] == d;
  }

  /** When a reconcile comes back by itself: never for a watched or frozen policy, soon for a bad interval. */
  lemma {:induction false} RequeueMeans(t: Times, p: Policy)
    ensures var text := if p.status.state == Compliant then p.compliantInterval else p.noncompliantInterval;
      && (RequeueAfter(t, p) == None <==> text in ["", "watch", "never"])
      && (BadInterval(t, text) ==> RequeueAfter(t, p) == Some(10_000_000_000))
      && forall d :: text !in ["", "watch", "never"] && t.parseDuration(text) == Some(d) ==>
           RequeueAfter(t, p) == Some(if d > 0 then d else 0)
  {
  }

  /** Which attempts of a status write take effect: those for the last version, unless the server refuses. */
  lemma {:induction false} AttemptMeans(versions: seq<Policy>, base: nat, status: Status, a: Attempt)
    requires base < |versions|
    ensures var read := if a.read.Some? && a.read.value < |versions| then a.read.value else base;
      var r := Write(versions, base, status, [a]);
      && (r.failed <==> read < |versions| - 1 || a.answer != Accepted)
      && r.versions == (if read == |versions| - 1 && (a.answer == Accepted || a.answer == Lost) then
           versions + [versions[|versions| - 1].(status := status)] else versions)
      && r.base == if r.failed then read else |versions|
  {
    var after := if Reread(versions, base, a) == |versions| - 1 && a.answer == Lost then Append(versions, status)
      else versions;
    assert [a][1..] == [];
    assert Write(after, Reread(versions, base, a), status, []) == Outcome(after, Reread(versions, base, a), true);
  }
}
