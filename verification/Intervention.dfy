/**
 * The timed intervention for a Subscription that OLM cannot resolve
 * (controllers/operatorpolicy_controller.go, considerResolutionFailed and its callers).
 */
module Intervention {
  import opened Json
  import opened GoStd

  /** Instants are in nanoseconds. */
  const GRACE: int := 30 * SECOND
  const EXPIRY: int := 10 * SECOND

  /** The API server keeps times to the second. */
  function Kept(time: Option<int>): Option<int> {
    if time.Some? then Some(time.value / SECOND * SECOND) else None
  }

  predicate Expired(time: Option<int>, now: int) {
    time.Some? && time.value < now - EXPIRY
  }

  predicate Waiting(time: Option<int>, now: int) {
    time.Some? && time.value > now
  }

  /** What looking up the CSV named in the failure's message yields. */
  datatype Lookup = LookupError | Absent | Present(copied: bool)

  /**
   * A ResolutionFailed condition: whether its reason is ConstraintsNotSatisfiable, whether the message is about this
   * Subscription (None when that cannot be told), and the unreferenced CSV that it names.
   */
  datatype Failure = Failure(unsatisfiable: bool, includes: Option<bool>, unreferenced: Option<string>)

  /** What handling the Subscription meets; `Elsewhere` is a reconcile that does not get that far. */
  datatype Situation =
    | Elsewhere
    | NotWanted
    | Missing
    | Mismatched
    | Matched(failure: Option<Failure>, pointsToCSV: bool, lookup: Lookup)

  /** The situations that drop the stored time whatever it is. */
  predicate Clears(s: Situation) {
    s.NotWanted? || s.Missing? || s.Mismatched?
  }

  /** The situation an intervention is for: the message names an unreferenced CSV, for this Subscription. */
  predicate Stuck(s: Situation) {
    s.Matched? && s.failure.Some? && s.failure.value.unsatisfiable && s.failure.value.includes != Some(false) &&
    s.failure.value.unreferenced.Some?
  }

  predicate Fixable(s: Situation) {
    Stuck(s) && !s.pointsToCSV && s.lookup == Present(false)
  }

  /** What handling the Subscription does to the intervention time, and whether it writes the Subscription's status. */
  datatype Effect = Left | Cleared | Set(at: int) | Rewritten

  function After(time: Option<int>, e: Effect): Option<int> {
    match e
    case Cleared => None
    case Set(at) => Some(at + GRACE)
    case _ => time
  }

  /** The effects open to a reconcile that looks at the clock between `began` and `ended`. */
  predicate Allowed(s: Situation, time: Option<int>, began: int, ended: int, e: Effect) {
    match e
    case Left =>
      && !Clears(s)
      && (s.Matched? && !Stuck(s) ==> !Expired(time, began))
      && (Stuck(s) ==> time.Some? && !Expired(time, began) && (Waiting(time, began) || !Fixable(s)))
    case Cleared => Clears(s) || (s.Matched? && !Stuck(s) && Expired(time, ended))
    case Set(at) => Stuck(s) && (time.None? || Expired(time, ended)) && began <= at <= ended
    case Rewritten => Fixable(s) && time.Some? && began - EXPIRY <= time.value <= ended
  }

  /** At one instant the situation and the time decide the effect. */
  lemma {:induction false} EffectIsDetermined(s: Situation, time: Option<int>, now: int, e: Effect, f: Effect)
    requires Allowed(s, time, now, now, e) && Allowed(s, time, now, now, f)
    ensures After(time, e) == After(time, f) && (e.Rewritten? <==> f.Rewritten?)
  {
  }

  /** A stored time, the instant it was stored, and the instant of the detection that set it. */
  datatype Version = Version(time: Option<int>, stored: int, detected: int)

  /** A stored time comes from a detection after everything else that was stored before it. */
  ghost predicate FromDetection(versions: seq<Version>, v: nat)
    requires v < |versions|
  {
    versions[v].time.Some? ==>
      && versions[v].time == Kept(Some(versions[v].detected + GRACE))
      && versions[v].detected <= versions[v].stored
      && forall u :: 0 <= u < v && versions[u].time != versions[v].time ==> versions[u].stored <= versions[v].detected
  }

  ghost predicate InOrder(versions: seq<Version>, now: int) {
    && (forall u, v :: 0 <= u <= v < |versions| ==> versions[u].stored <= versions[v].stored)
    && (forall v :: 0 <= v < |versions| ==> versions[v].stored <= now && FromDetection(versions, v))
  }

  /** A detection in a reconcile that began with the last version is after everything stored so far. */
  lemma {:induction false} StaysInOrder(versions: seq<Version>, began: int, next: Version)
    requires InOrder(versions, began) && versions != [] && began <= next.stored
    requires var last := versions[|versions| - 1];
      next.time.None? || (next.time == last.time && next.detected == last.detected) ||
      (next.time == Kept(Some(next.detected + GRACE)) && began <= next.detected <= next.stored)
    ensures InOrder(versions + [next], next.stored)
  {
    var after := versions + [next];
    var n := |versions|;
    forall v | 0 <= v < |after|
      ensures after[v].stored <= next.stored && FromDetection(after, v)
    {
      if v < n {
        assert FromDetection(versions, v);
        assert forall u :: 0 <= u <= v ==> after[u] == versions[u];
      } else if next.time.Some? && next.detected == after[n - 1].detected && next.time == after[n - 1].time {
        assert FromDetection(versions, n - 1);
      } else {
        assert forall u :: 0 <= u < n ==> versions[u].stored <= began;
      }
    }
  }

  lemma {:induction false} KeptTwice(versions: seq<Version>, v: nat)
    requires v < |versions| && FromDetection(versions, v)
    ensures Kept(versions[v].time) == versions[v].time
  {
  }

  /** The time stored for a detection has not come yet. */
  predicate WaitsSince(detected: int, now: int) {
    Waiting(Kept(Some(detected + GRACE)), now)
  }

  /** What is stored for a detection has passed once the clock shows 30 seconds more than it did then. */
  lemma {:induction false} StoredWait(detected: int, now: int)
    ensures !WaitsSince(detected, now) <==> now / SECOND - detected / SECOND >= 30
  {
    assert (detected + GRACE) / SECOND == detected / SECOND + 30;
  }

  /**
   * The intervention is for a time that is not expired, 30 seconds by the clock after its detection and all that was
   * stored before.
   */
  ghost predicate Justified(versions: seq<Version>, base: nat, began: int, now: int)
    requires base < |versions|
  {
    var v := versions[base];
    && v.time.Some? && began - EXPIRY <= v.time.value
    && now / SECOND - v.detected / SECOND >= 30
    && forall u :: 0 <= u < base && versions[u].time != v.time ==> now / SECOND - versions[u].stored / SECOND >= 30
  }

  lemma {:induction false} WaitedLongEnough(versions: seq<Version>, base: nat, began: int, now: int)
    requires InOrder(versions, began) && base < |versions| && began <= now
    requires var time := versions[base].time; time.Some? && began - EXPIRY <= time.value
    ensures !Waiting(versions[base].time, now) <==> Justified(versions, base, began, now)
  {
    var v := versions[base];
    assert FromDetection(versions, base);
    StoredWait(v.detected, now);
    if !Waiting(v.time, now) {
      forall u | 0 <= u < base && versions[u].time != v.time
        ensures now / SECOND - versions[u].stored / SECOND >= 30
      {
        assert versions[u].stored / SECOND <= v.detected / SECOND;
      }
    }
  }

  /**
   * The full 30 seconds always pass if and only if the detection was at the beginning of a second: its fraction is
   * lost.
   */
  lemma {:induction false} WaitIsCutShort(detected: int)
    ensures (forall now :: !WaitsSince(detected, now) ==> now - detected >= GRACE) <==> detected % SECOND == 0
  {
    var first := (detected / SECOND + 30) * SECOND;
    StoredWait(detected, first);
    assert detected == detected / SECOND * SECOND + detected % SECOND;
    forall now | !WaitsSince(detected, now)
      ensures now >= first
    {
      StoredWait(detected, now);
    }
  }

  /** One OperatorPolicy: the stored times, and the copy of it that a reconcile works on. */
  class OperatorPolicyReconciler {
    var now: int
    var versions: seq<Version>
    var interventionTime: Option<int>

    ghost predicate Valid()
      reads this
    {
      versions != [] && InOrder(versions, now)
    }

    constructor (now: int)
      ensures Valid() && this.now == now && versions == [Version(None, now, now)]
    {
      this.now, versions, interventionTime := now, [Version(None, now, now)], None;
    }

    /** time.Now: the clock goes on by itself, and never back. */
    method Now() returns (time: int)
      modifies this`now
      ensures old(now) <= now == time
    {
      var elapsed :| elapsed >= 0;
      now := now + elapsed;
      time := now;
    }

    method ClearIfExpired() returns (effect: Effect)
      modifies this`now, this`interventionTime
      ensures old(now) <= now
      ensures effect == (if Expired(old(interventionTime), now) then Cleared else Left)
      ensures interventionTime == After(old(interventionTime), effect)
    {
      var time := Now();
      effect := Left;
      if Expired(interventionTime, time) {
        interventionTime := None;
        effect := Cleared;
      }
    }

    /** considerResolutionFailed. */
    method ConsiderResolutionFailed(failure: Failure, pointsToCSV: bool, lookup: Lookup) returns (effect: Effect)
      modifies this`now, this`interventionTime
      ensures old(now) <= now
      ensures Allowed(Matched(Some(failure), pointsToCSV, lookup), old(interventionTime), old(now), now, effect)
      ensures interventionTime == After(old(interventionTime), effect)
    {
      if !failure.unsatisfiable {
        effect := ClearIfExpired();
        return;
      }
      var includesSubscription := if failure.includes.Some? then failure.includes.value else true;
      if !includesSubscription {
        effect := ClearIfExpired();
        return;
      }
      if failure.unreferenced.None? {
        effect := ClearIfExpired();
        return;
      }
      var first := Now();
      if Expired(interventionTime, first) || interventionTime.None? {
        var second := Now();
        interventionTime := Some(second + GRACE);
        return Set(second);
      }
      var second := Now();
      if Waiting(interventionTime, second) || pointsToCSV {
        return Left;
      }
      match lookup {
        case LookupError => return Left;
        case Absent => return Left;
        case Present(copied) => return if copied then Left else Rewritten;
      }
    }

    /** musthaveSubscription and mustnothaveSubscription, as far as the intervention time goes. */
    method HandleSubscription(s: Situation) returns (effect: Effect)
      modifies this`now, this`interventionTime
      ensures old(now) <= now
      ensures Allowed(s, old(interventionTime), old(now), now, effect)
      ensures interventionTime == After(old(interventionTime), effect)
    {
      match s {
        case Elsewhere => return Left;
        case Matched(failure, pointsToCSV, lookup) =>
          if failure.Some? {
            effect := ConsiderResolutionFailed(failure.value, pointsToCSV, lookup);
          } else {
            effect := ClearIfExpired();
          }
        case _ =>
          interventionTime := None;
          effect := Cleared;
      }
    }

    /** Storing the time in hand, which `effect` has made of that of version `base` since `began`. */
    method UpdateStatus(base: nat, ghost began: int, effect: Effect, updateFails: bool)
      requires versions != [] && InOrder(versions, began) && base < |versions| && began <= now
      requires interventionTime == After(versions[base].time, effect) && (effect.Set? ==> began <= effect.at <= now)
      modifies this`now, this`versions
      ensures Valid() && old(now) <= now
      ensures base == |old(versions)| - 1 && !updateFails ==>
        versions == old(versions) +
          [Version(Kept(interventionTime), now, if effect.Set? then effect.at else old(versions)[base].detected)]
      ensures base != |old(versions)| - 1 || updateFails ==> versions == old(versions)
    {
      var stored := Now();
      if base == |versions| - 1 && !updateFails {
        var next := Version(Kept(interventionTime), stored, if effect.Set? then effect.at else versions[base].detected);
        KeptTwice(versions, base);
        StaysInOrder(versions, began, next);
        versions := versions + [next];
      }
    }

    /**
     * One reconcile that reads version `base`: the Subscription's status is written only when that is justified by
     * the stored times, and the new time is stored if the version read is the last and the update does not fail.
     */
    method Reconcile(base: nat, s: Situation, otherChanges: bool, updateFails: bool) returns (rewrites: bool)
      requires Valid() && base < |versions|
      modifies this
      ensures Valid() && old(now) <= now
      ensures rewrites ==> Fixable(s) && Justified(old(versions), base, old(now), now)
      ensures versions == old(versions) || (
        && base == |old(versions)| - 1 && !updateFails
        && |versions| == |old(versions)| + 1 && versions[..base + 1] == old(versions)
        && versions[base + 1].time == Kept(interventionTime))
      ensures exists effect ::
        && Allowed(s, old(versions)[base].time, old(now), now, effect)
        && interventionTime == After(old(versions)[base].time, effect)
        && (rewrites <==> effect.Rewritten?)
      ensures base == |old(versions)| - 1 && !updateFails && interventionTime != old(versions)[base].time ==>
        |versions| > |old(versions)|
    {
      interventionTime := versions[base].time;
      ghost var began := now;
      var effect := HandleSubscription(s);
      rewrites := effect.Rewritten?;
      if rewrites {
        WaitedLongEnough(versions, base, began, now);
      }
      if otherChanges || interventionTime != versions[base].time {
        UpdateStatus(base, began, effect, updateFails);
      }
    }
  }

  /** The Subscription is meant, cannot be resolved, and the message names a CSV that nothing refers to. */
  ghost predicate NamesCulprit(s: Situation) {
    match s
    case Matched(Some(failure), _, _) =>
      failure.unsatisfiable && (failure.includes.Some? ==> failure.includes.value) && failure.unreferenced != None
    case _ => false
  }

  /** The named CSV is there, is no copy, and the Subscription does not point to it. */
  ghost predicate Alone(s: Situation) {
    match s
    case Matched(_, false, Present(false)) => true
    case _ => false
  }

  /**
   * What a reconcile does at one instant. Without a Subscription to fix, a stored time is dropped, or left to expire,
   * ten seconds after it has come. With one, a time is set if there is none or it has expired, and once it has come the
   * Subscription's status is rewritten.
   */
  lemma {:induction false} EffectMeans(s: Situation, time: Option<int>, now: int, e: Effect)
    ensures Allowed(s, time, now, now, e) <==>
      var expired := time.Some? && now - time.value > 10_000_000_000;
      if s.NotWanted? || s.Missing? || s.Mismatched? then e == Cleared
      else if s.Elsewhere? then e == Left
      else if !NamesCulprit(s) then e == (if expired then Cleared else Left)
      else if time.None? || expired then e == Set(now)
      else if time.value > now || !Alone(s) then e == Left
      else e == Rewritten
    ensures After(time, Set(now)) == Some(now + 30_000_000_000)
    ensures After(time, Cleared) == None && After(time, Left) == After(time, Rewritten) == time
  {
    assert NamesCulprit(s) <==> Stuck(s);
    assert Stuck(s) ==> (Alone(s) <==> Fixable(s));
  }
}
