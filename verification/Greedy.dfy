/**
 * The greedy assignment inside mergeArrays, on positions alone: each group of existing elements scans the
 * template for elements that fit it, takes the free ones in order until its demand is met, and what it
 * could not place is left over.
 */
module Greedy {
  import opened Json

  /** For each template position, the group that has taken it, if any. */
  type Owners = seq<Option<nat>>

  datatype Scan = Scan(owners: Owners, count: nat)

  /** One group's scan from position `i` on. */
  function Absorb(fits: seq<bool>, owners: Owners, k: nat, need: nat, i: nat): (r: Scan)
    requires |owners| == |fits| && i <= |fits|
    ensures |r.owners| == |fits| && r.count <= need
    decreases |fits| - i
  {
    if i == |fits| || need == 0 then Scan(owners, 0)
    else if owners[i].None? && fits[i] then
      var rest := Absorb(fits, owners[i := Some(k)], k, need - 1, i + 1);
      Scan(rest.owners, rest.count + 1)
    else Absorb(fits, owners, k, need, i + 1)
  }

  function Nobody(n: nat): Owners {
    seq(n, _ => None)
  }

  /** The assignment, and how much of each group's demand is left over. */
  datatype Assignment = Assignment(owners: Owners, left: seq<nat>)

  ghost predicate IsTable(n: nat, fits: seq<seq<bool>>, needs: seq<nat>) {
    |fits| == |needs| && forall k :: 0 <= k < |fits| ==> |fits[k]| == n
  }

  /** The first `m` groups, one after the other. */
  function Assign(n: nat, fits: seq<seq<bool>>, needs: seq<nat>, m: nat): (r: Assignment)
    requires IsTable(n, fits, needs) && m <= |fits|
    ensures |r.owners| == n && |r.left| == m
  {
    if m == 0 then Assignment(Nobody(n), [])
    else
      var before := Assign(n, fits, needs, m - 1);
      var scan := Absorb(fits[m - 1], before.owners, m - 1, needs[m - 1], 0);
      Assignment(scan.owners, before.left + [needs[m - 1] - scan.count])
  }

  /** How many positions group `k` has taken. */
  function Owned(owners: Owners, k: nat): nat {
    multiset(owners)[Some(k)]
  }

  function Sum(s: seq<nat>): nat {
    if s == [] then 0 else Sum(s[..|s| - 1]) + s[|s| - 1]
  }

  function Taken(owners: Owners): nat {
    |owners| - multiset(owners)[None]
  }

  lemma {:induction false} UpdateCounts(owners: Owners, i: nat, k: nat)
    requires i < |owners| && owners[i].None?
    ensures multiset(owners[i := Some(k)]) == multiset(owners) - multiset{None} + multiset{Some(k)}
  {
    assert owners == owners[..i] + [owners[i]] + owners[i + 1..];
    assert owners[i := Some(k)] == owners[..i] + [Some(k)] + owners[i + 1..];
  }

  /** A scan takes only free positions that fit, and stops early only when its demand is met. */
  lemma {:induction false} AbsorbTakes(fits: seq<bool>, owners: Owners, k: nat, need: nat, i: nat)
    requires |owners| == |fits| && i <= |fits|
    ensures var r := Absorb(fits, owners, k, need, i);
      && (forall j :: 0 <= j < |fits| && (j < i || owners[j].Some?) ==> r.owners[j] == owners[j])
      && (forall j :: 0 <= j < |fits| && owners[j].None? && r.owners[j].Some? ==> r.owners[j] == Some(k) && fits[j])
      && (r.count < need ==> forall j :: i <= j < |fits| && r.owners[j].None? ==> !fits[j])
    decreases |fits| - i
  {
    if i == |fits| || need == 0 {
    } else if owners[i].None? && fits[i] {
      AbsorbTakes(fits, owners[i := Some(k)], k, need - 1, i + 1);
    } else {
      AbsorbTakes(fits, owners, k, need, i + 1);
    }
  }

  lemma {:induction false} AbsorbCounts(fits: seq<bool>, owners: Owners, k: nat, need: nat, i: nat)
    requires |owners| == |fits| && i <= |fits|
    ensures var r := Absorb(fits, owners, k, need, i);
      && Owned(r.owners, k) == Owned(owners, k) + r.count
      && Taken(r.owners) == Taken(owners) + r.count
      && forall j :: j != k ==> Owned(r.owners, j) == Owned(owners, j)
    decreases |fits| - i
  {
    if i == |fits| || need == 0 {
    } else if owners[i].None? && fits[i] {
      UpdateCounts(owners, i, k);
      assert owners[i] in multiset(owners);
      AbsorbCounts(fits, owners[i := Some(k)], k, need - 1, i + 1);
    } else {
      AbsorbCounts(fits, owners, k, need, i + 1);
    }
  }

  /** Every taken position fits the group that took it. */
  ghost predicate Sound(fits: seq<seq<bool>>, m: nat, owners: Owners)
    requires m <= |fits| && forall k :: 0 <= k < |fits| ==> |fits[k]| == |owners|
  {
    forall i :: 0 <= i < |owners| && owners[i].Some? ==> owners[i].value < m && fits[owners[i].value][i]
  }

  /** A group with demand left over fits no position that stayed free. */
  ghost predicate Maximal(fits: seq<seq<bool>>, owners: Owners, left: seq<nat>)
    requires |left| <= |fits| && forall k :: 0 <= k < |fits| ==> |fits[k]| == |owners|
  {
    forall k, i :: 0 <= k < |left| && 0 <= i < |owners| && left[k] > 0 && owners[i].None? ==> !fits[k][i]
  }

  /** Each group's demand is met once, by a position or by the leftover. */
  ghost predicate Conserved(needs: seq<nat>, owners: Owners, left: seq<nat>)
    requires |left| <= |needs|
  {
    forall k :: 0 <= k < |left| ==> Owned(owners, k) + left[k] == needs[k]
  }

  lemma {:induction false} NothingTaken(n: nat)
    ensures multiset(Nobody(n)) == multiset{}[None := n]
  {
    if n > 0 {
      NothingTaken(n - 1);
      assert Nobody(n) == Nobody(n - 1) + [None];
    }
  }

  lemma {:induction false} AssignIsSound(n: nat, fits: seq<seq<bool>>, needs: seq<nat>, m: nat)
    requires IsTable(n, fits, needs) && m <= |fits|
    ensures Sound(fits, m, Assign(n, fits, needs, m).owners)
  {
    if m > 0 {
      AssignIsSound(n, fits, needs, m - 1);
      AbsorbTakes(fits[m - 1], Assign(n, fits, needs, m - 1).owners, m - 1, needs[m - 1], 0);
    }
  }

  lemma {:induction false} AssignIsMaximal(n: nat, fits: seq<seq<bool>>, needs: seq<nat>, m: nat)
    requires IsTable(n, fits, needs) && m <= |fits|
    ensures var r := Assign(n, fits, needs, m); Maximal(fits, r.owners, r.left)
  {
    if m > 0 {
      var k := m - 1;
      AssignIsMaximal(n, fits, needs, k);
      var before, after := Assign(n, fits, needs, k), Assign(n, fits, needs, m);
      AbsorbTakes(fits[k], before.owners, k, needs[k], 0);
      forall j, i | 0 <= j < m && 0 <= i < n && after.left[j] > 0 && after.owners[i].None?
        ensures !fits[j][i]
      {
        if j < k {
          assert after.left[j] == before.left[j];
          assert before.owners[i].None?;
        }
      }
    }
  }

  lemma {:induction false} NotYetOwned(fits: seq<seq<bool>>, owners: Owners, k: nat)
    requires k <= |fits| && forall j :: 0 <= j < |fits| ==> |fits[j]| == |owners|
    requires Sound(fits, k, owners)
    ensures Owned(owners, k) == 0
  {
    assert Some(k) !in owners;
  }

  lemma {:induction false} AssignConserves(n: nat, fits: seq<seq<bool>>, needs: seq<nat>, m: nat)
    requires IsTable(n, fits, needs) && m <= |fits|
    ensures var r := Assign(n, fits, needs, m); Conserved(needs, r.owners, r.left)
  {
    if m > 0 {
      var k := m - 1;
      AssignConserves(n, fits, needs, k);
      AssignIsSound(n, fits, needs, k);
      var before, after := Assign(n, fits, needs, k), Assign(n, fits, needs, m);
      AbsorbCounts(fits[k], before.owners, k, needs[k], 0);
      NotYetOwned(fits, before.owners, k);
      forall j | 0 <= j < m
        ensures Owned(after.owners, j) + after.left[j] == needs[j]
      {
        if j < k {
          assert after.left[j] == before.left[j];
        }
      }
    }
  }

  lemma {:induction false} AssignTotal(n: nat, fits: seq<seq<bool>>, needs: seq<nat>, m: nat)
    requires IsTable(n, fits, needs) && m <= |fits|
    ensures var r := Assign(n, fits, needs, m); Taken(r.owners) + Sum(r.left) == Sum(needs[..m])
  {
    if m == 0 {
      NothingTaken(n);
    } else {
      var k := m - 1;
      AssignTotal(n, fits, needs, k);
      var before, after := Assign(n, fits, needs, k), Assign(n, fits, needs, m);
      AbsorbCounts(fits[k], before.owners, k, needs[k], 0);
      assert after.left[..k] == before.left;
      assert needs[..m][..k] == needs[..k];
    }
  }

  /** How many of the first `m` groups are handled before more than `spare` occurrences have been left over. */
  function Reach(n: nat, fits: seq<seq<bool>>, needs: seq<nat>, m: nat, spare: nat): (r: nat)
    requires IsTable(n, fits, needs) && m <= |fits|
    ensures r <= m
  {
    if m == 0 then 0
    else if Sum(Assign(n, fits, needs, m - 1).left) > spare then Reach(n, fits, needs, m - 1, spare)
    else m
  }

  lemma {:induction false} SumGrows(s: seq<nat>, k: nat)
    requires k <= |s|
    ensures Sum(s[..k]) <= Sum(s)
  {
    if k < |s| {
      assert s[..|s| - 1][..k] == s[..k];
      SumGrows(s[..|s| - 1], k);
    } else {
      assert s[..k] == s;
    }
  }

  /** A group is reached exactly if what the groups before it have left over fits. */
  lemma {:induction false} ReachExact(n: nat, fits: seq<seq<bool>>, needs: seq<nat>, m: nat, spare: nat, k: nat)
    requires IsTable(n, fits, needs) && k < m <= |fits|
    ensures k < Reach(n, fits, needs, m, spare) <==> Sum(Assign(n, fits, needs, m).left[..k]) <= spare
  {
    var before, after := Assign(n, fits, needs, m - 1).left, Assign(n, fits, needs, m).left;
    assert after[..m - 1] == before;
    assert after[..k] == before[..k];
    if k == m - 1 {
      assert before[..k] == before;
    } else if Sum(before) > spare {
      ReachExact(n, fits, needs, m - 1, spare, k);
    } else {
      SumGrows(before, k);
    }
  }

  /** The owners among the first `h` groups. */
  function OwnerWithin(owner: Option<nat>, h: nat): Option<nat> {
    if owner.Some? && owner.value < h then owner else None
  }

  /** Who has taken a position keeps it. */
  lemma {:induction false} AssignKeeps(n: nat, fits: seq<seq<bool>>, needs: seq<nat>, h: nat, m: nat)
    requires IsTable(n, fits, needs) && h <= m <= |fits|
    ensures forall i :: 0 <= i < n ==>
      Assign(n, fits, needs, h).owners[i] == OwnerWithin(Assign(n, fits, needs, m).owners[i], h)
  {
    if h == m {
      AssignIsSound(n, fits, needs, m);
    } else {
      AssignKeeps(n, fits, needs, h, m - 1);
      AbsorbTakes(fits[m - 1], Assign(n, fits, needs, m - 1).owners, m - 1, needs[m - 1], 0);
    }
  }

  /**
   * Some positions have a home: a group that wants one position and fits this one, homes come in the order of their
   * positions, a home fits no earlier position without one, and no other group that comes before a home fits its
   * position.
   */
  ghost predicate Homes(fits: seq<seq<bool>>, needs: seq<nat>, home: seq<Option<nat>>)
    requires IsTable(|home|, fits, needs)
  {
    && (forall i :: 0 <= i < |home| && home[i].Some? ==>
          var k := home[i].value; k < |fits| && needs[k] == 1 && fits[k][i])
    && (forall i, j :: 0 <= i < j < |home| && home[i].Some? && home[j].Some? ==> home[i].value < home[j].value)
    && (forall i, j :: 0 <= j < i < |home| && home[i].Some? && home[i].value < |fits| && home[j].None? ==>
          !fits[home[i].value][j])
    && (forall i, k :: 0 <= i < |home| && home[i].Some? && 0 <= k < home[i].value && k < |fits| && Some(k) !in home ==>
          !fits[k][i])
  }

  /** The homes among the first `m` groups have taken their positions, and the others are free. */
  ghost predicate AtHome(home: seq<Option<nat>>, owners: Owners, m: nat) {
    |owners| == |home| && forall i :: 0 <= i < |home| && home[i].Some? ==>
      owners[i] == if home[i].value < m then home[i] else None
  }

  /** A group that wants one position takes the first free one that fits. */
  lemma {:induction false} AbsorbFirst(fits: seq<bool>, owners: Owners, k: nat, i: nat, p: nat)
    requires |owners| == |fits| && i <= p < |fits| && fits[p] && owners[p].None?
    requires forall j :: i <= j < p ==> owners[j].Some? || !fits[j]
    ensures Absorb(fits, owners, k, 1, i) == Scan(owners[p := Some(k)], 1)
    decreases p - i
  {
    if i < p {
      AbsorbFirst(fits, owners, k, i + 1, p);
    }
  }

  /** However the other positions are taken, every position with a home is taken by its home. */
  lemma {:induction false} AssignHomes(fits: seq<seq<bool>>, needs: seq<nat>, home: seq<Option<nat>>, m: nat)
    requires IsTable(|home|, fits, needs) && m <= |fits| && Homes(fits, needs, home)
    ensures AtHome(home, Assign(|home|, fits, needs, m).owners, m)
  {
    if m > 0 {
      var k := m - 1;
      AssignHomes(fits, needs, home, k);
      var before := Assign(|home|, fits, needs, k).owners;
      if Some(k) in home {
        var p :| 0 <= p < |home| && home[p] == Some(k);
        HomeScan(fits, needs, home, before, p);
      } else {
        OtherScan(fits, needs, home, before, k);
      }
    }
  }

  lemma {:induction false} OtherScan(fits: seq<seq<bool>>, needs: seq<nat>, home: seq<Option<nat>>, before: Owners,
                                     k: nat)
    requires IsTable(|home|, fits, needs) && Homes(fits, needs, home) && k < |fits|
    requires AtHome(home, before, k) && Some(k) !in home
    ensures AtHome(home, Absorb(fits[k], before, k, needs[k], 0).owners, k + 1)
  {
    AbsorbTakes(fits[k], before, k, needs[k], 0);
    assert forall i :: 0 <= i < |home| && home[i].Some? ==> home[i] in home && home[i].value != k;
  }

  lemma {:induction false} HomeScan(fits: seq<seq<bool>>, needs: seq<nat>, home: seq<Option<nat>>, before: Owners,
                                    p: nat)
    requires IsTable(|home|, fits, needs) && Homes(fits, needs, home) && p < |home| && home[p].Some?
    requires AtHome(home, before, home[p].value)
    ensures var k := home[p].value;
      k < |fits| && AtHome(home, Absorb(fits[k], before, k, needs[k], 0).owners, k + 1)
  {
    var k := home[p].value;
    forall j | 0 <= j < p
      ensures before[j].Some? || !fits[k][j]
    {
      assert home[j].Some? ==> home[j].value < k;
    }
    AbsorbFirst(fits[k], before, k, 0, p);
  }

  /**
   * A free position of a kind that group `k` takes elsewhere leaves the group fewer positions than there are of the
   * kind.
   */
  lemma {:induction false} FewerOwned(owners: Owners, kinds: seq<string>, k: nat, kind: string, free: nat)
    requires |owners| == |kinds| && free < |owners|
    requires forall i :: 0 <= i < |owners| && owners[i] == Some(k) ==> kinds[i] == kind
    requires owners[free] != Some(k) && kinds[free] == kind
    ensures Owned(owners, k) < multiset(kinds)[kind]
  {
    var n := |owners| - 1;
    assert owners == owners[..n] + [owners[n]] && kinds == kinds[..n] + [kinds[n]];
    if free < n {
      FewerOwned(owners[..n], kinds[..n], k, kind, free);
    } else {
      OwnedAtMost(owners[..n], kinds[..n], k, kind);
    }
  }

  lemma {:induction false} OwnedAtMost(owners: Owners, kinds: seq<string>, k: nat, kind: string)
    requires |owners| == |kinds|
    requires forall i :: 0 <= i < |owners| && owners[i] == Some(k) ==> kinds[i] == kind
    ensures Owned(owners, k) <= multiset(kinds)[kind]
  {
    if owners != [] {
      var n := |owners| - 1;
      assert owners == owners[..n] + [owners[n]] && kinds == kinds[..n] + [kinds[n]];
      OwnedAtMost(owners[..n], kinds[..n], k, kind);
    }
  }
}
