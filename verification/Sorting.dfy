/** Byte-wise string order and the stable sort used by the controllers' slices. */
module Sorting {

  /** Go's `<=` on strings, read one character at a time. */
  predicate StrLeq(a: string, b: string) {
    a == [] || (b != [] && (a[0] < b[0] || (a[0] == b[0] && StrLeq(a[1..], b[1..]))))
  }

  predicate StrLess(a: string, b: string) {
    StrLeq(a, b) && a != b
  }

  lemma {:induction false} StrLeqReflexive(a: string)
    ensures StrLeq(a, a)
  {
    if a != [] {
      StrLeqReflexive(a[1..]);
    }
  }

  lemma {:induction false} StrLeqTotal(a: string, b: string)
    ensures StrLeq(a, b) || StrLeq(b, a)
  {
    if a != [] && b != [] {
      StrLeqTotal(a[1..], b[1..]);
    }
  }

  lemma {:induction false} StrLeqAntisymmetric(a: string, b: string)
    requires StrLeq(a, b) && StrLeq(b, a)
    ensures a == b
  {
    if a != [] && b != [] {
      StrLeqAntisymmetric(a[1..], b[1..]);
      assert a == [a[0]] + a[1..] && b == [b[0]] + b[1..];
    }
  }

  lemma {:induction false} StrLeqTransitive(a: string, b: string, c: string)
    requires StrLeq(a, b) && StrLeq(b, c)
    ensures StrLeq(a, c)
  {
    if a != [] && b != [] && c != [] && a[0] == b[0] == c[0] {
      StrLeqTransitive(a[1..], b[1..], c[1..]);
    }
  }

  ghost predicate TotalPreorder<T(!new)>(leq: (T, T) -> bool) {
    && (forall x, y :: leq(x, y) || leq(y, x))
    && (forall x, y, z :: leq(x, y) && leq(y, z) ==> leq(x, z))
  }

  ghost predicate SortedBy<T>(leq: (T, T) -> bool, s: seq<T>) {
    forall i, j :: 0 <= i < j < |s| ==> leq(s[i], s[j])
  }

  function Insert<T>(leq: (T, T) -> bool, x: T, s: seq<T>): seq<T> {
    if s == [] || leq(x, s[0]) then [x] + s else [s[0]] + Insert(leq, x, s[1..])
  }

  /** A stable sort: an element stays before the later elements it ties with. */
  function Sort<T>(leq: (T, T) -> bool, s: seq<T>): seq<T> {
    if s == [] then [] else Insert(leq, s[0], Sort(leq, s[1..]))
  }

  lemma {:induction false} InsertPermutes<T>(leq: (T, T) -> bool, x: T, s: seq<T>)
    ensures multiset(Insert(leq, x, s)) == multiset{x} + multiset(s)
  {
    if s == [] || leq(x, s[0]) {
    } else {
      InsertPermutes(leq, x, s[1..]);
      assert s == [s[0]] + s[1..];
    }
  }

  lemma {:induction false} SortPermutes<T>(leq: (T, T) -> bool, s: seq<T>)
    ensures multiset(Sort(leq, s)) == multiset(s)
  {
    if s != [] {
      SortPermutes(leq, s[1..]);
      InsertPermutes(leq, s[0], Sort(leq, s[1..]));
      assert s == [s[0]] + s[1..];
    }
  }

  lemma {:induction false} PermutationMembers<T>(a: seq<T>, b: seq<T>)
    requires multiset(a) == multiset(b)
    ensures |a| == |b|
    ensures forall x :: x in a <==> x in b
  {
    assert |a| == |multiset(a)| == |multiset(b)| == |b|;
    forall x
      ensures x in a <==> x in b
    {
      assert x in a <==> x in multiset(a);
      assert x in b <==> x in multiset(b);
    }
  }

  lemma {:induction false} InsertSorts<T(!new)>(leq: (T, T) -> bool, x: T, s: seq<T>)
    requires TotalPreorder(leq)
    requires SortedBy(leq, s)
    ensures SortedBy(leq, Insert(leq, x, s))
  {
    if s == [] {
    } else if leq(x, s[0]) {
      forall j | 0 <= j < |s|
        ensures leq(x, s[j])
      {
        assert j == 0 || leq(s[0], s[j]);
      }
    } else {
      InsertSorts(leq, x, s[1..]);
      InsertPermutes(leq, x, s[1..]);
      var rest := Insert(leq, x, s[1..]);
      forall j | 0 <= j < |rest|
        ensures leq(s[0], rest[j])
      {
        assert rest[j] in multiset(rest);
        if rest[j] != x {
          assert rest[j] in s[1..];
        }
      }
    }
  }

  lemma {:induction false} SortSorts<T(!new)>(leq: (T, T) -> bool, s: seq<T>)
    requires TotalPreorder(leq)
    ensures SortedBy(leq, Sort(leq, s))
  {
    if s != [] {
      SortSorts(leq, s[1..]);
      InsertSorts(leq, s[0], Sort(leq, s[1..]));
    }
  }

  /** A list that is in order already is left alone. */
  lemma {:induction false} SortOfSorted<T>(leq: (T, T) -> bool, s: seq<T>)
    requires SortedBy(leq, s)
    ensures Sort(leq, s) == s
  {
    if s != [] {
      SortOfSorted(leq, s[1..]);
      assert |s| > 1 ==> leq(s[0], s[1]);
      assert s == [s[0]] + s[1..];
    }
  }

  /** Only equal elements of `s` tie. */
  ghost predicate TiesAreEqual<T>(leq: (T, T) -> bool, s: seq<T>) {
    forall i, j :: 0 <= i < |s| && 0 <= j < |s| && leq(s[i], s[j]) && leq(s[j], s[i]) ==> s[i] == s[j]
  }

  lemma {:induction false} SortedHeads<T>(leq: (T, T) -> bool, a: seq<T>, b: seq<T>)
    requires a != [] && b != []
    requires SortedBy(leq, a) && SortedBy(leq, b) && TiesAreEqual(leq, a)
    requires a[0] in b && b[0] in a
    ensures a[0] == b[0]
  {
    var i :| 0 <= i < |b| && b[i] == a[0];
    var j :| 0 <= j < |a| && a[j] == b[0];
    if i > 0 && j > 0 {
      assert leq(b[0], b[i]) && leq(a[0], a[j]);
      assert a[0] == a[j];
    }
  }

  lemma {:induction false} TailMultiset<T>(a: seq<T>)
    requires a != []
    ensures multiset(a[1..]) == multiset(a) - multiset{a[0]}
  {
    assert a == [a[0]] + a[1..];
  }

  /** Two sorted permutations of each other are equal when only equal elements tie. */
  lemma {:induction false} SortedIsUnique<T>(leq: (T, T) -> bool, a: seq<T>, b: seq<T>)
    requires SortedBy(leq, a) && SortedBy(leq, b)
    requires multiset(a) == multiset(b)
    requires TiesAreEqual(leq, a)
    ensures a == b
  {
    PermutationMembers(a, b);
    if a != [] {
      assert a[0] in b && b[0] in a;
      SortedHeads(leq, a, b);
      TailMultiset(a);
      TailMultiset(b);
      var a', b' := a[1..], b[1..];
      assert TiesAreEqual(leq, a') by {
        forall i, j | 0 <= i < |a'| && 0 <= j < |a'| && leq(a'[i], a'[j]) && leq(a'[j], a'[i])
          ensures a'[i] == a'[j]
        {
          assert a'[i] == a[i + 1] && a'[j] == a[j + 1];
        }
      }
      SortedIsUnique(leq, a', b');
      assert a == [a[0]] + a' && b == [b[0]] + b';
    }
  }

  ghost predicate Distinct<T>(s: seq<T>) {
    forall i, j :: 0 <= i < j < |s| ==> s[i] != s[j]
  }

  /** `p` sends every index below `n` to its own index below `m`. */
  ghost predicate Injection(p: seq<nat>, n: nat, m: nat) {
    |p| == n && Distinct(p) && forall i :: 0 <= i < n ==> p[i] < m
  }

  lemma {:induction false} RemoveMultiset<T>(b: seq<T>, j: nat)
    requires j < |b|
    ensures multiset(b[..j] + b[j + 1..]) == multiset(b) - multiset{b[j]}
  {
    assert b == b[..j] + [b[j]] + b[j + 1..];
  }

  /** Indices into `b` without its element `j`, read as indices into `b`. */
  function Shifted(q: seq<nat>, j: nat): (r: seq<nat>)
    ensures |r| == |q|
    ensures forall i :: 0 <= i < |q| ==> r[i] == if q[i] < j then q[i] else q[i] + 1
  {
    seq(|q|, i requires 0 <= i < |q| => if q[i] < j then q[i] else q[i] + 1)
  }

  lemma {:induction false} ShiftedInjection(q: seq<nat>, j: nat, n: nat, m: nat)
    requires Injection(q, n, m) && j <= m
    ensures Injection([j] + Shifted(q, j), n + 1, m + 1)
  {
    var p := [j] + Shifted(q, j);
    forall i, k | 0 <= i < k < |p|
      ensures p[i] != p[k]
    {
      assert p[k] == Shifted(q, j)[k - 1];
      if i > 0 {
        assert p[i] == Shifted(q, j)[i - 1];
        assert q[i - 1] != q[k - 1];
      }
    }
  }

  lemma {:induction false} EmbedTail<T>(a: seq<T>, b: seq<T>) returns (j: nat)
    requires a != [] && multiset(a) <= multiset(b)
    ensures j < |b| && b[j] == a[0]
    ensures multiset(a[1..]) <= multiset(b[..j] + b[j + 1..])
  {
    assert a[0] in multiset(a);
    assert a[0] in b;
    j :| 0 <= j < |b| && b[j] == a[0];
    TailMultiset(a);
    RemoveMultiset(b, j);
  }

  /** A list whose elements all occur in another, as often, is matched up with it by a one-to-one map of indices. */
  lemma {:induction false} EmbeddingIndices<T>(a: seq<T>, b: seq<T>) returns (p: seq<nat>)
    requires multiset(a) <= multiset(b)
    ensures Injection(p, |a|, |b|)
    ensures forall i :: 0 <= i < |a| ==> a[i] == b[p[i]]
  {
    if a == [] {
      p := [];
    } else {
      var j := EmbedTail(a, b);
      var rest := b[..j] + b[j + 1..];
      var q := EmbeddingIndices(a[1..], rest);
      p := [j] + Shifted(q, j);
      ShiftedInjection(q, j, |q|, |rest|);
      forall i | 0 <= i < |a|
        ensures a[i] == b[p[i]]
      {
        if i > 0 {
          assert a[i] == a[1..][i - 1] == rest[q[i - 1]];
          assert p[i] == Shifted(q, j)[i - 1];
        }
      }
    }
  }

  /** A sequence that is found in another at different positions has nothing more often than it. */
  lemma {:induction false} InjectionEmbeds<T>(a: seq<T>, b: seq<T>, p: seq<nat>)
    requires Injection(p, |a|, |b|) && forall i :: 0 <= i < |a| ==> a[i] == b[p[i]]
    ensures multiset(a) <= multiset(b)
    decreases |b|
  {
    if a != [] {
      assert p[0] < |b|;
      var n := |b| - 1;
      assert b == b[..n] + [b[n]];
      if n in p {
        var i :| 0 <= i < |p| && p[i] == n;
        WithoutLast(a, b, p, i);
        InjectionEmbeds(a[..i] + a[i + 1..], b[..n], p[..i] + p[i + 1..]);
        LastEmbeds(a, b, i);
      } else {
        assert forall i :: 0 <= i < |p| ==> p[i] in p && p[i] < n;
        InjectionEmbeds(a, b[..n], p);
      }
    }
  }

  lemma {:induction false} LastEmbeds<T>(a: seq<T>, b: seq<T>, i: nat)
    requires i < |a| && b != [] && a[i] == b[|b| - 1]
    requires multiset(a[..i] + a[i + 1..]) <= multiset(b[..|b| - 1])
    ensures multiset(a) <= multiset(b)
  {
    RemoveMultiset(a, i);
    assert b == b[..|b| - 1] + [b[|b| - 1]];
  }

  lemma {:induction false} WithoutLast<T>(a: seq<T>, b: seq<T>, p: seq<nat>, i: nat)
    requires Injection(p, |a|, |b|) && (forall k :: 0 <= k < |a| ==> a[k] == b[p[k]]) && i < |p| && p[i] == |b| - 1
    ensures var a', p' := a[..i] + a[i + 1..], p[..i] + p[i + 1..];
      Injection(p', |a'|, |b| - 1) && forall k :: 0 <= k < |a'| ==> a'[k] == b[..|b| - 1][p'[k]]
  {
    var a', p' := a[..i] + a[i + 1..], p[..i] + p[i + 1..];
    forall k | 0 <= k < |p'|
      ensures p'[k] == p[if k < i then k else k + 1] && p'[k] < |b| - 1 && a'[k] == b[p'[k]]
    {
    }
  }

  lemma {:induction false} SubsetSize<T>(a: set<T>, b: set<T>)
    requires a <= b
    ensures |a| <= |b|
  {
    assert b == a + (b - a);
  }

  // ---------- sorted lists of strings ----------

  ghost function SetOf(s: seq<string>): set<string> {
    set x | x in s
  }

  function ByString(): (string, string) -> bool {
    (a: string, b: string) => StrLeq(a, b)
  }

  ghost predicate Ascending(s: seq<string>) {
    forall i, j :: 0 <= i < j < |s| ==> StrLess(s[i], s[j])
  }

  /** slices.Sort on the elements of a set. */
  method SortedList(s: set<string>) returns (r: seq<string>)
    ensures SetOf(r) == s && Ascending(r)
  {
    var unsorted := [];
    var left := s;
    while left != {}
      invariant left <= s && SetOf(unsorted) == s - left && Distinct(unsorted)
      decreases left
    {
      var x :| x in left;
      left := left - {x};
      assert SetOf(unsorted + [x]) == SetOf(unsorted) + {x};
      unsorted := unsorted + [x];
    }
    r := Sort(ByString(), unsorted);
    SortedStrings(unsorted);
  }

  lemma {:induction false} ByStringIsTotal()
    ensures TotalPreorder(ByString())
  {
    var leq := ByString();
    forall x, y
      ensures leq(x, y) || leq(y, x)
    {
      StrLeqTotal(x, y);
    }
    forall x, y, z | leq(x, y) && leq(y, z)
      ensures leq(x, z)
    {
      StrLeqTransitive(x, y, z);
    }
  }

  lemma {:induction false} SortedStrings(s: seq<string>)
    requires Distinct(s)
    ensures var r := Sort(ByString(), s); SetOf(r) == SetOf(s) && Ascending(r)
  {
    var r := Sort(ByString(), s);
    ByStringIsTotal();
    SortPermutes(ByString(), s);
    SortSorts(ByString(), s);
    PermutationMembers(r, s);
    var p := EmbeddingIndices(r, s);
    forall i, j | 0 <= i < j < |r|
      ensures StrLess(r[i], r[j])
    {
      assert ByString()(r[i], r[j]);
      assert p[i] != p[j];
      assert p[i] < p[j] ==> s[p[i]] != s[p[j]];
      assert p[j] < p[i] ==> s[p[j]] != s[p[i]];
    }
  }

  /** A strictly ascending list is determined by its elements. */
  lemma {:induction false} AscendingUnique(a: seq<string>, b: seq<string>)
    requires Ascending(a) && Ascending(b) && SetOf(a) == SetOf(b)
    ensures a == b
  {
    AscendingMultiset(a);
    AscendingMultiset(b);
    assert SortedBy(ByString(), a) && SortedBy(ByString(), b);
    forall i, j | 0 <= i < |a| && 0 <= j < |a| && ByString()(a[i], a[j]) && ByString()(a[j], a[i])
      ensures a[i] == a[j]
    {
      StrLeqAntisymmetric(a[i], a[j]);
    }
    SortedIsUnique(ByString(), a, b);
  }

  lemma {:induction false} AscendingMultiset(a: seq<string>)
    requires Ascending(a)
    ensures multiset(a) == multiset(SetOf(a))
  {
    if a != [] {
      var n := |a| - 1;
      AscendingMultiset(a[..n]);
      assert a == a[..n] + [a[n]];
      assert a[n] !in a[..n] by {
        forall i | 0 <= i < n
          ensures a[i] != a[n]
        {
          assert StrLess(a[i], a[n]);
        }
      }
      assert SetOf(a) == SetOf(a[..n]) + {a[n]};
    }
  }
}
