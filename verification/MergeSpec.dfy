/**
 The bottom-up merge sort of utlist.h as a function on sequences: what one merge, one pass and
 the doubling passes compute, and why the result is the sorted, stable permutation.
 */
module MergeSpec {

  type Cmp<!E> = (E, E) -> int

  function Min(a: nat, b: nat): nat { if a <= b then a else b }

  /** Two runs are merged with a preference for the left one on ties. */
  function Merge<E>(cmp: Cmp<E>, p: seq<E>, q: seq<E>): (r: seq<E>)
    ensures |r| == |p| + |q|
    decreases |p| + |q|
  {
    if p == [] then q
    else if q == [] then p
    else if cmp(p[0], q[0]) <= 0 then [p[0]] + Merge(cmp, p[1..], q)
    else [q[0]] + Merge(cmp, p, q[1..])
  }

  /** One pass merges neighbouring runs of k elements. */
  function Pass<E>(cmp: Cmp<E>, s: seq<E>, k: nat): (r: seq<E>)
    requires k > 0
    ensures |r| == |s|
    decreases |s|
  {
    if s == [] then []
    else
      var m := Min(k, |s|);
      var n := Min(2 * k, |s|);
      Merge(cmp, s[..m], s[m..n]) + Pass(cmp, s[n..], k)
  }

  /** Passes with doubling runs, until one merge covers the list. */
  function SortFrom<E>(cmp: Cmp<E>, s: seq<E>, k: nat): (r: seq<E>)
    requires k > 0
    ensures |r| == |s|
    decreases |s| - k
  {
    if |s| <= 2 * k then Pass(cmp, s, k) else SortFrom(cmp, Pass(cmp, s, k), 2 * k)
  }

  // ----- the independent description of sorting -----

  /** cmp orders the elements of s: total and transitive. */
  ghost predicate Orders<E>(cmp: Cmp<E>, s: seq<E>) {
    && (forall a, b | a in s && b in s :: cmp(a, b) <= 0 || cmp(b, a) <= 0)
    && (forall a, b, c | a in s && b in s && c in s && cmp(a, b) <= 0 && cmp(b, c) <= 0 :: cmp(a, c) <= 0)
  }

  ghost predicate Sorted<E>(cmp: Cmp<E>, s: seq<E>) {
    forall i, j | 0 <= i < j < |s| :: cmp(s[i], s[j]) <= 0
  }

  /** The elements of s that tie with x, in their order in s. */
  ghost function Ties<E>(cmp: Cmp<E>, s: seq<E>, x: E): seq<E> {
    if s == [] then []
    else if cmp(s[0], x) <= 0 && cmp(x, s[0]) <= 0 then [s[0]] + Ties(cmp, s[1..], x)
    else Ties(cmp, s[1..], x)
  }

  /** r is s rearranged, and elements that tie keep their order. */
  ghost predicate StableRearrangement<E>(cmp: Cmp<E>, s: seq<E>, r: seq<E>) {
    && multiset(r) == multiset(s)
    && forall x | x in s :: Ties(cmp, r, x) == Ties(cmp, s, x)
  }

  /** Every run of k elements of s is sorted. */
  ghost predicate RunsSorted<E>(cmp: Cmp<E>, s: seq<E>, k: nat)
    requires k > 0
    decreases |s|
  {
    s == [] || (Sorted(cmp, s[..Min(k, |s|)]) && RunsSorted(cmp, s[Min(k, |s|)..], k))
  }

  // ----- one merge -----

  lemma MultisetCons<E>(x: E, s: seq<E>)
    ensures multiset([x] + s) == multiset{x} + multiset(s)
  {
  }

  lemma {:induction false} MergePermutes<E>(cmp: Cmp<E>, p: seq<E>, q: seq<E>)
    ensures multiset(Merge(cmp, p, q)) == multiset(p) + multiset(q)
    decreases |p| + |q|
  {
    if p != [] && q != [] {
      if cmp(p[0], q[0]) <= 0 {
        MergePermutes(cmp, p[1..], q);
        MultisetCons(p[0], Merge(cmp, p[1..], q));
        MultisetCons(p[0], p[1..]);
        assert [p[0]] + p[1..] == p;
      } else {
        MergePermutes(cmp, p, q[1..]);
        MultisetCons(q[0], Merge(cmp, p, q[1..]));
        MultisetCons(q[0], q[1..]);
        assert [q[0]] + q[1..] == q;
      }
    }
  }

  lemma SameElements<E>(s: seq<E>, r: seq<E>)
    requires multiset(r) == multiset(s)
    ensures forall x :: x in r <==> x in s
  {
    forall x
      ensures x in r <==> x in s
    {
      assert x in r <==> x in multiset(r);
      assert x in s <==> x in multiset(s);
    }
  }

  lemma SortedCons<E>(cmp: Cmp<E>, x: E, s: seq<E>)
    requires Sorted(cmp, s)
    requires forall y | y in s :: cmp(x, y) <= 0
    ensures Sorted(cmp, [x] + s)
  {
    var r := [x] + s;
    forall i, j | 0 <= i < j < |r|
      ensures cmp(r[i], r[j]) <= 0
    {
      assert r[j] == s[j - 1];
      if i > 0 {
        assert r[i] == s[i - 1];
      }
    }
  }

  ghost predicate Within<E>(s: seq<E>, u: seq<E>) {
    forall x | x in s :: x in u
  }

  lemma HeadIsLeast<E>(cmp: Cmp<E>, u: seq<E>, p: seq<E>, q: seq<E>, x: E, y: E)
    requires Orders(cmp, u) && Within(p, u) && Within(q, u) && Sorted(cmp, p) && Sorted(cmp, q)
    requires p != [] && q != [] && x == (if cmp(p[0], q[0]) <= 0 then p[0] else q[0])
    requires y in p || y in q
    ensures cmp(x, y) <= 0
  {
    assert p[0] in u && q[0] in u && y in u;
    if y in p {
      var i :| 0 <= i < |p| && p[i] == y;
      assert cmp(p[0], y) <= 0;
    } else {
      var i :| 0 <= i < |q| && q[i] == y;
      assert cmp(q[0], y) <= 0;
    }
  }

  lemma MergeElements<E>(cmp: Cmp<E>, p: seq<E>, q: seq<E>)
    ensures forall y | y in Merge(cmp, p, q) :: y in p || y in q
  {
    MergePermutes(cmp, p, q);
    forall y | y in Merge(cmp, p, q)
      ensures y in p || y in q
    {
      assert y in multiset(Merge(cmp, p, q));
    }
  }

  lemma {:induction false} MergeSorts<E>(cmp: Cmp<E>, u: seq<E>, p: seq<E>, q: seq<E>)
    requires Orders(cmp, u) && Within(p, u) && Within(q, u) && Sorted(cmp, p) && Sorted(cmp, q)
    ensures Sorted(cmp, Merge(cmp, p, q))
    decreases |p| + |q|
  {
    hide Orders;
    if p != [] && q != [] {
      var left := cmp(p[0], q[0]) <= 0;
      var p', q' := if left then p[1..] else p, if left then q else q[1..];
      var x := if left then p[0] else q[0];
      MergeSorts(cmp, u, p', q');
      MergeElements(cmp, p', q');
      forall y | y in Merge(cmp, p', q')
        ensures cmp(x, y) <= 0
      {
        HeadIsLeast(cmp, u, p, q, x, y);
      }
      SortedCons(cmp, x, Merge(cmp, p', q'));
    }
  }

  lemma {:induction false} TiesAppend<E>(cmp: Cmp<E>, a: seq<E>, b: seq<E>, x: E)
    ensures Ties(cmp, a + b, x) == Ties(cmp, a, x) + Ties(cmp, b, x)
    decreases |a|
  {
    if a == [] {
      assert a + b == b;
    } else {
      assert (a + b)[1..] == a[1..] + b;
      TiesAppend(cmp, a[1..], b, x);
    }
  }

  lemma {:induction false} NoTies<E>(cmp: Cmp<E>, s: seq<E>, x: E)
    requires forall y | y in s :: !(cmp(y, x) <= 0 && cmp(x, y) <= 0)
    ensures Ties(cmp, s, x) == []
    decreases |s|
  {
    if s != [] {
      NoTies(cmp, s[1..], x);
    }
  }

  /** When the right head goes first and ties with x, nothing of the left run ties with x. */
  lemma RightHeadTies<E>(cmp: Cmp<E>, u: seq<E>, p: seq<E>, q: seq<E>, x: E)
    requires Orders(cmp, u) && Within(p, u) && Within(q, u) && x in u && Sorted(cmp, p)
    requires p != [] && q != [] && cmp(p[0], q[0]) > 0
    requires cmp(q[0], x) <= 0 && cmp(x, q[0]) <= 0
    ensures Ties(cmp, p, x) == []
  {
    forall y | y in p
      ensures !(cmp(y, x) <= 0 && cmp(x, y) <= 0)
    {
      var i :| 0 <= i < |p| && p[i] == y;
      assert y in u && p[0] in u && q[0] in u;
      assert cmp(p[0], y) <= 0;
    }
    NoTies(cmp, p, x);
  }

  lemma {:induction false} MergeIsStable<E>(cmp: Cmp<E>, u: seq<E>, p: seq<E>, q: seq<E>, x: E)
    requires Orders(cmp, u) && Within(p, u) && Within(q, u) && x in u && Sorted(cmp, p)
    ensures Ties(cmp, Merge(cmp, p, q), x) == Ties(cmp, p, x) + Ties(cmp, q, x)
    decreases |p| + |q|
  {
    hide Orders;
    if p == [] || q == [] {
    } else if cmp(p[0], q[0]) <= 0 {
      MergeIsStable(cmp, u, p[1..], q, x);
      TiesAppend(cmp, [p[0]], Merge(cmp, p[1..], q), x);
    } else {
      MergeIsStable(cmp, u, p, q[1..], x);
      TiesAppend(cmp, [q[0]], Merge(cmp, p, q[1..]), x);
      if cmp(q[0], x) <= 0 && cmp(x, q[0]) <= 0 {
        RightHeadTies(cmp, u, p, q, x);
      }
    }
  }

  // ----- one pass -----

  lemma Split<E>(s: seq<E>, m: nat, n: nat)
    requires m <= n <= |s|
    ensures s == s[..m] + s[m..n] + s[n..] && s[..m] + s[m..n] == s[..n]
    ensures Within(s[..m], s) && Within(s[m..n], s) && Within(s[n..], s)
  {
  }

  lemma {:induction false} PassPermutes<E>(cmp: Cmp<E>, s: seq<E>, k: nat)
    requires k > 0
    ensures multiset(Pass(cmp, s, k)) == multiset(s)
    decreases |s|
  {
    if s != [] {
      var m, n := Min(k, |s|), Min(2 * k, |s|);
      Split(s, m, n);
      MergePermutes(cmp, s[..m], s[m..n]);
      PassPermutes(cmp, s[n..], k);
    }
  }

  lemma {:induction false} PassIsStable<E>(cmp: Cmp<E>, u: seq<E>, s: seq<E>, k: nat, x: E)
    requires k > 0 && Orders(cmp, u) && Within(s, u) && x in u && RunsSorted(cmp, s, k)
    ensures Ties(cmp, Pass(cmp, s, k), x) == Ties(cmp, s, x)
    decreases |s|
  {
    if s != [] {
      var m, n := Min(k, |s|), Min(2 * k, |s|);
      Split(s, m, n);
      TwoRuns(cmp, s, k);
      MergeIsStable(cmp, u, s[..m], s[m..n], x);
      PassIsStable(cmp, u, s[n..], k, x);
      TiesAppend(cmp, Merge(cmp, s[..m], s[m..n]), Pass(cmp, s[n..], k), x);
      TiesAppend(cmp, s[..m] + s[m..n], s[n..], x);
      TiesAppend(cmp, s[..m], s[m..n], x);
    }
  }

  /** The first two runs are sorted, and so are the runs behind them. */
  lemma TwoRuns<E>(cmp: Cmp<E>, s: seq<E>, k: nat)
    requires k > 0 && s != [] && RunsSorted(cmp, s, k)
    ensures var m, n := Min(k, |s|), Min(2 * k, |s|);
            Sorted(cmp, s[..m]) && Sorted(cmp, s[m..n]) && RunsSorted(cmp, s[n..], k)
  {
    var m, n := Min(k, |s|), Min(2 * k, |s|);
    var t := s[m..];
    assert t[..Min(k, |t|)] == s[m..n];
    assert t[Min(k, |t|)..] == s[n..];
  }

  lemma {:induction false} PassDoublesRuns<E>(cmp: Cmp<E>, u: seq<E>, s: seq<E>, k: nat)
    requires k > 0 && Orders(cmp, u) && Within(s, u) && RunsSorted(cmp, s, k)
    ensures RunsSorted(cmp, Pass(cmp, s, k), 2 * k)
    decreases |s|
  {
    hide Orders, Sorted, Merge;
    if s != [] {
      var m, n := Min(k, |s|), Min(2 * k, |s|);
      Split(s, m, n);
      TwoRuns(cmp, s, k);
      MergeSorts(cmp, u, s[..m], s[m..n]);
      PassDoublesRuns(cmp, u, s[n..], k);
      RunsCons(cmp, Merge(cmp, s[..m], s[m..n]), Pass(cmp, s[n..], k), 2 * k);
    }
  }

  /** A sorted run in front: a full one, or a shorter one with nothing behind it. */
  lemma RunsCons<E>(cmp: Cmp<E>, a: seq<E>, b: seq<E>, k: nat)
    requires k > 0 && Sorted(cmp, a) && RunsSorted(cmp, b, k)
    requires a != [] && |a| <= k && (|a| == k || b == [])
    ensures RunsSorted(cmp, a + b, k)
  {
    var r := a + b;
    assert r[..Min(k, |r|)] == a && r[Min(k, |r|)..] == b;
  }

  // ----- all passes -----

  lemma OneRun<E>(cmp: Cmp<E>, s: seq<E>, k: nat)
    requires k > 0 && |s| <= k && RunsSorted(cmp, s, k)
    ensures Sorted(cmp, s)
  {
    assert s[..|s|] == s;
  }

  lemma OrdersSame<E>(cmp: Cmp<E>, s: seq<E>, r: seq<E>)
    requires Orders(cmp, s) && multiset(r) == multiset(s)
    ensures Orders(cmp, r) && Within(r, s) && Within(s, r)
  {
    SameElements(s, r);
  }

  lemma PassRearranges<E>(cmp: Cmp<E>, s: seq<E>, k: nat)
    requires k > 0 && Orders(cmp, s) && RunsSorted(cmp, s, k)
    ensures StableRearrangement(cmp, s, Pass(cmp, s, k))
  {
    hide Orders, RunsSorted, Pass, Ties;
    PassPermutes(cmp, s, k);
    forall x | x in s
      ensures Ties(cmp, Pass(cmp, s, k), x) == Ties(cmp, s, x)
    {
      PassIsStable(cmp, s, s, k, x);
    }
  }

  lemma {:induction false} SortFromCorrect<E>(cmp: Cmp<E>, s: seq<E>, k: nat)
    requires k > 0 && Orders(cmp, s) && RunsSorted(cmp, s, k)
    ensures Sorted(cmp, SortFrom(cmp, s, k)) && StableRearrangement(cmp, s, SortFrom(cmp, s, k))
    decreases |s| - k
  {
    hide Orders, Sorted, RunsSorted, Pass, Ties;
    var r := Pass(cmp, s, k);
    PassDoublesRuns(cmp, s, s, k);
    PassRearranges(cmp, s, k);
    if |s| <= 2 * k {
      OneRun(cmp, r, 2 * k);
    } else {
      OrdersSame(cmp, s, r);
      SortFromCorrect(cmp, r, 2 * k);
    }
  }

  lemma {:induction false} SingletonRuns<E>(cmp: Cmp<E>, s: seq<E>)
    ensures RunsSorted(cmp, s, 1)
    decreases |s|
  {
    if s != [] {
      SingletonRuns(cmp, s[1..]);
    }
  }

  /** For every total preorder the doubling passes sort the list stably. */
  lemma SortIsStableSort<E>(cmp: Cmp<E>, s: seq<E>)
    requires Orders(cmp, s)
    ensures Sorted(cmp, SortFrom(cmp, s, 1)) && StableRearrangement(cmp, s, SortFrom(cmp, s, 1))
  {
    SingletonRuns(cmp, s);
    SortFromCorrect(cmp, s, 1);
  }

  /** For every comparison, ordering or not, the result is a rearrangement. */
  lemma {:induction false} SortPermutes<E>(cmp: Cmp<E>, s: seq<E>, k: nat)
    requires k > 0
    ensures multiset(SortFrom(cmp, s, k)) == multiset(s)
    decreases |s| - k
  {
    PassPermutes(cmp, s, k);
    if |s| > 2 * k {
      SortPermutes(cmp, Pass(cmp, s, k), 2 * k);
    }
  }
}
