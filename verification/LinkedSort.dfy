/**
 The three in-place sorts of utlist.h: singly linked, doubly linked and circular lists. The
 macros share their text and differ in three places: whether `prev` is written, whether the
 end of the list is NULL or the old head, and how the last links are closed.
 */
module LinkedSort {
  import opened MergeSpec

  datatype Variant = Singly | Doubly | Circular

  class Node<T> {
    const data: T
    var next: Node?<T>
    var prev: Node?<T>

    constructor (data: T)
      ensures this.data == data && next == null && prev == null
    {
      this.data := data;
      next := null;
      prev := null;
    }
  }

  // ----- list shapes -----

  ghost predicate Distinct<T>(s: seq<Node<T>>) {
    forall i, j | 0 <= i < j < |s| :: s[i] != s[j]
  }

  ghost function First<T>(s: seq<Node<T>>, e: Node?<T>): Node?<T> {
    if s == [] then e else s[0]
  }

  ghost function Last<T>(s: seq<Node<T>>): Node?<T> {
    if s == [] then null else s[|s| - 1]
  }

  ghost function Succ<T>(s: seq<Node<T>>, i: nat, e: Node?<T>): Node?<T> {
    if i + 1 < |s| then s[i + 1] else e
  }

  ghost function Pred<T>(s: seq<Node<T>>, i: nat, e: Node?<T>): Node?<T> {
    if 0 < i <= |s| then s[i - 1] else e
  }

  /** Each node's next is its successor; the last one's is e. */
  ghost predicate Linked<T>(s: seq<Node<T>>, e: Node?<T>)
    reads s
  {
    forall i | 0 <= i < |s| :: s[i].next == Succ(s, i, e)
  }

  /** Like Linked, but nothing is said about the last node. */
  ghost predicate Inner<T>(s: seq<Node<T>>)
    reads s
  {
    forall i | 0 <= i < |s| - 1 :: s[i].next == Succ(s, i, null)
  }

  /** Each node's prev is its predecessor; the first one's is e. */
  ghost predicate BackLinked<T>(s: seq<Node<T>>, e: Node?<T>)
    reads s
  {
    forall i | 0 <= i < |s| :: s[i].prev == Pred(s, i, e)
  }

  ghost function End<T>(v: Variant, head: Node?<T>): Node?<T> {
    if v.Circular? then head else null
  }

  /** The whole list: for a doubly linked list head.prev is the tail, for a circular one tail.next is the head. */
  ghost predicate IsList<T>(v: Variant, head: Node?<T>, s: seq<Node<T>>)
    reads s
  {
    && Distinct(s) && head == First(s, null)
    && Linked(s, End(v, head))
    && (!v.Singly? ==> BackLinked(s, Last(s)))
  }

  /** What one pass needs of its input: the next links only. */
  ghost predicate IsChain<T>(v: Variant, head: Node?<T>, s: seq<Node<T>>)
    reads s
  {
    Distinct(s) && head == First(s, null) && Linked(s, End(v, head))
  }

  /** Four groups of nodes with no node in two places. */
  ghost predicate Apart<T>(a: seq<Node<T>>, b: seq<Node<T>>, c: seq<Node<T>>, d: seq<Node<T>>) {
    && Distinct(a) && Distinct(b) && Distinct(c) && Distinct(d)
    && (forall x | x in a :: x !in b && x !in c && x !in d)
    && (forall x | x in b :: x !in c && x !in d)
    && (forall x | x in c :: x !in d)
  }

  lemma DistinctSnoc<T>(s: seq<Node<T>>, x: Node<T>)
    requires Distinct(s) && x !in s
    ensures Distinct(s + [x])
  {
    assert forall i | 0 <= i < |s| :: (s + [x])[i] == s[i] && s[i] in s;
  }

  lemma ApartMoveB<T>(a: seq<Node<T>>, b: seq<Node<T>>, c: seq<Node<T>>, d: seq<Node<T>>)
    requires Apart(a, b, c, d) && b != []
    ensures Apart(a + [b[0]], b[1..], c, d)
  {
    assert b[0] in b;
    DistinctSnoc(a, b[0]);
  }

  lemma ApartMoveC<T>(a: seq<Node<T>>, b: seq<Node<T>>, c: seq<Node<T>>, d: seq<Node<T>>)
    requires Apart(a, b, c, d) && c != []
    ensures Apart(a + [c[0]], b, c[1..], d)
  {
    assert c[0] in c;
    DistinctSnoc(a, c[0]);
  }

  /** The merged prefix: linked inside, and back-linked if the variant keeps prev. */
  ghost predicate Built<T>(v: Variant, list: Node?<T>, tail: Node?<T>, done: seq<Node<T>>)
    reads done
  {
    && list == First(done, null) && tail == Last(done)
    && Inner(done) && (!v.Singly? ==> BackLinked(done, null))
  }

  // ----- the steps of a pass -----

  /** The successor of a node, NULL at the end of the list. */
  method Advance<T>(v: Variant, x: Node<T>, oldhead: Node<T>) returns (y: Node?<T>)
    ensures y == if v.Circular? && x.next == oldhead then null else x.next
  {
    y := x.next;
    if v.Circular? && y == oldhead {
      y := null;
    }
  }

  lemma BuiltEnds<T>(v: Variant, list: Node?<T>, tail: Node?<T>, done: seq<Node<T>>)
    requires Built(v, list, tail, done)
    ensures tail == Last(done)
  {
  }

  lemma NothingBuilt<T>(v: Variant)
    ensures Built<T>(v, null, null, [])
  {
  }

  /** Append e to the merged prefix. */
  method Emit<T>(v: Variant, list: Node?<T>, tail: Node?<T>, e: Node<T>, ghost done: seq<Node<T>>)
    returns (list': Node?<T>, tail': Node?<T>)
    requires e !in done && Distinct(done)
    requires Built(v, list, tail, done)
    modifies {tail, e}
    ensures Built(v, list', tail', done + [e])
  {
    assert forall i | 0 <= i < |done| :: done[i] in done && (i < |done| - 1 ==> done[i] != tail);
    hide Distinct;
    list' := list;
    if tail != null {
      tail.next := e;
    } else {
      list' := e;
    }
    assert Inner(done);
    assert !v.Singly? ==> BackLinked(done, null);
    if !v.Singly? {
      e.prev := tail;
    }
    tail' := e;
    assert Inner(done);
    BuiltSnoc(v, list', e, done);
  }

  lemma BuiltSnoc<T>(v: Variant, list: Node?<T>, e: Node<T>, done: seq<Node<T>>)
    requires list == First(done, e)
    requires Inner(done) && (done != [] ==> done[|done| - 1].next == e)
    requires !v.Singly? ==> BackLinked(done, null) && e.prev == Last(done)
    ensures Built(v, list, e, done + [e])
  {
    var s := done + [e];
    forall i | 0 <= i < |s| - 1
      ensures s[i].next == Succ(s, i, null)
    {
      assert s[i] == done[i];
    }
    if !v.Singly? {
      forall i | 0 <= i < |s|
        ensures s[i].prev == Pred(s, i, null)
      {
        assert i < |done| ==> s[i] == done[i];
      }
    }
  }

  /** The for loop of a pass: step over at most insize nodes. */
  method StepOver<T>(v: Variant, p: Node<T>, insize: nat, oldhead: Node<T>, ghost s: seq<Node<T>>)
    returns (q: Node?<T>, psize: nat)
    requires insize > 0 && s != [] && p == s[0]
    requires Linked(s, End(v, oldhead)) && oldhead !in s[1..]
    ensures psize == Min(insize, |s|) && q == First(s[psize..], null)
  {
    q := p;
    psize := 0;
    while psize < insize
      invariant psize < |s| && psize <= insize && q == s[psize]
    {
      assert psize + 1 < |s| ==> s[psize + 1] in s[1..];
      psize := psize + 1;
      q := Advance(v, q, oldhead);
      if q == null {
        break;
      }
    }
  }

  /** Which run gives the next node, by the tests of the inner loop. */
  ghost predicate FromLeft<T>(cmp: Cmp<Node<T>>, ps: seq<Node<T>>, qs: seq<Node<T>>) {
    ps != [] && (qs == [] || cmp(ps[0], qs[0]) <= 0)
  }

  lemma MergeStep<T>(cmp: Cmp<Node<T>>, done: seq<Node<T>>, ps: seq<Node<T>>, qs: seq<Node<T>>)
    requires ps != [] || qs != []
    ensures FromLeft(cmp, ps, qs) ==> done + Merge(cmp, ps, qs) == done + [ps[0]] + Merge(cmp, ps[1..], qs)
    ensures !FromLeft(cmp, ps, qs) ==> qs != [] && done + Merge(cmp, ps, qs) == done + [qs[0]] + Merge(cmp, ps, qs[1..])
  {
  }

  /** The left run that remains: linked inside, and the old head can only be its first node. */
  ghost predicate LeftRun<T>(p: Node?<T>, oldhead: Node<T>, ps: seq<Node<T>>)
    reads ps
  {
    Inner(ps) && (ps != [] ==> p == ps[0] && oldhead !in ps[1..])
  }

  /** The unread part of the list: linked up to its end, which the old head marks in a circular list. */
  ghost predicate Unread<T>(v: Variant, q: Node?<T>, oldhead: Node<T>, s: seq<Node<T>>)
    reads s
  {
    q == First(s, null) && Linked(s, End(v, oldhead)) && oldhead !in s
  }

  lemma LeftRunTail<T>(p: Node?<T>, oldhead: Node<T>, ps: seq<Node<T>>, y: Node?<T>)
    requires LeftRun(p, oldhead, ps) && ps != []
    requires |ps| > 1 ==> y == ps[1]
    ensures LeftRun(y, oldhead, ps[1..])
  {
    assert |ps| > 1 ==> ps[1..][1..] == ps[2..] && forall x | x in ps[2..] :: x in ps[1..];
  }

  lemma LinkedTail<T>(s: seq<Node<T>>, e: Node?<T>)
    requires Linked(s, e) && s != []
    ensures Linked(s[1..], e)
  {
    var t := s[1..];
    forall i | 0 <= i < |t|
      ensures t[i].next == Succ(t, i, e)
    {
      var k := i + 1;
      assert t[i] == s[k] && s[k].next == Succ(s, k, e);
    }
  }

  lemma UnreadTail<T>(v: Variant, q: Node?<T>, oldhead: Node<T>, s: seq<Node<T>>, y: Node?<T>)
    requires Unread(v, q, oldhead, s) && s != []
    requires y == First(s[1..], null)
    ensures Unread(v, y, oldhead, s[1..])
  {
    LinkedTail(s, End(v, oldhead));
  }

  /** Where the inner loop stands: merged prefix, left run, right run, rest of the list. */
  ghost predicate Cursor<T>(v: Variant, oldhead: Node<T>, list: Node?<T>, tail: Node?<T>, p: Node?<T>, q: Node?<T>,
                            done: seq<Node<T>>, ps: seq<Node<T>>, qs: seq<Node<T>>, rest: seq<Node<T>>)
    reads done, ps, qs, rest
  {
    && Apart(done, ps, qs, rest) && Built(v, list, tail, done)
    && LeftRun(p, oldhead, ps) && Unread(v, q, oldhead, qs + rest)
  }

  /** None of the nodes of s is written when e is appended behind tail. */
  ghost predicate Clear<T>(tail: Node?<T>, e: Node<T>, s: seq<Node<T>>) {
    forall i | 0 <= i < |s| :: s[i] != tail && s[i] != e
  }

  lemma LeftIsClear<T>(tail: Node?<T>, done: seq<Node<T>>, ps: seq<Node<T>>, qs: seq<Node<T>>, rest: seq<Node<T>>)
    requires Apart(done, ps, qs, rest) && tail == Last(done) && ps != []
    ensures Clear(tail, ps[0], ps[1..]) && Clear(tail, ps[0], qs + rest)
    ensures ps[0] !in done && Distinct(done)
  {
    assert tail != null ==> tail in done;
    assert ps[0] in ps;
    assert forall i | 0 <= i < |ps[1..]| :: ps[1..][i] == ps[i + 1] && ps[i + 1] in ps;
    assert forall i | 0 <= i < |qs + rest| :: (qs + rest)[i] in qs || (qs + rest)[i] in rest;
  }

  lemma RightIsClear<T>(tail: Node?<T>, done: seq<Node<T>>, ps: seq<Node<T>>, qs: seq<Node<T>>, rest: seq<Node<T>>)
    requires Apart(done, ps, qs, rest) && tail == Last(done) && qs != []
    ensures Clear(tail, qs[0], ps) && Clear(tail, qs[0], (qs + rest)[1..])
    ensures qs[0] !in done && Distinct(done)
  {
    var s := qs + rest;
    assert tail != null ==> tail in done;
    assert qs[0] in qs;
    assert forall i | 0 <= i < |ps| :: ps[i] in ps;
    assert forall i | 0 <= i < |s[1..]| ::
      s[1..][i] == s[i + 1] && (if i + 1 < |qs| then s[i + 1] == qs[i + 1] && qs[i + 1] in qs else s[i + 1] in rest);
  }

  /** Move the first node of the left run onto the merged prefix. */
  method TakeLeft<T>(v: Variant, p: Node<T>, oldhead: Node<T>, list: Node?<T>, tail: Node?<T>, ghost q: Node?<T>,
                     ghost done: seq<Node<T>>, ghost ps: seq<Node<T>>, ghost qs: seq<Node<T>>, ghost rest: seq<Node<T>>)
    returns (p': Node?<T>, list': Node?<T>, tail': Node?<T>)
    requires Cursor(v, oldhead, list, tail, p, q, done, ps, qs, rest) && ps != []
    modifies {tail, p}
    ensures Cursor(v, oldhead, list', tail', p', q, done + [ps[0]], ps[1..], qs, rest)
  {
    hide Apart, Built, Distinct;
    BuiltEnds(v, list, tail, done);
    LeftIsClear(tail, done, ps, qs, rest);
    ApartMoveB(done, ps, qs, rest);
    assert |ps| > 1 ==> ps[1] in ps[1..];
    p' := Advance(v, p, oldhead);
    LeftRunTail(p, oldhead, ps, p');
    list', tail' := Emit(v, list, tail, p, done);
    assert LeftRun(p', oldhead, ps[1..]) && Unread(v, q, oldhead, qs + rest);
  }

  /** Move the first node of the right run onto the merged prefix. */
  method TakeRight<T>(v: Variant, q: Node<T>, oldhead: Node<T>, list: Node?<T>, tail: Node?<T>, ghost p: Node?<T>,
                      ghost done: seq<Node<T>>, ghost ps: seq<Node<T>>, ghost qs: seq<Node<T>>,
                      ghost rest: seq<Node<T>>)
    returns (q': Node?<T>, list': Node?<T>, tail': Node?<T>)
    requires Cursor(v, oldhead, list, tail, p, q, done, ps, qs, rest) && qs != []
    modifies {tail, q}
    ensures Cursor(v, oldhead, list', tail', p, q', done + [qs[0]], ps, qs[1..], rest)
  {
    hide Apart, Built, Distinct;
    BuiltEnds(v, list, tail, done);
    RightIsClear(tail, done, ps, qs, rest);
    ApartMoveC(done, ps, qs, rest);
    q' := NextUnread(v, q, oldhead, qs, rest);
    list', tail' := Emit(v, list, tail, q, done);
    assert (qs + rest)[1..] == qs[1..] + rest;
    assert LeftRun(p, oldhead, ps) && Unread(v, q', oldhead, qs[1..] + rest);
  }

  method NextUnread<T>(v: Variant, q: Node<T>, oldhead: Node<T>, ghost qs: seq<Node<T>>, ghost rest: seq<Node<T>>)
    returns (q': Node?<T>)
    requires qs != [] && Unread(v, q, oldhead, qs + rest)
    ensures Unread(v, q', oldhead, qs[1..] + rest)
  {
    ghost var s := qs + rest;
    assert s[1..] == qs[1..] + rest;
    assert |s| > 1 ==> s[1] in s;
    q' := Advance(v, q, oldhead);
    UnreadTail(v, q, oldhead, s, q');
  }

  /**
   The inner while loop: merge the run p of psize nodes with the run q of at most insize nodes
   onto the prefix that ends in tail0, and leave the rest of the list as it was.
   */
  method MergeRuns<T>(v: Variant, cmp: Cmp<Node<T>>, p0: Node<T>, psize0: nat, q0: Node?<T>, insize: nat,
                      oldhead: Node<T>, list0: Node?<T>, tail0: Node?<T>,
                      ghost done0: seq<Node<T>>, ghost left: seq<Node<T>>, ghost right: seq<Node<T>>,
                      ghost rest: seq<Node<T>>, ghost u: seq<Node<T>>)
    returns (list: Node?<T>, tail: Node?<T>, q: Node?<T>)
    requires Within(done0, u) && Within(left, u) && Within(right, u)
    requires Cursor(v, oldhead, list0, tail0, p0, q0, done0, left, right, rest)
    requires left != [] && psize0 == |left| && |right| <= insize && (|right| < insize ==> rest == [])
    modifies u
    ensures Built(v, list, tail, done0 + Merge(cmp, left, right)) && Unread(v, q, oldhead, rest)
  {
    hide Merge, Apart, Linked, Inner, BackLinked;
    var p: Node?<T>, psize, qsize := p0, psize0, insize;
    q, list, tail := q0, list0, tail0;
    ghost var done, ps, qs := done0, left, right;
    while psize > 0 || (qsize > 0 && q != null)
      invariant Cursor(v, oldhead, list, tail, p, q, done, ps, qs, rest)
      invariant done + Merge(cmp, ps, qs) == done0 + Merge(cmp, left, right)
      invariant psize == |ps| && |qs| <= qsize && (|qs| < qsize ==> rest == [])
      invariant Within(done, u) && Within(ps, u) && Within(qs, u) && tail == Last(done)
      decreases psize + qsize
    {
      MergeStep(cmp, done, ps, qs);
      var fromLeft: bool;
      if psize == 0 {
        fromLeft := false;
      } else if qsize == 0 || q == null {
        fromLeft := true;
      } else {
        fromLeft := cmp(p, q) <= 0;
      }
      assert fromLeft == FromLeft(cmp, ps, qs);
      assert tail != null ==> tail in done;
      if fromLeft {
        assert p in ps;
        p, list, tail := TakeLeft(v, p, oldhead, list, tail, q, done, ps, qs, rest);
        psize := psize - 1;
        done, ps := done + [ps[0]], ps[1..];
      } else {
        assert q in qs;
        q, list, tail := TakeRight(v, q, oldhead, list, tail, p, done, ps, qs, rest);
        qsize := qsize - 1;
        done, qs := done + [qs[0]], qs[1..];
      }
    }
    assert qs == [] && qs + rest == rest;
    NothingToMerge(cmp, done);
  }

  lemma NothingToMerge<T>(cmp: Cmp<Node<T>>, done: seq<Node<T>>)
    ensures done + Merge(cmp, [], []) == done
  {
  }

  // ----- one pass -----

  /** The part of the list a pass has yet to read; at first it starts with the old head. */
  ghost predicate Remaining<T>(v: Variant, p: Node?<T>, oldhead: Node<T>, s: seq<Node<T>>)
    reads s
  {
    p == First(s, null) && Linked(s, End(v, oldhead)) && (s != [] ==> oldhead !in s[1..])
  }

  lemma LinkedSplit<T>(s: seq<Node<T>>, m: nat, e: Node?<T>)
    requires Linked(s, e) && m <= |s|
    ensures Inner(s[..m]) && Linked(s[m..], e)
  {
    var a, b := s[..m], s[m..];
    forall i | 0 <= i < |a| - 1
      ensures a[i].next == Succ(a, i, null)
    {
      assert a[i] == s[i];
    }
    forall i | 0 <= i < |b|
      ensures b[i].next == Succ(b, i, e)
    {
      var k := m + i;
      assert b[i] == s[k] && s[k].next == Succ(s, k, e);
    }
  }

  /** Cut the two runs of one merge off the remaining list. */
  lemma CutRuns<T>(v: Variant, oldhead: Node<T>, list: Node?<T>, tail: Node?<T>, p: Node<T>, q: Node?<T>,
                   done: seq<Node<T>>, s: seq<Node<T>>, m: nat, n: nat)
    requires 0 < m <= n <= |s|
    requires Apart(done, s, [], []) && Built(v, list, tail, done) && Remaining(v, p, oldhead, s)
    requires q == First(s[m..], null)
    ensures Cursor(v, oldhead, list, tail, p, q, done, s[..m], s[m..n], s[n..])
  {
    hide Built;
    LinkedSplit(s, m, End(v, oldhead));
    assert s[m..n] + s[n..] == s[m..];
    CutIsApart(done, s, m, n);
    assert forall x | x in s[..m][1..] :: x in s[1..];
    assert forall x | x in s[m..] :: x in s[1..];
  }

  lemma CutIsApart<T>(done: seq<Node<T>>, s: seq<Node<T>>, m: nat, n: nat)
    requires m <= n <= |s| && Apart(done, s, [], [])
    ensures Apart(done, s[..m], s[m..n], s[n..])
  {
  }

  lemma DistinctJoin<T>(a: seq<Node<T>>, b: seq<Node<T>>)
    requires Distinct(a) && Distinct(b) && forall x | x in a :: x !in b
    ensures Distinct(a + b)
  {
    var s := a + b;
    forall i, j | 0 <= i < j < |s|
      ensures s[i] != s[j]
    {
      if i < |a| <= j {
        assert s[i] == a[i] && a[i] in a && s[j] == b[j - |a|] && b[j - |a|] in b;
      }
    }
  }

  lemma {:induction false} MergeDistinct<T>(cmp: Cmp<Node<T>>, p: seq<Node<T>>, q: seq<Node<T>>)
    requires Distinct(p) && Distinct(q) && forall x | x in p :: x !in q
    ensures Distinct(Merge(cmp, p, q))
    decreases |p| + |q|
  {
    if p != [] && q != [] {
      if cmp(p[0], q[0]) <= 0 {
        MergeDistinct(cmp, p[1..], q);
        MergeElements(cmp, p[1..], q);
        assert p[0] in p && p[0] !in p[1..];
        DistinctJoin([p[0]], Merge(cmp, p[1..], q));
      } else {
        MergeDistinct(cmp, p, q[1..]);
        MergeElements(cmp, p, q[1..]);
        assert q[0] in q && q[0] !in q[1..];
        DistinctJoin([q[0]], Merge(cmp, p, q[1..]));
      }
    }
  }

  lemma JoinIsApart<T>(cmp: Cmp<Node<T>>, done: seq<Node<T>>, left: seq<Node<T>>, right: seq<Node<T>>,
                       rest: seq<Node<T>>)
    requires Apart(done, left, right, rest)
    ensures Apart(done + Merge(cmp, left, right), rest, [], [])
  {
    hide Merge;
    var m := Merge(cmp, left, right);
    MergeElements(cmp, left, right);
    MergeDistinct(cmp, left, right);
    DistinctJoin(done, m);
  }

  /** The last links: head.prev is the tail, and the tail ends the list or closes the circle. */
  method Close<T>(v: Variant, list: Node<T>, tail: Node<T>, ghost done: seq<Node<T>>, ghost u: seq<Node<T>>)
    requires done != [] && Distinct(done) && Built(v, list, tail, done) && Within(done, u)
    modifies u
    ensures IsList(v, list, done)
  {
    hide Within;
    assert list in done && tail in done;
    InU(done, u);
    if !v.Singly? {
      list.prev := tail;
    }
    tail.next := if v.Circular? then list else null;
  }

  lemma InU<T>(s: seq<Node<T>>, u: seq<Node<T>>)
    requires Within(s, u)
    ensures forall x | x in s :: x in u
  {
  }

  lemma PassStep<T>(cmp: Cmp<Node<T>>, done: seq<Node<T>>, s: seq<Node<T>>, k: nat)
    requires k > 0
    ensures s == [] ==> done + Pass(cmp, s, k) == done
    ensures var m, n := Min(k, |s|), Min(2 * k, |s|);
            s != [] ==> done + Pass(cmp, s, k) == done + Merge(cmp, s[..m], s[m..n]) + Pass(cmp, s[n..], k)
  {
    hide Merge;
  }

  lemma WithinStep<T>(cmp: Cmp<Node<T>>, done: seq<Node<T>>, s: seq<Node<T>>, u: seq<Node<T>>, m: nat, n: nat)
    requires m <= n <= |s| && Within(done, u) && Within(s, u)
    ensures Within(s[..m], u) && Within(s[m..n], u) && Within(s[n..], u)
    ensures Within(done + Merge(cmp, s[..m], s[m..n]), u)
  {
    hide Merge;
    MergeElements(cmp, s[..m], s[m..n]);
  }

  /** One merge of a pass: cut two runs off the remaining list and merge them onto the prefix. */
  method MergeTwoRuns<T>(v: Variant, cmp: Cmp<Node<T>>, p: Node<T>, insize: nat, oldhead: Node<T>, list0: Node?<T>,
                         tail0: Node?<T>,
                         ghost done: seq<Node<T>>, ghost rest: seq<Node<T>>, ghost u: seq<Node<T>>)
    returns (list: Node?<T>, tail: Node?<T>, q: Node?<T>, ghost done': seq<Node<T>>, ghost rest': seq<Node<T>>)
    requires insize > 0 && rest != [] && Within(done, u) && Within(rest, u)
    requires Apart(done, rest, [], []) && Built(v, list0, tail0, done) && Remaining(v, p, oldhead, rest)
    modifies u
    ensures Apart(done', rest', [], []) && Built(v, list, tail, done') && Remaining(v, q, oldhead, rest')
    ensures Within(done', u) && Within(rest', u)
    ensures rest' == rest[Min(2 * insize, |rest|)..]
    ensures done' + Pass(cmp, rest', insize) == done + Pass(cmp, rest, insize)
  {
    hide Merge, Apart, Built, Linked, Pass;
    var psize;
    q, psize := StepOver(v, p, insize, oldhead, rest);
    ghost var n := Min(2 * insize, |rest|);
    CutRuns(v, oldhead, list0, tail0, p, q, done, rest, psize, n);
    JoinIsApart(cmp, done, rest[..psize], rest[psize..n], rest[n..]);
    WithinStep(cmp, done, rest, u, psize, n);
    PassStep(cmp, done, rest, insize);
    done', rest' := done + Merge(cmp, rest[..psize], rest[psize..n]), rest[n..];
    list, tail, q := MergeRuns(v, cmp, p, psize, q, insize, oldhead, list0, tail0, done, rest[..psize],
                               rest[psize..n], rest[n..], u);
    UnreadIsRemaining(v, q, oldhead, rest');
  }

  lemma UnreadIsRemaining<T>(v: Variant, q: Node?<T>, oldhead: Node<T>, s: seq<Node<T>>)
    requires Unread(v, q, oldhead, s)
    ensures Remaining(v, q, oldhead, s)
  {
    assert s != [] ==> forall x | x in s[1..] :: x in s;
  }

  /** One pass over the list with runs of insize nodes. */
  method MergePass<T>(v: Variant, cmp: Cmp<Node<T>>, oldhead: Node<T>, insize: nat, ghost s: seq<Node<T>>,
                      ghost u: seq<Node<T>>)
    returns (list: Node?<T>, nmerges: nat)
    requires insize > 0 && s != [] && IsChain(v, oldhead, s) && Within(s, u)
    modifies u
    ensures IsList(v, list, Pass(cmp, s, insize))
    ensures nmerges <= 1 <==> |s| <= 2 * insize
  {
    hide Linked, Pass, Distinct, Inner, BackLinked;
    var p: Node?<T> := oldhead;
    var tail: Node?<T> := null;
    list, nmerges := null, 0;
    ghost var done, rest: seq<Node<T>> := [], s;
    PassStep(cmp, [], s, insize);
    StartIsRemaining(v, oldhead, s);
    NothingBuilt<T>(v);
    while p != null
      invariant Apart(done, rest, [], []) && Built(v, list, tail, done) && Remaining(v, p, oldhead, rest)
      invariant Within(done, u) && Within(rest, u)
      invariant done + Pass(cmp, rest, insize) == Pass(cmp, s, insize)
      invariant nmerges == 0 ==> rest == s
      invariant nmerges == 1 ==> |rest| == |s| - Min(2 * insize, |s|)
      invariant nmerges > 1 ==> |s| > 2 * insize
      decreases |rest|
    {
      nmerges := nmerges + 1;
      list, tail, p, done, rest := MergeTwoRuns(v, cmp, p, insize, oldhead, list, tail, done, rest, u);
    }
    PassStep(cmp, done, rest, insize);
    assert done == Pass(cmp, s, insize) && |done| == |s|;
    Close(v, list, tail, done, u);
  }

  lemma StartIsRemaining<T>(v: Variant, head: Node<T>, s: seq<Node<T>>)
    requires s != [] && IsChain(v, head, s)
    ensures Remaining(v, head, head, s) && Apart([], s, [], [])
  {
    assert forall i | 0 <= i < |s[1..]| :: s[1..][i] == s[i + 1];
  }

  /** The sort: passes with doubling runs until a pass needed at most one merge. */
  method Sort<T>(v: Variant, cmp: Cmp<Node<T>>, head: Node?<T>, ghost s: seq<Node<T>>) returns (list: Node?<T>)
    requires IsList(v, head, s)
    modifies s
    ensures IsList(v, list, SortFrom(cmp, s, 1))
    ensures multiset(SortFrom(cmp, s, 1)) == multiset(s)
    ensures Orders(cmp, s) ==> Sorted(cmp, SortFrom(cmp, s, 1)) && StableRearrangement(cmp, s, SortFrom(cmp, s, 1))
  {
    hide Linked, BackLinked, Distinct, Pass, Orders, Sorted, StableRearrangement;
    SortPermutes(cmp, s, 1);
    if Orders(cmp, s) {
      SortIsStableSort(cmp, s);
    }
    list := head;
    if list != null {
      var insize, looping := 1, true;
      ghost var cur := s;
      while looping
        invariant insize > 0 && cur != [] && multiset(cur) == multiset(s)
        invariant looping ==> IsChain(v, list, cur) && SortFrom(cmp, cur, insize) == SortFrom(cmp, s, 1)
        invariant !looping ==> IsList(v, list, SortFrom(cmp, s, 1))
        decreases looping, |s| - insize
      {
        SameElements(s, cur);
        PassPermutes(cmp, cur, insize);
        var nmerges;
        list, nmerges := MergePass(v, cmp, list, insize, cur, s);
        looping := nmerges > 1;
        cur, insize := Pass(cmp, cur, insize), insize * 2;
      }
    }
  }
}
