/** The edits of a doubly linked list of utlist.h: each keeps the whole shape that the sorts rely on. */
module DoublyLinked {
  import opened LinkedSort

  /** The sequence with its k-th element removed. */
  function Without<E>(s: seq<E>, k: nat): (r: seq<E>)
    requires k < |s|
    ensures |r| == |s| - 1
  {
    s[..k] + s[k + 1..]
  }

  method Prepend<T>(head: Node?<T>, add: Node<T>, ghost s: seq<Node<T>>) returns (head': Node<T>)
    requires IsList(Doubly, head, s) && add !in s
    modifies s, add
    ensures IsList(Doubly, head', [add] + s)
  {
    add.next := head;
    if head != null {
      add.prev := head.prev;
      head.prev := add;
    } else {
      add.prev := add;
    }
    head' := add;
    ghost var r := [add] + s;
    forall i | 0 <= i < |r|
      ensures r[i].next == Succ(r, i, null) && r[i].prev == Pred(r, i, Last(r))
    {
      if i > 0 {
        assert r[i] == s[i - 1] && Succ(r, i, null) == Succ(s, i - 1, null);
      }
    }
  }

  method Append<T>(head: Node?<T>, add: Node<T>, ghost s: seq<Node<T>>) returns (head': Node<T>)
    requires IsList(Doubly, head, s) && add !in s
    modifies s, add
    ensures IsList(Doubly, head', s + [add])
  {
    if head != null {
      var tail := head.prev;
      assert tail == s[|s| - 1];
      add.prev := tail;
      tail.next := add;
      head.prev := add;
      add.next := null;
      head' := head;
    } else {
      head' := add;
      head'.prev := head';
      head'.next := null;
    }
    ghost var r := s + [add];
    DistinctSnoc(s, add);
    assert Linked(r, null);
    assert BackLinked(r, Last(r));
  }

  /** The deleted node keeps its own links; the others close over it. */
  method Delete<T>(head: Node<T>, del: Node<T>, ghost s: seq<Node<T>>, ghost k: nat) returns (head': Node?<T>)
    requires IsList(Doubly, head, s) && k < |s| && del == s[k]
    modifies s
    ensures IsList(Doubly, head', Without(s, k))
    ensures del.next == old(del.next) && del.prev == old(del.prev)
  {
    hide Without, Distinct, IsList;
    Shape(head, s);
    Around(s, k);
    if del.prev == del {
      head' := null;
    } else if del == head {
      del.next.prev := del.prev;
      head' := del.next;
    } else {
      del.prev.next := del.next;
      if del.next != null {
        del.next.prev := del.prev;
      } else {
        head.prev := del.prev;
      }
      head' := head;
    }
    assert forall j | 0 <= j < |s| :: s[j].next == if j + 1 == k then Succ(s, k, null) else Succ(s, j, null);
    Closes(head', s, k);
  }

  lemma Shape<T>(head: Node?<T>, s: seq<Node<T>>)
    requires IsList(Doubly, head, s)
    ensures Distinct(s) && head == First(s, null)
    ensures forall j | 0 <= j < |s| :: s[j].next == Succ(s, j, null)
    ensures forall j | 0 <= j < |s| :: s[j].prev == Pred(s, j, Last(s))
  {
  }

  /** The previous node once s[k] is taken out. */
  ghost function PredWithout<T>(s: seq<Node<T>>, k: nat, j: nat): Node?<T>
    requires k < |s|
  {
    if j == k + 1 then Pred(s, k, Last(s))
    else if j == 0 && k == |s| - 1 then Pred(s, k, null)
    else Pred(s, j, Last(s))
  }

  /** If the neighbours of s[k] are linked to each other, the rest is a list. */
  lemma Closes<T>(head: Node?<T>, s: seq<Node<T>>, k: nat)
    requires k < |s| && Distinct(Without(s, k)) && head == First(Without(s, k), null)
    requires forall j | 0 <= j < |s| && j != k :: s[j].next == if j + 1 == k then Succ(s, k, null) else Succ(s, j, null)
    requires forall j | 0 <= j < |s| && j != k :: s[j].prev == PredWithout(s, k, j)
    ensures IsList(Doubly, head, Without(s, k))
  {
    hide Without, Distinct;
    var r := Without(s, k);
    WithoutAt(s, k);
    forall i | 0 <= i < |r|
      ensures r[i].next == Succ(r, i, null) && r[i].prev == Pred(r, i, Last(r))
    {
      var j := if i < k then i else i + 1;
      assert r[i] == s[j];
    }
  }

  /** The nodes around s[k] are different from it, and from each other. */
  lemma Around<T>(s: seq<Node<T>>, k: nat)
    requires Distinct(s) && k < |s|
    ensures forall i | 0 <= i < |s| && i != k :: s[i] != s[k]
    ensures k > 0 ==> forall i | 0 <= i < |s| && i != k - 1 :: s[i] != s[k - 1]
    ensures k + 1 < |s| ==> forall i | 0 <= i < |s| && i != k + 1 :: s[i] != s[k + 1]
    ensures forall i | 0 < i < |s| :: s[i] != s[0]
    ensures Distinct(Without(s, k)) && First(Without(s, k), null) == if k > 0 then s[0] else Succ(s, 0, null)
  {
  }

  lemma WithoutAt<E>(s: seq<E>, k: nat)
    requires k < |s|
    ensures forall i | 0 <= i < |s| - 1 :: Without(s, k)[i] == s[if i < k then i else i + 1]
  {
  }
}
