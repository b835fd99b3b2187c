/**
 The transmit queue of the mDNS responder and the action queue between its timer task and its
 service task, as values: what every step of either task keeps.
 */
module TxQueue {

  datatype Kind = Probe | Announce | Answer | Goodbye

  /** A registered service: its identity, and its type, which several services may share. */
  datatype Service = Service(id: nat, kind: nat)

  /** What the records of an answer list are about. */
  datatype About = OfService(service: Service) | OfHost

  /**
   What a packet carries: the services it asks about, in the order of its questions, whether it asks
   about host names, and what its three answer lists are about. An answer list holds no record twice.
   */
  datatype Content = Content(asks: seq<Service>, hostAsk: bool, answers: set<About>, additional: set<About>,
                             servers: set<About>)

  predicate Empty(c: Content) {
    c.asks == [] && !c.hostAsk && c.answers == {} && c.additional == {} && c.servers == {}
  }

  datatype Packet = Packet(id: nat, pcb: nat, kind: Kind, sendAt: nat, queued: bool, content: Content)

  datatype Action = TxHandle(id: nat) | Other

  /** Time in milliseconds, packets in list order, pending actions, and the next unused packet identity. */
  datatype Queue = Queue(now: nat, tx: seq<Packet>, actions: seq<Action>, nextId: nat)

  // ----- operations -----

  /** A packet goes behind every packet that is due no later. */
  function Insert(tx: seq<Packet>, p: Packet): (r: seq<Packet>)
    ensures multiset(r) == multiset(tx) + multiset{p} && |r| == |tx| + 1
  {
    if tx == [] || tx[0].sendAt > p.sendAt then [p] + tx
    else
      assert tx == [tx[0]] + tx[1..];
      [tx[0]] + Insert(tx[1..], p)
  }

  /** The packets of all other interfaces. */
  function Others(tx: seq<Packet>, pcb: nat): (r: seq<Packet>)
    ensures forall p :: p in r <==> p in tx && p.pcb != pcb
  {
    if tx == [] then []
    else if tx[0].pcb == pcb then Others(tx[1..], pcb)
    else [tx[0]] + Others(tx[1..], pcb)
  }

  /** The position of the first packet that is not queued for transmission, |tx| if there is none. */
  function FirstUnqueued(tx: seq<Packet>): (k: nat)
    ensures k <= |tx| && (k < |tx| ==> !tx[k].queued)
    ensures forall i | 0 <= i < k :: tx[i].queued
  {
    if tx == [] || !tx[0].queued then 0 else 1 + FirstUnqueued(tx[1..])
  }

  function Schedule(q: Queue, p: Packet, ms: nat): Queue {
    q.(tx := Insert(q.tx, p.(sendAt := q.now + ms)))
  }

  /** The timer task: the first unqueued packet, if due, is marked and handed to the service task. */
  function RunScheduler(q: Queue, sent: bool): Queue {
    var k := FirstUnqueued(q.tx);
    if k < |q.tx| && q.tx[k].sendAt < q.now && sent then
      q.(tx := q.tx[k := q.tx[k].(queued := true)], actions := q.actions + [TxHandle(q.tx[k].id)])
    else q
  }

  /** The service task takes a transmit action only for the packet at the head. */
  predicate Takes(q: Queue) {
    q.actions != [] && q.actions[0].TxHandle? && q.tx != [] && q.tx[0].id == q.actions[0].id && q.tx[0].queued
  }

  // ----- the invariant -----

  ghost function Live(tx: seq<Packet>): set<nat> {
    set p | p in tx :: p.id
  }

  /** Live packets named by the pending transmit actions, in order. */
  ghost function Pending(actions: seq<Action>, live: set<nat>): seq<nat> {
    if actions == [] then []
    else if actions[0].TxHandle? && actions[0].id in live then [actions[0].id] + Pending(actions[1..], live)
    else Pending(actions[1..], live)
  }

  /** Packets marked queued, in list order. */
  ghost function QueuedIds(tx: seq<Packet>): seq<nat> {
    if tx == [] then []
    else if tx[0].queued then [tx[0].id] + QueuedIds(tx[1..])
    else QueuedIds(tx[1..])
  }

  ghost predicate SortedByTime(tx: seq<Packet>) {
    forall i, j | 0 <= i < j < |tx| :: tx[i].sendAt <= tx[j].sendAt
  }

  ghost predicate QueuedFirst(tx: seq<Packet>) {
    forall i, j | 0 <= i < j < |tx| && tx[j].queued :: tx[i].queued
  }

  ghost predicate UniqueIds(tx: seq<Packet>) {
    forall i, j | 0 <= i < j < |tx| :: tx[i].id != tx[j].id
  }

  ghost predicate QueueInv(q: Queue) {
    && SortedByTime(q.tx) && QueuedFirst(q.tx) && UniqueIds(q.tx)
    && (forall p | p in q.tx :: p.id < q.nextId && (p.queued ==> p.sendAt < q.now))
    && (forall a | a in q.actions && a.TxHandle? :: a.id < q.nextId)
    && Pending(q.actions, Live(q.tx)) == QueuedIds(q.tx)
  }

  // ----- inserting -----

  ghost predicate MayPrecede(x: Packet, y: Packet) {
    x.sendAt <= y.sendAt && (y.queued ==> x.queued)
  }

  /** Packets that are due at the same time keep the order in which they were scheduled. */
  lemma {:induction false} InsertIsFair(tx: seq<Packet>, p: Packet) returns (k: nat)
    requires SortedByTime(tx)
    ensures k <= |tx| && Insert(tx, p) == tx[..k] + [p] + tx[k..]
    ensures (forall j | 0 <= j < k :: tx[j].sendAt <= p.sendAt) && forall j | k <= j < |tx| :: p.sendAt < tx[j].sendAt
    decreases |tx|
  {
    hide SortedByTime;
    if tx == [] || tx[0].sendAt > p.sendAt {
      k := 0;
      FirstIsEarliest(tx);
    } else {
      var rest := tx[1..];
      assert SortedByTime(rest) by { TailIsSorted(tx); }
      k := InsertIsFair(rest, p);
      assert [tx[0]] + (rest[..k] + [p] + rest[k..]) == tx[..k + 1] + [p] + tx[k + 1..];
      assert forall j | 0 < j < |tx| :: tx[j] == rest[j - 1];
      k := k + 1;
    }
  }

  lemma FirstIsEarliest(tx: seq<Packet>)
    requires SortedByTime(tx)
    ensures forall j | 0 <= j < |tx| :: tx[0].sendAt <= tx[j].sendAt
  {
    assert forall j | 0 < j < |tx| :: tx[0].sendAt <= tx[j].sendAt;
  }

  lemma TailIsSorted(tx: seq<Packet>)
    requires tx != [] && SortedByTime(tx)
    ensures SortedByTime(tx[1..])
  {
  }

  lemma OrderCons(x: Packet, r: seq<Packet>)
    requires SortedByTime(r) && QueuedFirst(r) && forall y | y in r :: MayPrecede(x, y)
    ensures SortedByTime([x] + r) && QueuedFirst([x] + r)
  {
    var s := [x] + r;
    forall i, j | 0 <= i < j < |s|
      ensures MayPrecede(s[i], s[j])
    {
      assert s[j] == r[j - 1] && r[j - 1] in r;
      if i > 0 {
        assert s[i] == r[i - 1];
      }
    }
  }

  lemma OrderTail(tx: seq<Packet>)
    requires SortedByTime(tx) && QueuedFirst(tx) && tx != []
    ensures SortedByTime(tx[1..]) && QueuedFirst(tx[1..]) && forall y | y in tx[1..] :: MayPrecede(tx[0], y)
  {
    forall y | y in tx[1..]
      ensures MayPrecede(tx[0], y)
    {
      var k :| 0 <= k < |tx[1..]| && tx[1..][k] == y;
      assert tx[k + 1] == y;
    }
  }

  lemma {:induction false} InsertKeepsOrder(tx: seq<Packet>, p: Packet)
    requires SortedByTime(tx) && QueuedFirst(tx)
    requires !p.queued && forall x | x in tx && x.queued :: x.sendAt <= p.sendAt
    ensures SortedByTime(Insert(tx, p)) && QueuedFirst(Insert(tx, p))
    ensures QueuedIds(Insert(tx, p)) == QueuedIds(tx)
    decreases |tx|
  {
    hide SortedByTime, QueuedFirst;
    if tx == [] {
      OrderCons(p, []) by {
        assert SortedByTime([]) && QueuedFirst([]) by { EmptyOrder(); }
      }
    } else {
      OrderTail(tx);
      if tx[0].sendAt > p.sendAt {
        assert tx[0] in tx;
        NoneQueued(tx);
        forall y | y in tx
          ensures MayPrecede(p, y)
        {
          assert y == tx[0] || y in tx[1..];
        }
        OrderCons(p, tx);
      } else {
        InsertKeepsOrder(tx[1..], p);
        forall y | y in Insert(tx[1..], p)
          ensures MayPrecede(tx[0], y)
        {
          InsertElement(tx[1..], p, y);
        }
        OrderCons(tx[0], Insert(tx[1..], p));
      }
    }
  }

  lemma EmptyOrder()
    ensures SortedByTime([]) && QueuedFirst([])
  {
  }

  lemma InsertElement(tx: seq<Packet>, p: Packet, x: Packet)
    ensures x in Insert(tx, p) <==> x == p || x in tx
  {
    assert x in Insert(tx, p) <==> x in multiset(Insert(tx, p));
    assert x in tx <==> x in multiset(tx);
  }

  lemma {:induction false} NoneQueued(tx: seq<Packet>)
    requires QueuedFirst(tx) && (tx != [] ==> !tx[0].queued)
    ensures QueuedIds(tx) == [] && forall x | x in tx :: !x.queued
    decreases |tx|
  {
    if tx != [] {
      assert |tx| > 1 ==> !tx[1].queued;
      NoneQueued(tx[1..]);
    }
  }

  lemma {:induction false} InsertUnique(tx: seq<Packet>, p: Packet)
    requires UniqueIds(tx) && p.id !in Live(tx)
    ensures UniqueIds(Insert(tx, p)) && Live(Insert(tx, p)) == Live(tx) + {p.id}
    decreases |tx|
  {
    forall x
      ensures x in Insert(tx, p) <==> x == p || x in tx
    {
      InsertElement(tx, p, x);
    }
    if tx != [] && tx[0].sendAt <= p.sendAt {
      assert Live(tx[1..]) <= Live(tx);
      InsertUnique(tx[1..], p);
      var r := Insert(tx[1..], p);
      forall i | 0 <= i < |r|
        ensures r[i].id != tx[0].id
      {
        InsertElement(tx[1..], p, r[i]);
        assert tx[0].id in Live(tx);
      }
    } else {
      forall i | 0 <= i < |tx|
        ensures tx[i].id != p.id
      {
        assert tx[i] in tx;
      }
    }
  }

  lemma {:induction false} PendingWithout(actions: seq<Action>, live: set<nat>, id: nat)
    requires TxHandle(id) !in actions
    ensures Pending(actions, live + {id}) == Pending(actions, live) == Pending(actions, live - {id})
    decreases |actions|
  {
    if actions != [] {
      PendingWithout(actions[1..], live, id);
    }
  }

  /** Scheduling a packet that is neither in the list nor named by an action keeps the invariant. */
  lemma ScheduleKeeps(q: Queue, p: Packet, ms: nat)
    requires QueueInv(q) && !p.queued && p.id < q.nextId
    requires p.id !in Live(q.tx) && TxHandle(p.id) !in q.actions
    ensures QueueInv(Schedule(q, p, ms))
  {
    hide SortedByTime, QueuedFirst, UniqueIds, Insert;
    var p' := p.(sendAt := q.now + ms);
    InsertKeepsOrder(q.tx, p');
    InsertUnique(q.tx, p');
    PendingWithout(q.actions, Live(q.tx), p.id);
    forall x
      ensures x in Insert(q.tx, p') <==> x == p' || x in q.tx
    {
      InsertElement(q.tx, p', x);
    }
  }

  // ----- removing -----

  ghost function KeepIds(ids: seq<nat>, live: set<nat>): seq<nat> {
    if ids == [] then [] else if ids[0] in live then [ids[0]] + KeepIds(ids[1..], live) else KeepIds(ids[1..], live)
  }

  lemma {:induction false} PendingShrinks(actions: seq<Action>, live: set<nat>, live': set<nat>)
    requires live' <= live
    ensures Pending(actions, live') == KeepIds(Pending(actions, live), live')
    decreases |actions|
  {
    if actions != [] {
      PendingShrinks(actions[1..], live, live');
    }
  }

  /** The same packet, perhaps with another content. */
  predicate Like(x: Packet, y: Packet) {
    x.(content := y.content) == y
  }

  /** r is t with some packets taken out and some contents changed. */
  ghost predicate Thinned(t: seq<Packet>, r: seq<Packet>)
    decreases |t|
  {
    if t == [] then r == []
    else Thinned(t[1..], r) || (r != [] && Like(t[0], r[0]) && Thinned(t[1..], r[1..]))
  }

  lemma {:induction false} ThinnedMember(t: seq<Packet>, r: seq<Packet>, y: Packet)
    requires Thinned(t, r) && y in r
    ensures exists x :: x in t && Like(x, y)
    decreases |t|
  {
    if t != [] {
      if Thinned(t[1..], r) {
        ThinnedMember(t[1..], r, y);
        var x :| x in t[1..] && Like(x, y);
        assert x in t;
      } else if y == r[0] {
        assert t[0] in t;
      } else {
        assert y in r[1..];
        ThinnedMember(t[1..], r[1..], y);
        var x :| x in t[1..] && Like(x, y);
        assert x in t;
      }
    }
  }

  lemma {:induction false} ThinnedOrder(t: seq<Packet>, r: seq<Packet>)
    requires Thinned(t, r) && SortedByTime(t) && QueuedFirst(t)
    ensures SortedByTime(r) && QueuedFirst(r)
    decreases |t|
  {
    if t != [] {
      OrderTail(t);
      if Thinned(t[1..], r) {
        ThinnedOrder(t[1..], r);
      } else {
        ThinnedOrder(t[1..], r[1..]);
        forall y | y in r[1..]
          ensures MayPrecede(r[0], y)
        {
          ThinnedMember(t[1..], r[1..], y);
        }
        OrderCons(r[0], r[1..]);
        assert r == [r[0]] + r[1..];
      }
    }
  }

  lemma UniqueTail(t: seq<Packet>)
    requires UniqueIds(t) && t != []
    ensures UniqueIds(t[1..]) && forall x | x in t[1..] :: x.id != t[0].id
  {
    forall x | x in t[1..]
      ensures x.id != t[0].id
    {
      var k :| 0 <= k < |t[1..]| && t[1..][k] == x;
      assert t[k + 1] == x;
    }
  }

  lemma {:induction false} ThinnedUnique(t: seq<Packet>, r: seq<Packet>)
    requires Thinned(t, r) && UniqueIds(t)
    ensures UniqueIds(r)
    decreases |t|
  {
    if t != [] {
      UniqueTail(t);
      if Thinned(t[1..], r) {
        ThinnedUnique(t[1..], r);
      } else {
        ThinnedUnique(t[1..], r[1..]);
        forall i | 0 < i < |r|
          ensures r[0].id != r[i].id
        {
          assert r[i] in r[1..];
          ThinnedMember(t[1..], r[1..], r[i]);
        }
      }
    }
  }

  lemma LiveCons(r: seq<Packet>)
    requires r != []
    ensures Live(r) == Live(r[1..]) + {r[0].id}
  {
    assert r == [r[0]] + r[1..];
  }

  /** The queued identities that are left are those that are still live. */
  lemma {:induction false} ThinnedQueued(t: seq<Packet>, r: seq<Packet>, live: set<nat>)
    requires Thinned(t, r) && UniqueIds(t)
    requires forall p | p in t :: p.id in live <==> p.id in Live(r)
    ensures QueuedIds(r) == KeepIds(QueuedIds(t), live)
    decreases |t|
  {
    hide UniqueIds, Live;
    if t != [] {
      UniqueTail(t);
      assert t[0] in t && forall p | p in t[1..] :: p in t;
      if Thinned(t[1..], r) {
        ThinnedAbsent(t[1..], r, t[0].id);
        ThinnedQueued(t[1..], r, live);
      } else {
        LiveCons(r);
        ThinnedQueued(t[1..], r[1..], live);
      }
    }
  }

  lemma ThinnedAbsent(t: seq<Packet>, r: seq<Packet>, id: nat)
    requires Thinned(t, r) && forall x | x in t :: x.id != id
    ensures id !in Live(r)
  {
    forall y | y in r
      ensures y.id != id
    {
      ThinnedMember(t, r, y);
    }
  }

  /** Taking packets out and changing contents keeps the invariant; the actions of packets taken out become stale. */
  lemma {:induction false} ThinnedKeeps(q: Queue, r: seq<Packet>)
    requires QueueInv(q) && Thinned(q.tx, r)
    ensures QueueInv(q.(tx := r))
  {
    hide Thinned, SortedByTime, QueuedFirst, UniqueIds;
    ThinnedOrder(q.tx, r);
    ThinnedUnique(q.tx, r);
    forall y | y in r
      ensures y.id in Live(q.tx) && y.id < q.nextId && (y.queued ==> y.sendAt < q.now)
    {
      ThinnedMember(q.tx, r, y);
    }
    assert Live(r) <= Live(q.tx);
    PendingShrinks(q.actions, Live(q.tx), Live(r));
    ThinnedQueued(q.tx, r, Live(r));
  }

  lemma {:induction false} OthersThinned(tx: seq<Packet>, pcb: nat)
    ensures Thinned(tx, Others(tx, pcb))
    decreases |tx|
  {
    if tx != [] {
      OthersThinned(tx[1..], pcb);
    }
  }

  lemma {:induction false} UpdateThinned(tx: seq<Packet>, k: nat, c: Content)
    requires k < |tx|
    ensures Thinned(tx, tx[k := tx[k].(content := c)])
    decreases |tx|
  {
    var r := tx[k := tx[k].(content := c)];
    if k == 0 {
      assert r[1..] == tx[1..];
      SelfThinned(tx[1..]);
    } else {
      assert r[1..] == tx[1..][k - 1 := tx[k].(content := c)];
      UpdateThinned(tx[1..], k - 1, c);
    }
  }

  lemma {:induction false} SelfThinned(tx: seq<Packet>)
    ensures Thinned(tx, tx)
    decreases |tx|
  {
    if tx != [] {
      SelfThinned(tx[1..]);
    }
  }

  /** Removing all packets of an interface keeps the invariant; their actions become stale. */
  lemma {:induction false} RemoveKeeps(q: Queue, pcb: nat)
    requires QueueInv(q)
    ensures QueueInv(q.(tx := Others(q.tx, pcb)))
  {
    hide Others, QueueInv;
    OthersThinned(q.tx, pcb);
    ThinnedKeeps(q, Others(q.tx, pcb));
  }

  lemma {:induction false} PendingNothing(actions: seq<Action>)
    ensures Pending(actions, {}) == []
    decreases |actions|
  {
    if actions != [] {
      PendingNothing(actions[1..]);
    }
  }

  lemma RemoveAllKeeps(q: Queue)
    requires QueueInv(q)
    ensures QueueInv(q.(tx := []))
  {
    PendingNothing(q.actions);
    assert Live([]) == {};
  }

  // ----- the timer task -----

  lemma {:induction false} PendingSnoc(actions: seq<Action>, live: set<nat>, id: nat)
    requires id in live
    ensures Pending(actions + [TxHandle(id)], live) == Pending(actions, live) + [id]
    decreases |actions|
  {
    if actions == [] {
      assert [TxHandle(id)][1..] == [];
    } else {
      assert (actions + [TxHandle(id)])[1..] == actions[1..] + [TxHandle(id)];
      PendingSnoc(actions[1..], live, id);
    }
  }

  lemma {:induction false} MarkQueued(tx: seq<Packet>)
    requires QueuedFirst(tx) && FirstUnqueued(tx) < |tx|
    ensures var k := FirstUnqueued(tx);
            var r := tx[k := tx[k].(queued := true)];
            QueuedIds(r) == QueuedIds(tx) + [tx[k].id]
    decreases |tx|
  {
    var k := FirstUnqueued(tx);
    var r := tx[k := tx[k].(queued := true)];
    if k == 0 {
      assert r[1..] == tx[1..];
      NoneQueued(tx);
    } else {
      MarkQueued(tx[1..]);
      assert r[1..] == tx[1..][k - 1 := tx[k].(queued := true)];
    }
  }

  lemma SameIds(tx: seq<Packet>, k: nat)
    requires k < |tx|
    ensures Live(tx[k := tx[k].(queued := true)]) == Live(tx)
  {
    var r := tx[k := tx[k].(queued := true)];
    forall id
      ensures id in Live(r) <==> id in Live(tx)
    {
      if id in Live(tx) {
        var i :| 0 <= i < |tx| && tx[i].id == id;
        assert r[i] in r && r[i].id == id;
      }
      if id in Live(r) {
        var i :| 0 <= i < |r| && r[i].id == id;
        assert tx[i] in tx && tx[i].id == id;
      }
    }
  }

  lemma MarkKeepsOrder(tx: seq<Packet>)
    requires SortedByTime(tx) && QueuedFirst(tx) && UniqueIds(tx) && FirstUnqueued(tx) < |tx|
    ensures var k := FirstUnqueued(tx);
            var r := tx[k := tx[k].(queued := true)];
            SortedByTime(r) && QueuedFirst(r) && UniqueIds(r)
  {
  }

  lemma SchedulerKeeps(q: Queue, sent: bool)
    requires QueueInv(q)
    ensures QueueInv(RunScheduler(q, sent))
  {
    hide SortedByTime, QueuedFirst, UniqueIds;
    var k := FirstUnqueued(q.tx);
    var q' := RunScheduler(q, sent);
    if k < |q.tx| && q.tx[k].sendAt < q.now && sent {
      MarkKeepsOrder(q.tx);
      MarkQueued(q.tx);
      SameIds(q.tx, k);
      assert q.tx[k] in q.tx;
      PendingSnoc(q.actions, Live(q.tx), q.tx[k].id);
      forall x | x in q'.tx
        ensures x.id < q.nextId && (x.queued ==> x.sendAt < q.now)
      {
        var i :| 0 <= i < |q'.tx| && q'.tx[i] == x;
        assert q.tx[i] in q.tx;
      }
    }
  }

  // ----- the service task -----

  /** A transmit action is skipped only if its packet is no longer in the list. */
  lemma SkippedOnlyIfGone(q: Queue)
    requires QueueInv(q) && q.actions != [] && q.actions[0].TxHandle? && !Takes(q)
    ensures q.actions[0].id !in Live(q.tx)
  {
    var id := q.actions[0].id;
    if id in Live(q.tx) {
      assert QueuedIds(q.tx)[0] == id;
      if q.tx == [] || !q.tx[0].queued {
        NoneQueued(q.tx);
      }
    }
  }

  /** Dropping an action that is not taken keeps the invariant. */
  lemma DropKeeps(q: Queue)
    requires QueueInv(q) && q.actions != [] && !Takes(q)
    ensures QueueInv(q.(actions := q.actions[1..]))
  {
    if q.actions[0].TxHandle? {
      SkippedOnlyIfGone(q);
    }
  }

  lemma {:induction false} AbsentFromPending(actions: seq<Action>, live: set<nat>, id: nat)
    requires id !in Pending(actions, live) && id in live
    ensures TxHandle(id) !in actions
    decreases |actions|
  {
    if actions != [] {
      AbsentFromPending(actions[1..], live, id);
    }
  }

  lemma {:induction false} QueuedAreLive(tx: seq<Packet>, id: nat)
    requires id in QueuedIds(tx)
    ensures id in Live(tx)
    decreases |tx|
  {
    if tx != [] && !(tx[0].queued && tx[0].id == id) {
      QueuedAreLive(tx[1..], id);
      var p :| p in tx[1..] && p.id == id;
      assert p in tx;
    } else {
      assert tx[0] in tx;
    }
  }

  /** The packet that is taken is due, and afterwards neither the list nor any action names it. */
  lemma TakeKeeps(q: Queue)
    requires QueueInv(q) && Takes(q)
    ensures QueueInv(q.(tx := q.tx[1..], actions := q.actions[1..]))
    ensures q.tx[0].sendAt < q.now
    ensures q.tx[0].id !in Live(q.tx[1..]) && TxHandle(q.tx[0].id) !in q.actions[1..]
  {
    var id := q.tx[0].id;
    var rest := q.tx[1..];
    assert q.tx[0] in q.tx;
    forall i | 0 <= i < |rest|
      ensures rest[i].id != id
    {
      assert rest[i] == q.tx[i + 1];
    }
    assert Live(q.tx) == Live(rest) + {id};
    assert QueuedIds(q.tx)[1..] == QueuedIds(rest);
    assert Pending(q.actions, Live(q.tx))[1..] == Pending(q.actions[1..], Live(q.tx));
    if id in QueuedIds(rest) {
      QueuedAreLive(rest, id);
    }
    AbsentFromPending(q.actions[1..], Live(q.tx), id);
    PendingWithout(q.actions[1..], Live(rest), id);
  }
}
