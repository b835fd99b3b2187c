/** What holds in every reachable state of the responder's two tasks. */
module ProbeProofs {
  import opened TxQueue
  import opened ProbeMachine

  /** Gap between two probes, in milliseconds. */
  const PROBE_GAP: nat := 250

  /** The packets of one interface, in list order. */
  ghost function Mine(tx: seq<Packet>, i: nat): (r: seq<Packet>)
    ensures forall p :: p in r <==> p in tx && p.pcb == i
  {
    if tx == [] then []
    else if tx[0].pcb == i then [tx[0]] + Mine(tx[1..], i)
    else Mine(tx[1..], i)
  }

  ghost predicate Spaced(times: seq<nat>) {
    forall k | 0 <= k < |times| - 1 :: times[k] + PROBE_GAP <= times[k + 1]
  }

  /** Three probes have been sent, each at least 250 ms after the one before. */
  ghost predicate Proven(times: seq<nat>) {
    |times| >= 3 && Spaced(times)
  }

  /** PROBE_k means k-1 probes sent since the restart, unless an announcement could not be allocated. */
  ghost predicate CountsProbes(st: PcbState, e: Epoch) {
    match st
    case Probe1 => |e.times| == 0 && !e.retried
    case Probe2 => |e.times| == 1 && !e.retried
    case _ => |e.times| >= 2 && (!e.retried ==> |e.times| == 2)
  }

  function KindsOf(services: seq<Service>): multiset<nat> {
    if services == [] then multiset{} else multiset{services[0].kind} + KindsOf(services[1..])
  }

  /** The probe asks for the types that the interface probes for, and offers exactly what it probes for. */
  ghost predicate Carries(pcb: Pcb, c: Content) {
    && KindsOf(c.asks) == KindsOf(pcb.services) && c.hostAsk == pcb.probeIp && c.answers == {} && c.additional == {}
    && c.servers == AllOf(pcb.services) + HostIf(pcb.probeIp)
  }

  /** The one live packet of a probing interface is its probe, and it is not due before the gap has passed. */
  ghost predicate OneProbe(pcb: Pcb, e: Epoch, mine: seq<Packet>) {
    && |mine| == 1 && mine[0].kind.Probe? && Carries(pcb, mine[0].content)
    && (e.times != [] ==> mine[0].sendAt >= e.times[|e.times| - 1] + PROBE_GAP)
  }

  ghost predicate PcbOk(pcb: Pcb, e: Epoch, mine: seq<Packet>, hostname: bool) {
    && (Probing(pcb.state) <==> pcb.running)
    && (!Probing(pcb.state) ==> pcb.services == []) && Distinct(pcb.services)
    && (Probing(pcb.state) ==> hostname && OneProbe(pcb, e, mine) && Spaced(e.times) && CountsProbes(pcb.state, e))
    && (Probing(pcb.state) ==> !e.cut && (pcb.services != [] || pcb.probeIp) && (!pcb.probeIp ==> Proven(e.prior)))
    && (!Probing(pcb.state) ==> forall p | p in mine :: !p.kind.Probe?)
    && (!Probing(pcb.state) && !PastProbing(pcb.state) ==> mine == [])
    && (hostname && PastProbing(pcb.state) ==> (e.cut ==> Proven(e.prior)) && (!e.cut ==> Proven(e.times)))
  }

  /** Nothing goes out early; with a hostname set, nothing but a probe goes out unless the interface is vouched for. */
  ghost predicate SentOk(x: Sent) {
    x.dueAt <= x.at && (!x.kind.Probe? && x.hostname ==>
                        if x.epoch.cut then Proven(x.epoch.prior) else Proven(x.epoch.times))
  }

  ghost predicate Healthy(s: State, i: nat)
    requires i < |s.pcbs| == |s.epochs|
  {
    PcbOk(s.pcbs[i], s.epochs[i], Mine(s.q.tx, i), s.hostname)
  }

  ghost predicate Base(s: State) {
    Sized(s) && QueueInv(s.q) && forall x | x in s.log :: SentOk(x)
  }

  ghost predicate Inv(s: State) {
    Base(s) && forall i | 0 <= i < |s.pcbs| :: Healthy(s, i)
  }

  // ----- one interface's packets -----

  lemma {:induction false} MineInsertOther(tx: seq<Packet>, p: Packet, i: nat)
    requires p.pcb != i
    ensures Mine(Insert(tx, p), i) == Mine(tx, i)
    decreases |tx|
  {
    if tx != [] && tx[0].sendAt <= p.sendAt {
      MineInsertOther(tx[1..], p, i);
    }
  }

  lemma {:induction false} MineInsertFirst(tx: seq<Packet>, p: Packet)
    requires Mine(tx, p.pcb) == []
    ensures Mine(Insert(tx, p), p.pcb) == [p]
    decreases |tx|
  {
    if tx != [] && tx[0].sendAt <= p.sendAt {
      MineInsertFirst(tx[1..], p);
    }
  }

  lemma MineInsertMember(tx: seq<Packet>, p: Packet)
    ensures forall x :: x in Mine(Insert(tx, p), p.pcb) <==> x == p || x in Mine(tx, p.pcb)
  {
    forall x
      ensures x in Mine(Insert(tx, p), p.pcb) <==> x == p || x in Mine(tx, p.pcb)
    {
      InsertElement(tx, p, x);
    }
  }

  lemma {:induction false} MineOthers(tx: seq<Packet>, i: nat, j: nat)
    ensures Mine(Others(tx, i), j) == if i == j then [] else Mine(tx, j)
    decreases |tx|
  {
    if tx != [] {
      MineOthers(tx[1..], i, j);
    }
  }

  /** Two packets that differ at most in the queued mark. */
  ghost predicate Alike(p: Packet, r: Packet) {
    p.(queued := true) == r.(queued := true)
  }

  lemma {:induction false} MineMarked(tx: seq<Packet>, k: nat, i: nat)
    requires k < |tx|
    ensures var r := Mine(tx[k := tx[k].(queued := true)], i);
            |r| == |Mine(tx, i)| && forall j | 0 <= j < |r| :: Alike(r[j], Mine(tx, i)[j])
    decreases |tx|
  {
    var t := tx[k := tx[k].(queued := true)];
    if k == 0 {
      assert t[1..] == tx[1..];
    } else {
      MineMarked(tx[1..], k - 1, i);
      assert t[1..] == tx[1..][k - 1 := tx[k].(queued := true)];
    }
  }

  // ----- the timer task, the clock, posting -----

  /** Everything about interface j is as it was. */
  ghost predicate Same(s: State, s': State, j: nat)
    requires j < |s.pcbs| == |s.epochs| && j < |s'.pcbs| == |s'.epochs|
  {
    s'.pcbs[j] == s.pcbs[j] && s'.epochs[j] == s.epochs[j] && Mine(s'.q.tx, j) == Mine(s.q.tx, j)
        && s'.hostname == s.hostname
  }

  lemma AlikeIsOk(pcb: Pcb, e: Epoch, mine: seq<Packet>, mine': seq<Packet>, hostname: bool)
    requires PcbOk(pcb, e, mine, hostname)
    requires |mine'| == |mine| && forall j | 0 <= j < |mine| :: Alike(mine'[j], mine[j])
    ensures PcbOk(pcb, e, mine', hostname)
  {
    forall p | p in mine'
      ensures exists x :: x in mine && x.kind == p.kind
    {
      var j :| 0 <= j < |mine'| && mine'[j] == p;
      assert mine[j] in mine && mine[j].kind == p.kind;
    }
  }

  lemma TimerKeeps(s: State, sent: bool)
    requires Inv(s)
    ensures Inv(Next(s, Timer(sent)))
  {
    hide QueueInv, PcbOk;
    var s' := Next(s, Timer(sent));
    SchedulerKeeps(s.q, sent);
    if s'.q.tx != s.q.tx {
      var k := FirstUnqueued(s.q.tx);
      forall p | p in s'.q.tx
        ensures p.pcb < |s.pcbs|
      {
        var i :| 0 <= i < |s'.q.tx| && s'.q.tx[i] == p;
        assert s.q.tx[i] in s.q.tx && p.pcb == s.q.tx[i].pcb;
      }
      forall i | 0 <= i < |s.pcbs|
        ensures Healthy(s', i)
      {
        MineMarked(s.q.tx, k, i);
        assert Healthy(s, i);
        AlikeIsOk(s.pcbs[i], s.epochs[i], Mine(s.q.tx, i), Mine(s'.q.tx, i), s.hostname);
      }
    } else {
      assert forall i | 0 <= i < |s.pcbs| :: Healthy(s, i) ==> Healthy(s', i);
    }
  }

  lemma {:induction false} PendingOther(actions: seq<Action>, live: set<nat>)
    ensures Pending(actions + [Other], live) == Pending(actions, live)
    decreases |actions|
  {
    if actions == [] {
      assert Pending([Other], live) == Pending([Other][1..], live);
    } else {
      assert (actions + [Other])[1..] == actions[1..] + [Other];
      PendingOther(actions[1..], live);
    }
  }

  lemma PostKeeps(s: State)
    requires Inv(s)
    ensures Inv(Next(s, Post))
  {
    hide PcbOk, SortedByTime, QueuedFirst, UniqueIds;
    PendingOther(s.q.actions, Live(s.q.tx));
    assert forall i | 0 <= i < |s.pcbs| :: Healthy(s, i) ==> Healthy(Next(s, Post), i);
  }

  lemma TickKeeps(s: State, ms: nat)
    requires Inv(s)
    ensures Inv(Next(s, Tick(ms)))
  {
    hide PcbOk, SortedByTime, QueuedFirst, UniqueIds;
    assert forall i | 0 <= i < |s.pcbs| :: Healthy(s, i) ==> Healthy(Next(s, Tick(ms)), i);
  }

  // ----- restarting an interface -----

  /** What a restart needs to know about the interface it restarts. */
  ghost predicate Restartable(s: State, i: nat)
    requires i < |s.pcbs|
  {
    var pcb := s.pcbs[i];
    && Distinct(pcb.services) && (!Probing(pcb.state) ==> pcb.services == [])
    && (!s.hostname ==> !pcb.running && pcb.services == [])
  }

  /** What is known of its history: enough to vouch for it if it does not probe for the host. */
  ghost predicate Grounded(s: State, i: nat, ip: bool)
    requires i < |s.pcbs| == |s.epochs|
  {
    var pcb, e := s.pcbs[i], s.epochs[i];
    !ip && s.hostname ==>
      if PastProbing(pcb.state) && !e.cut then Proven(e.times) else Proven(e.prior)
  }

  lemma {:induction false} NotInDistinct(services: seq<Service>, known: seq<Service>)
    requires Distinct(services)
    ensures Distinct(NotIn(services, known)) && forall x ::
              x in NotIn(services, known) <==> x in services && x !in known
    decreases |services|
  {
    if services != [] {
      NotInDistinct(services[1..], known);
      var r := NotIn(services[1..], known);
      assert forall x :: x in services <==> x == services[0] || x in services[1..];
      forall k | 0 <= k < |r|
        ensures r[k] != services[0]
      {
        assert r[k] in services[1..];
        var m :| 0 <= m < |services[1..]| && services[1..][m] == r[k];
        assert services[m + 1] == r[k];
      }
    }
  }

  lemma DistinctJoin(a: seq<Service>, b: seq<Service>)
    requires Distinct(a) && Distinct(b) && forall x | x in a :: x !in b
    ensures Distinct(a + b)
  {
    var r := a + b;
    forall i, j | 0 <= i < j < |r|
      ensures r[i] != r[j]
    {
      if i < |a| <= j {
        assert a[i] in a && b[j - |a|] in b;
      }
    }
  }

  /**
   A restart probes each old and new service once, and fills exactly the cells it allocated:
   one for each new service, and the old ones only if the interface was probing.
   */
  lemma MergedIsUnion(pcb: Pcb, services: seq<Service>)
    requires Distinct(services) && Distinct(pcb.services) && (!Probing(pcb.state) ==> pcb.services == [])
    ensures var r := Merged(pcb, services);
            && Distinct(r) && (forall x :: x in r <==> x in services || x in pcb.services)
            && |r| == (if Probing(pcb.state) then |NotIn(services, pcb.services)| + |pcb.services| else |services|)
  {
    if Probing(pcb.state) {
      NotInDistinct(services, pcb.services);
      DistinctJoin(NotIn(services, pcb.services), pcb.services);
    } else {
      assert services + [] == services;
    }
  }

  lemma FreshId(q: Queue)
    requires QueueInv(q)
    ensures q.nextId !in Live(q.tx) && TxHandle(q.nextId) !in q.actions && QueueInv(q.(nextId := q.nextId + 1))
  {
  }

  lemma RestartKeeps(s: State, i: nat, services: seq<Service>, probeIp: bool, clearOld: bool, jitter: nat)
    requires Base(s) && i < |s.pcbs| && Restartable(s, i) && Distinct(services)
    requires (s.pcbs[i].services != [] && !clearOld) || services != [] || probeIp || s.pcbs[i].probeIp
    requires Grounded(s, i, s.pcbs[i].probeIp || probeIp)
    ensures var s' := Restart(s, i, services, probeIp, clearOld, jitter);
            && Base(s') && Healthy(s', i) && |s'.pcbs| == |s.pcbs|
            && forall j | 0 <= j < |s.pcbs| && j != i :: Same(s, s', j)
  {
    hide QueueInv, Merged;
    var s1 := if clearOld then WithPcb(s, i, s.pcbs[i].(services := [], running := false)) else s;
    InitProbeKeeps(s1, i, services, probeIp, jitter);
    forall j | 0 <= j < |s.pcbs| && j != i
      ensures Same(s, InitProbe(s1, i, services, probeIp, jitter), j)
    {
      assert Same(s1, InitProbe(s1, i, services, probeIp, jitter), j);
    }
  }

  lemma ClearedQueue(q: Queue, i: nat, n: nat)
    requires QueueInv(q) && forall x | x in q.tx :: x.pcb < n
    ensures var r := q.(tx := Others(q.tx, i));
            && QueueInv(r) && (forall x | x in r.tx :: x.pcb < n)
            && forall j | 0 <= j < n :: Mine(r.tx, j) == if i == j then [] else Mine(q.tx, j)
  {
    hide QueueInv;
    RemoveKeeps(q, i);
    forall j | 0 <= j < n
      ensures Mine(Others(q.tx, i), j) == if i == j then [] else Mine(q.tx, j)
    {
      MineOthers(q.tx, i, j);
    }
  }

  /** Scheduling a fresh packet for an interface. */
  lemma FreshSchedule(q: Queue, i: nat, kind: Kind, ms: nat, c: Content, n: nat)
    requires QueueInv(q) && i < n && forall x | x in q.tx :: x.pcb < n
    ensures var p := Packet(q.nextId, i, kind, 0, false, c);
            var r := Schedule(q.(nextId := q.nextId + 1), p, ms);
            && QueueInv(r) && (forall x | x in r.tx :: x.pcb < n)
            && (Mine(q.tx, i) == [] ==> Mine(r.tx, i) == [p.(sendAt := q.now + ms)])
            && (forall x :: x in Mine(r.tx, i) <==> x == p.(sendAt := q.now + ms) || x in Mine(q.tx, i))
            && forall j | 0 <= j < n && j != i :: Mine(r.tx, j) == Mine(q.tx, j)
  {
    hide QueueInv;
    FreshId(q);
    var p := Packet(q.nextId, i, kind, 0, false, c);
    ScheduleKeeps(q.(nextId := q.nextId + 1), p, ms);
    ScheduledMine(q, p, ms, n);
  }

  lemma ScheduledMine(q: Queue, p: Packet, ms: nat, n: nat)
    requires p.pcb < n && forall x | x in q.tx :: x.pcb < n
    ensures var r := Schedule(q, p, ms);
            && (forall x | x in r.tx :: x.pcb < n)
            && (Mine(q.tx, p.pcb) == [] ==> Mine(r.tx, p.pcb) == [p.(sendAt := q.now + ms)])
            && (forall x :: x in Mine(r.tx, p.pcb) <==> x == p.(sendAt := q.now + ms) || x in Mine(q.tx, p.pcb))
            && forall j | 0 <= j < n && j != p.pcb :: Mine(r.tx, j) == Mine(q.tx, j)
  {
    hide Insert, Mine;
    var p' := p.(sendAt := q.now + ms);
    SizedInsert(q.tx, p', n);
    MineInsertMember(q.tx, p');
    if Mine(q.tx, p.pcb) == [] {
      MineInsertFirst(q.tx, p');
    }
    forall j | 0 <= j < n && j != p.pcb
      ensures Mine(Insert(q.tx, p'), j) == Mine(q.tx, j)
    {
      MineInsertOther(q.tx, p', j);
    }
  }

  lemma InitProbeKeeps(s: State, i: nat, services: seq<Service>, probeIp: bool, jitter: nat)
    requires Base(s) && i < |s.pcbs| && Restartable(s, i) && Distinct(services)
    requires s.pcbs[i].services != [] || services != [] || probeIp || s.pcbs[i].probeIp
    requires Grounded(s, i, s.pcbs[i].probeIp || probeIp)
    ensures var s' := InitProbe(s, i, services, probeIp, jitter);
            && Base(s') && Healthy(s', i) && |s'.pcbs| == |s.pcbs|
            && forall j | 0 <= j < |s.pcbs| && j != i :: Same(s, s', j)
  {
    hide QueueInv, Merged, Schedule, Others, Mine;
    var q := s.q.(tx := Others(s.q.tx, i));
    ClearedQueue(s.q, i, |s.pcbs|);
    if s.hostname {
      var all, ip := Merged(s.pcbs[i], services), s.pcbs[i].probeIp || probeIp;
      FreshSchedule(q, i, Probe, (if s.pcbs[i].failedProbes > 5 then 1000 else 120) + jitter % 128,
                    ProbeContent(all, ip), |s.pcbs|);
      MergedIsUnion(s.pcbs[i], services);
    }
  }

  lemma SizedInsert(tx: seq<Packet>, p: Packet, n: nat)
    requires p.pcb < n && forall x | x in tx :: x.pcb < n
    ensures forall x | x in Insert(tx, p) :: x.pcb < n
  {
    forall x | x in Insert(tx, p)
      ensures x.pcb < n
    {
      InsertElement(tx, p, x);
    }
  }

  // ----- the service task -----

  lemma SpacedSnoc(times: seq<nat>, t: nat)
    requires Spaced(times) && (times != [] ==> times[|times| - 1] + PROBE_GAP <= t)
    ensures Spaced(times + [t])
  {
  }

  /** A queue from which the head packet p has just been taken. */
  ghost predicate Taken(s: State, p: Packet) {
    && Base(s) && p.pcb < |s.pcbs| && !p.queued && p.id < s.q.nextId && p.sendAt < s.q.now
    && p.id !in Live(s.q.tx) && TxHandle(p.id) !in s.q.actions
  }

  /** The packet's own interface, seen with the packet still in the list. */
  ghost predicate HealthyWith(s: State, p: Packet, p0: Packet)
    requires p.pcb < |s.pcbs| == |s.epochs|
  {
    Alike(p, p0) && PcbOk(s.pcbs[p.pcb], s.epochs[p.pcb], [p0] + Mine(s.q.tx, p.pcb), s.hostname)
  }

  lemma LogSnoc(log: seq<Sent>, x: Sent)
    requires (forall y | y in log :: SentOk(y)) && SentOk(x)
    ensures forall y | y in log + [x] :: SentOk(y)
  {
  }

  /** A probe of PROBE_1 or PROBE_2, or of PROBE_3 when no announcement could be made: sent and scheduled again. */
  lemma ProbeAgain(s: State, p: Packet, p0: Packet, announceOk: bool)
    requires Taken(s, p) && HealthyWith(s, p, p0)
    requires var st := s.pcbs[p.pcb].state; st.Probe1? || st.Probe2? || (st.Probe3? && !announceOk)
    ensures var s' := HandlePacket(s, p, announceOk);
            && Base(s') && |s'.pcbs| == |s.pcbs| && Healthy(s', p.pcb)
            && forall j | 0 <= j < |s.pcbs| && j != p.pcb :: Same(s, s', j)
  {
    hide QueueInv, Mine, Schedule;
    var i := p.pcb;
    var e := s.epochs[i];
    assert Mine(s.q.tx, i) == [] && p.kind.Probe?;
    ScheduleKeeps(s.q, p, 250);
    ScheduledMine(s.q, p, 250, |s.pcbs|);
    SpacedSnoc(e.times, s.q.now);
    LogSnoc(s.log, Sent(i, p.kind, p.sendAt, s.q.now, s.hostname, e));
  }

  /** The third probe: sent and replaced by the announcement. */
  lemma ProbeToAnnounce(s: State, p: Packet, p0: Packet)
    requires Taken(s, p) && HealthyWith(s, p, p0) && s.pcbs[p.pcb].state.Probe3?
    ensures var s' := HandlePacket(s, p, true);
            && Base(s') && |s'.pcbs| == |s.pcbs| && Healthy(s', p.pcb)
            && forall j | 0 <= j < |s.pcbs| && j != p.pcb :: Same(s, s', j)
  {
    hide QueueInv, Mine, Schedule;
    var i := p.pcb;
    var e := s.epochs[i];
    assert Mine(s.q.tx, i) == [] && p.kind.Probe?;
    FreshSchedule(s.q, i, Announce, 250, ProvenContent(p.content), |s.pcbs|);
    SpacedSnoc(e.times, s.q.now);
    LogSnoc(s.log, Sent(i, p.kind, p.sendAt, s.q.now, s.hostname, e));
  }

  /** An interface that is not probing sends no probe, and what it sends is in order. */
  lemma PastProbingSends(s: State, p: Packet, p0: Packet)
    requires Taken(s, p) && HealthyWith(s, p, p0) && !Probing(s.pcbs[p.pcb].state)
    ensures PastProbing(s.pcbs[p.pcb].state) && !p.kind.Probe?
    ensures SentOk(Sent(p.pcb, p.kind, p.sendAt, s.q.now, s.hostname, s.epochs[p.pcb]))
  {
    hide QueueInv, Mine;
    assert p0 in [p0] + Mine(s.q.tx, p.pcb);
  }

  lemma PastProbingHolds(s: State, p: Packet, p0: Packet)
    requires Taken(s, p) && HealthyWith(s, p, p0) && PastProbing(s.pcbs[p.pcb].state)
    ensures forall x | x in Mine(s.q.tx, p.pcb) :: !x.kind.Probe?
  {
    hide QueueInv, Mine;
    assert forall x | x in Mine(s.q.tx, p.pcb) :: x in [p0] + Mine(s.q.tx, p.pcb);
  }

  /**
   Past probing, moving on and changing the packets leaves the interface as it should be, as long as
   no probe comes in.
   */
  lemma PastProbingMoves(pcb: Pcb, e: Epoch, mine: seq<Packet>, mine': seq<Packet>, hostname: bool, state: PcbState)
    requires PcbOk(pcb, e, mine, hostname) && PastProbing(pcb.state) && PastProbing(state)
    requires forall x | x in mine' :: !x.kind.Probe?
    ensures PcbOk(pcb.(state := state), e, mine', hostname)
  {
  }

  /** Any packet of an interface that is not probing. */
  lemma PastProbingHandled(s: State, p: Packet, p0: Packet, announceOk: bool)
    requires Taken(s, p) && HealthyWith(s, p, p0) && !Probing(s.pcbs[p.pcb].state)
    ensures var s' := HandlePacket(s, p, announceOk);
            && Base(s') && |s'.pcbs| == |s.pcbs| && Healthy(s', p.pcb)
            && forall j | 0 <= j < |s.pcbs| && j != p.pcb :: Same(s, s', j)
  {
    hide QueueInv, Mine, Schedule, SentOk, PcbOk;
    var i := p.pcb;
    var pcb := s.pcbs[i];
    PastProbingSends(s, p, p0);
    PastProbingHolds(s, p, p0);
    assert forall x | x in Mine(s.q.tx, i) :: x in [p0] + Mine(s.q.tx, i);
    ScheduleKeeps(s.q, p, 1000);
    ScheduledMine(s.q, p, 1000, |s.pcbs|);
    LogSnoc(s.log, Sent(i, p.kind, p.sendAt, s.q.now, s.hostname, s.epochs[i]));
    var mine' := Mine(HandlePacket(s, p, announceOk).q.tx, i);
    PastProbingMoves(pcb, s.epochs[i], [p0] + Mine(s.q.tx, i), mine', s.hostname, NextState(pcb.state));
  }

  lemma HandleKeeps(s: State, p: Packet, p0: Packet, announceOk: bool)
    requires Taken(s, p) && HealthyWith(s, p, p0)
    ensures var s' := HandlePacket(s, p, announceOk);
            && Base(s') && |s'.pcbs| == |s.pcbs| && Healthy(s', p.pcb)
            && forall j | 0 <= j < |s.pcbs| && j != p.pcb :: Same(s, s', j)
  {
    hide Base, HealthyWith, Healthy, Same, HandlePacket;
    if !Probing(s.pcbs[p.pcb].state) {
      PastProbingHandled(s, p, p0, announceOk);
    } else if s.pcbs[p.pcb].state.Probe3? && announceOk {
      ProbeToAnnounce(s, p, p0);
    } else {
      ProbeAgain(s, p, p0, announceOk);
    }
  }

  lemma ExecuteKeeps(s: State, announceOk: bool)
    requires Inv(s)
    ensures Inv(Next(s, Execution(announceOk)))
  {
    hide QueueInv, PcbOk, HandlePacket;
    if s.q.actions != [] {
      if Takes(s.q) {
        TakeKeeps(s.q);
        var p0 := s.q.tx[0];
        var p := p0.(queued := false);
        var s1 := s.(q := s.q.(tx := s.q.tx[1..], actions := s.q.actions[1..]));
        assert p0 in s.q.tx && p0.id < s.q.nextId by { IdsBelow(s.q, p0); }
        assert Healthy(s, p.pcb);
        HandleKeeps(s1, p, p0, announceOk);
        forall j | 0 <= j < |s.pcbs|
          ensures Healthy(HandlePacket(s1, p, announceOk), j)
        {
          assert Healthy(s, j);
          if j != p.pcb {
            assert Same(s1, HandlePacket(s1, p, announceOk), j);
          }
        }
      } else {
        DropKeeps(s.q);
        var s' := s.(q := s.q.(actions := s.q.actions[1..]));
        assert forall i | 0 <= i < |s.pcbs| :: Healthy(s, i) ==> Healthy(s', i);
      }
    }
  }

  lemma IdsBelow(q: Queue, p: Packet)
    requires QueueInv(q) && p in q.tx
    ensures p.id < q.nextId
  {
  }

  // ----- hostname, questions, announcements, stopping -----

  /** Interfaces below n are restarted; the others wait, with the queue already cleared. */
  ghost predicate HalfRestarted(s: State, n: nat) {
    && Base(s) && n <= |s.pcbs| && s.hostname
    && (forall j | 0 <= j < n :: Healthy(s, j))
    && (forall j | n <= j < |s.pcbs| :: Restartable(s, j) && (!Ready(s.pcbs[j]) ==> Healthy(s, j)))
  }

  lemma {:induction false} RestartReadyKeeps(s: State, n: nat, services: seq<Service>, jitters: seq<nat>)
    requires HalfRestarted(s, 0) && n <= |s.pcbs| == |jitters| && Distinct(services)
    ensures var r := RestartReady(s, n, services, jitters); HalfRestarted(r, n) && |r.pcbs| == |s.pcbs|
    decreases n
  {
    hide Base, PcbOk, Restartable, Ready, Restart;
    SizesOf(s);
    if n > 0 {
      RestartReadyKeeps(s, n - 1, services, jitters);
      var r := RestartReady(s, n - 1, services, jitters);
      if Ready(r.pcbs[n - 1]) {
        RestartOneMore(r, n, services, jitters[n - 1]);
      }
    }
  }

  lemma RestartOneMore(r: State, n: nat, services: seq<Service>, jitter: nat)
    requires 0 < n && HalfRestarted(r, n - 1) && n <= |r.pcbs| && Distinct(services)
    ensures var r' := Restart(r, n - 1, services, true, true, jitter); HalfRestarted(r', n) && |r'.pcbs| == |r.pcbs|
  {
    hide Base, PcbOk, Restart;
    SizesOf(r);
    RestartKeeps(r, n - 1, services, true, true, jitter);
    var r' := Restart(r, n - 1, services, true, true, jitter);
    SizesOf(r');
    HostnameKept(r, n - 1, services, jitter);
    forall j | 0 <= j < |r.pcbs| && j != n - 1
      ensures Healthy(r, j) ==> Healthy(r', j)
      ensures Restartable(r, j) ==> Restartable(r', j)
      ensures Ready(r.pcbs[j]) == Ready(r'.pcbs[j])
    {
      assert Same(r, r', j);
    }
  }

  lemma SizesOf(s: State)
    requires Base(s)
    ensures |s.pcbs| == |s.epochs|
  {
  }

  lemma HostnameKept(s: State, i: nat, services: seq<Service>, jitter: nat)
    requires i < |s.pcbs| == |s.epochs|
    ensures Restart(s, i, services, true, true, jitter).hostname == s.hostname
  {
  }

  lemma HostnameKeeps(s: State, services: seq<Service>, jitters: seq<nat>)
    requires Inv(s) && Legal(s, Hostname(services, jitters))
    ensures Inv(Next(s, Hostname(services, jitters)))
  {
    hide QueueInv, RestartReady;
    var s0 := s.(hostname := true, q := s.q.(tx := []));
    RemoveAllKeeps(s.q);
    forall j | 0 <= j < |s.pcbs|
      ensures Restartable(s0, j) && (!Ready(s0.pcbs[j]) ==> Healthy(s0, j))
    {
      assert Healthy(s, j);
    }
    RestartReadyKeeps(s0, |s.pcbs|, services, jitters);
  }

  lemma QuestionKeeps(s: State, i: nat, shared: bool, ms: nat, content: Content)
    requires Inv(s) && i < |s.pcbs|
    ensures Inv(Next(s, Question(i, shared, ms, content)))
  {
    hide QueueInv, Mine, Schedule, Proven;
    var s' := Next(s, Question(i, shared, ms, content));
    assert Healthy(s, i);
    if PastProbing(s.pcbs[i].state) {
      if shared {
        FreshSchedule(s.q, i, Answer, ms, content, |s.pcbs|);
        forall j | 0 <= j < |s.pcbs|
          ensures Healthy(s', j)
        {
          assert Healthy(s, j);
        }
      } else {
        LogSnoc(s.log, Sent(i, Answer, s.q.now, s.q.now, s.hostname, s.epochs[i]));
        assert forall j | 0 <= j < |s.pcbs| :: Healthy(s, j) ==> Healthy(s', j);
      }
    }
  }

  lemma {:induction false} MineUpdated(tx: seq<Packet>, k: nat, c: Content, j: nat)
    requires k < |tx|
    ensures var r := Mine(tx[k := tx[k].(content := c)], j);
            && (tx[k].pcb != j ==> r == Mine(tx, j))
            && forall y | y in r :: exists x :: x in Mine(tx, j) && x.kind == y.kind
    decreases |tx|
  {
    var t := tx[k := tx[k].(content := c)];
    if k == 0 {
      assert t[1..] == tx[1..];
      assert forall y | y in Mine(t, j) :: y == t[0] || y in Mine(tx[1..], j);
      assert tx[0].pcb == j ==> tx[0] in Mine(tx, j);
    } else {
      assert t[1..] == tx[1..][k - 1 := tx[k].(content := c)];
      MineUpdated(tx[1..], k - 1, c, j);
      forall y | y in Mine(t, j)
        ensures exists x :: x in Mine(tx, j) && x.kind == y.kind
      {
        if y in Mine(t[1..], j) {
          var x :| x in Mine(tx[1..], j) && x.kind == y.kind;
          assert x in Mine(tx, j);
        } else {
          assert y == tx[0] && y in Mine(tx, j);
        }
      }
    }
  }

  /** An announcing interface whose next packet takes on more content starts announcing again. */
  lemma JoinKeeps(s: State, i: nat, k: nat, c: Content)
    requires Inv(s) && i < |s.pcbs| && Announcing(s.pcbs[i].state) && k < |s.q.tx| && s.q.tx[k].pcb == i
    ensures Inv(WithPcb(s, i, s.pcbs[i].(state := Announce1)).(q := s.q.(tx := s.q.tx[k := s.q.tx[k].(content := c)])))
  {
    hide QueueInv, Mine, Proven, Thinned;
    var tx' := s.q.tx[k := s.q.tx[k].(content := c)];
    var s' := WithPcb(s, i, s.pcbs[i].(state := Announce1)).(q := s.q.(tx := tx'));
    UpdateThinned(s.q.tx, k, c);
    ThinnedKeeps(s.q, tx');
    forall p | p in tx'
      ensures p.pcb < |s.pcbs|
    {
      ThinnedMember(s.q.tx, tx', p);
    }
    forall j | 0 <= j < |s.pcbs|
      ensures Healthy(s', j)
    {
      assert Healthy(s, j);
      MineUpdated(s.q.tx, k, c, j);
    }
  }

  lemma SuppressKeeps(s: State, k: nat, a: About)
    requires Inv(s)
    ensures Inv(Suppress(s, k, a))
  {
    hide QueueInv, Mine, Proven, Thinned;
    if k < |s.q.tx| && s.q.tx[k].kind.Answer? {
      var c := s.q.tx[k].content.(answers := s.q.tx[k].content.answers - {a});
      var i := s.q.tx[k].pcb;
      var s' := Suppress(s, k, a);
      assert s.q.tx[k] in s.q.tx;
      assert s.q.tx[k] in Mine(s.q.tx, i);
      UpdateThinned(s.q.tx, k, c);
      ThinnedKeeps(s.q, s'.q.tx);
      forall p | p in s'.q.tx
        ensures p.pcb < |s.pcbs|
      {
        ThinnedMember(s.q.tx, s'.q.tx, p);
      }
      forall j | 0 <= j < |s.pcbs|
        ensures Healthy(s', j)
      {
        assert Healthy(s, j);
        MineUpdated(s.q.tx, k, c, j);
      }
    }
  }

  lemma ByeKeeps(s: State, i: nat)
    requires Inv(s) && i < |s.pcbs|
    ensures Inv(SendBye(s, i))
  {
    hide QueueInv, Mine, Proven;
    assert Healthy(s, i);
    if PastProbing(s.pcbs[i].state) && s.hostname {
      LogSnoc(s.log, Sent(i, Goodbye, s.q.now, s.q.now, s.hostname, s.epochs[i]));
      assert forall j | 0 <= j < |s.pcbs| :: Healthy(s, j) ==> Healthy(SendBye(s, i), j);
    }
  }

  lemma AnnouncementKeeps(s: State, i: nat, services: seq<Service>, includeIp: bool, more: bool, jitter: nat)
    requires Inv(s) && Legal(s, Announcement(i, services, includeIp, more, jitter))
    ensures Inv(Next(s, Announcement(i, services, includeIp, more, jitter)))
  {
    hide QueueInv, Mine, Schedule, Proven, InitProbe;
    var s' := AnnouncePcb(s, i, services, includeIp, more, jitter);
    assert Healthy(s, i);
    if Probing(s.pcbs[i].state) {
      InitProbeKeeps(s, i, services, includeIp, jitter);
      forall j | 0 <= j < |s.pcbs|
        ensures Healthy(s', j)
      {
        assert Healthy(s, j) && (j != i ==> Same(s, s', j));
      }
    } else if Announcing(s.pcbs[i].state) {
      var k := FirstOf(s.q.tx, i);
      if k < |s.q.tx| {
        JoinKeeps(s, i, k, Joined(s.q.tx[k].content, services, includeIp, more));
      }
    } else if s.pcbs[i].state.Running? && s.hostname {
      FreshSchedule(s.q, i, Announce, 0, AnnounceContent(services, includeIp), |s.pcbs|);
      forall j | 0 <= j < |s.pcbs|
        ensures Healthy(s', j)
      {
        assert Healthy(s, j);
      }
    }
  }

  // ----- removing a service -----

  /** The walk as one interface sees it: its own packets only. */
  ghost function SweepOne(pcb: Pcb, mine: seq<Packet>, svc: Service): (Pcb, seq<Packet>)
    decreases |mine|
  {
    if mine == [] then (pcb, [])
    else
      var (next, c) := Passed(pcb, mine[0].content, svc);
      var rest := SweepOne(next, mine[1..], svc);
      (rest.0, if Empty(c) then rest.1 else [mine[0].(content := c)] + rest.1)
  }

  lemma {:induction false} SweepIsPerInterface(pcbs: seq<Pcb>, tx: seq<Packet>, svc: Service, i: nat)
    requires i < |pcbs| && forall p | p in tx :: p.pcb < |pcbs|
    ensures var (pcbs', tx') := Sweep(pcbs, tx, svc);
            (pcbs'[i], Mine(tx', i)) == SweepOne(pcbs[i], Mine(tx, i), svc)
    decreases |tx|
  {
    hide Passed, Empty;
    if tx != [] {
      var p := tx[0];
      var (pcb, c) := Passed(pcbs[p.pcb], p.content, svc);
      SweepIsPerInterface(pcbs[p.pcb := pcb], tx[1..], svc, i);
      var rest := Sweep(pcbs[p.pcb := pcb], tx[1..], svc).1;
      var p' := p.(content := c);
      assert ([p'] + rest)[1..] == rest;
      assert p.pcb == i ==> Mine(tx, i)[1..] == Mine(tx[1..], i);
    }
  }

  lemma {:induction false} SweepThins(pcbs: seq<Pcb>, tx: seq<Packet>, svc: Service)
    requires forall p | p in tx :: p.pcb < |pcbs|
    ensures Thinned(tx, Sweep(pcbs, tx, svc).1)
    decreases |tx|
  {
    hide Passed, Empty;
    if tx != [] {
      var p := tx[0];
      var (pcb, c) := Passed(pcbs[p.pcb], p.content, svc);
      SweepThins(pcbs[p.pcb := pcb], tx[1..], svc);
      var rest := Sweep(pcbs[p.pcb := pcb], tx[1..], svc).1;
      assert ([p.(content := c)] + rest)[1..] == rest;
    }
  }

  lemma DistinctTail(services: seq<Service>)
    requires Distinct(services) && services != []
    ensures Distinct(services[1..]) && services[0] !in services[1..]
    ensures forall x :: x in services <==> x == services[0] || x in services[1..]
  {
    assert services == [services[0]] + services[1..];
    var rest := services[1..];
    forall k | 0 <= k < |rest|
      ensures rest[k] != services[0]
    {
      assert services[k + 1] == rest[k];
    }
  }

  lemma {:induction false} WithoutOne(services: seq<Service>, svc: Service)
    requires Distinct(services) && svc in services
    ensures var r := Without(services, svc);
            Distinct(r) && |r| == |services| - 1 && (forall x :: x in r <==> x in services && x != svc)
    decreases |services|
  {
    DistinctTail(services);
    if services[0] != svc {
      var r := Without(services[1..], svc);
      WithoutOne(services[1..], svc);
      DistinctJoin([services[0]], r);
    }
  }

  lemma {:induction false} WithoutKinds(services: seq<Service>, svc: Service)
    requires svc in services
    ensures svc.kind in KindsOf(services) && KindsOf(Without(services, svc)) == KindsOf(services) - multiset{svc.kind}
    decreases |services|
  {
    if services[0] != svc {
      var rest := services[1..];
      assert svc in rest;
      WithoutKinds(rest, svc);
      var r := [services[0]] + Without(rest, svc);
      assert r[1..] == Without(rest, svc);
    }
  }

  lemma {:induction false} FewerKinds(asks: seq<Service>, kind: nat)
    requires kind in KindsOf(asks)
    ensures KindsOf(WithoutKind(asks, kind)) == KindsOf(asks) - multiset{kind}
    decreases |asks|
  {
    if asks[0].kind != kind {
      FewerKinds(asks[1..], kind);
      var r := [asks[0]] + WithoutKind(asks[1..], kind);
      assert r[1..] == WithoutKind(asks[1..], kind);
    }
  }

  lemma NothingAsked(services: seq<Service>)
    ensures services != [] <==> KindsOf(services) != multiset{}
  {
    if services != [] {
      assert services[0].kind in KindsOf(services);
    }
  }

  /** The removal takes a probing interface past probing exactly if the service is all it probes for. */
  ghost predicate EndsProbing(pcb: Pcb, svc: Service) {
    Probing(pcb.state) && pcb.services == [svc] && !pcb.probeIp
  }

  lemma SingleRest(x: Packet, pcb: Pcb, svc: Service)
    ensures var (next, c) := Passed(pcb, x.content, svc);
            SweepOne(pcb, [x], svc) == (next, if Empty(c) then [] else [x.(content := c)])
  {
    hide Passed, Empty;
    var (next, c) := Passed(pcb, x.content, svc);
    assert [x][1..] == [] && SweepOne(next, [], svc) == (next, []);
    assert [x.(content := c)] + [] == [x.(content := c)];
  }

  /** A probing interface that has something left to probe for. */
  lemma ProbingOn(pcb: Pcb, e: Epoch, x: Packet, hostname: bool, svc: Service)
    requires PcbOk(pcb, e, [x], hostname) && Probing(pcb.state) && !EndsProbing(pcb, svc)
    ensures var (next, c) := Passed(pcb, x.content, svc);
            && next == pcb.(services := if svc in pcb.services then Without(pcb.services, svc) else pcb.services)
            && !Empty(c) && PcbOk(next, e, [x.(content := c)], hostname)
  {
    hide KindsOf, Without, WithoutKind;
    NothingAsked(pcb.services);
    NothingAsked(x.content.asks);
    if svc in pcb.services {
      WithoutOne(pcb.services, svc);
      WithoutKinds(pcb.services, svc);
      FewerKinds(x.content.asks, svc.kind);
      NothingAsked(Without(pcb.services, svc));
      NothingAsked(WithoutKind(x.content.asks, svc.kind));
      OneService(pcb.services, svc);
    }
  }

  /** A probing interface that probed for nothing but the service. */
  lemma ProbingEnds(pcb: Pcb, e: Epoch, x: Packet, hostname: bool, svc: Service)
    requires PcbOk(pcb, e, [x], hostname) && EndsProbing(pcb, svc)
    ensures var (next, c) := Passed(pcb, x.content, svc);
            && next == pcb.(services := [], running := false, state := Running)
            && Empty(c) && PcbOk(next, e.(cut := true), [], hostname)
  {
    OneService(pcb.services, svc);
    WithoutKinds(pcb.services, svc);
    FewerKinds(x.content.asks, svc.kind);
    NothingAsked(WithoutKind(x.content.asks, svc.kind));
    assert x.content.servers - {OfService(svc)} == {};
  }

  /** A probing interface: its probe loses the service, and goes if nothing is left to probe for. */
  lemma ProbingSwept(pcb: Pcb, e: Epoch, mine: seq<Packet>, hostname: bool, svc: Service)
    requires PcbOk(pcb, e, mine, hostname) && Probing(pcb.state)
    ensures var (next, mine') := SweepOne(pcb, mine, svc);
            && (EndsProbing(pcb, svc) ==>
                  next == pcb.(services := [], running := false, state := Running) && mine' == [])
            && (!EndsProbing(pcb, svc) ==> next.state == pcb.state && |mine'| == 1)
            && PcbOk(next, if EndsProbing(pcb, svc) then e.(cut := true) else e, mine', hostname)
  {
    hide SweepOne, Passed, Empty, Carries, Spaced, Proven, Distinct;
    var x := mine[0];
    assert mine == [x];
    SingleRest(x, pcb, svc);
    if EndsProbing(pcb, svc) {
      ProbingEnds(pcb, e, x, hostname, svc);
    } else {
      ProbingOn(pcb, e, x, hostname, svc);
    }
  }

  lemma OneService(services: seq<Service>, svc: Service)
    requires svc in services
    ensures |services| == 1 <==> services == [svc]
    ensures |services| == 1 ==> KindsOf(services) == multiset{svc.kind}
  {
    if |services| == 1 {
      assert services[1..] == [] && services == [svc];
    }
  }

  /** An interface that is not probing stays past probing, and no probe comes in. */
  lemma {:induction false} OtherSwept(pcb: Pcb, mine: seq<Packet>, svc: Service)
    requires !Probing(pcb.state)
    ensures var (next, mine') := SweepOne(pcb, mine, svc);
            && (next == pcb || (PastProbing(pcb.state) && next == pcb.(state := Running)))
            && (mine == [] ==> mine' == [])
            && forall y | y in mine' :: exists x :: x in mine && x.kind == y.kind
    decreases |mine|
  {
    if mine != [] {
      var (next, c) := Passed(pcb, mine[0].content, svc);
      OtherSwept(next, mine[1..], svc);
      var rest := SweepOne(next, mine[1..], svc).1;
      forall y | y in SweepOne(pcb, mine, svc).1
        ensures exists x :: x in mine && x.kind == y.kind
      {
        if y in rest {
          var x :| x in mine[1..] && x.kind == y.kind;
          assert x in mine;
        } else {
          assert mine[0] in mine;
        }
      }
    }
  }

  /** One interface before and after the removal. */
  lemma InterfaceSwept(s: State, svc: Service, i: nat)
    requires Inv(s) && i < |s.pcbs|
    ensures var s' := RemoveService(s, svc);
            && |s'.pcbs| == |s'.epochs| == |s.pcbs| && Healthy(s', i)
            && (Probing(s'.pcbs[i].state) <==> Probing(s.pcbs[i].state) && !EndsProbing(s.pcbs[i], svc))
            && (Ready(s'.pcbs[i]) <==> Ready(s.pcbs[i]))
            && s'.epochs[i] == if EndsProbing(s.pcbs[i], svc) then s.epochs[i].(cut := true) else s.epochs[i]
  {
    hide QueueInv, Sweep, Mine, SweepOne, Proven, Spaced, Carries;
    assert Healthy(s, i);
    SweepIsPerInterface(s.pcbs, s.q.tx, svc, i);
    var mine := Mine(s.q.tx, i);
    if Probing(s.pcbs[i].state) {
      ProbingSwept(s.pcbs[i], s.epochs[i], mine, s.hostname, svc);
    } else {
      OtherSwept(s.pcbs[i], mine, svc);
    }
  }

  lemma {:induction false} RemovalKeeps(s: State, svc: Service)
    requires Inv(s)
    ensures Inv(RemoveService(s, svc))
  {
    hide QueueInv, Sweep, Thinned, Healthy;
    var s' := RemoveService(s, svc);
    SweepThins(s.pcbs, s.q.tx, svc);
    ThinnedKeeps(s.q, s'.q.tx);
    forall p | p in s'.q.tx
      ensures p.pcb < |s.pcbs|
    {
      ThinnedMember(s.q.tx, s'.q.tx, p);
    }
    forall i | 0 <= i < |s.pcbs|
      ensures Healthy(s', i)
    {
      InterfaceSwept(s, svc, i);
    }
  }

  lemma StopKeeps(s: State, i: nat, dup: bool)
    requires Inv(s) && i < |s.pcbs|
    ensures Inv(Next(s, Stop(i, dup)))
  {
    hide QueueInv, Mine, Others;
    var s' := Next(s, Stop(i, dup));
    ClearedQueue(s.q, i, |s.pcbs|);
    forall j | 0 <= j < |s.pcbs|
      ensures Healthy(s', j)
    {
      assert Healthy(s, j);
    }
  }

  lemma FailedProbeKeeps(s: State, i: nat)
    requires Inv(s) && i < |s.pcbs|
    ensures Inv(Next(s, FailedProbe(i)))
  {
    hide QueueInv, Mine;
    forall j | 0 <= j < |s.pcbs|
      ensures Healthy(Next(s, FailedProbe(i)), j)
    {
      assert Healthy(s, j);
    }
  }

  lemma ReprobeKeeps(s: State, i: nat, services: seq<Service>, probeIp: bool, clearOld: bool, jitter: nat)
    requires Inv(s) && Legal(s, Reprobe(i, services, probeIp, clearOld, jitter))
    ensures Inv(Restart(s, i, services, probeIp, clearOld, jitter))
  {
    hide QueueInv, Mine, Restart;
    var s' := Restart(s, i, services, probeIp, clearOld, jitter);
    assert Healthy(s, i);
    RestartKeeps(s, i, services, probeIp, clearOld, jitter);
    forall j | 0 <= j < |s.pcbs|
      ensures Healthy(s', j)
    {
      assert Healthy(s, j) && (j != i ==> Same(s, s', j));
    }
  }

  // ----- every run -----

  /** Every step keeps the invariant. */
  lemma StepKeeps(s: State, step: Step)
    requires Inv(s) && Legal(s, step)
    ensures Inv(Next(s, step))
  {
    hide Inv;
    match step
    case Tick(ms) => TickKeeps(s, ms);
    case Timer(sent) => TimerKeeps(s, sent);
    case Post => PostKeeps(s);
    case Execution(announceOk) => ExecuteKeeps(s, announceOk);
    case Reprobe(i, services, probeIp, clearOld, jitter) => ReprobeKeeps(s, i, services, probeIp, clearOld, jitter);
    case Hostname(services, jitters) => HostnameKeeps(s, services, jitters);
    case Question(i, shared, ms, content) => QuestionKeeps(s, i, shared, ms, content);
    case Announcement(i, services, includeIp, more, jitter) =>
      AnnouncementKeeps(s, i, services, includeIp, more, jitter);
    case Removal(svc) => RemovalKeeps(s, svc);
    case Bye(i) => ByeKeeps(s, i);
    case Known(k, a) => SuppressKeeps(s, k, a);
    case FailedProbe(i) => FailedProbeKeeps(s, i);
    case Stop(i, dup) => StopKeeps(s, i, dup);
  }

  /** A responder that has just been started: no hostname, every interface off. */
  function Start(n: nat, now: nat): State {
    State(Queue(now, [], [], 0), false, seq(n, _ => Pcb(Off, [], false, false, 0)), seq(n, _ => NO_HISTORY), [])
  }

  /** s is reached from a started responder by the given legal steps. */
  ghost predicate Reaches(n: nat, now: nat, steps: seq<Step>, s: State)
    decreases |steps|
  {
    if steps == [] then s == Start(n, now)
    else
      var step := steps[|steps| - 1];
      exists s0 :: Reaches(n, now, steps[..|steps| - 1], s0) && Sized(s0) && Legal(s0, step) && s == Next(s0, step)
  }

  lemma {:induction false} ReachableIsInv(n: nat, now: nat, steps: seq<Step>, s: State)
    requires Reaches(n, now, steps, s)
    ensures Inv(s)
    decreases |steps|
  {
    hide Next, Legal;
    if steps == [] {
      StartIsInv(n, now);
    } else {
      var s0 :| Reaches(n, now, steps[..|steps| - 1], s0) && Sized(s0) && Legal(s0, steps[|steps| - 1])
          && s == Next(s0, steps[|steps| - 1]);
      ReachableIsInv(n, now, steps[..|steps| - 1], s0);
      StepKeeps(s0, steps[|steps| - 1]);
    }
  }

  lemma StartIsInv(n: nat, now: nat)
    ensures Inv(Start(n, now))
  {
    assert Live([]) == {};
  }

  /**
   In every reachable state the transmit queue is sorted by due time, the queued packets form a
   prefix of it, the live packets named by pending transmit actions are that prefix in order, and
   so an action is skipped only if its packet was removed.
   */
  lemma {:induction false} QueueDiscipline(n: nat, now: nat, steps: seq<Step>, s: State)
    requires Reaches(n, now, steps, s)
    ensures SortedByTime(s.q.tx) && QueuedFirst(s.q.tx) && UniqueIds(s.q.tx)
    ensures Pending(s.q.actions, Live(s.q.tx)) == QueuedIds(s.q.tx)
    ensures s.q.actions != [] && s.q.actions[0].TxHandle? && !Takes(s.q) ==> s.q.actions[0].id !in Live(s.q.tx)
  {
    ReachableIsInv(n, now, steps, s);
    if s.q.actions != [] && s.q.actions[0].TxHandle? && !Takes(s.q) {
      SkippedOnlyIfGone(s.q);
    }
  }

  /** The probes were sent one by one, three or more, each 250 ms or more after the one before. */
  ghost predicate ThreeSpaced(times: seq<nat>) {
    |times| >= 3 && forall k | 0 <= k < |times| - 1 :: times[k] + 250 <= times[k + 1]
  }

  /**
   Probe before claim: in every run, whatever went out on an interface went out no earlier than it
   was due; and if it was not a probe and a hostname was set, three spaced probes had been sent on
   that interface since its last restart, or, if the removal of its last service cut that probing
   short, before the restarts that led to it.
   */
  lemma {:induction false} ProbeBeforeClaim(n: nat, now: nat, steps: seq<Step>, s: State, x: Sent)
    requires Reaches(n, now, steps, s) && x in s.log
    ensures x.dueAt <= x.at
    ensures !x.kind.Probe? && x.hostname ==> ThreeSpaced(if x.epoch.cut then x.epoch.prior else x.epoch.times)
  {
    ReachableIsInv(n, now, steps, s);
    assert SentOk(x);
  }

  /**
   In every reachable state the removal of a service takes a probing interface past probing if and
   only if that service is all it probes for, host included; nothing else about who is probing changes.
   */
  lemma {:induction false} RemovalEndsProbing(n: nat, now: nat, steps: seq<Step>, s: State, svc: Service, i: nat)
    requires Reaches(n, now, steps, s) && i < |s.pcbs|
    ensures Sized(s)
    ensures var s' := RemoveService(s, svc);
            && |s'.pcbs| == |s.pcbs|
            && (PastProbing(s'.pcbs[i].state) <==> PastProbing(s.pcbs[i].state)
                                                   || (Probing(s.pcbs[i].state) && s.pcbs[i].services == [svc]
                                                       && !s.pcbs[i].probeIp))
  {
    hide RemoveService, QueueInv, Healthy, Reaches;
    ReachableIsInv(n, now, steps, s);
    InterfaceSwept(s, svc, i);
  }

  // ----- runs in which no removal ends a probing -----

  /** No probing has been cut short. */
  ghost predicate Uncut(s: State) {
    (forall e | e in s.epochs :: !e.cut) && forall x | x in s.log :: !x.epoch.cut
  }

  ghost predicate SparesProbing(s: State, step: Step) {
    step.Removal? ==> forall i | 0 <= i < |s.pcbs| :: !EndsProbing(s.pcbs[i], step.service)
  }

  lemma InitUncut(s: State, i: nat, services: seq<Service>, probeIp: bool, jitter: nat)
    requires i < |s.pcbs| == |s.epochs| && Uncut(s)
    ensures Uncut(InitProbe(s, i, services, probeIp, jitter))
  {
    hide Schedule, Merged, Others;
  }

  lemma {:induction false} ReadyUncut(s: State, n: nat, services: seq<Service>, jitters: seq<nat>)
    requires n <= |s.pcbs| == |s.epochs| == |jitters| && Uncut(s)
    ensures Uncut(RestartReady(s, n, services, jitters))
    decreases n
  {
    hide InitProbe, Uncut;
    if n > 0 {
      ReadyUncut(s, n - 1, services, jitters);
      var r := RestartReady(s, n - 1, services, jitters);
      var r1 := WithPcb(r, n - 1, r.pcbs[n - 1].(services := [], running := false));
      assert Uncut(r1) by { SameHistory(r, r1); }
      InitUncut(r1, n - 1, services, true, jitters[n - 1]);
    }
  }

  lemma SameHistory(s: State, s': State)
    requires Uncut(s) && s'.epochs == s.epochs && s'.log == s.log
    ensures Uncut(s')
  {
  }

  lemma DispatchUncut(s: State, i: nat, kind: Kind, dueAt: nat)
    requires i < |s.epochs| && Uncut(s)
    ensures Uncut(Dispatch(s, i, kind, dueAt))
  {
  }

  lemma HandleUncut(s: State, p: Packet, announceOk: bool)
    requires p.pcb < |s.pcbs| == |s.epochs| && Uncut(s)
    ensures Uncut(HandlePacket(s, p, announceOk))
  {
    hide Schedule, Dispatch;
    DispatchUncut(s, p.pcb, p.kind, p.sendAt);
    assert Dispatch(s, p.pcb, p.kind, p.sendAt).epochs[p.pcb] in Dispatch(s, p.pcb, p.kind, p.sendAt).epochs by {
      DispatchSizes(s, p.pcb, p.kind, p.sendAt);
    }
  }

  lemma DispatchSizes(s: State, i: nat, kind: Kind, dueAt: nat)
    requires i < |s.epochs|
    ensures |Dispatch(s, i, kind, dueAt).epochs| == |s.epochs|
  {
  }

  lemma RemovalUncut(s: State, svc: Service)
    requires Inv(s) && Uncut(s) && SparesProbing(s, Removal(svc))
    ensures Uncut(RemoveService(s, svc))
  {
    hide QueueInv, Healthy, Sweep;
    var s' := RemoveService(s, svc);
    forall e | e in s'.epochs
      ensures !e.cut
    {
      var i :| 0 <= i < |s'.epochs| && s'.epochs[i] == e;
      InterfaceSwept(s, svc, i);
      assert s.epochs[i] in s.epochs;
    }
  }

  lemma StepUncut(s: State, step: Step)
    requires Inv(s) && Legal(s, step) && Uncut(s) && SparesProbing(s, step)
    ensures Uncut(Next(s, step))
  {
    hide Uncut, InitProbe, RestartReady, HandlePacket, Dispatch, Sweep, RemoveService, Schedule, RunScheduler,
         Healthy, QueueInv;
    SizesOf(s);
    match step
    case Execution(announceOk) =>
      if Takes(s.q) {
        var s1 := s.(q := s.q.(tx := s.q.tx[1..], actions := s.q.actions[1..]));
        assert s.q.tx[0] in s.q.tx;
        SameHistory(s, s1);
        HandleUncut(s1, s.q.tx[0].(queued := false), announceOk);
      } else {
        SameHistory(s, Next(s, step));
      }
    case Reprobe(i, services, probeIp, clearOld, jitter) =>
      var s1 := if clearOld then WithPcb(s, i, s.pcbs[i].(services := [], running := false)) else s;
      SameHistory(s, s1);
      InitUncut(s1, i, services, probeIp, jitter);
    case Hostname(services, jitters) =>
      SameHistory(s, s.(hostname := true, q := s.q.(tx := [])));
      ReadyUncut(s.(hostname := true, q := s.q.(tx := [])), |s.pcbs|, services, jitters);
    case Question(i, shared, ms, content) =>
      DispatchUncut(s, i, Answer, s.q.now);
      if Next(s, step).log == s.log && Next(s, step).epochs == s.epochs {
        SameHistory(s, Next(s, step));
      }
    case Announcement(i, services, includeIp, more, jitter) =>
      InitUncut(s, i, services, includeIp, jitter);
      if !Probing(s.pcbs[i].state) {
        SameHistory(s, Next(s, step));
      }
    case Removal(svc) => RemovalUncut(s, svc);
    case Bye(i) =>
      DispatchUncut(s, i, Goodbye, s.q.now);
    case _ => SameHistory(s, Next(s, step));
  }

  /** Reached by legal steps of which no removal ends a probing. */
  ghost predicate ReachesUncut(n: nat, now: nat, steps: seq<Step>, s: State)
    decreases |steps|
  {
    if steps == [] then s == Start(n, now)
    else
      var step := steps[|steps| - 1];
      exists s0 ::
        && ReachesUncut(n, now, steps[..|steps| - 1], s0) && Sized(s0) && Legal(s0, step)
        && SparesProbing(s0, step) && s == Next(s0, step)
  }

  lemma {:induction false} UncutIsInv(n: nat, now: nat, steps: seq<Step>, s: State)
    requires ReachesUncut(n, now, steps, s)
    ensures Inv(s) && Uncut(s)
    decreases |steps|
  {
    hide Next, Legal, Inv, Uncut, SparesProbing;
    if steps == [] {
      StartIsInv(n, now);
      assert Uncut(Start(n, now)) by { StartUncut(n, now); }
    } else {
      var step := steps[|steps| - 1];
      var s0 :| ReachesUncut(n, now, steps[..|steps| - 1], s0) && Sized(s0) && Legal(s0, step)
                && SparesProbing(s0, step) && s == Next(s0, step);
      UncutIsInv(n, now, steps[..|steps| - 1], s0);
      StepKeeps(s0, step);
      StepUncut(s0, step);
    }
  }

  lemma StartUncut(n: nat, now: nat)
    ensures Uncut(Start(n, now))
  {
  }

  /**
   In a run in which no removal ends a probing, three spaced probes have been sent since the last
   restart whenever anything but a probe goes out under a hostname.
   */
  lemma {:induction false} ProbesSinceRestart(n: nat, now: nat, steps: seq<Step>, s: State, x: Sent)
    requires ReachesUncut(n, now, steps, s) && x in s.log
    ensures !x.kind.Probe? && x.hostname ==> ThreeSpaced(x.epoch.times)
  {
    hide ReachesUncut, QueueInv, Healthy;
    UncutIsInv(n, now, steps, s);
    assert SentOk(x);
  }

  /**
   A removal that ends a probing does let an answer out without a probe since the restart: on any
   running interface, add a service, remove it before its first probe, and answer a question.
   */
  lemma {:induction false} AddedThenRemoved(s: State, i: nat, svc: Service, jitter: nat, content: Content)
    requires Inv(s) && i < |s.pcbs| && s.hostname && s.pcbs[i].state.Running? && !s.pcbs[i].probeIp
    ensures |s.pcbs| == |s.epochs| && Legal(s, Reprobe(i, [svc], false, false, jitter))
    ensures var s1 := Restart(s, i, [svc], false, false, jitter);
            && Inv(s1) && Probing(s1.pcbs[i].state)
            && var s2 := RemoveService(s1, svc);
               && Inv(s2) && |s2.pcbs| == |s1.pcbs| && PastProbing(s2.pcbs[i].state)
               && var x := Sent(i, Answer, s2.q.now, s2.q.now, true, s2.epochs[i]);
                  && AnswerQuestion(s2, i, false, 0, content).log == s2.log + [x]
                  && x.epoch.times == [] && x.epoch.cut && ThreeSpaced(x.epoch.prior)
  {
    hide QueueInv, Sweep, Mine, Schedule, Others;
    assert Healthy(s, i);
    assert Legal(s, Reprobe(i, [svc], false, false, jitter));
    ReprobeKeeps(s, i, [svc], false, false, jitter);
    var s1 := Restart(s, i, [svc], false, false, jitter);
    assert NotIn([svc], []) == [svc] && [svc] + [] == [svc];
    assert s1.pcbs[i].services == [svc];
    RemovalKeeps(s1, svc);
    InterfaceSwept(s1, svc, i);
    assert Healthy(RemoveService(s1, svc), i);
  }

  /**
   In every reachable state: one live packet per probing interface, PROBE_k after k-1 probes, and the
   probe list rules.
   */
  lemma {:induction false} ProbingDiscipline(n: nat, now: nat, steps: seq<Step>, s: State, i: nat)
    requires Reaches(n, now, steps, s) && i < |s.pcbs|
    ensures |s.pcbs| == |s.epochs|
    ensures var pcb, e := s.pcbs[i], s.epochs[i];
            && (pcb.running <==> Probing(pcb.state)) && Distinct(pcb.services)
            && (!Probing(pcb.state) ==> pcb.services == [])
            && (Probing(pcb.state) ==> |Mine(s.q.tx, i)| == 1 && CountsProbes(pcb.state, e))
  {
    ReachableIsInv(n, now, steps, s);
    assert Healthy(s, i);
  }
}
