/**
 Which services an interface may speak about: for each one, the probes that asked for it. A history
 kept beside the state machine, what it says in runs without two kinds of steps, and exactly when
 those steps do harm.
 */
module ProbeClaims {
  import opened TxQueue
  import opened ProbeMachine
  import opened ProbeProofs

  /**
   One interface: when the probes went out, since its last restart, that asked for a service; the
   services it has been told to speak about; and for those whose probing was completed, its probes.
   */
  datatype Claim = Claim(asked: map<Service, seq<nat>>, claimed: set<Service>, proven: map<Service, seq<nat>>)

  const NO_CLAIM := Claim(map[], {}, map[])

  /** Something other than a probe that went out: what it is about, and the history of its interface by then. */
  datatype Told = Told(pcb: nat, about: set<Service>, hostname: bool, claim: Claim)

  datatype History = History(claims: seq<Claim>, told: seq<Told>)

  /** The services that the records of a packet are about. */
  function AboutOf(c: Content): set<Service> {
    set a | a in c.answers + c.additional + c.servers && a.OfService? :: a.service
  }

  function SetOf(services: seq<Service>): set<Service> {
    set s | s in services
  }

  function Times(m: map<Service, seq<nat>>, svc: Service): seq<nat> {
    if svc in m then m[svc] else []
  }

  // ----- what each step does to the history -----

  /** A probe goes out. */
  function Hear(c: Claim, asks: seq<Service>, now: nat): Claim {
    c.(asked := map s | s in c.asked.Keys + SetOf(asks) :: Times(c.asked, s) + if s in asks then [now] else [])
  }

  /** The last probe has gone out: the services of the interface are proven by what was asked. */
  function Prove(c: Claim, services: seq<Service>): Claim {
    c.(proven := map s | s in c.proven.Keys + SetOf(services) ::
                   if s in services then Times(c.asked, s) else Times(c.proven, s))
  }

  /** Services are put up for probing, and with them whatever the interface now probes for; their proofs are void. */
  function PutUp(c: Claim, services: seq<Service>, probed: seq<Service>): Claim {
    Claim(map[], c.claimed + SetOf(services), map s | s in c.proven && s !in probed :: c.proven[s])
  }

  function Forget(c: Claim, svc: Service): Claim {
    Claim(c.asked - {svc}, c.claimed - {svc}, c.proven - {svc})
  }

  /** The packet at the head goes out on interface i. */
  predicate Sends(s: State, step: Step, i: nat)
    requires i < |s.pcbs|
  {
    step.Execution? && Takes(s.q) && s.q.tx[0].pcb == i && !s.pcbs[i].state.Off?
  }

  /** What a step does to the history of interface i; s1 is the state behind the step. */
  function ClaimNext(s: State, step: Step, s1: State, i: nat, c: Claim): Claim
    requires i < |s.pcbs| == |s1.pcbs|
  {
    match step
    case Execution(_) =>
      if Sends(s, step, i) && Probing(s.pcbs[i].state) then
        var heard := Hear(c, s.q.tx[0].content.asks, s.q.now);
        if PastProbing(s1.pcbs[i].state) then Prove(heard, s.pcbs[i].services) else heard
      else c
    case Reprobe(j, services, _, _, _) => if j == i then PutUp(c, services, s1.pcbs[i].services) else c
    case Hostname(services, _) =>
      if Ready(s.pcbs[i]) then PutUp(c, services, s1.pcbs[i].services).(proven := map[]) else c
    case Announcement(j, services, _, _, _) =>
      if j == i && Probing(s.pcbs[i].state) then PutUp(c, services, s1.pcbs[i].services) else c
    case Removal(svc) => Forget(c, svc)
    case Stop(j, _) => if j == i then NO_CLAIM else c
    case _ => c
  }

  /** What goes out with a step besides probes. */
  function ToldBy(s: State, h: History, step: Step): seq<Told>
    requires Sized(s) && |h.claims| == |s.pcbs| && Legal(s, step)
  {
    match step
    case Execution(_) =>
      if s.q.tx != [] && s.q.tx[0].pcb < |s.pcbs| && Sends(s, step, s.q.tx[0].pcb) && !s.q.tx[0].kind.Probe? then
        [Told(s.q.tx[0].pcb, AboutOf(s.q.tx[0].content), s.hostname, h.claims[s.q.tx[0].pcb])]
      else []
    case Question(i, shared, _, content) =>
      if PastProbing(s.pcbs[i].state) && !shared then [Told(i, AboutOf(content), s.hostname, h.claims[i])] else []
    case _ => []
  }

  function HistoryNext(s: State, h: History, step: Step): (r: History)
    requires Sized(s) && Legal(s, step) && |h.claims| == |s.pcbs| == |Next(s, step).pcbs|
    ensures |r.claims| == |h.claims|
  {
    var s1 := Next(s, step);
    History(seq(|s.pcbs|, i requires 0 <= i < |s.pcbs| => ClaimNext(s, step, s1, i, h.claims[i])),
            h.told + ToldBy(s, h, step))
  }

  // ----- what callers see to, and the steps that do harm -----

  /** Answers and announcements are about services the interface was told of; a new host name takes up all of them. */
  ghost predicate Proper(s: State, h: History, step: Step)
    requires |h.claims| == |s.pcbs|
  {
    && Legal(s, step)
    && match step
       case Question(i, _, _, content) => AboutOf(content) <= h.claims[i].claimed
       case Announcement(i, services, _, _, _) => Probing(s.pcbs[i].state) || SetOf(services) <= h.claims[i].claimed
       case Hostname(services, _) => forall i | 0 <= i < |s.pcbs| :: h.claims[i].claimed <= SetOf(services)
       case _ => true
  }

  /** A restart that clears the list of a probing interface and leaves out a service that was on it. */
  ghost predicate Abandons(s: State, step: Step, i: nat, svc: Service)
    requires i < |s.pcbs|
  {
    step.Reprobe? && step.pcb == i && step.clearOld && Probing(s.pcbs[i].state)
    && svc in s.pcbs[i].services && svc !in step.services
  }

  /** The service is the first of its type on the list. */
  ghost predicate FirstOfKindIs(services: seq<Service>, svc: Service) {
    services != [] && (services[0] == svc || (services[0].kind != svc.kind && FirstOfKindIs(services[1..], svc)))
  }

  /** Exactly then the removal takes out the service's own question. */
  lemma {:induction false} OwnQuestionGoes(services: seq<Service>, svc: Service)
    requires Distinct(services) && svc in services
    ensures WithoutKind(services, svc.kind) == Without(services, svc) <==> FirstOfKindIs(services, svc)
    decreases |services|
  {
    DistinctTail(services);
    if services[0] != svc {
      var rest := services[1..];
      if services[0].kind == svc.kind {
        assert svc in rest && rest == WithoutKind(services, svc.kind);
        assert Without(services, svc)[0] == services[0];
        assert rest[0] in rest;
      } else {
        OwnQuestionGoes(rest, svc);
        assert ([services[0]] + WithoutKind(rest, svc.kind))[1..] == WithoutKind(rest, svc.kind);
        assert ([services[0]] + Without(rest, svc))[1..] == Without(rest, svc);
      }
    }
  }

  /** A removal that takes the question about another service out of a probe. */
  ghost predicate Misdirects(s: State, step: Step, i: nat)
    requires i < |s.pcbs|
  {
    step.Removal? && Probing(s.pcbs[i].state) && step.service in s.pcbs[i].services
    && !FirstOfKindIs(s.pcbs[i].services, step.service)
  }

  ghost predicate Harmless(s: State, step: Step) {
    forall i | 0 <= i < |s.pcbs| :: !Misdirects(s, step, i) && forall svc :: !Abandons(s, step, i, svc)
  }

  // ----- the invariant -----

  /** Three spaced probes asked for the service in its latest probing. */
  ghost predicate Vouched(c: Claim, svc: Service) {
    svc in c.proven && Proven(c.proven[svc])
  }

  ghost predicate PacketsOk(tx: seq<Packet>, i: nat, pcb: Pcb, c: Claim) {
    forall p | p in tx && p.pcb == i ::
      if Probing(pcb.state) then p.content == ProbeContent(pcb.services, pcb.probeIp)
      else AboutOf(p.content) <= c.claimed
  }

  ghost predicate ClaimOk(s: State, i: nat, c: Claim)
    requires i < |s.pcbs| == |s.epochs|
  {
    var pcb := s.pcbs[i];
    && PacketsOk(s.q.tx, i, pcb, c)
    && (!Ready(pcb) ==> c.claimed == {})
    && (Probing(pcb.state) ==>
          forall svc | svc in pcb.services ::
            svc in c.claimed && svc !in c.proven && Times(c.asked, svc) == s.epochs[i].times)
    && (s.hostname && Ready(pcb) ==>
          forall svc | svc in c.claimed :: Vouched(c, svc) || (Probing(pcb.state) && svc in pcb.services))
  }

  ghost predicate ToldOk(x: Told) {
    x.hostname ==> forall svc | svc in x.about :: Vouched(x.claim, svc)
  }

  ghost predicate Claims(s: State, h: History) {
    && Inv(s) && |h.claims| == |s.pcbs| == |s.epochs|
    && (forall i | 0 <= i < |s.pcbs| :: ClaimOk(s, i, h.claims[i]))
    && forall x | x in h.told :: ToldOk(x)
  }

  // ----- one interface whose packets, state and history stay -----

  lemma StaysOk(s: State, s1: State, i: nat, c: Claim)
    requires i < |s.pcbs| == |s.epochs| == |s1.pcbs| == |s1.epochs| && ClaimOk(s, i, c)
    requires s1.pcbs[i].state == s.pcbs[i].state && s1.pcbs[i].services == s.pcbs[i].services
    requires s1.pcbs[i].probeIp == s.pcbs[i].probeIp && s1.epochs[i].times == s.epochs[i].times
    requires s1.hostname == s.hostname
    requires forall p | p in s1.q.tx && p.pcb == i :: exists x :: x in s.q.tx && x.pcb == i && x.content == p.content
    ensures ClaimOk(s1, i, c)
  {
  }

  /** A restart of another interface. */
  lemma SameIsOk(s: State, s1: State, i: nat, c: Claim)
    requires i < |s.pcbs| == |s.epochs| == |s1.pcbs| == |s1.epochs| && ClaimOk(s, i, c) && Same(s, s1, i)
    ensures ClaimOk(s1, i, c)
  {
    forall p | p in s1.q.tx && p.pcb == i
      ensures p in s.q.tx
    {
      assert p in Mine(s1.q.tx, i);
    }
  }

  // ----- restarts -----

  /** The one packet that is left of an interface whose queue was cleared. */
  lemma OnlyPacket(tx: seq<Packet>, p: Packet)
    ensures forall x | x in Insert(Others(tx, p.pcb), p) && x.pcb == p.pcb :: x == p
  {
    forall x | x in Insert(Others(tx, p.pcb), p) && x.pcb == p.pcb
      ensures x == p
    {
      InsertElement(Others(tx, p.pcb), p, x);
    }
  }

  lemma ProbingStarts(s: State, i: nat, services: seq<Service>, probeIp: bool, jitter: nat)
    requires i < |s.pcbs| == |s.epochs| && s.hostname
    ensures var s1 := InitProbe(s, i, services, probeIp, jitter);
            && |s1.pcbs| == |s1.epochs| == |s.pcbs|
            && s1.pcbs[i].state.Probe1? && s1.pcbs[i].services == Merged(s.pcbs[i], services)
            && s1.epochs[i].times == [] && s1.hostname
            && forall p | p in s1.q.tx && p.pcb == i ::
               p.content == ProbeContent(s1.pcbs[i].services, s1.pcbs[i].probeIp)
  {
    hide Merged, Insert, Others, ProbeContent;
    var all, ip := Merged(s.pcbs[i], services), s.pcbs[i].probeIp || probeIp;
    var delay := (if s.pcbs[i].failedProbes > 5 then 1000 else 120) + jitter % 128;
    OnlyPacket(s.q.tx, Packet(s.q.nextId, i, Probe, s.q.now + delay, false, ProbeContent(all, ip)));
  }

  /** What a restart leaves on its interface under a host name. */
  lemma RestartLeaves(s: State, i: nat, services: seq<Service>, probeIp: bool, clearOld: bool, jitter: nat)
    requires Sized(s) && i < |s.pcbs| && s.hostname
    ensures var s1 := Restart(s, i, services, probeIp, clearOld, jitter);
            var was := if clearOld then s.pcbs[i].(services := [], running := false) else s.pcbs[i];
            && |s1.pcbs| == |s1.epochs| == |s.pcbs|
            && s1.pcbs[i].state.Probe1? && s1.pcbs[i].services == Merged(was, services) && s1.epochs[i].times == []
            && s1.hostname
            && forall p | p in s1.q.tx && p.pcb == i ::
               p.content == ProbeContent(s1.pcbs[i].services, s1.pcbs[i].probeIp)
  {
    hide Merged, InitProbe, ProbeContent;
    var s0 := if clearOld then WithPcb(s, i, s.pcbs[i].(services := [], running := false)) else s;
    ProbingStarts(s0, i, services, probeIp, jitter);
  }

  /** Without a host name the interface goes straight to running, with nothing to send. */
  lemma RestartWithoutHost(s: State, i: nat, services: seq<Service>, probeIp: bool, clearOld: bool, jitter: nat)
    requires Sized(s) && i < |s.pcbs| && !s.hostname
    ensures var s1 := Restart(s, i, services, probeIp, clearOld, jitter);
            && s1.pcbs[i].state.Running? && !s1.hostname && forall p | p in s1.q.tx :: p.pcb != i
  {
  }

  lemma MergedMembers(pcb: Pcb, services: seq<Service>)
    requires Distinct(services)
    ensures forall x :: x in Merged(pcb, services) <==> x in services || x in pcb.services
  {
    if Probing(pcb.state) {
      NotInDistinct(services, pcb.services);
    }
  }

  /** A restart that abandons nothing keeps an interface's claims in order. */
  lemma RestartClaims(s: State, i: nat, services: seq<Service>, probeIp: bool, clearOld: bool, jitter: nat, c: Claim)
    requires Sized(s) && i < |s.pcbs| && ClaimOk(s, i, c) && Distinct(services)
    requires clearOld && Probing(s.pcbs[i].state) ==> forall svc | svc in s.pcbs[i].services :: svc in services
    requires !Probing(s.pcbs[i].state) ==> s.pcbs[i].services == []
    ensures var s1 := Restart(s, i, services, probeIp, clearOld, jitter);
            |s1.pcbs| == |s1.epochs| == |s.pcbs| && ClaimOk(s1, i, PutUp(c, services, s1.pcbs[i].services))
  {
    hide Restart, Merged;
    var s1 := Restart(s, i, services, probeIp, clearOld, jitter);
    RestartSizes(s, i, services, probeIp, clearOld, jitter);
    if s.hostname {
      RestartLeaves(s, i, services, probeIp, clearOld, jitter);
      MergedMembers(if clearOld then s.pcbs[i].(services := [], running := false) else s.pcbs[i], services);
    } else {
      RestartWithoutHost(s, i, services, probeIp, clearOld, jitter);
    }
  }

  lemma RestartSizes(s: State, i: nat, services: seq<Service>, probeIp: bool, clearOld: bool, jitter: nat)
    requires Sized(s) && i < |s.pcbs|
    ensures var s1 := Restart(s, i, services, probeIp, clearOld, jitter); |s1.pcbs| == |s1.epochs| == |s.pcbs|
  {
  }

  // ----- packets that go out -----

  lemma Scheduled(q: Queue, p: Packet, ms: nat)
    ensures forall x :: x in Schedule(q, p, ms).tx <==> x == p.(sendAt := q.now + ms) || x in q.tx
  {
    forall x
      ensures x in Schedule(q, p, ms).tx <==> x == p.(sendAt := q.now + ms) || x in q.tx
    {
      InsertElement(q.tx, p.(sendAt := q.now + ms), x);
    }
  }

  /** What handling a packet does not touch. */
  lemma HandleOthers(s: State, p: Packet, announceOk: bool, j: nat)
    requires p.pcb < |s.pcbs| == |s.epochs| && j < |s.pcbs| && j != p.pcb
    ensures var s1 := HandlePacket(s, p, announceOk);
            && |s1.pcbs| == |s1.epochs| == |s.pcbs| && s1.pcbs[j] == s.pcbs[j] && s1.epochs[j] == s.epochs[j]
            && s1.hostname == s.hostname && forall x | x in s1.q.tx && x.pcb == j :: x in s.q.tx
  {
    hide Schedule;
    Scheduled(s.q, p, 250);
    Scheduled(s.q, p, 1000);
    Scheduled(s.q.(nextId := s.q.nextId + 1), Packet(s.q.nextId, p.pcb, Announce, 0, false, ProvenContent(p.content)),
              250);
  }

  lemma Heard(c: Claim, asks: seq<Service>, now: nat)
    ensures var d := Hear(c, asks, now);
            && d.claimed == c.claimed && d.proven == c.proven
            && forall svc | svc in asks :: Times(d.asked, svc) == Times(c.asked, svc) + [now]
  {
  }

  lemma Proved(c: Claim, services: seq<Service>)
    ensures var d := Prove(c, services);
            && d.claimed == c.claimed
            && d.asked == c.asked
            && (forall svc | svc in services :: svc in d.proven && d.proven[svc] == Times(c.asked, svc))
            && forall svc | svc !in services && svc in c.proven :: svc in d.proven && d.proven[svc] == c.proven[svc]
  {
  }

  /** A probe: it asks for every service of the interface once more. */
  lemma ProbeClaimed(s: State, p: Packet, announceOk: bool, c: Claim)
    requires p.pcb < |s.pcbs| == |s.epochs| && Probing(s.pcbs[p.pcb].state) && s.hostname
    requires p.content == ProbeContent(s.pcbs[p.pcb].services, s.pcbs[p.pcb].probeIp)
    requires ClaimOk(s, p.pcb, c) && forall x | x in s.q.tx :: x.pcb != p.pcb
    requires p.kind.Probe? && !(s.pcbs[p.pcb].state.Probe3? && announceOk)
    ensures var s1 := HandlePacket(s, p, announceOk);
            && |s1.pcbs| == |s1.epochs| == |s.pcbs| && Probing(s1.pcbs[p.pcb].state)
            && ClaimOk(s1, p.pcb, Hear(c, p.content.asks, s.q.now))
  {
    hide Schedule, Proven, Hear, ProbeContent, AboutOf;
    Scheduled(s.q, p, 250);
    Heard(c, p.content.asks, s.q.now);
    AsksAll(s.pcbs[p.pcb].services, s.pcbs[p.pcb].probeIp);
    var i, s1, d := p.pcb, HandlePacket(s, p, announceOk), Hear(c, p.content.asks, s.q.now);
    assert s1.pcbs[i].services == s.pcbs[i].services && s1.pcbs[i].probeIp == s.pcbs[i].probeIp;
    assert s1.epochs[i].times == s.epochs[i].times + [s.q.now];
    assert PacketsOk(s1.q.tx, i, s1.pcbs[i], d);
    forall svc | svc in d.claimed
      ensures Vouched(d, svc) || svc in s1.pcbs[i].services
    {
      assert Vouched(c, svc) ==> Vouched(d, svc);
    }
  }

  lemma AsksAll(services: seq<Service>, ip: bool)
    ensures ProbeContent(services, ip).asks == services
    ensures AboutOf(ProvenContent(ProbeContent(services, ip))) <= SetOf(services)
  {
  }

  /** The last probe, and the announcement in its place. */
  lemma LastProbeClaimed(s: State, p: Packet, c: Claim)
    requires p.pcb < |s.pcbs| == |s.epochs| && s.pcbs[p.pcb].state.Probe3? && s.hostname
    requires p.content == ProbeContent(s.pcbs[p.pcb].services, s.pcbs[p.pcb].probeIp)
    requires ClaimOk(s, p.pcb, c) && forall x | x in s.q.tx :: x.pcb != p.pcb
    requires Proven(s.epochs[p.pcb].times + [s.q.now])
    ensures var s1 := HandlePacket(s, p, true);
            && |s1.pcbs| == |s1.epochs| == |s.pcbs| && PastProbing(s1.pcbs[p.pcb].state)
            && ClaimOk(s1, p.pcb, Prove(Hear(c, p.content.asks, s.q.now), s.pcbs[p.pcb].services))
  {
    hide Schedule, Proven, Hear, Prove, ProbeContent, AboutOf, ProvenContent;
    var services := s.pcbs[p.pcb].services;
    Scheduled(s.q.(nextId := s.q.nextId + 1), Packet(s.q.nextId, p.pcb, Announce, 0, false, ProvenContent(p.content)),
              250);
    AsksAll(services, s.pcbs[p.pcb].probeIp);
    var heard := Hear(c, services, s.q.now);
    Heard(c, services, s.q.now);
    Proved(heard, services);
    assert SetOf(services) <= c.claimed;
  }

  /** Any other packet. */
  lemma OtherHandled(s: State, p: Packet, announceOk: bool, c: Claim)
    requires p.pcb < |s.pcbs| == |s.epochs| && !Probing(s.pcbs[p.pcb].state)
    requires AboutOf(p.content) <= c.claimed && ClaimOk(s, p.pcb, c)
    ensures var s1 := HandlePacket(s, p, announceOk);
            && |s1.pcbs| == |s1.epochs| == |s.pcbs| && ClaimOk(s1, p.pcb, c)
            && !Probing(s1.pcbs[p.pcb].state)
  {
    hide Schedule, AboutOf, Proven;
    var i := p.pcb;
    var s1 := HandlePacket(s, p, announceOk);
    if s.pcbs[i].state.Announce1? || s.pcbs[i].state.Announce2? {
      Scheduled(s.q, p, 1000);
      assert s1.q.tx == Schedule(s.q, p, 1000).tx;
    } else {
      assert s1.q.tx == s.q.tx;
    }
  }

  /** The probe of a probing interface is its only packet. */
  lemma ProbeIsAlone(s: State, p: Packet)
    requires Inv(s) && s.q.tx != [] && p == s.q.tx[0] && p.pcb < |s.pcbs| == |s.epochs| && Probing(s.pcbs[p.pcb].state)
    ensures s.hostname && p.kind.Probe? && forall x | x in s.q.tx[1..] :: x.pcb != p.pcb
    ensures !s.epochs[p.pcb].cut
  {
    hide QueueInv, CountsProbes, Carries;
    assert Healthy(s, p.pcb);
    assert Mine(s.q.tx, p.pcb) == [p] + Mine(s.q.tx[1..], p.pcb);
    assert Mine(s.q.tx[1..], p.pcb) == [];
  }

  /** The third probe completes three spaced ones. */
  lemma ThirdProves(s: State, announceOk: bool)
    requires Inv(s) && Takes(s.q) && announceOk && s.q.tx[0].pcb < |s.pcbs| == |s.epochs|
    requires s.pcbs[s.q.tx[0].pcb].state.Probe3?
    ensures Proven(s.epochs[s.q.tx[0].pcb].times + [s.q.now])
  {
    hide QueueInv, Proven, PcbOk, Schedule;
    var i := s.q.tx[0].pcb;
    ProbeIsAlone(s, s.q.tx[0]);
    assert s.q.tx[0] in s.q.tx;
    ExecuteKeeps(s, announceOk);
    var s1 := Next(s, Execution(announceOk));
    assert Healthy(s1, i);
    ThirdIsProven(s1.pcbs[i], s1.epochs[i], Mine(s1.q.tx, i), s1.hostname);
  }

  lemma ThirdIsProven(pcb: Pcb, e: Epoch, mine: seq<Packet>, hostname: bool)
    requires PcbOk(pcb, e, mine, hostname) && PastProbing(pcb.state) && hostname && !e.cut
    ensures Proven(e.times)
  {
  }

  lemma ExecutionClaims(s: State, h: History, announceOk: bool, i: nat)
    requires Claims(s, h) && i < |s.pcbs|
    ensures var s1 := Next(s, Execution(announceOk));
            && |s1.pcbs| == |s1.epochs| == |s.pcbs|
            && ClaimOk(s1, i, ClaimNext(s, Execution(announceOk), s1, i, h.claims[i]))
  {
    hide QueueInv, Proven, HandlePacket, Healthy, Hear, Prove;
    var s1, c := Next(s, Execution(announceOk)), h.claims[i];
    assert ClaimOk(s, i, c);
    if Takes(s.q) {
      var p0 := s.q.tx[0];
      assert p0 in s.q.tx;
      var p := p0.(queued := false);
      var s0 := s.(q := s.q.(tx := s.q.tx[1..], actions := s.q.actions[1..]));
      StaysOk(s, s0, i, c);
      if p.pcb != i {
        HandleOthers(s0, p, announceOk, i);
        StaysOk(s0, s1, i, c);
      } else if Probing(s.pcbs[i].state) {
        ProbeIsAlone(s, p0);
        if s.pcbs[i].state.Probe3? && announceOk {
          ThirdProves(s, announceOk);
          LastProbeClaimed(s0, p, c);
        } else {
          ProbeClaimed(s0, p, announceOk, c);
        }
      } else {
        OtherHandled(s0, p, announceOk, c);
      }
    } else {
      StaysOk(s, s1, i, c);
    }
  }

  lemma ExecutionTold(s: State, h: History, announceOk: bool)
    requires Claims(s, h)
    ensures forall x | x in ToldBy(s, h, Execution(announceOk)) :: ToldOk(x)
  {
    hide QueueInv, Proven, Healthy;
    if s.q.tx != [] && Takes(s.q) {
      var p := s.q.tx[0];
      assert p in s.q.tx;
      assert ClaimOk(s, p.pcb, h.claims[p.pcb]);
      if Probing(s.pcbs[p.pcb].state) {
        ProbeIsAlone(s, p);
      }
    }
  }

  // ----- questions and announcements -----

  lemma QuestionClaims(s: State, h: History, q: Step, i: nat)
    requires Claims(s, h) && i < |s.pcbs| && q.Question? && Proper(s, h, q)
    ensures var s1 := Next(s, q); |s1.pcbs| == |s1.epochs| == |s.pcbs| && ClaimOk(s1, i, h.claims[i])
  {
    hide QueueInv, Proven, Schedule, Healthy, AboutOf;
    assert ClaimOk(s, i, h.claims[i]);
    var p := Packet(s.q.nextId, q.pcb, Answer, 0, false, q.content);
    Scheduled(s.q.(nextId := s.q.nextId + 1), p, q.ms);
  }

  lemma JoinedIsAbout(c: Content, services: seq<Service>, ip: bool, more: bool)
    ensures AboutOf(Joined(c, services, ip, more)) <= AboutOf(c) + SetOf(services)
  {
  }

  lemma AnnouncedIsAbout(services: seq<Service>, ip: bool)
    ensures AboutOf(AnnounceContent(services, ip)) <= SetOf(services)
  {
  }

  /** A restart does not touch the other interfaces. */
  lemma RestartOthers(s: State, j: nat, services: seq<Service>, probeIp: bool, clearOld: bool, jitter: nat, i: nat)
    requires Sized(s) && j < |s.pcbs| && i < |s.pcbs| && i != j
    ensures var s1 := Restart(s, j, services, probeIp, clearOld, jitter);
            && |s1.pcbs| == |s1.epochs| == |s.pcbs| && s1.pcbs[i] == s.pcbs[i] && s1.epochs[i] == s.epochs[i]
            && s1.hostname == s.hostname && forall x | x in s1.q.tx && x.pcb == i :: x in s.q.tx
  {
    hide Merged, Others, Insert, ProbeContent;
    var pcb := if clearOld then s.pcbs[j].(services := [], running := false) else s.pcbs[j];
    var all, ip := Merged(pcb, services), pcb.probeIp || probeIp;
    var delay := (if pcb.failedProbes > 5 then 1000 else 120) + jitter % 128;
    var p := Packet(s.q.nextId, j, Probe, s.q.now + delay, false, ProbeContent(all, ip));
    forall x | x in Insert(Others(s.q.tx, j), p)
      ensures x == p || x in s.q.tx
    {
      InsertElement(Others(s.q.tx, j), p, x);
    }
  }

  lemma ReprobeClaims(s: State, h: History, r: Step, i: nat)
    requires Claims(s, h) && i < |s.pcbs| && r.Reprobe? && Legal(s, r) && forall svc :: !Abandons(s, r, i, svc)
    ensures var s1 := Next(s, r);
            && |s1.pcbs| == |s1.epochs| == |s.pcbs|
            && ClaimOk(s1, i, ClaimNext(s, r, s1, i, h.claims[i]))
  {
    hide QueueInv, Proven, Healthy, Restart;
    var s1, c := Next(s, r), h.claims[i];
    assert ClaimOk(s, i, c);
    if r.pcb == i {
      NotProbingIsEmpty(s, i);
      forall svc | r.clearOld && Probing(s.pcbs[i].state) && svc in s.pcbs[i].services
        ensures svc in r.services
      {
        assert !Abandons(s, r, i, svc);
      }
      RestartClaims(s, i, r.services, r.probeIp, r.clearOld, r.jitter, c);
    } else {
      RestartOthers(s, r.pcb, r.services, r.probeIp, r.clearOld, r.jitter, i);
      StaysOk(s, s1, i, c);
    }
  }

  lemma NotProbingIsEmpty(s: State, i: nat)
    requires Inv(s) && i < |s.pcbs|
    ensures !Probing(s.pcbs[i].state) ==> s.pcbs[i].services == []
    ensures Distinct(s.pcbs[i].services)
  {
    hide QueueInv;
    assert Healthy(s, i);
  }

  lemma AnnouncementClaims(s: State, h: History, a: Step, i: nat)
    requires Claims(s, h) && i < |s.pcbs| && a.Announcement? && Proper(s, h, a)
    ensures var s1 := Next(s, a);
            && |s1.pcbs| == |s1.epochs| == |s.pcbs|
            && ClaimOk(s1, i, ClaimNext(s, a, s1, i, h.claims[i]))
  {
    hide QueueInv, Proven, Schedule, Healthy, AboutOf, InitProbe, Joined, AnnounceContent, SetOf;
    var j, s1, c := a.pcb, Next(s, a), h.claims[i];
    assert ClaimOk(s, i, c) && ClaimOk(s, j, h.claims[j]);
    if Probing(s.pcbs[j].state) {
      var r := Reprobe(j, a.services, a.includeIp, false, a.jitter);
      assert Next(s, r) == s1;
      ReprobeClaims(s, h, r, i);
    } else if Announcing(s.pcbs[j].state) {
      var k := FirstOf(s.q.tx, j);
      if k < |s.q.tx| {
        JoinedIsAbout(s.q.tx[k].content, a.services, a.includeIp, a.more);
        PacketChanged(s, s1, k, h.claims[j], Joined(s.q.tx[k].content, a.services, a.includeIp, a.more), i, c);
      }
    } else if s.pcbs[j].state.Running? && s.hostname {
      AnnouncedIsAbout(a.services, a.includeIp);
      var p := Packet(s.q.nextId, j, Announce, 0, false, AnnounceContent(a.services, a.includeIp));
      Scheduled(s.q.(nextId := s.q.nextId + 1), p, 0);
    }
  }

  /** A waiting packet of an interface that is not probing gets other content, about services of the interface. */
  lemma PacketChanged(s: State, s1: State, k: nat, cj: Claim, content: Content, i: nat, c: Claim)
    requires i < |s.pcbs| == |s.epochs| && ClaimOk(s, i, c) && k < |s.q.tx| && s.q.tx[k].pcb < |s.pcbs|
    requires s1.epochs == s.epochs && |s1.pcbs| == |s.pcbs| && s1.hostname == s.hostname
    requires s1.q.tx == s.q.tx[k := s.q.tx[k].(content := content)]
    requires forall n | 0 <= n < |s.pcbs| :: s1.pcbs[n].(state := s.pcbs[n].state) == s.pcbs[n]
    requires Probing(s1.pcbs[i].state) == Probing(s.pcbs[i].state) && Ready(s1.pcbs[i]) == Ready(s.pcbs[i])
    requires s.q.tx[k].pcb == i ==> !Probing(s.pcbs[i].state) && AboutOf(content) <= c.claimed
    ensures ClaimOk(s1, i, c)
  {
    hide AboutOf, Proven;
    assert s1.pcbs[i].services == s.pcbs[i].services && s1.pcbs[i].probeIp == s.pcbs[i].probeIp;
    forall p | p in s1.q.tx && p.pcb == i
      ensures p in s.q.tx || (p.content == content && s.q.tx[k].pcb == i)
    {
      var n :| 0 <= n < |s1.q.tx| && s1.q.tx[n] == p;
      assert n != k ==> s.q.tx[n] == p;
    }
  }

  // ----- removing a service -----

  lemma DroppedIsAbout(c: Content, svc: Service)
    ensures AboutOf(Dropped(c, svc)) == AboutOf(c) - {svc}
  {
  }

  /** Without a service, what a probe carries. */
  lemma {:induction false} ProbeWithout(services: seq<Service>, ip: bool, svc: Service)
    requires Distinct(services) && svc in services && FirstOfKindIs(services, svc)
    ensures var d := Dropped(ProbeContent(services, ip), svc);
            d.(asks := WithoutKind(d.asks, svc.kind)) == ProbeContent(Without(services, svc), ip)
  {
    WithoutOne(services, svc);
    OwnQuestionGoes(services, svc);
    var d, e := Dropped(ProbeContent(services, ip), svc), ProbeContent(Without(services, svc), ip);
    assert d.servers == e.servers;
  }

  lemma NotProbed(services: seq<Service>, ip: bool, svc: Service)
    requires svc !in services
    ensures Dropped(ProbeContent(services, ip), svc) == ProbeContent(services, ip)
  {
  }

  /** The packets of an interface that is not probing, after the walk. */
  lemma {:induction false} OtherDropped(pcb: Pcb, mine: seq<Packet>, svc: Service)
    requires !Probing(pcb.state)
    ensures var (next, mine') := SweepOne(pcb, mine, svc);
            && (next == pcb || (PastProbing(pcb.state) && next == pcb.(state := Running)))
            && forall y | y in mine' :: exists x :: x in mine && y.content == Dropped(x.content, svc)
    decreases |mine|
  {
    hide Dropped;
    if mine != [] {
      var (next, c) := Passed(pcb, mine[0].content, svc);
      OtherDropped(next, mine[1..], svc);
      var rest := SweepOne(next, mine[1..], svc).1;
      forall y | y in SweepOne(pcb, mine, svc).1
        ensures exists x :: x in mine && y.content == Dropped(x.content, svc)
      {
        if y in rest {
          var x :| x in mine[1..] && y.content == Dropped(x.content, svc);
          assert x in mine;
        } else {
          assert mine[0] in mine;
        }
      }
    }
  }

  /** The probe of a probing interface, after a removal that takes out its own question. */
  lemma ProbeDropped(pcb: Pcb, x: Packet, svc: Service)
    requires Probing(pcb.state) && Distinct(pcb.services) && x.content == ProbeContent(pcb.services, pcb.probeIp)
    requires svc in pcb.services ==> FirstOfKindIs(pcb.services, svc)
    ensures var (next, mine') := SweepOne(pcb, [x], svc);
            && (Probing(next.state) ==>
                  && next == pcb.(services := if svc in pcb.services then Without(pcb.services, svc) else pcb.services)
                  && forall y | y in mine' :: y.content == ProbeContent(next.services, next.probeIp))
            && (!Probing(next.state) ==> next.state.Running? && mine' == [] && pcb.services == [svc])
  {
    hide Dropped, WithoutKind, Without, ProbeContent;
    SingleRest(x, pcb, svc);
    if svc in pcb.services {
      ProbeWithout(pcb.services, pcb.probeIp, svc);
      WithoutOne(pcb.services, svc);
      OnlyOne(pcb.services, svc);
      EmptyProbe();
    } else {
      NotProbed(pcb.services, pcb.probeIp, svc);
    }
  }

  lemma OnlyOne(services: seq<Service>, svc: Service)
    requires svc in services
    ensures |services| == 1 ==> services == [svc] && Without(services, svc) == []
  {
  }

  lemma EmptyProbe()
    ensures Empty(ProbeContent([], false))
  {
  }

  lemma RemovalClaims(s: State, h: History, svc: Service, i: nat)
    requires Claims(s, h) && i < |s.pcbs| && !Misdirects(s, Removal(svc), i)
    ensures var s1 := Next(s, Removal(svc));
            && |s1.pcbs| == |s1.epochs| == |s.pcbs| && ClaimOk(s1, i, Forget(h.claims[i], svc))
  {
    hide Claims, ClaimOk, RemoveService;
    ClaimThere(s, h, i);
    if Probing(s.pcbs[i].state) {
      ProbingRemoval(s, svc, i, h.claims[i]);
    } else {
      OtherRemoval(s, svc, i, h.claims[i]);
    }
  }

  lemma ClaimThere(s: State, h: History, i: nat)
    requires Claims(s, h) && i < |s.pcbs|
    ensures Inv(s) && |h.claims| == |s.pcbs| == |s.epochs| && ClaimOk(s, i, h.claims[i])
  {
    hide Inv, ClaimOk;
  }

  /** The packets and the interface after the walk. */
  lemma AfterWalk(s: State, svc: Service, i: nat)
    requires Inv(s) && i < |s.pcbs|
    ensures var s1 := RemoveService(s, svc);
            && |s1.pcbs| == |s1.epochs| == |s.pcbs| && s1.hostname == s.hostname
            && s1.epochs[i].times == s.epochs[i].times
            && s1.pcbs[i] == SweepOne(s.pcbs[i], Mine(s.q.tx, i), svc).0
            && forall y | y in s1.q.tx && y.pcb == i :: y in SweepOne(s.pcbs[i], Mine(s.q.tx, i), svc).1
  {
    hide QueueInv, Healthy, Sweep, SweepOne;
    InterfaceSwept(s, svc, i);
    SweepIsPerInterface(s.pcbs, s.q.tx, svc, i);
    var s1 := RemoveService(s, svc);
    assert forall y | y in s1.q.tx && y.pcb == i :: y in Mine(s1.q.tx, i);
  }

  lemma ProbingRemoval(s: State, svc: Service, i: nat, c: Claim)
    requires Inv(s) && i < |s.pcbs| == |s.epochs| && ClaimOk(s, i, c) && Probing(s.pcbs[i].state)
    requires !Misdirects(s, Removal(svc), i)
    ensures var s1 := RemoveService(s, svc);
            && |s1.pcbs| == |s1.epochs| == |s.pcbs| && ClaimOk(s1, i, Forget(c, svc))
  {
    hide QueueInv, Proven, Healthy, RemoveService, SweepOne, ProbeContent, AboutOf, Without, Mine, FirstOfKindIs;
    AfterWalk(s, svc, i);
    NotProbingIsEmpty(s, i);
    OneProbeThere(s, i);
    var pcb := s.pcbs[i];
    ProbeDropped(pcb, Mine(s.q.tx, i)[0], svc);
    if svc in pcb.services {
      WithoutOne(pcb.services, svc);
    }
  }

  lemma OtherRemoval(s: State, svc: Service, i: nat, c: Claim)
    requires Inv(s) && i < |s.pcbs| == |s.epochs| && ClaimOk(s, i, c) && !Probing(s.pcbs[i].state)
    ensures var s1 := RemoveService(s, svc);
            && |s1.pcbs| == |s1.epochs| == |s.pcbs| && ClaimOk(s1, i, Forget(c, svc))
  {
    hide QueueInv, Proven, Healthy, RemoveService, SweepOne, Dropped, AboutOf;
    AfterWalk(s, svc, i);
    NotProbingIsEmpty(s, i);
    var s1, mine := RemoveService(s, svc), Mine(s.q.tx, i);
    OtherDropped(s.pcbs[i], mine, svc);
    forall y | y in s1.q.tx && y.pcb == i
      ensures AboutOf(y.content) <= c.claimed - {svc}
    {
      var x :| x in mine && y.content == Dropped(x.content, svc);
      DroppedIsAbout(x.content, svc);
    }
  }

  lemma OneProbeThere(s: State, i: nat)
    requires Inv(s) && i < |s.pcbs| && Probing(s.pcbs[i].state)
    ensures var mine := Mine(s.q.tx, i); |mine| == 1 && mine == [mine[0]] && mine[0] in s.q.tx && mine[0].pcb == i
  {
    hide QueueInv;
    assert Healthy(s, i);
    var mine := Mine(s.q.tx, i);
    assert mine[0] in mine;
  }

  // ----- a new host name -----

  /** The interfaces below n, restarted one by one from an empty queue. */
  ghost predicate Restarted(s: State, r: State, n: nat, services: seq<Service>)
    requires n <= |s.pcbs| == |s.epochs|
  {
    && |r.pcbs| == |r.epochs| == |s.pcbs| && r.hostname
    && (forall i | 0 <= i < |s.pcbs| && (i >= n || !Ready(s.pcbs[i])) ::
         r.pcbs[i] == s.pcbs[i] && r.epochs[i] == s.epochs[i])
    && (forall i | 0 <= i < n && Ready(s.pcbs[i]) ::
          r.pcbs[i].state.Probe1? && r.pcbs[i].services == services && r.epochs[i].times == [])
    && forall p | p in r.q.tx ::
         p.pcb < n && Ready(s.pcbs[p.pcb]) && p.content == ProbeContent(r.pcbs[p.pcb].services, r.pcbs[p.pcb].probeIp)
  }

  lemma {:induction false} NotInNone(services: seq<Service>)
    ensures NotIn(services, []) == services
    decreases |services|
  {
    if services != [] {
      NotInNone(services[1..]);
    }
  }

  lemma {:induction false} AllRestarted(s: State, n: nat, services: seq<Service>, jitters: seq<nat>)
    requires n <= |s.pcbs| == |s.epochs| == |jitters| && s.hostname && s.q.tx == []
    ensures Restarted(s, RestartReady(s, n, services, jitters), n, services)
    decreases n
  {
    hide Restart, ProbeContent, Ready;
    if n > 0 {
      AllRestarted(s, n - 1, services, jitters);
      var r := RestartReady(s, n - 1, services, jitters);
      if Ready(r.pcbs[n - 1]) {
        OneMore(s, r, n, services, jitters[n - 1]);
      }
    }
  }

  lemma OneMore(s: State, r: State, n: nat, services: seq<Service>, jitter: nat)
    requires 0 < n <= |s.pcbs| == |s.epochs| && Restarted(s, r, n - 1, services) && Ready(s.pcbs[n - 1])
    ensures Restarted(s, Restart(r, n - 1, services, true, true, jitter), n, services)
  {
    hide Restart, ProbeContent, Ready;
    var r1 := Restart(r, n - 1, services, true, true, jitter);
    RestartLeaves(r, n - 1, services, true, true, jitter);
    NotInNone(services);
    assert services + [] == services;
    forall i | 0 <= i < |s.pcbs| && i != n - 1
      ensures r1.pcbs[i] == r.pcbs[i] && r1.epochs[i] == r.epochs[i]
      ensures forall x | x in r1.q.tx && x.pcb == i :: x in r.q.tx
    {
      RestartOthers(r, n - 1, services, true, true, jitter, i);
    }
    RestartSized(r, n - 1, services, jitter);
    forall p | p in r1.q.tx
      ensures p.pcb < n && Ready(s.pcbs[p.pcb])
              && p.content == ProbeContent(r1.pcbs[p.pcb].services, r1.pcbs[p.pcb].probeIp)
    {
      if p.pcb != n - 1 {
        RestartOthers(r, n - 1, services, true, true, jitter, p.pcb);
      }
    }
  }

  lemma RestartSized(r: State, j: nat, services: seq<Service>, jitter: nat)
    requires Sized(r) && j < |r.pcbs|
    ensures forall x | x in Restart(r, j, services, true, true, jitter).q.tx :: x.pcb < |r.pcbs|
  {
    hide Merged, Others, Insert, ProbeContent;
    var pcb := r.pcbs[j].(services := [], running := false);
    var delay := (if pcb.failedProbes > 5 then 1000 else 120) + jitter % 128;
    var p := Packet(r.q.nextId, j, Probe, r.q.now + delay, false, ProbeContent(Merged(pcb, services), true));
    forall x | x in Insert(Others(r.q.tx, j), p)
      ensures x == p || x in r.q.tx
    {
      InsertElement(Others(r.q.tx, j), p, x);
    }
  }

  lemma HostnameClaims(s: State, h: History, n: Step, i: nat)
    requires Claims(s, h) && i < |s.pcbs| && n.Hostname? && Proper(s, h, n)
    ensures var s1 := Next(s, n);
            && |s1.pcbs| == |s1.epochs| == |s.pcbs|
            && ClaimOk(s1, i, ClaimNext(s, n, s1, i, h.claims[i]))
  {
    hide QueueInv, Proven, Healthy, RestartReady, ProbeContent, AboutOf;
    var s1, c := Next(s, n), h.claims[i];
    assert ClaimOk(s, i, c);
    AllRestarted(s.(hostname := true, q := s.q.(tx := [])), |s.pcbs|, n.services, n.jitters);
    assert h.claims[i].claimed <= SetOf(n.services);
  }

  // ----- every run -----

  /** Steps that leave every interface's list, times and kinds of content as they are. */
  lemma QuietClaims(s: State, h: History, step: Step, i: nat)
    requires Claims(s, h) && i < |s.pcbs| && Proper(s, h, step)
    requires step.Tick? || step.Timer? || step.Post? || step.Bye? || step.FailedProbe?
    ensures var s1 := Next(s, step); |s1.pcbs| == |s1.epochs| == |s.pcbs| && ClaimOk(s1, i, h.claims[i])
  {
    hide QueueInv, Proven, Healthy, AboutOf;
    assert ClaimOk(s, i, h.claims[i]);
    var s1 := Next(s, step);
    forall p | p in s1.q.tx && p.pcb == i
      ensures exists x :: x in s.q.tx && x.pcb == i && x.content == p.content
    {
      var n :| 0 <= n < |s1.q.tx| && s1.q.tx[n] == p;
      assert s.q.tx[n] in s.q.tx;
    }
    StaysOk(s, s1, i, h.claims[i]);
  }

  lemma FewerAnswers(c: Content, a: About)
    ensures AboutOf(c.(answers := c.answers - {a})) <= AboutOf(c)
  {
  }

  lemma KnownClaims(s: State, h: History, k: Step, i: nat)
    requires Claims(s, h) && i < |s.pcbs| && k.Known?
    ensures var s1 := Next(s, k); |s1.pcbs| == |s1.epochs| == |s.pcbs| && ClaimOk(s1, i, h.claims[i])
  {
    hide QueueInv, Proven, AboutOf;
    assert ClaimOk(s, i, h.claims[i]);
    var at := k.at;
    if at < |s.q.tx| && s.q.tx[at].kind.Answer? {
      var p := s.q.tx[at];
      FewerAnswers(p.content, k.about);
      assert p in s.q.tx;
      if p.pcb == i && Probing(s.pcbs[i].state) {
        OneProbeKind(s, i, p);
      }
      PacketChanged(s, Next(s, k), at, h.claims[i], p.content.(answers := p.content.answers - {k.about}), i,
                    h.claims[i]);
    } else {
      StaysOk(s, Next(s, k), i, h.claims[i]);
    }
  }

  lemma OneProbeKind(s: State, i: nat, p: Packet)
    requires Inv(s) && i < |s.pcbs| && Probing(s.pcbs[i].state) && p in s.q.tx && p.pcb == i
    ensures p.kind.Probe?
  {
    hide QueueInv, Carries;
    assert Healthy(s, i);
    assert p in Mine(s.q.tx, i);
  }

  lemma StopClaims(s: State, h: History, t: Step, i: nat)
    requires Claims(s, h) && i < |s.pcbs| && t.Stop? && Legal(s, t)
    ensures var s1 := Next(s, t);
            && |s1.pcbs| == |s1.epochs| == |s.pcbs|
            && ClaimOk(s1, i, ClaimNext(s, t, s1, i, h.claims[i]))
  {
    hide QueueInv, Proven, Healthy, AboutOf;
    assert ClaimOk(s, i, h.claims[i]);
  }

  /** Every harmless step keeps every interface's claims in order. */
  lemma InterfaceClaims(s: State, h: History, step: Step, i: nat)
    requires Claims(s, h) && i < |s.pcbs| && Proper(s, h, step) && Harmless(s, step)
    ensures var s1 := Next(s, step);
            && |s1.pcbs| == |s1.epochs| == |s.pcbs|
            && ClaimOk(s1, i, ClaimNext(s, step, s1, i, h.claims[i]))
  {
    hide Claims, ClaimOk, Next, Abandons, Misdirects;
    assert !Misdirects(s, step, i);
    if step.Reprobe? {
      ReprobeClaims(s, h, step, i);
    } else {
      InterfaceHarmless(s, h, step, i);
    }
  }

  lemma AllTold(s: State, h: History, step: Step)
    requires Claims(s, h) && Proper(s, h, step)
    ensures forall x | x in ToldBy(s, h, step) :: ToldOk(x)
  {
    hide QueueInv, Proven, Healthy, AboutOf;
    if step.Execution? {
      ExecutionTold(s, h, step.announceOk);
    } else if step.Question? {
      assert ClaimOk(s, step.pcb, h.claims[step.pcb]);
    }
  }

  /** Every harmless step keeps the claims in order. */
  lemma ClaimsKeep(s: State, h: History, step: Step)
    requires Claims(s, h) && Proper(s, h, step) && Harmless(s, step)
    ensures |Next(s, step).pcbs| == |s.pcbs| && Claims(Next(s, step), HistoryNext(s, h, step))
  {
    hide Next, ClaimOk, ToldBy, ClaimNext, Harmless, ToldOk;
    StepKeeps(s, step);
    var s1 := Next(s, step);
    forall i | 0 <= i < |s.pcbs|
      ensures |s1.pcbs| == |s1.epochs| == |s.pcbs| && ClaimOk(s1, i, ClaimNext(s, step, s1, i, h.claims[i]))
    {
      InterfaceClaims(s, h, step, i);
    }
    SizeKept(s, step);
    AllTold(s, h, step);
  }

  /** The number of interfaces does not change. */
  lemma SizeKept(s: State, step: Step)
    requires Inv(s) && Legal(s, step)
    ensures |Next(s, step).pcbs| == |s.pcbs|
  {
    hide QueueInv, Healthy, InitProbe, HandlePacket, Sweep, Schedule;
    match step
    case Execution(announceOk) =>
      if Takes(s.q) {
        assert s.q.tx[0] in s.q.tx;
        HandledSize(s.(q := s.q.(tx := s.q.tx[1..], actions := s.q.actions[1..])), s.q.tx[0].(queued := false),
                    announceOk);
      }
    case Reprobe(i, services, probeIp, clearOld, jitter) => RestartSizes(s, i, services, probeIp, clearOld, jitter);
    case Announcement(i, services, includeIp, _, jitter) => RestartSizes(s, i, services, includeIp, false, jitter);
    case _ =>
  }

  lemma HandledSize(s: State, p: Packet, announceOk: bool)
    requires p.pcb < |s.pcbs| == |s.epochs|
    ensures |HandlePacket(s, p, announceOk).pcbs| == |s.pcbs|
  {
    hide Schedule;
  }

  /** A responder that has just been started has nothing to claim. */
  function NoHistory(n: nat): History {
    History(seq(n, _ => NO_CLAIM), [])
  }

  lemma StartClaims(n: nat, now: nat)
    ensures Claims(Start(n, now), NoHistory(n))
  {
    hide QueueInv;
    StartIsInv(n, now);
  }

  /** Reached from a started responder by proper, harmless steps, with the history they make. */
  ghost predicate ReachesWith(n: nat, now: nat, steps: seq<Step>, s: State, h: History)
    decreases |steps|
  {
    if steps == [] then s == Start(n, now) && h == NoHistory(n)
    else
      var step := steps[|steps| - 1];
      exists s0, h0 ::
        && ReachesWith(n, now, steps[..|steps| - 1], s0, h0) && Follows(s0, h0, step, s, h)
  }

  ghost predicate Follows(s0: State, h0: History, step: Step, s: State, h: History) {
    && Sized(s0) && |h0.claims| == |s0.pcbs| && Proper(s0, h0, step) && Harmless(s0, step)
    && s == Next(s0, step) && |s.pcbs| == |s0.pcbs| && h == HistoryNext(s0, h0, step)
  }

  lemma {:induction false} ReachedClaims(n: nat, now: nat, steps: seq<Step>, s: State, h: History)
    requires ReachesWith(n, now, steps, s, h)
    ensures Claims(s, h)
    decreases |steps|
  {
    hide Next, Claims, Proper, Harmless, HistoryNext;
    if steps == [] {
      StartClaims(n, now);
    } else {
      var step := steps[|steps| - 1];
      var s0, h0 :| ReachesWith(n, now, steps[..|steps| - 1], s0, h0) && Follows(s0, h0, step, s, h);
      ReachedClaims(n, now, steps[..|steps| - 1], s0, h0);
      ClaimsKeep(s0, h0, step);
    }
  }

  /**
   In every run without a harmful step: whatever goes out under a host name besides probes,
   announcements made from a probe included, is about services for each of which three spaced
   probes asked on that interface when it was last put up for probing.
   */
  lemma {:induction false} WhatIsToldWasAsked(n: nat, now: nat, steps: seq<Step>, s: State, h: History, x: Told,
                                              svc: Service)
    requires ReachesWith(n, now, steps, s, h) && x in h.told && x.hostname && svc in x.about
    ensures svc in x.claim.proven && Proven(x.claim.proven[svc])
  {
    hide ReachesWith, Proven;
    ReachedClaims(n, now, steps, s, h);
    assert ToldOk(x);
  }

  /** In such a run the live probe of a probing interface asks for exactly the services on its list. */
  lemma {:induction false} ProbeAsksForList(n: nat, now: nat, steps: seq<Step>, s: State, h: History, p: Packet)
    requires ReachesWith(n, now, steps, s, h) && p in s.q.tx && p.pcb < |s.pcbs| && Probing(s.pcbs[p.pcb].state)
    ensures p.content.asks == s.pcbs[p.pcb].services
  {
    hide ReachesWith, Proven;
    ReachedClaims(n, now, steps, s, h);
    assert ClaimOk(s, p.pcb, h.claims[p.pcb]);
  }

  // ----- exactly when the two kinds of steps do harm -----

  /** The interface may speak about a service that no completed probing stands for and no probing is under way for. */
  ghost predicate PassedOver(s: State, h: History, i: nat, svc: Service)
    requires i < |s.pcbs| == |h.claims|
  {
    && s.hostname && svc in h.claims[i].claimed && !Vouched(h.claims[i], svc)
    && !(Probing(s.pcbs[i].state) && svc in s.pcbs[i].services)
  }

  /**
   From a state in order, a step that takes out no other service's question passes over a service
   if and only if it is a restart that clears the list of a probing interface with the service on it
   and does not name the service again.
   */
  lemma {:induction false} AbandonedExactly(s: State, h: History, step: Step, i: nat, svc: Service)
    requires Claims(s, h) && Proper(s, h, step) && i < |s.pcbs| && !Misdirects(s, step, i)
    ensures var s1 := Next(s, step);
            && |s1.pcbs| == |s.pcbs|
            && (PassedOver(s1, HistoryNext(s, h, step), i, svc) <==> Abandons(s, step, i, svc))
  {
    hide Claims, Next, Proven;
    ClaimThere(s, h, i);
    SizeKept(s, step);
    if step.Reprobe? && step.pcb == i {
      RestartPassesOver(s, step, i, svc, h.claims[i]);
    } else {
      InterfaceHarmless(s, h, step, i);
    }
  }

  /** What one restart passes over. */
  lemma RestartPassesOver(s: State, r: Step, i: nat, svc: Service, c: Claim)
    requires Inv(s) && r.Reprobe? && r.pcb == i && Legal(s, r) && i < |s.epochs| && ClaimOk(s, i, c)
    ensures var s1 := Next(s, r);
            && |s1.pcbs| == |s.pcbs|
            && var c1 := PutUp(c, r.services, s1.pcbs[i].services);
               (s1.hostname && svc in c1.claimed && !Vouched(c1, svc)
                && !(Probing(s1.pcbs[i].state) && svc in s1.pcbs[i].services)
                <==> Abandons(s, r, i, svc))
  {
    hide QueueInv, Healthy, Restart, Merged, Proven;
    NotProbingIsEmpty(s, i);
    HostNamed(s, i);
    RestartSizes(s, i, r.services, r.probeIp, r.clearOld, r.jitter);
    if s.hostname {
      RestartLeaves(s, i, r.services, r.probeIp, r.clearOld, r.jitter);
      MergedMembers(if r.clearOld then s.pcbs[i].(services := [], running := false) else s.pcbs[i], r.services);
    } else {
      RestartWithoutHost(s, i, r.services, r.probeIp, r.clearOld, r.jitter);
    }
  }

  lemma HostNamed(s: State, i: nat)
    requires Inv(s) && i < |s.pcbs|
    ensures Probing(s.pcbs[i].state) ==> s.hostname
    ensures |s.epochs| == |s.pcbs| && Sized(s)
  {
    hide QueueInv;
    assert Healthy(s, i);
  }

  /** Any other step keeps the claims of the interface, whatever it does to others. */
  lemma InterfaceHarmless(s: State, h: History, step: Step, i: nat)
    requires Claims(s, h) && i < |s.pcbs| && Proper(s, h, step) && !Misdirects(s, step, i)
    requires !(step.Reprobe? && step.pcb == i)
    ensures var s1 := Next(s, step);
            && |s1.pcbs| == |s1.epochs| == |s.pcbs|
            && ClaimOk(s1, i, ClaimNext(s, step, s1, i, h.claims[i]))
  {
    hide Claims, ClaimOk, Next, Misdirects;
    match step
    case Execution(announceOk) => ExecutionClaims(s, h, announceOk, i);
    case Reprobe(_, _, _, _, _) => ReprobeClaims(s, h, step, i);
    case Hostname(_, _) => HostnameClaims(s, h, step, i);
    case Question(_, _, _, _) => QuestionClaims(s, h, step, i);
    case Announcement(_, _, _, _, _) => AnnouncementClaims(s, h, step, i);
    case Removal(svc) => RemovalClaims(s, h, svc, i);
    case Known(_, _) => KnownClaims(s, h, step, i);
    case Stop(_, _) => StopClaims(s, h, step, i);
    case _ => QuietClaims(s, h, step, i);
  }

  /**
   From a state in order, after the removal of a service from a probing interface that goes on
   probing, the live probe asks for exactly the services left on the list if and only if the removed
   service was the first of its type there.
   */
  lemma {:induction false} MisdirectedExactly(s: State, h: History, svc: Service, i: nat, p: Packet)
    requires Claims(s, h) && i < |s.pcbs| && Probing(s.pcbs[i].state) && svc in s.pcbs[i].services
    requires var s1 := RemoveService(s, svc);
             |s1.pcbs| == |s.pcbs| && p in s1.q.tx && p.pcb == i && Probing(s1.pcbs[i].state)
    ensures p.content.asks == RemoveService(s, svc).pcbs[i].services <==> FirstOfKindIs(s.pcbs[i].services, svc)
  {
    hide QueueInv, Proven, Healthy, RemoveService, AboutOf, Without, WithoutKind, Mine, FirstOfKindIs, Claims;
    ClaimThere(s, h, i);
    HostNamed(s, i);
    AfterWalk(s, svc, i);
    NotProbingIsEmpty(s, i);
    OneProbeThere(s, i);
    var x := Mine(s.q.tx, i)[0];
    SingleRest(x, s.pcbs[i], svc);
    OwnQuestionGoes(s.pcbs[i].services, svc);
    WithoutOne(s.pcbs[i].services, svc);
  }

  // ----- the inputs -----

  /** Proper steps, harmful or not, lead from one state and history to another. */
  ghost predicate Leads(s: State, h: History, steps: seq<Step>, s1: State, h1: History)
    decreases |steps|
  {
    if steps == [] then s1 == s && h1 == h
    else
      && Sized(s) && |h.claims| == |s.pcbs| && Proper(s, h, steps[0]) && |Next(s, steps[0]).pcbs| == |s.pcbs|
      && Leads(Next(s, steps[0]), HistoryNext(s, h, steps[0]), steps[1..], s1, h1)
  }

  /** The interface may speak about the service, and no probing of it has been completed. */
  ghost predicate Unproven(s: State, h: History, i: nat, a: Service) {
    i < |s.pcbs| == |h.claims| && a in h.claims[i].claimed && a !in h.claims[i].proven
  }

  /** A restart for one service on an interface that does not probe for its address. */
  lemma PutUpAlone(s: State, h: History, i: nat, x: Service, clearOld: bool, jitter: nat)
    requires Inv(s) && |h.claims| == |s.pcbs| && i < |s.pcbs| && s.hostname && !s.pcbs[i].probeIp && Ready(s.pcbs[i])
    requires s.pcbs[i].services == [] || clearOld
    ensures var r := Reprobe(i, [x], false, clearOld, jitter);
            && Sized(s) && Proper(s, h, r) && |Next(s, r).pcbs| == |s.pcbs|
            && var s1, h1 := Next(s, r), HistoryNext(s, h, r);
               && Inv(s1) && s1.hostname && !s1.pcbs[i].probeIp && Probing(s1.pcbs[i].state)
               && s1.pcbs[i].services == [x] && s1.log == s.log && h1.told == h.told
               && Unproven(s1, h1, i, x) && forall a :: Unproven(s, h, i, a) ==> Unproven(s1, h1, i, a)
  {
    hide QueueInv, Proven, Healthy, Restart, Merged;
    var r := Reprobe(i, [x], false, clearOld, jitter);
    HostNamed(s, i);
    assert Distinct([x]);
    StepKeeps(s, r);
    SizeKept(s, r);
    RestartLeaves(s, i, [x], false, clearOld, jitter);
    RestartLogs(s, i, [x], false, clearOld, jitter);
    MergedFresh(if clearOld then s.pcbs[i].(services := [], running := false) else s.pcbs[i], [x]);
    assert x in SetOf([x]);
  }

  /** The removal of the only service. */
  lemma TakenAway(s: State, h: History, i: nat, x: Service)
    requires Inv(s) && |h.claims| == |s.pcbs| && i < |s.pcbs| && EndsProbing(s.pcbs[i], x) && s.hostname
    ensures Sized(s) && Proper(s, h, Removal(x)) && |Next(s, Removal(x)).pcbs| == |s.pcbs|
    ensures var s1, h1 := Next(s, Removal(x)), HistoryNext(s, h, Removal(x));
            && Inv(s1) && PastProbing(s1.pcbs[i].state) && s1.log == s.log && h1.told == h.told && s1.hostname
            && forall a :: a != x && Unproven(s, h, i, a) ==> Unproven(s1, h1, i, a)
  {
    hide QueueInv, Proven, Healthy, RemoveService;
    HostNamed(s, i);
    StepKeeps(s, Removal(x));
    SizeKept(s, Removal(x));
    InterfaceSwept(s, x, i);
    RemovalLogs(s, x);
  }

  /**
   A service is put up for probing and, before its first probe, a restart for another service
   clears the list; when that one is removed, the first is answered for and was never asked for.
   */
  lemma {:induction false} AbandonedIsTold(s: State, h: History, i: nat, a: Service, b: Service, j1: nat, j2: nat,
                                           content: Content) returns (s3: State, h3: History)
    requires Claims(s, h) && i < |s.pcbs| && s.hostname && s.pcbs[i].state.Running? && !s.pcbs[i].probeIp && a != b
    requires AboutOf(content) == {a}
    ensures Leads(s, h, [Reprobe(i, [a], false, false, j1), Reprobe(i, [b], false, true, j2), Removal(b)], s3, h3)
    ensures s3.log == s.log && Sized(s3) && |h3.claims| == |s3.pcbs| == |s.pcbs|
    ensures Proper(s3, h3, Question(i, false, 0, content)) && PassedOver(s3, h3, i, a)
    ensures |Next(s3, Question(i, false, 0, content)).pcbs| == |s3.pcbs|
    ensures HistoryNext(s3, h3, Question(i, false, 0, content)).told == h.told + [Told(i, {a}, true, h3.claims[i])]
  {
    hide Inv, Proven, AboutOf, Proper, HistoryNext, Next, ClaimOk, Unproven;
    var r1, r2 := Reprobe(i, [a], false, false, j1), Reprobe(i, [b], false, true, j2);
    ClaimThere(s, h, i);
    NotProbingIsEmpty(s, i);
    PutUpAlone(s, h, i, a, false, j1);
    var s1, h1 := Next(s, r1), HistoryNext(s, h, r1);
    PutUpAlone(s1, h1, i, b, true, j2);
    var s2, h2 := Next(s1, r2), HistoryNext(s1, h1, r2);
    TakenAway(s2, h2, i, b);
    s3, h3 := Next(s2, Removal(b)), HistoryNext(s2, h2, Removal(b));
    LeadsThree(s, h, r1, r2, Removal(b), s1, h1, s2, h2, s3, h3);
    AnswersUnproven(s3, h3, i, a, content);
  }

  lemma LeadsThree(s: State, h: History, r1: Step, r2: Step, r3: Step, s1: State, h1: History, s2: State, h2: History,
                   s3: State, h3: History)
    requires Sized(s) && |h.claims| == |s.pcbs| && Proper(s, h, r1) && s1 == Next(s, r1) && |s1.pcbs| == |s.pcbs|
    requires h1 == HistoryNext(s, h, r1) && Sized(s1) && Proper(s1, h1, r2) && s2 == Next(s1, r2)
    requires |s2.pcbs| == |s1.pcbs| && h2 == HistoryNext(s1, h1, r2) && Sized(s2) && Proper(s2, h2, r3)
    requires s3 == Next(s2, r3) && |s3.pcbs| == |s2.pcbs| && h3 == HistoryNext(s2, h2, r3)
    ensures Leads(s, h, [r1, r2, r3], s3, h3)
  {
    hide Next, Proper, HistoryNext;
    assert [r1, r2, r3][1..] == [r2, r3] && [r2, r3][1..] == [r3] && [r3][1..] == [];
    assert Leads(s3, h3, [], s3, h3);
    assert Leads(s2, h2, [r3], s3, h3);
    assert Leads(s1, h1, [r2, r3], s3, h3);
  }

  lemma AnswersUnproven(s: State, h: History, i: nat, a: Service, content: Content)
    requires Inv(s) && Unproven(s, h, i, a) && s.hostname && PastProbing(s.pcbs[i].state) && AboutOf(content) == {a}
    ensures var q := Question(i, false, 0, content);
            && Sized(s) && |h.claims| == |s.pcbs| && Proper(s, h, q) && |Next(s, q).pcbs| == |s.pcbs|
            && PassedOver(s, h, i, a)
            && HistoryNext(s, h, q).told == h.told + [Told(i, {a}, true, h.claims[i])]
  {
    hide QueueInv, Proven, Healthy, AboutOf;
  }

  lemma MergedFresh(pcb: Pcb, services: seq<Service>)
    requires pcb.services == []
    ensures Merged(pcb, services) == services
  {
    NotInNone(services);
    assert services + [] == services;
  }

  lemma RestartLogs(s: State, i: nat, services: seq<Service>, probeIp: bool, clearOld: bool, jitter: nat)
    requires Sized(s) && i < |s.pcbs|
    ensures var s1 := Restart(s, i, services, probeIp, clearOld, jitter);
            s1.log == s.log && s1.pcbs[i].probeIp
                == (if s.hostname then s.pcbs[i].probeIp || probeIp else s.pcbs[i].probeIp)
  {
    hide Merged, Schedule, Others;
  }

  lemma RemovalLogs(s: State, svc: Service)
    requires Sized(s)
    ensures RemoveService(s, svc).log == s.log && RemoveService(s, svc).hostname == s.hostname
  {
    hide Sweep;
  }

  /**
   Of two services of one type on the list, the removal of the second leaves a probe that asks for
   it, and not for the first.
   */
  lemma WrongQuestionStays(s: State, h: History, i: nat, a: Service, b: Service, p: Packet)
    requires Claims(s, h) && i < |s.pcbs| && Probing(s.pcbs[i].state) && s.pcbs[i].services == [a, b]
    requires a != b && a.kind == b.kind
    requires |RemoveService(s, b).pcbs| == |s.pcbs| && p in RemoveService(s, b).q.tx && p.pcb == i
    ensures RemoveService(s, b).pcbs[i].services == [a] && p.content.asks == [b]
  {
    hide QueueInv, Proven, Healthy, RemoveService, AboutOf, Mine, Claims;
    ClaimThere(s, h, i);
    HostNamed(s, i);
    AfterWalk(s, b, i);
    OneProbeThere(s, i);
    SingleRest(Mine(s.q.tx, i)[0], s.pcbs[i], b);
    assert [a, b][1..] == [b] && [b][1..] == [];
    assert Without([a, b], b) == [a] + Without([b], b) && WithoutKind([a, b], b.kind) == [b];
  }
}
