/**
 What does go out: the third probe turns into an announcement of exactly what was probed for, an
 undisturbed interface sends three probes and three announcements in time and then runs, answers that
 wait are sent, and a removed service is not spoken of any more.
 */
module ProbeDelivers {
  import opened TxQueue
  import opened ProbeMachine
  import opened ProbeProofs
  import ProbeClaims

  /** The answers are about exactly the services of a list, and about the host. */
  ghost predicate AnnouncesAll(c: Content, services: seq<Service>) {
    && c.asks == [] && !c.hostAsk && c.additional == {} && c.servers == {}
    && OfHost in c.answers && forall svc :: OfService(svc) in c.answers <==> svc in services
  }

  /**
   The probe asks for the services of a list, in order, offers exactly them, and the host if its
   address is probed.
   */
  ghost predicate ProbesAll(c: Content, services: seq<Service>, ip: bool) {
    && c.asks == services && c.hostAsk == ip && c.answers == {} && c.additional == {}
    && (OfHost in c.servers <==> ip) && forall svc :: OfService(svc) in c.servers <==> svc in services
  }

  // ----- the third probe -----

  lemma ProbeOffers(pcb: Pcb, c: Content)
    requires Carries(pcb, c) && (pcb.services != [] || pcb.probeIp)
    ensures AnnouncesAll(ProvenContent(c), pcb.services)
  {
    if pcb.services != [] {
      assert OfService(pcb.services[0]) in c.servers;
    } else {
      assert OfHost in c.servers;
    }
  }

  /**
   In every reachable state, when the third probe of an interface goes out and the announcement can be
   allocated: the one packet of the interface is then an announcement, due in 250 ms, whose records are
   about exactly the services that the interface was probing for, and about their host.
   */
  lemma {:induction false} ThirdProbeAnnounces(n: nat, now: nat, steps: seq<Step>, s: State)
    requires Reaches(n, now, steps, s) && Takes(s.q)
    requires s.q.tx[0].pcb < |s.pcbs| && s.pcbs[s.q.tx[0].pcb].state.Probe3?
    ensures Sized(s)
    ensures var i, s1 := s.q.tx[0].pcb, Next(s, Execution(true));
            && |s1.pcbs| == |s.pcbs| && s1.pcbs[i].state == Announce1
            && |Mine(s1.q.tx, i)| == 1
            && var a := Mine(s1.q.tx, i)[0];
               && a.kind == Announce && a.sendAt == s.q.now + 250 && !a.queued
               && AnnouncesAll(a.content, s.pcbs[i].services)
  {
    hide QueueInv, Healthy, Reaches, Takes, AnnouncesAll, Mine, Execute;
    ReachableIsInv(n, now, steps, s);
    LastProbeTurns(s);
  }

  lemma LastProbeTurns(s: State)
    requires Inv(s) && Takes(s.q) && s.q.tx[0].pcb < |s.pcbs| && s.pcbs[s.q.tx[0].pcb].state.Probe3?
    ensures var i, s1 := s.q.tx[0].pcb, Execute(s, true);
            && |s1.pcbs| == |s.pcbs| && s1.pcbs[i].state == Announce1
            && |Mine(s1.q.tx, i)| == 1
            && var a := Mine(s1.q.tx, i)[0];
               && a.kind == Announce && a.sendAt == s.q.now + 250 && !a.queued
               && AnnouncesAll(a.content, s.pcbs[i].services)
  {
    hide QueueInv, Proven, Schedule, AnnouncesAll, Mine, HandlePacket, Carries, ProvenContent, Execute;
    var p0 := s.q.tx[0];
    var i := p0.pcb;
    assert Healthy(s, i) && p0 in s.q.tx;
    HeadIsMine(s.q.tx);
    ProbeOffers(s.pcbs[i], p0.content);
    ThirdIsHandled(s);
    var q := s.q.(tx := s.q.tx[1..], actions := s.q.actions[1..], nextId := s.q.nextId + 1);
    ScheduledAlone(q, Packet(s.q.nextId, i, Announce, 0, false, ProvenContent(p0.content)), 250);
  }

  lemma HeadIsMine(tx: seq<Packet>)
    requires tx != []
    ensures Mine(tx, tx[0].pcb) == [tx[0]] + Mine(tx[1..], tx[0].pcb)
  {
  }

  lemma ThirdIsHandled(s: State)
    requires Sized(s) && Takes(s.q) && s.q.tx[0].pcb < |s.pcbs| && s.pcbs[s.q.tx[0].pcb].state.Probe3?
    ensures var p0, s1 := s.q.tx[0], Execute(s, true);
            && |s1.pcbs| == |s.pcbs| && s1.pcbs[p0.pcb].state == Announce1
            && s1.q == Schedule(s.q.(tx := s.q.tx[1..], actions := s.q.actions[1..], nextId := s.q.nextId + 1),
                                Packet(s.q.nextId, p0.pcb, Announce, 0, false, ProvenContent(p0.content)), 250)
  {
    hide Schedule, ProvenContent;
  }

  lemma ScheduledAlone(q: Queue, p: Packet, ms: nat)
    requires Mine(q.tx, p.pcb) == []
    ensures Mine(Schedule(q, p, ms).tx, p.pcb) == [p.(sendAt := q.now + ms)]
  {
    MineInsertFirst(q.tx, p.(sendAt := q.now + ms));
  }

  // ----- announcements of changed services -----

  /**
   Announcing services on a running interface under a hostname: one packet more, due at once, about exactly
   the given services, with the host beside them if its addresses are to be told.
   */
  lemma {:induction false} RunningAnnounces(s: State, i: nat, services: seq<Service>, includeIp: bool, more: bool,
                                            jitter: nat) returns (a: Packet)
    requires Sized(s) && Legal(s, Announcement(i, services, includeIp, more, jitter))
    requires s.pcbs[i].state.Running? && s.hostname
    ensures var s1 := Next(s, Announcement(i, services, includeIp, more, jitter));
            && multiset(s1.q.tx) == multiset(s.q.tx) + multiset{a} && s1.pcbs[i].state == Announce1
            && a.pcb == i && a.kind == Announce && a.sendAt == s.q.now && !a.queued && a.id == s.q.nextId
            && a.content.asks == [] && !a.content.hostAsk && a.content.additional == {} && OfHost !in a.content.answers
            && (forall svc :: OfService(svc) in a.content.answers <==> svc in services)
            && a.content.servers == if includeIp then {OfHost} else {}
  {
    a := Packet(s.q.nextId, i, Announce, s.q.now, false, AnnounceContent(services, includeIp));
  }

  /**
   Announcing services on an interface that announces already: its first waiting packet, in its place, is
   about those services too, and about the host if its addresses are to be told, and its announcements
   start again. Nothing else changes, and nothing at all if no packet waits.
   */
  lemma {:induction false} AnnouncingJoins(s: State, i: nat, services: seq<Service>, includeIp: bool, more: bool,
                                           jitter: nat, k: nat)
    requires Sized(s) && Legal(s, Announcement(i, services, includeIp, more, jitter)) && Announcing(s.pcbs[i].state)
    requires k <= |s.q.tx| && (forall j | 0 <= j < k :: s.q.tx[j].pcb != i) && (k < |s.q.tx| ==> s.q.tx[k].pcb == i)
    ensures var s1 := Next(s, Announcement(i, services, includeIp, more, jitter));
            && (k == |s.q.tx| ==> s1 == s)
            && (k < |s.q.tx| ==>
                  var p, r := s.q.tx[k], s1.q.tx[k];
                  && |s1.q.tx| == |s.q.tx| && s1.pcbs[i].state == Announce1
                  && (forall j | 0 <= j < |s.q.tx| && j != k :: s1.q.tx[j] == s.q.tx[j])
                  && r == p.(content := r.content) && r.content.asks == p.content.asks
                  && r.content.servers == p.content.servers
                  && (forall svc :: OfService(svc) in r.content.answers <==>
                                    OfService(svc) in p.content.answers || svc in services)
                  && (OfHost in r.content.answers <==> OfHost in p.content.answers || includeIp)
                  && (forall svc :: OfService(svc) in r.content.additional <==> OfService(svc) in p.content.additional)
                  && (OfHost in r.content.additional <==> OfHost in p.content.additional && (!includeIp || more)))
  {
    FirstIsUnique(s.q.tx, i, k);
  }

  lemma {:induction false} FirstIsUnique(tx: seq<Packet>, i: nat, k: nat)
    requires k <= |tx| && (forall j | 0 <= j < k :: tx[j].pcb != i) && (k < |tx| ==> tx[k].pcb == i)
    ensures FirstOf(tx, i) == k
    decreases |tx|
  {
    if k > 0 {
      FirstIsUnique(tx[1..], i, k - 1);
    }
  }

  /**
   A restart under a hostname probes for exactly the given services and, unless its list is cleared, for those
   the interface was probing for, which keep their order behind the new ones.
   */
  lemma {:induction false} RestartProbes(s: State, i: nat, services: seq<Service>, probeIp: bool, clearOld: bool,
                                         jitter: nat)
    requires Inv(s) && Legal(s, Reprobe(i, services, probeIp, clearOld, jitter)) && s.hostname
    ensures var s1 := Next(s, Reprobe(i, services, probeIp, clearOld, jitter));
            var was := if clearOld then [] else s.pcbs[i].services;
            && |s1.pcbs| == |s.pcbs| && s1.pcbs[i].state == Probe1 && |Mine(s1.q.tx, i)| == 1
            && (forall svc :: svc in s1.pcbs[i].services <==> svc in services || svc in was)
            && |s1.pcbs[i].services| >= |was| && s1.pcbs[i].services[|s1.pcbs[i].services| - |was|..] == was
            && var p := Mine(s1.q.tx, i)[0];
               && p.kind == Probe && p.sendAt
                  == s.q.now + (if s.pcbs[i].failedProbes > 5 then 1000 else 120) + jitter % 128
               && ProbesAll(p.content, s1.pcbs[i].services, s.pcbs[i].probeIp || probeIp)
  {
    hide QueueInv, Proven, Schedule, Mine, Others, PcbOk, Merged, ProbeContent, ProbesAll;
    assert Healthy(s, i);
    MineOthers(s.q.tx, i, i);
    assert Distinct(s.pcbs[i].services) by { ListIsDistinct(s, i); }
    var pcb := if clearOld then s.pcbs[i].(services := [], running := false) else s.pcbs[i];
    var all, ip := Merged(pcb, services), pcb.probeIp || probeIp;
    var q := s.q.(tx := Others(s.q.tx, i), nextId := s.q.nextId + 1);
    ScheduledAlone(q, Packet(s.q.nextId, i, Probe, 0, false, ProbeContent(all, ip)),
                   (if pcb.failedProbes > 5 then 1000 else 120) + jitter % 128);
    MergedList(pcb, services);
    AboutAll(all, ip);
  }

  lemma ListIsDistinct(s: State, i: nat)
    requires i < |s.pcbs| == |s.epochs| && Healthy(s, i)
    ensures Distinct(s.pcbs[i].services)
  {
  }

  lemma MergedList(pcb: Pcb, services: seq<Service>)
    requires Distinct(services)
    ensures var all, was := Merged(pcb, services), pcb.services;
            && (forall svc :: svc in all <==> svc in services || svc in was)
            && |all| >= |was| && all[|all| - |was|..] == was
  {
    if Probing(pcb.state) {
      NotInDistinct(services, pcb.services);
    }
  }

  /** Announcing services on a probing interface restarts its probing with them. */
  lemma ProbingAnnouncementRestarts(s: State, i: nat, services: seq<Service>, includeIp: bool, more: bool, jitter: nat)
    requires Sized(s) && Legal(s, Announcement(i, services, includeIp, more, jitter)) && Probing(s.pcbs[i].state)
    ensures Next(s, Announcement(i, services, includeIp, more, jitter))
         == Next(s, Reprobe(i, services, includeIp, false, jitter))
  {
    hide InitProbe;
  }

  /** A new hostname: every ready interface probes for exactly the given services, and the others are left alone. */
  lemma {:induction false} HostnameReprobes(s: State, services: seq<Service>, jitters: seq<nat>, i: nat)
    requires Inv(s) && Legal(s, Hostname(services, jitters)) && i < |s.pcbs|
    ensures var s1 := Next(s, Hostname(services, jitters));
            && |s1.pcbs| == |s.pcbs| && s1.hostname
            && (if Ready(s.pcbs[i]) then
                  s1.pcbs[i].state == Probe1 && s1.pcbs[i].services == services && |Mine(s1.q.tx, i)| == 1
                  && Mine(s1.q.tx, i)[0].kind == Probe && ProbesAll(Mine(s1.q.tx, i)[0].content, services, true)
                else s1.pcbs[i] == s.pcbs[i] && Mine(s1.q.tx, i) == [])
  {
    hide QueueInv, Proven, Schedule, Spaced, ProbesAll, ProbeContent, RestartReady, Ready, Mine, PcbOk, Probing;
    var s0 := s.(hostname := true, q := s.q.(tx := []));
    ProbeClaims.AllRestarted(s0, |s.pcbs|, services, jitters);
    HostnameKeeps(s, services, jitters);
    var s1 := Next(s, Hostname(services, jitters));
    assert Healthy(s1, i);
    NothingElseWaits(s0, s1, i, services);
    if Ready(s.pcbs[i]) {
      OneProbeWaits(s1, i);
      var p := Mine(s1.q.tx, i)[0];
      assert p in s1.q.tx && p.pcb == i;
      AboutAll(services, s1.pcbs[i].probeIp);
      RestartedForHost(s0, |s.pcbs|, services, jitters, i);
    }
  }

  lemma NothingElseWaits(s: State, r: State, i: nat, services: seq<Service>)
    requires |s.pcbs| == |s.epochs| && ProbeClaims.Restarted(s, r, |s.pcbs|, services) && i < |s.pcbs|
    ensures !Ready(s.pcbs[i]) ==> Mine(r.q.tx, i) == []
  {
    var mine := Mine(r.q.tx, i);
    assert mine != [] ==> mine[0] in mine;
  }

  lemma OneProbeWaits(s: State, i: nat)
    requires i < |s.pcbs| == |s.epochs| && Healthy(s, i) && s.pcbs[i].state.Probe1?
    ensures |Mine(s.q.tx, i)| == 1 && Mine(s.q.tx, i)[0].kind.Probe? && Mine(s.q.tx, i)[0] in Mine(s.q.tx, i)
  {
  }

  /** The host itself is probed for. */
  lemma {:induction false} RestartedForHost(s: State, n: nat, services: seq<Service>, jitters: seq<nat>, i: nat)
    requires n <= |s.pcbs| == |s.epochs| == |jitters| && s.hostname && i < n && Ready(s.pcbs[i]) && s.q.tx == []
    ensures RestartReady(s, n, services, jitters).pcbs[i].probeIp
    decreases n
  {
    hide Schedule, ProbeContent, Merged, Ready;
    ProbeClaims.AllRestarted(s, n - 1, services, jitters);
    if i < n - 1 {
      RestartedForHost(s, n - 1, services, jitters, i);
    }
  }

  lemma AboutAll(services: seq<Service>, ip: bool)
    ensures ProbesAll(ProbeContent(services, ip), services, ip)
  {
  }

  // ----- an undisturbed interface -----

  /** Time passes, the timer task posts the first packet if it is due, and the service task executes. */
  function Fired(s: State, w: nat): State
    requires Sized(s)
  {
    var s1 := s.(q := RunScheduler(s.q.(now := s.q.now + w), true));
    if Sized(s1) then Execute(s1, true) else s
  }

  /** One packet waits, of interface i, which is in a given state; nothing is to be done. */
  ghost predicate Waits(s: State, i: nat, state: PcbState, p: Packet) {
    && Sized(s) && i < |s.pcbs| && s.pcbs[i].state == state && s.hostname
    && s.q.actions == [] && s.q.tx == [p] && p.pcb == i && !p.queued
  }

  /** A packet on the wire under a hostname: of which interface, when it was due, and when it went out. */
  ghost predicate Entry(x: Sent, i: nat, kind: Kind, dueAt: nat, at: nat) {
    x.pcb == i && x.kind == kind && x.dueAt == dueAt && x.at == at && x.hostname
  }

  /** The packet went out w later, and nothing else. */
  ghost predicate Went(s: State, s1: State, i: nat, p: Packet, w: nat) {
    && |s.pcbs| == |s1.pcbs| && s1.q.now == s.q.now + w && |s1.log| == |s.log| + 1 && s1.log[..|s.log|] == s.log
    && Entry(s1.log[|s.log|], i, p.kind, p.sendAt, s.q.now + w)
  }

  /** The packet that waits is taken when it is due. */
  lemma FireOne(s: State, i: nat, state: PcbState, p: Packet, w: nat)
    requires Waits(s, i, state, p) && p.sendAt < s.q.now + w
    ensures Fired(s, w) == HandlePacket(s.(q := s.q.(now := s.q.now + w, tx := [])), p, true)
  {
    hide HandlePacket;
    var s1 := s.(q := RunScheduler(s.q.(now := s.q.now + w), true));
    assert FirstUnqueued([p]) == 0;
    assert s1.q.tx == [p.(queued := true)] && s1.q.actions == [TxHandle(p.id)];
    assert p.(queued := true).(queued := false) == p;
    assert s1.q.tx[1..] == [] && s1.q.actions[1..] == s.q.actions && Takes(s1.q);
    assert s1.q.(tx := [], actions := []) == s.q.(now := s.q.now + w, tx := []);
  }

  lemma LoneSchedule(q: Queue, p: Packet, ms: nat)
    requires q.tx == []
    ensures Schedule(q, p, ms) == q.(tx := [p.(sendAt := q.now + ms)])
  {
  }

  /** A probe of PROBE_1 or PROBE_2 goes out and waits again for 250 ms. */
  lemma ProbeGoesOn(s: State, i: nat, state: PcbState, p: Packet, w: nat)
    requires Waits(s, i, state, p) && p.sendAt < s.q.now + w && (state.Probe1? || state.Probe2?)
    ensures var s1 := Fired(s, w);
            && Went(s, s1, i, p, w) && s1.pcbs[i].services == s.pcbs[i].services
            && Waits(s1, i, if state.Probe1? then Probe2 else Probe3, p.(sendAt := s.q.now + w + 250))
  {
    hide Schedule;
    FireOne(s, i, state, p, w);
    LoneSchedule(s.q.(now := s.q.now + w, tx := []), p, 250);
  }

  /** The third goes out and makes room for an announcement, which waits for 250 ms. */
  lemma ProbeTurns(s: State, i: nat, p: Packet, w: nat)
    requires Waits(s, i, Probe3, p) && p.sendAt < s.q.now + w
    ensures var s1, a := Fired(s, w),
                         Packet(s.q.nextId, i, Announce, s.q.now + w + 250, false, ProvenContent(p.content));
            Went(s, s1, i, p, w) && Waits(s1, i, Announce1, a) && s1.pcbs[i].failedProbes == 0
  {
    hide Schedule, ProvenContent;
    FireOne(s, i, Probe3, p, w);
    LoneSchedule(s.q.(now := s.q.now + w, tx := [], nextId := s.q.nextId + 1),
                 Packet(s.q.nextId, i, Announce, 0, false, ProvenContent(p.content)), 250);
  }

  /** An announcement goes out and waits again for a second; the third one is the last. */
  lemma AnnouncementGoesOn(s: State, i: nat, state: PcbState, p: Packet, w: nat)
    requires Waits(s, i, state, p) && p.sendAt < s.q.now + w && Announcing(state) && !p.kind.Probe?
    ensures var s1 := Fired(s, w);
            && Went(s, s1, i, p, w) && i < |s1.pcbs| && s1.pcbs[i].failedProbes == s.pcbs[i].failedProbes
            && (if state.Announce3? then Sized(s1) && s1.q.tx == [] && s1.q.actions == [] && s1.pcbs[i].state.Running?
                else Waits(s1, i, if state.Announce1? then Announce2 else Announce3,
                           p.(sendAt := s.q.now + w + 1000)))
  {
    hide Schedule;
    FireOne(s, i, state, p, w);
    LoneSchedule(s.q.(now := s.q.now + w, tx := []), p, 1000);
  }

  /** A run of firings, and the packet that each of them finds waiting. */
  ghost function FiredAll(s: State, ws: seq<nat>): State
    requires Sized(s)
    decreases |ws|
  {
    if ws == [] then s
    else
      var s1 := Fired(s, ws[0]);
      if Sized(s1) then FiredAll(s1, ws[1..]) else s1
  }

  /** The restart of a running interface: its probe waits. */
  lemma RestartWaits(s: State, i: nat, services: seq<Service>, probeIp: bool, jitter: nat)
    requires Sized(s) && i < |s.pcbs| && s.hostname && s.pcbs[i].state.Running? && s.pcbs[i].services == []
    requires !s.pcbs[i].probeIp && s.q.tx == [] && s.q.actions == []
    requires Legal(s, Reprobe(i, services, probeIp, false, jitter))
    ensures var s1 := Next(s, Reprobe(i, services, probeIp, false, jitter));
            var due := s.q.now + (if s.pcbs[i].failedProbes > 5 then 1000 else 120) + jitter % 128;
            && Waits(s1, i, Probe1, Packet(s.q.nextId, i, Probe, due, false, ProbeContent(services, probeIp)))
            && s1.log == s.log && s1.q.now == s.q.now && s1.pcbs[i].services == services
  {
    hide Schedule, ProbeContent;
    assert services + [] == services;
    LoneSchedule(s.q.(nextId := s.q.nextId + 1),
                 Packet(s.q.nextId, i, Probe, 0, false, ProbeContent(services, probeIp)),
                 (if s.pcbs[i].failedProbes > 5 then 1000 else 120) + jitter % 128);
  }

  /**
   An interface that nothing disturbs: started to probe for a list of services and served whenever a packet
   is due, it sends three probes that ask for them, 250 ms and more apart, then, 250 ms and more after the
   last, three announcements about exactly them and their host, a second and more apart, and then it runs
   and has nothing to send.
   */
  lemma {:induction false} UndisturbedCycle(s: State, i: nat, services: seq<Service>, probeIp: bool, jitter: nat,
                                            w1: nat, w2: nat, w3: nat, w4: nat, w5: nat, w6: nat)
    returns (probe: Packet, announce: Packet)
    requires Sized(s) && i < |s.pcbs| && s.hostname && s.pcbs[i].state.Running? && s.pcbs[i].services == []
    requires !s.pcbs[i].probeIp && s.q.tx == [] && s.q.actions == []
    requires Legal(s, Reprobe(i, services, probeIp, false, jitter))
    requires w1 > (if s.pcbs[i].failedProbes > 5 then 1000 else 120) + jitter % 128
    requires w2 > 250 && w3 > 250 && w4 > 250 && w5 > 1000 && w6 > 1000
    ensures var s1 := Next(s, Reprobe(i, services, probeIp, false, jitter));
            && Sized(s1) && s1.q.tx == [probe]
            && var s4, s7 := FiredAll(s1, [w1, w2, w3]), FiredAll(s1, [w1, w2, w3, w4, w5, w6]);
               && s4.q.tx == [announce] && |s4.log| == |s.log| + 3 && s4.log[..|s.log|] == s.log
               && ProbesAll(probe.content, services, probeIp) && AnnouncesAll(announce.content, services)
               && s7.q.tx == [] && i < |s7.pcbs| && s7.pcbs[i].state.Running? && s7.pcbs[i].failedProbes == 0
               && |s7.log| == |s.log| + 6 && s7.log[..|s.log|] == s.log
               && var n, t := |s.log|, s.q.now;
                  && Entry(s7.log[n], i, Probe, probe.sendAt, t + w1)
                  && probe.sendAt == t + (if s.pcbs[i].failedProbes > 5 then 1000 else 120) + jitter % 128
                  && Entry(s7.log[n + 1], i, Probe, t + w1 + 250, t + w1 + w2)
                  && Entry(s7.log[n + 2], i, Probe, t + w1 + w2 + 250, t + w1 + w2 + w3)
                  && Entry(s7.log[n + 3], i, Announce, t + w1 + w2 + w3 + 250, t + w1 + w2 + w3 + w4)
                  && Entry(s7.log[n + 4], i, Announce, t + w1 + w2 + w3 + w4 + 1000, t + w1 + w2 + w3 + w4 + w5)
                  && Entry(s7.log[n + 5], i, Announce, t + w1 + w2 + w3 + w4 + w5 + 1000,
                           t + w1 + w2 + w3 + w4 + w5 + w6)
  {
    hide Fired, FiredAll, Next, ProbesAll, AnnouncesAll, ProbeContent, ProvenContent, Waits, Went;
    RestartWaits(s, i, services, probeIp, jitter);
    AboutAll(services, probeIp);
    ProbedIsAnnounced(services, probeIp);
    var s1 := Next(s, Reprobe(i, services, probeIp, false, jitter));
    probe := Packet(s.q.nextId, i, Probe, s.q.now + (if s.pcbs[i].failedProbes > 5 then 1000 else 120) + jitter % 128,
                    false, ProbeContent(services, probeIp));
    WaitsThere(s1, i, Probe1, probe);
    announce := ThreeProbes(s1, i, probe, w1, w2, w3);
    var s4 := FiredAll(s1, [w1, w2, w3]);
    WaitsThere(s4, i, Announce1, announce);
    ThreeAnnouncements(s4, i, announce, w4, w5, w6);
    SixFirings(s1, w1, w2, w3, w4, w5, w6);
    var s7 := FiredAll(s4, [w4, w5, w6]);
    LogsJoin(s1.log, s4.log, s7.log);
    assert s7.log[..|s4.log|] == s4.log;
    assert forall k | 0 <= k < |s4.log| :: s7.log[k] == s4.log[k];
  }

  lemma WaitsThere(s: State, i: nat, state: PcbState, p: Packet)
    requires Waits(s, i, state, p)
    ensures Sized(s) && i < |s.pcbs| && s.q.tx == [p]
  {
  }

  lemma ThreeProbes(s1: State, i: nat, probe: Packet, w1: nat, w2: nat, w3: nat) returns (a: Packet)
    requires Waits(s1, i, Probe1, probe) && probe.kind.Probe? && probe.sendAt < s1.q.now + w1 && w2 > 250 && w3 > 250
    ensures Sized(s1)
    ensures var s4, n, t := FiredAll(s1, [w1, w2, w3]), |s1.log|, s1.q.now;
            && Waits(s4, i, Announce1, a) && i < |s4.pcbs| && s4.pcbs[i].failedProbes == 0
               && a.content == ProvenContent(probe.content) && a.kind.Announce?
            && a.sendAt == t + w1 + w2 + w3 + 250 && s4.q.now == t + w1 + w2 + w3
            && |s4.log| == n + 3 && s4.log[..n] == s1.log
            && Entry(s4.log[n], i, Probe, probe.sendAt, t + w1)
            && Entry(s4.log[n + 1], i, Probe, t + w1 + 250, t + w1 + w2)
            && Entry(s4.log[n + 2], i, Probe, t + w1 + w2 + 250, t + w1 + w2 + w3)
  {
    hide Fired, ProvenContent, FiredAll;
    ProbeGoesOn(s1, i, Probe1, probe, w1);
    var s2, p2 := Fired(s1, w1), probe.(sendAt := s1.q.now + w1 + 250);
    ProbeGoesOn(s2, i, Probe2, p2, w2);
    var s3, p3 := Fired(s2, w2), p2.(sendAt := s2.q.now + w2 + 250);
    ProbeTurns(s3, i, p3, w3);
    var s4 := Fired(s3, w3);
    a := Packet(s3.q.nextId, i, Announce, s3.q.now + w3 + 250, false, ProvenContent(p3.content));
    ThreeFirings(s1, s2, s3, s4, w1, w2, w3);
    LogsOfThree(s1.log, s2.log, s3.log, s4.log);
  }

  lemma ThreeAnnouncements(s1: State, i: nat, a: Packet, w1: nat, w2: nat, w3: nat)
    requires Waits(s1, i, Announce1, a) && i < |s1.pcbs| && a.kind.Announce? && a.sendAt < s1.q.now + w1 && w2 > 1000
             && w3 > 1000
    ensures Sized(s1)
    ensures var s4, n, t := FiredAll(s1, [w1, w2, w3]), |s1.log|, s1.q.now;
            && Sized(s4) && s4.q.tx == [] && i < |s4.pcbs| && s4.pcbs[i].state.Running?
            && s4.pcbs[i].failedProbes == s1.pcbs[i].failedProbes
            && |s4.log| == n + 3 && s4.log[..n] == s1.log
            && Entry(s4.log[n], i, Announce, a.sendAt, t + w1)
            && Entry(s4.log[n + 1], i, Announce, t + w1 + 1000, t + w1 + w2)
            && Entry(s4.log[n + 2], i, Announce, t + w1 + w2 + 1000, t + w1 + w2 + w3)
  {
    hide Fired, FiredAll;
    AnnouncementGoesOn(s1, i, Announce1, a, w1);
    var s2, a2 := Fired(s1, w1), a.(sendAt := s1.q.now + w1 + 1000);
    AnnouncementGoesOn(s2, i, Announce2, a2, w2);
    var s3, a3 := Fired(s2, w2), a2.(sendAt := s2.q.now + w2 + 1000);
    AnnouncementGoesOn(s3, i, Announce3, a3, w3);
    ThreeFirings(s1, s2, s3, Fired(s3, w3), w1, w2, w3);
    LogsOfThree(s1.log, s2.log, s3.log, Fired(s3, w3).log);
  }

  lemma ProbedIsAnnounced(services: seq<Service>, ip: bool)
    requires services != [] || ip
    ensures AnnouncesAll(ProvenContent(ProbeContent(services, ip)), services)
  {
    if services != [] {
      assert OfService(services[0]) in ProbeContent(services, ip).servers;
    } else {
      assert OfHost in ProbeContent(services, ip).servers;
    }
  }

  lemma ThreeFirings(s1: State, s2: State, s3: State, s4: State, w1: nat, w2: nat, w3: nat)
    requires Sized(s1) && Sized(s2) && Sized(s3) && Sized(s4)
    requires s2 == Fired(s1, w1) && s3 == Fired(s2, w2) && s4 == Fired(s3, w3)
    ensures FiredAll(s1, [w1, w2, w3]) == s4
  {
    hide Fired, Sized;
    assert [w1, w2, w3] == [w1] + ([w2] + ([w3] + []));
    FiredNext(s1, w1, [w2] + ([w3] + []));
    FiredNext(s2, w2, [w3] + []);
    FiredNext(s3, w3, []);
  }

  lemma SixFirings(s: State, w1: nat, w2: nat, w3: nat, w4: nat, w5: nat, w6: nat)
    requires Sized(s) && Sized(FiredAll(s, [w1, w2, w3]))
    ensures FiredAll(s, [w1, w2, w3, w4, w5, w6]) == FiredAll(FiredAll(s, [w1, w2, w3]), [w4, w5, w6])
  {
    assert [w1, w2, w3, w4, w5, w6] == [w1, w2, w3] + [w4, w5, w6];
    FiredJoin(s, [w1, w2, w3], [w4, w5, w6]);
  }

  /** A run of firings goes on with another one, as long as it ends in a proper state. */
  lemma {:induction false} FiredJoin(s: State, xs: seq<nat>, ys: seq<nat>)
    requires Sized(s) && Sized(FiredAll(s, xs))
    ensures FiredAll(s, xs + ys) == FiredAll(FiredAll(s, xs), ys)
    decreases |xs|
  {
    hide Fired, Sized;
    if xs == [] {
      assert xs + ys == ys;
    } else {
      assert (xs + ys)[1..] == xs[1..] + ys;
      FiredJoin(Fired(s, xs[0]), xs[1..], ys);
    }
  }

  lemma FiredNext(s: State, w: nat, ws: seq<nat>)
    requires Sized(s) && Sized(Fired(s, w))
    ensures FiredAll(s, [w] + ws) == FiredAll(Fired(s, w), ws)
  {
    assert ([w] + ws)[1..] == ws;
  }

  lemma LogsJoin(a: seq<Sent>, b: seq<Sent>, c: seq<Sent>)
    requires |a| <= |b| <= |c| && b[..|a|] == a && c[..|b|] == b
    ensures c[..|a|] == a
  {
    assert c[..|a|] == b[..|a|];
  }

  lemma LogsOfThree(a: seq<Sent>, b: seq<Sent>, c: seq<Sent>, d: seq<Sent>)
    requires |b| == |a| + 1 && |c| == |a| + 2 && |d| == |a| + 3 && b[..|a|] == a && c[..|b|] == b && d[..|c|] == c
    ensures d[..|a|] == a && d[|a|] == b[|a|] && d[|a| + 1] == c[|a| + 1]
  {
    LogsJoin(a, b, c);
    LogsJoin(a, c, d);
    assert d[|a|] == c[|a|] == b[|a|] && d[|a| + 1] == c[|a| + 1];
  }

  // ----- answers -----

  /**
   A question on an interface past probing is answered: with records that nobody else holds at once, with
   shared ones after the given time, by a packet with exactly the given content.
   */
  lemma {:induction false} QuestionIsAnswered(s: State, i: nat, shared: bool, ms: nat, content: Content)
    returns (p: Packet)
    requires Sized(s) && i < |s.pcbs| && PastProbing(s.pcbs[i].state)
    ensures p.content == content && p.kind == Answer && p.pcb == i && p.sendAt == s.q.now + ms && !p.queued
    ensures var s1 := Next(s, Question(i, shared, ms, content));
            if shared then multiset(s1.q.tx) == multiset(s.q.tx) + multiset{p} && s1.log == s.log
            else s1.q == s.q && |s1.log| == |s.log| + 1 && s1.log[..|s.log|] == s.log
                 && Entry(s1.log[|s.log|].(hostname := true), i, Answer, s.q.now, s.q.now)
  {
    p := Packet(s.q.nextId, i, Answer, s.q.now + ms, false, content);
  }

  /** A shared answer that nothing else waits for goes out when it is due, and the interface runs on. */
  lemma {:induction false} SharedAnswerGoesOut(s: State, i: nat, ms: nat, content: Content, w: nat)
    requires Sized(s) && i < |s.pcbs| && s.pcbs[i].state.Running? && s.hostname && s.q.tx == [] && s.q.actions == []
    requires w > ms
    ensures var s1 := Next(s, Question(i, true, ms, content));
            && Sized(s1) && |s1.q.tx| == 1 && s1.q.tx[0].content == content
            && var s2 := Fired(s1, w);
               && s2.q.tx == [] && |s2.log| == |s.log| + 1 && s2.pcbs == s.pcbs
               && Entry(s2.log[|s.log|], i, Answer, s.q.now + ms, s.q.now + w)
  {
    hide Fired, Schedule;
    var p := Packet(s.q.nextId, i, Answer, s.q.now + ms, false, content);
    LoneSchedule(s.q.(nextId := s.q.nextId + 1), p.(sendAt := 0), ms);
    var s1 := Next(s, Question(i, true, ms, content));
    FireOne(s1, i, Running, p, w);
  }

  /** What another responder has told is taken out of a waiting answer, and nothing else. */
  lemma {:induction false} KnownIsLeftOut(s: State, k: nat, a: About)
    requires Sized(s) && k < |s.q.tx| && s.q.tx[k].kind.Answer?
    ensures var s1 := Next(s, Known(k, a));
            && |s1.q.tx| == |s.q.tx| && s1.log == s.log && s1.pcbs == s.pcbs
            && (forall j | 0 <= j < |s.q.tx| && j != k :: s1.q.tx[j] == s.q.tx[j])
            && (forall x :: x in s1.q.tx[k].content.answers <==> x in s.q.tx[k].content.answers && x != a)
            && s1.q.tx[k].content.additional == s.q.tx[k].content.additional
            && s1.q.tx[k].(content := s.q.tx[k].content) == s.q.tx[k]
  {
  }

  // ----- a service that is removed -----

  /**
   After a service is removed no waiting packet is about it, every other record that waited still does, and a
   packet is gone only if that left it empty; and no probing interface has it on its list.
   */
  lemma {:induction false} RemovedIsSilent(n: nat, now: nat, steps: seq<Step>, s: State, svc: Service)
    requires Reaches(n, now, steps, s)
    ensures Sized(s)
    ensures var s1 := Next(s, Removal(svc));
            && (forall p | p in s1.q.tx ::
                  OfService(svc) !in p.content.answers + p.content.additional + p.content.servers)
            && (forall i | 0 <= i < |s1.pcbs| :: svc !in s1.pcbs[i].services)
            && (forall p, a | p in s.q.tx && a in p.content.answers && a != OfService(svc) ::
                  exists r :: r in s1.q.tx && r.id == p.id && r.pcb == p.pcb && a in r.content.answers)
  {
    hide Reaches, QueueInv;
    ReachableIsInv(n, now, steps, s);
    SweepSilences(s.pcbs, s.q.tx, svc);
    SweepKeepsOthers(s.pcbs, s.q.tx, svc);
    RemovalKeeps(s, svc);
    var s1 := Next(s, Removal(svc));
    forall i | 0 <= i < |s1.pcbs|
      ensures svc !in s1.pcbs[i].services
    {
      assert Healthy(s1, i) && Healthy(s, i);
      ListsFollow(s1, i, svc);
    }
  }

  lemma {:induction false} SweepSilences(pcbs: seq<Pcb>, tx: seq<Packet>, svc: Service)
    requires forall p | p in tx :: p.pcb < |pcbs|
    ensures forall p | p in Sweep(pcbs, tx, svc).1 ::
              OfService(svc) !in p.content.answers + p.content.additional + p.content.servers
    decreases |tx|
  {
    hide WithoutKind, Without;
    if tx != [] {
      var p := tx[0];
      var (pcb, c) := Passed(pcbs[p.pcb], p.content, svc);
      SweepSilences(pcbs[p.pcb := pcb], tx[1..], svc);
    }
  }

  lemma {:induction false} SweepKeepsOthers(pcbs: seq<Pcb>, tx: seq<Packet>, svc: Service)
    requires forall p | p in tx :: p.pcb < |pcbs|
    ensures forall p, a | p in tx && a in p.content.answers && a != OfService(svc) ::
              exists r :: r in Sweep(pcbs, tx, svc).1 && r.id == p.id && r.pcb == p.pcb && a in r.content.answers
    decreases |tx|
  {
    hide WithoutKind, Without;
    if tx != [] {
      var p := tx[0];
      var (pcb, c) := Passed(pcbs[p.pcb], p.content, svc);
      SweepKeepsOthers(pcbs[p.pcb := pcb], tx[1..], svc);
      var rest, all := Sweep(pcbs[p.pcb := pcb], tx[1..], svc).1, Sweep(pcbs, tx, svc).1;
      forall x, a | x in tx && a in x.content.answers && a != OfService(svc)
        ensures exists r :: r in all && r.id == x.id && r.pcb == x.pcb && a in r.content.answers
      {
        if x == p {
          var r := p.(content := c);
          assert a in c.answers && !Empty(c);
          assert all == [r] + rest && r in all;
        } else {
          assert x in tx[1..];
          var r :| r in rest && r.id == x.id && r.pcb == x.pcb && a in r.content.answers;
          assert r in all;
        }
      }
    }
  }

  /** A probing interface's list is what its probe offers. */
  lemma ListsFollow(s: State, i: nat, svc: Service)
    requires i < |s.pcbs| == |s.epochs| && Healthy(s, i)
    requires forall p | p in s.q.tx :: OfService(svc) !in p.content.answers + p.content.additional + p.content.servers
    ensures svc !in s.pcbs[i].services
  {
    if Probing(s.pcbs[i].state) {
      var p := Mine(s.q.tx, i)[0];
      assert p in Mine(s.q.tx, i) && p in s.q.tx;
      assert svc in s.pcbs[i].services <==> OfService(svc) in p.content.servers;
    }
  }

  /**
   An interface whose last waiting announcement is about the removed service alone has nothing to announce any more: the
   packet is gone, and the interface runs.
   */
  lemma {:induction false} EmptiedAnnouncementRuns(s: State, i: nat, p: Packet, svc: Service)
    requires Sized(s) && i < |s.pcbs| && Announcing(s.pcbs[i].state) && Mine(s.q.tx, i) == [p]
    requires p.content == Content([], false, {OfService(svc)}, {}, {})
    ensures var s1 := Next(s, Removal(svc));
            |s1.pcbs| == |s.pcbs| && s1.pcbs[i] == s.pcbs[i].(state := Running) && Mine(s1.q.tx, i) == []
  {
    hide Mine, Sweep;
    SweepIsPerInterface(s.pcbs, s.q.tx, svc, i);
    assert Dropped(p.content, svc).answers == {};
    assert [p][1..] == [];
  }

  // ----- goodbyes and failed probes -----

  /** A goodbye goes out at once on an interface past probing, under a hostname. */
  lemma {:induction false} GoodbyeGoesOut(s: State, i: nat)
    requires Sized(s) && i < |s.pcbs| && PastProbing(s.pcbs[i].state) && s.hostname
    ensures var s1 := Next(s, Bye(i));
            && s1.q == s.q && s1.pcbs == s.pcbs && |s1.log| == |s.log| + 1 && s1.log[..|s.log|] == s.log
            && Entry(s1.log[|s.log|], i, Goodbye, s.q.now, s.q.now)
  {
  }

  /** The number of failed probes of an interface after some more of them. */
  ghost function FailedAgain(s: State, i: nat, n: nat): (r: State)
    requires Sized(s) && i < |s.pcbs|
    ensures Sized(r) && |r.pcbs| == |s.pcbs|
    decreases n
  {
    if n == 0 then s else Next(FailedAgain(s, i, n - 1), FailedProbe(i))
  }

  lemma {:induction false} FailuresCount(s: State, i: nat, n: nat)
    requires Sized(s) && i < |s.pcbs|
    ensures FailedAgain(s, i, n) == s.(pcbs := s.pcbs[i := s.pcbs[i].(failedProbes := s.pcbs[i].failedProbes + n)])
    decreases n
  {
    if n > 0 {
      FailuresCount(s, i, n - 1);
    }
  }

  /**
   After six lost probings without one that succeeded the next one waits for a second and more,
   before that 120 ms.
   */
  lemma {:induction false} SixFailuresSlowDown(s: State, i: nat, n: nat, services: seq<Service>, jitter: nat)
    requires Inv(s) && i < |s.pcbs| && s.hostname && Distinct(services) && s.pcbs[i].failedProbes == 0
    ensures var s0 := FailedAgain(s, i, n);
            && Legal(s0, Reprobe(i, services, true, false, jitter))
            && var s1 := Next(s0, Reprobe(i, services, true, false, jitter));
               && |Mine(s1.q.tx, i)| == 1
               && Mine(s1.q.tx, i)[0].sendAt == s.q.now + (if n >= 6 then 1000 else 120) + jitter % 128
  {
    hide QueueInv, Healthy, Mine, Next;
    FailuresCount(s, i, n);
    FailuresKeep(s, i, n);
    RestartProbes(FailedAgain(s, i, n), i, services, true, false, jitter);
  }

  lemma {:induction false} FailuresKeep(s: State, i: nat, n: nat)
    requires Inv(s) && i < |s.pcbs|
    ensures Inv(FailedAgain(s, i, n))
    decreases n
  {
    hide QueueInv, Healthy;
    if n > 0 {
      FailuresKeep(s, i, n - 1);
      FailedProbeKeeps(FailedAgain(s, i, n - 1), i);
    }
  }
}
