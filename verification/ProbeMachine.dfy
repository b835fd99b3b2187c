/**
 The probe/announce state machine of every interface, on top of the transmit queue: steps of the
 timer task and of the service task, and what holds in every reachable state.
 */
module ProbeMachine {
  import opened TxQueue

  datatype PcbState = Off | Dup | Init | Probe1 | Probe2 | Probe3 | Announce1 | Announce2 | Announce3 | Running

  predicate Probing(st: PcbState) {
    st.Probe1? || st.Probe2? || st.Probe3?
  }

  predicate Announcing(st: PcbState) {
    st.Announce1? || st.Announce2? || st.Announce3?
  }

  /** state > PCB_PROBE_3 */
  predicate PastProbing(st: PcbState) {
    Announcing(st) || st.Running?
  }

  function NextState(st: PcbState): PcbState {
    match st
    case Probe1 => Probe2
    case Probe2 => Probe3
    case Probe3 => Announce1
    case Announce1 => Announce2
    case Announce2 => Announce3
    case Announce3 => Running
    case _ => st
  }

  datatype Pcb = Pcb(state: PcbState, services: seq<Service>, probeIp: bool, running: bool, failedProbes: nat)

  /**
   History of an interface: when probes were sent since its last restart, whether an announcement
   could not be allocated, and whether the probing was cut short by the removal of its last
   service; `prior` holds the probes of the last full probing before the restarts that did not
   probe for the host itself.
   */
  datatype Epoch = Epoch(times: seq<nat>, retried: bool, cut: bool, prior: seq<nat>)

  const NO_HISTORY := Epoch([], false, false, [])

  /** A packet on the wire: when it was due, when it went out, and the history of its interface up to then. */
  datatype Sent = Sent(pcb: nat, kind: Kind, dueAt: nat, at: nat, hostname: bool, epoch: Epoch)

  datatype State = State(q: Queue, hostname: bool, pcbs: seq<Pcb>, epochs: seq<Epoch>, log: seq<Sent>)

  predicate Sized(s: State) {
    |s.pcbs| == |s.epochs| && forall p | p in s.q.tx :: p.pcb < |s.pcbs|
  }

  // ----- operations -----

  function WithPcb(s: State, i: nat, p: Pcb): State
    requires i < |s.pcbs|
  {
    s.(pcbs := s.pcbs[i := p])
  }

  /** Put a packet on the wire. */
  function Dispatch(s: State, i: nat, kind: Kind, dueAt: nat): State
    requires i < |s.epochs|
  {
    var e := s.epochs[i];
    s.(log := s.log + [Sent(i, kind, dueAt, s.q.now, s.hostname, e)],
       epochs := if kind.Probe? then s.epochs[i := e.(times := e.times + [s.q.now])] else s.epochs)
  }

  // ----- what packets carry -----

  function AllOf(services: seq<Service>): set<About> {
    set s | s in services :: OfService(s)
  }

  function HostIf(ip: bool): set<About> {
    if ip then {OfHost} else {}
  }

  /** A probe asks for every service, and for the host if its address is to be probed too. */
  function ProbeContent(services: seq<Service>, ip: bool): Content {
    Content(services, ip, {}, {}, AllOf(services) + HostIf(ip))
  }

  /** The announcement made from a probe answers what the probe offered, and the hosts of its services. */
  function ProvenContent(probe: Content): Content {
    Content([], false, probe.servers + HostIf(probe.servers != {}), {}, {})
  }

  function AnnounceContent(services: seq<Service>, ip: bool): Content {
    Content([], false, AllOf(services), {}, HostIf(ip))
  }

  /** Changed services join a waiting announcement; `more` tells whether host records stay in its additional list. */
  function Joined(c: Content, services: seq<Service>, ip: bool, more: bool): Content {
    c.(answers := c.answers + AllOf(services) + HostIf(ip), additional := if ip && !more then c.additional - {OfHost}
       else c.additional)
  }

  // ----- the service task's packets -----

  /** What the service task does with the packet it took off the queue. */
  function HandlePacket(s: State, p: Packet, announceOk: bool): State
    requires p.pcb < |s.pcbs| == |s.epochs|
  {
    var i := p.pcb;
    var pcb := s.pcbs[i];
    if pcb.state.Off? then s
    else
      var d := Dispatch(s, i, p.kind, p.sendAt);
      match pcb.state
      case Probe1 => WithPcb(d, i, pcb.(state := Probe2)).(q := Schedule(d.q, p, 250))
      case Probe2 => WithPcb(d, i, pcb.(state := Probe3)).(q := Schedule(d.q, p, 250))
      case Probe3 =>
        if !announceOk then d.(q := Schedule(d.q, p, 250), epochs := d.epochs[i := d.epochs[i].(retried := true)])
        else
          var a := Packet(d.q.nextId, i, Announce, 0, false, ProvenContent(p.content));
          WithPcb(d, i, Pcb(Announce1, [], false, false, 0)).(q := Schedule(d.q.(nextId := d.q.nextId + 1), a, 250))
      case Announce1 => WithPcb(d, i, pcb.(state := Announce2)).(q := Schedule(d.q, p, 1000))
      case Announce2 => WithPcb(d, i, pcb.(state := Announce3)).(q := Schedule(d.q, p, 1000))
      case Announce3 => WithPcb(d, i, pcb.(state := Running))
      case _ => d
  }

  /** The service task executes the action at the head of its queue. */
  function Execute(s: State, announceOk: bool): State
    requires Sized(s)
  {
    if s.q.actions == [] then s
    else if Takes(s.q) then
      var p := s.q.tx[0].(queued := false);
      assert s.q.tx[0] in s.q.tx;
      HandlePacket(s.(q := s.q.(tx := s.q.tx[1..], actions := s.q.actions[1..])), p, announceOk)
    else s.(q := s.q.(actions := s.q.actions[1..]))
  }

  /** The given services that are not being probed yet. */
  function NotIn(services: seq<Service>, known: seq<Service>): seq<Service> {
    if services == [] then []
    else if services[0] in known then NotIn(services[1..], known)
    else [services[0]] + NotIn(services[1..], known)
  }

  /** The services a restart probes: the new ones in front of those already probed. */
  function Merged(pcb: Pcb, services: seq<Service>): seq<Service> {
    (if Probing(pcb.state) then NotIn(services, pcb.services) else services) + pcb.services
  }

  /** The history with which a restart begins. */
  function Restarted(pcb: Pcb, e: Epoch, ip: bool): Epoch {
    NO_HISTORY.(prior := if ip then [] else if PastProbing(pcb.state) && !e.cut then e.times else e.prior)
  }

  /** Start or restart probing on one interface. */
  function InitProbe(s: State, i: nat, services: seq<Service>, probeIp: bool, jitter: nat): State
    requires i < |s.pcbs| == |s.epochs|
  {
    var q := s.q.(tx := Others(s.q.tx, i));
    var pcb := s.pcbs[i];
    if !s.hostname then WithPcb(s.(q := q), i, pcb.(state := Running))
    else
      var all, ip := Merged(pcb, services), pcb.probeIp || probeIp;
      var p := Packet(q.nextId, i, Probe, 0, false, ProbeContent(all, ip));
      var delay := (if pcb.failedProbes > 5 then 1000 else 120) + jitter % 128;
      WithPcb(s, i, Pcb(Probe1, all, ip, true, pcb.failedProbes))
        .(q := Schedule(q.(nextId := q.nextId + 1), p, delay), epochs := s.epochs[i := Restarted(pcb, s.epochs[i], ip)])
  }

  /** Restart one interface, with or without the list of services it was probing. */
  function Restart(s: State, i: nat, services: seq<Service>, probeIp: bool, clearOld: bool, jitter: nat): State
    requires i < |s.pcbs| == |s.epochs|
  {
    var s1 := if clearOld then WithPcb(s, i, s.pcbs[i].(services := [], running := false)) else s;
    InitProbe(s1, i, services, probeIp, jitter)
  }

  /** The interface is up: it has been started, and then it is probing or past probing. */
  predicate Ready(pcb: Pcb) {
    Probing(pcb.state) || PastProbing(pcb.state)
  }

  /** Restart the ready interfaces below n. */
  function RestartReady(s: State, n: nat, services: seq<Service>, jitters: seq<nat>): (r: State)
    requires n <= |s.pcbs| == |s.epochs| == |jitters|
    ensures |r.pcbs| == |s.pcbs| && |r.epochs| == |s.epochs|
  {
    if n == 0 then s
    else
      var r := RestartReady(s, n - 1, services, jitters);
      if Ready(r.pcbs[n - 1]) then Restart(r, n - 1, services, true, true, jitters[n - 1]) else r
  }

  /** A new hostname: the whole queue is cleared and every ready interface restarted. */
  function SetHostname(s: State, services: seq<Service>, jitters: seq<nat>): State
    requires |s.pcbs| == |s.epochs| == |jitters|
  {
    RestartReady(s.(hostname := true, q := s.q.(tx := [])), |s.pcbs|, services, jitters)
  }

  /** Answer a question: at once, or later when the record set is shared. */
  function AnswerQuestion(s: State, i: nat, shared: bool, ms: nat, content: Content): State
    requires i < |s.pcbs| == |s.epochs|
  {
    if !PastProbing(s.pcbs[i].state) then s
    else if shared then
      s.(q := Schedule(s.q.(nextId := s.q.nextId + 1), Packet(s.q.nextId, i, Answer, 0, false, content), ms))
    else Dispatch(s, i, Answer, s.q.now)
  }

  /**
   Say goodbye for services: under a hostname, and on a running interface, or after a lost conflict
   on any that is not probing.
   */
  function SendBye(s: State, i: nat): State
    requires i < |s.pcbs| == |s.epochs|
  {
    if PastProbing(s.pcbs[i].state) && s.hostname then Dispatch(s, i, Goodbye, s.q.now) else s
  }

  /** Another responder has sent the last record about something that a waiting answer was to tell. */
  function Suppress(s: State, k: nat, a: About): State {
    if k < |s.q.tx| && s.q.tx[k].kind.Answer? then
      var c := s.q.tx[k].content;
      s.(q := s.q.(tx := s.q.tx[k := s.q.tx[k].(content := c.(answers := c.answers - {a}))]))
    else s
  }

  /** The position of the first packet of an interface, |tx| if there is none. */
  function FirstOf(tx: seq<Packet>, i: nat): (k: nat)
    ensures k <= |tx| && (k < |tx| ==> tx[k].pcb == i)
    ensures forall j | 0 <= j < k :: tx[j].pcb != i
  {
    if tx == [] || tx[0].pcb == i then 0 else 1 + FirstOf(tx[1..], i)
  }

  /** Announce changed services on a ready interface. */
  function AnnouncePcb(s: State, i: nat, services: seq<Service>, includeIp: bool, more: bool, jitter: nat): State
    requires i < |s.pcbs| == |s.epochs|
  {
    var pcb := s.pcbs[i];
    if Probing(pcb.state) then InitProbe(s, i, services, includeIp, jitter)
    else if Announcing(pcb.state) then
      var k := FirstOf(s.q.tx, i);
      if k < |s.q.tx| then
        var p := s.q.tx[k];
        WithPcb(s, i, pcb.(state := Announce1))
          .(q := s.q.(tx := s.q.tx[k := p.(content := Joined(p.content, services, includeIp, more))]))
      else s
    else if pcb.state.Running? && s.hostname then
      WithPcb(s, i, pcb.(state := Announce1))
        .(q := Schedule(s.q.(nextId := s.q.nextId + 1),
                        Packet(s.q.nextId, i, Announce, 0, false, AnnounceContent(services, includeIp)), 0))
    else s
  }

  // ----- removing a service -----

  /** The content without the records about a service. */
  function Dropped(c: Content, svc: Service): Content {
    c.(answers := c.answers - {OfService(svc)}, additional := c.additional - {OfService(svc)},
       servers := c.servers - {OfService(svc)})
  }

  /** The list with the first occurrence of a service taken out. */
  function Without(services: seq<Service>, svc: Service): seq<Service> {
    if services == [] then []
    else if services[0] == svc then services[1..]
    else [services[0]] + Without(services[1..], svc)
  }

  /** The questions without the first one about a service of the given type. */
  function WithoutKind(asks: seq<Service>, kind: nat): seq<Service> {
    if asks == [] then []
    else if asks[0].kind == kind then asks[1..]
    else [asks[0]] + WithoutKind(asks[1..], kind)
  }

  /** What the removal does to the interface of a packet it passes, and to the packet's content. */
  function Passed(pcb: Pcb, c: Content, svc: Service): (Pcb, Content) {
    var d := Dropped(c, svc);
    if Probing(pcb.state) && svc in pcb.services then
      (if |pcb.services| > 1 then pcb.(services := Without(pcb.services, svc))
       else if pcb.probeIp then pcb.(services := [])
       else pcb.(services := [], running := false, state := Running),
       d.(asks := WithoutKind(d.asks, svc.kind)))
    else if Announcing(pcb.state) && c.answers != {} && d.answers == {} then (pcb.(state := Running), d)
    else (pcb, d)
  }

  /** The walk over the list: packets that are left empty are taken out. */
  function Sweep(pcbs: seq<Pcb>, tx: seq<Packet>, svc: Service): (r: (seq<Pcb>, seq<Packet>))
    requires forall p | p in tx :: p.pcb < |pcbs|
    ensures |r.0| == |pcbs|
    decreases |tx|
  {
    if tx == [] then (pcbs, [])
    else
      var p := tx[0];
      var (pcb, c) := Passed(pcbs[p.pcb], p.content, svc);
      var rest := Sweep(pcbs[p.pcb := pcb], tx[1..], svc);
      (rest.0, if Empty(c) then rest.1 else [p.(content := c)] + rest.1)
  }

  /** A probing that the removal ended is marked in the history. */
  function Marked(before: seq<Pcb>, pcbs: seq<Pcb>, epochs: seq<Epoch>): (r: seq<Epoch>)
    requires |before| == |pcbs| == |epochs|
    ensures |r| == |epochs|
  {
    seq(|epochs|, i requires 0 <= i < |epochs| =>
      if Probing(before[i].state) && !Probing(pcbs[i].state) then epochs[i].(cut := true) else epochs[i])
  }

  /** A service is removed: its records leave all waiting packets, and it leaves the probe lists. */
  function RemoveService(s: State, svc: Service): State
    requires Sized(s)
  {
    var (pcbs, tx) := Sweep(s.pcbs, s.q.tx, svc);
    s.(q := s.q.(tx := tx), pcbs := pcbs, epochs := Marked(s.pcbs, pcbs, s.epochs))
  }

  /** Take an interface out of service. */
  function Disable(s: State, i: nat, state: PcbState): State
    requires i < |s.pcbs|
  {
    WithPcb(s, i, Pcb(state, [], false, false, 0)).(q := s.q.(tx := Others(s.q.tx, i)))
  }

  /** One step of the timer task, the service task, or the clock. */
  datatype Step =
    | Tick(ms: nat)
    | Timer(sent: bool)
    | Post
    | Execution(announceOk: bool)
    | Reprobe(pcb: nat, services: seq<Service>, probeIp: bool, clearOld: bool, jitter: nat)
    | Hostname(services: seq<Service>, jitters: seq<nat>)
    | Question(pcb: nat, shared: bool, ms: nat, content: Content)
    | Announcement(pcb: nat, services: seq<Service>, includeIp: bool, more: bool, jitter: nat)
    | Removal(service: Service)
    | Bye(pcb: nat)
    | Known(at: nat, about: About)
    | FailedProbe(pcb: nat)
    | Stop(pcb: nat, dup: bool)

  ghost predicate Distinct(xs: seq<Service>) {
    forall i, j | 0 <= i < j < |xs| :: xs[i] != xs[j]
  }

  /**
   What the callers guarantee: existing interfaces, lists of services without repetition, something
   to probe for, and the host itself among it when an interface is started.
   */
  ghost predicate Legal(s: State, step: Step) {
    match step
    case Reprobe(i, services, probeIp, _, _) =>
      i < |s.pcbs| && Distinct(services) && (services != [] || probeIp) && (Ready(s.pcbs[i]) || probeIp)
    case Hostname(services, jitters) => |jitters| == |s.pcbs| && Distinct(services)
    case Question(i, _, _, _) => i < |s.pcbs|
    case Announcement(i, services, includeIp, _, _) =>
      i < |s.pcbs| && Ready(s.pcbs[i]) && Distinct(services) && (services != [] || includeIp)
    case Bye(i) => i < |s.pcbs|
    case FailedProbe(i) => i < |s.pcbs|
    case Stop(i, _) => i < |s.pcbs|
    case _ => true
  }

  function Next(s: State, step: Step): State
    requires Sized(s) && Legal(s, step)
  {
    match step
    case Tick(ms) => s.(q := s.q.(now := s.q.now + ms))
    case Timer(sent) => s.(q := RunScheduler(s.q, sent))
    case Post => s.(q := s.q.(actions := s.q.actions + [Other]))
    case Execution(announceOk) => Execute(s, announceOk)
    case Reprobe(i, services, probeIp, clearOld, jitter) => Restart(s, i, services, probeIp, clearOld, jitter)
    case Hostname(services, jitters) => SetHostname(s, services, jitters)
    case Question(i, shared, ms, content) => AnswerQuestion(s, i, shared, ms, content)
    case Announcement(i, services, includeIp, more, jitter) => AnnouncePcb(s, i, services, includeIp, more, jitter)
    case Removal(svc) => RemoveService(s, svc)
    case Bye(i) => SendBye(s, i)
    case Known(k, a) => Suppress(s, k, a)
    case FailedProbe(i) => WithPcb(s, i, s.pcbs[i].(failedProbes := s.pcbs[i].failedProbes + 1))
    case Stop(i, dup) => Disable(s, i, if dup then Dup else Off)
  }
}
