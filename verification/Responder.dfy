/**
 The responder's server object: the methods of its timer and service tasks, which edit the
 transmit list, the action queue and the interfaces in place. Each method is proved to do exactly
 what the step functions of TxQueue and ProbeMachine say.
 */
module Responder {
  import opened TxQueue
  import opened ProbeMachine

  class Server {
    var now: nat
    var tx: seq<Packet>
    var actions: seq<Action>
    var nextId: nat
    var hostname: bool
    var pcbs: seq<Pcb>
    ghost var epochs: seq<Epoch>
    ghost var log: seq<Sent>

    ghost function St(): State
      reads this
    {
      State(Queue(now, tx, actions, nextId), hostname, pcbs, epochs, log)
    }

    /** A started responder: no hostname, every interface off, both queues empty. */
    constructor (n: nat, now: nat)
      ensures St() == State(Queue(now, [], [], 0), false, seq(n, _ => Pcb(Off, [], false, false, 0)),
                            seq(n, _ => NO_HISTORY), [])
    {
      this.now := now;
      tx, actions, nextId, hostname := [], [], 0, false;
      pcbs := seq(n, _ => Pcb(Off, [], false, false, 0));
      epochs := seq(n, _ => NO_HISTORY);
      log := [];
    }

    static lemma InsertStep(t: seq<Packet>, p: Packet)
      ensures t == [] || t[0].sendAt > p.sendAt ==> Insert(t, p) == [p] + t
      ensures t != [] && t[0].sendAt <= p.sendAt ==> Insert(t, p) == [t[0]] + Insert(t[1..], p)
    {
    }

    static lemma SeqStep(t: seq<Packet>, k: nat, rest: seq<Packet>)
      requires k < |t|
      ensures t[..k] + ([t[k]] + rest) == t[..k + 1] + rest && t[k..][1..] == t[k + 1..] && t[k..][0] == t[k]
    {
    }

    /** p belongs behind the first k packets. */
    static ghost predicate Reached(t: seq<Packet>, p: Packet, k: nat) {
      k <= |t| && Insert(t, p) == t[..k] + Insert(t[k..], p)
    }

    static lemma ReachNext(t: seq<Packet>, p: Packet, k: nat)
      requires k < |t| && Reached(t, p, k) && t[k].sendAt <= p.sendAt
      ensures Reached(t, p, k + 1)
    {
      hide Insert;
      InsertStep(t[k..], p);
      SeqStep(t, k, Insert(t[k + 1..], p));
    }

    static lemma ReachEnds(t: seq<Packet>, p: Packet, k: nat)
      requires Reached(t, p, k) && (k < |t| ==> t[k].sendAt > p.sendAt)
      ensures Insert(t, p) == t[..k] + [p] + t[k..]
    {
      hide Insert;
      InsertStep(t[k..], p);
    }

    /** The walk along the list: behind the first k packets is where a packet due at p.sendAt belongs. */
    static method FindPlace(list: seq<Packet>, p: Packet) returns (k: nat)
      ensures k <= |list| && Insert(list, p) == list[..k] + [p] + list[k..]
    {
      hide Insert;
      k := 0;
      assert list[0..] == list && Reached(list, p, 0);
      hide Reached;
      if list == [] || list[0].sendAt > p.sendAt {
        ReachEnds(list, p, 0);
        return;
      }
      while k + 1 < |list| && list[k + 1].sendAt <= p.sendAt
        invariant k < |list| && list[k].sendAt <= p.sendAt && Reached(list, p, k)
      {
        ReachNext(list, p, k);
        k := k + 1;
      }
      ReachNext(list, p, k);
      k := k + 1;
      ReachEnds(list, p, k);
    }

    /** Insert a packet into the transmit list behind every packet that is due no later. */
    method ScheduleTx(packet: Packet, msAfter: nat)
      modifies this
      ensures St() == old(St()).(q := Schedule(old(St()).q, packet, msAfter))
    {
      hide Insert;
      var p := packet.(sendAt := now + msAfter);
      var k := FindPlace(tx, p);
      tx := tx[..k] + [p] + tx[k..];
    }

    static lemma OthersStep(t: seq<Packet>, i: nat)
      ensures t == [] ==> Others(t, i) == []
      ensures t != [] && t[0].pcb == i ==> Others(t, i) == Others(t[1..], i)
      ensures t != [] && t[0].pcb != i ==> Others(t, i) == [t[0]] + Others(t[1..], i)
    {
    }

    static lemma UnlinkStep(t: seq<Packet>, k: nat)
      requires k < |t|
      ensures var r := t[..k] + t[k + 1..]; r[..k] == t[..k] && r[k..] == t[k..][1..]
    {
    }

    /** Drop the packets of one interface from the head of the list, then unlink those behind it. */
    static method Unlink(list0: seq<Packet>, i: nat) returns (list: seq<Packet>)
      ensures list == Others(list0, i)
    {
      hide Others;
      list := list0;
      OthersStep(list, i);
      while list != [] && list[0].pcb == i
        invariant Others(list, i) == Others(list0, i)
        decreases |list|
      {
        OthersStep(list, i);
        list := list[1..];
      }
      OthersStep(list, i);
      if list != [] {
        assert list[..1] == [list[0]];
        var k := 1;
        while k < |list|
          invariant 0 < k <= |list| && list[..k] + Others(list[k..], i) == Others(list0, i)
          decreases |list| - k
        {
          OthersStep(list[k..], i);
          SeqStep(list, k, Others(list[k + 1..], i));
          if list[k].pcb == i {
            UnlinkStep(list, k);
            list := list[..k] + list[k + 1..];
          } else {
            k := k + 1;
          }
        }
        OthersStep([], i);
        assert list[k..] == [] && list[..k] == list;
      }
    }

    /** Remove every packet of one interface. */
    method ClearPcbTxQueue(i: nat)
      modifies this
      ensures St() == old(St()).(q := old(St()).q.(tx := Others(old(tx), i)))
    {
      tx := Unlink(tx, i);
    }

    /** The timer task: hand the first unqueued packet to the service task if it is due. */
    method SchedulerRun(allocOk: bool, queueOk: bool)
      modifies this
      ensures St() == old(St()).(q := RunScheduler(old(St()).q, allocOk && queueOk))
    {
      var k := 0;
      while k < |tx| && tx[k].queued
        invariant k <= |tx| && FirstUnqueued(tx) == k + FirstUnqueued(tx[k..])
      {
        assert tx[k..][1..] == tx[k + 1..];
        k := k + 1;
      }
      if k == |tx| {
        return;
      }
      if tx[k].sendAt < now {
        if allocOk {
          var p := tx[k];
          tx := tx[k := p.(queued := true)];
          if queueOk {
            actions := actions + [TxHandle(p.id)];
          } else {
            tx := tx[k := p];
            assert tx == old(tx);
          }
        }
      }
    }

    /** Put a packet on the wire; the log and the probe times are history, not program state. */
    method DispatchTx(i: nat, kind: Kind, dueAt: nat)
      requires i < |epochs|
      modifies this`epochs, this`log
      ensures St() == Dispatch(old(St()), i, kind, dueAt) && |epochs| == old(|epochs|)
    {
      log := log + [Sent(i, kind, dueAt, now, hostname, epochs[i])];
      if kind.Probe? {
        epochs := epochs[i := epochs[i].(times := epochs[i].times + [now])];
      }
    }

    /** The probing is over: the interface forgets what it probed for, and its first announcement gets an identity. */
    method CreateAnnounce(i: nat, probe: Packet) returns (packet: Packet)
      requires i < |pcbs|
      modifies this`pcbs, this`nextId
      ensures pcbs == old(pcbs)[i := Pcb(old(pcbs)[i].state, [], false, false, 0)] && nextId == old(nextId) + 1
      ensures packet == Packet(old(nextId), i, Announce, 0, false, ProvenContent(probe.content))
    {
      pcbs := pcbs[i := pcbs[i].(running := false, probeIp := false, services := [], failedProbes := 0)];
      packet := Packet(nextId, i, Announce, 0, false, ProvenContent(probe.content));
      nextId := nextId + 1;
    }

    /** Schedule the packet and move the interface on to its next state. */
    method MoveOn(i: nat, packet: Packet, ms: nat)
      requires i < |pcbs|
      modifies this
      ensures var s1 := WithPcb(old(St()), i, old(pcbs)[i].(state := NextState(old(pcbs)[i].state)));
              St() == s1.(q := Schedule(old(St()).q, packet, ms))
    {
      hide Schedule;
      ScheduleTx(packet, ms);
      pcbs := pcbs[i := pcbs[i].(state := NextState(pcbs[i].state))];
    }

    /** The service task handles a packet taken off the list: the state switch with its fall-through cases. */
    method TxHandlePacket(p: Packet, announceOk: bool)
      requires p.pcb < |pcbs| == |epochs|
      modifies this
      ensures St() == HandlePacket(old(St()), p, announceOk)
    {
      hide Schedule, Dispatch;
      var i := p.pcb;
      if pcbs[i].state.Off? {
        return;
      }
      DispatchTx(i, p.kind, p.sendAt);
      var st := pcbs[i].state;
      var packet, sendAfter := p, 1000;
      if st.Probe1? || st.Probe2? {
        MoveOn(i, packet, 250);
      } else if st.Probe3? || st.Announce1? || st.Announce2? {
        if st.Probe3? {
          if !announceOk {
            ScheduleTx(packet, 250);
            epochs := epochs[i := epochs[i].(retried := true)];
            return;
          }
          packet := CreateAnnounce(i, p);
          sendAfter := 250;
        }
        MoveOn(i, packet, sendAfter);
      } else if st.Announce3? {
        pcbs := pcbs[i := pcbs[i].(state := Running)];
      }
    }

    /** The service task takes the next action and executes it if it is a transmit action. */
    method ExecuteAction(announceOk: bool)
      requires Sized(St())
      modifies this
      ensures St() == Execute(old(St()), announceOk)
    {
      if actions == [] {
        return;
      }
      var action := actions[0];
      actions := actions[1..];
      if action.TxHandle? && tx != [] && tx[0].id == action.id && tx[0].queued {
        var p := tx[0].(queued := false);
        assert tx[0] in tx;
        tx := tx[1..];
        TxHandlePacket(p, announceOk);
      }
    }

    /** The services that are not being probed yet: the nested search loops. */
    static method NewServices(services: seq<Service>, probed: seq<Service>) returns (r: seq<Service>)
      ensures r == NotIn(services, probed)
    {
      r := [];
      var j := 0;
      while j < |services|
        invariant j <= |services| && r + NotIn(services[j..], probed) == NotIn(services, probed)
      {
        var found := false;
        var i := 0;
        while i < |probed|
          invariant i <= |probed| && !found && services[j] !in probed[..i]
        {
          if probed[i] == services[j] {
            found := true;
            break;
          }
          i := i + 1;
        }
        assert found <==> services[j] in probed;
        assert services[j..][0] == services[j] && services[j..][1..] == services[j + 1..];
        if !found {
          r := r + [services[j]];
        }
        j := j + 1;
      }
    }

    /** Start or restart probing on one interface. */
    method InitPcbProbe(i: nat, services: seq<Service>, probeIp: bool, random: nat)
      requires i < |pcbs| == |epochs|
      modifies this
      ensures St() == InitProbe(old(St()), i, services, probeIp, random)
    {
      hide Schedule, Others, NotIn;
      ClearPcbTxQueue(i);
      if !hostname {
        pcbs := pcbs[i := pcbs[i].(state := Running)];
        return;
      }
      var added := services;
      if Probing(pcbs[i].state) {
        added := NewServices(services, pcbs[i].services);
      }
      var all, ip := added + pcbs[i].services, pcbs[i].probeIp || probeIp;
      var delay := if pcbs[i].failedProbes > 5 then 1000 else 120;
      var packet := Packet(nextId, i, Probe, 0, false, ProbeContent(all, ip));
      nextId := nextId + 1;
      epochs := epochs[i := Restarted(pcbs[i], epochs[i], ip)];
      ScheduleTx(packet, delay + random % 128);
      pcbs := pcbs[i := Pcb(Probe1, all, ip, true, pcbs[i].failedProbes)];
    }

    static method FindService(services: seq<Service>, svc: Service) returns (i: nat)
      ensures i <= |services| && svc !in services[..i] && (i < |services| ==> services[i] == svc)
    {
      i := 0;
      while i < |services| && services[i] != svc
        invariant i <= |services| && svc !in services[..i]
      {
        i := i + 1;
      }
    }

    static lemma {:induction false} WithoutAt(services: seq<Service>, svc: Service, i: nat)
      requires i < |services| && svc !in services[..i] && services[i] == svc
      ensures Without(services, svc) == services[..i] + services[i + 1..]
      decreases |services|
    {
      if i > 0 {
        assert services[0] in services[..i];
        assert services[1..][..i - 1] == services[..i][1..];
        WithoutAt(services[1..], svc, i - 1);
      }
    }

    /** The search along the questions for the first about a service of the given type, which is taken out. */
    static method DropQuestion(asks: seq<Service>, kind: nat) returns (r: seq<Service>)
      ensures r == WithoutKind(asks, kind)
    {
      var i := 0;
      while i < |asks| && asks[i].kind != kind
        invariant i <= |asks| && WithoutKind(asks, kind) == asks[..i] + WithoutKind(asks[i..], kind)
      {
        assert asks[..i] + ([asks[i]] + WithoutKind(asks[i + 1..], kind))
               == asks[..i + 1] + WithoutKind(asks[i + 1..], kind);
        assert asks[i..][1..] == asks[i + 1..];
        i := i + 1;
      }
      if i == |asks| {
        return asks;
      }
      assert asks[i..][1..] == asks[i + 1..];
      return asks[..i] + asks[i + 1..];
    }

    /** What passing one of its packets does to an interface. */
    method TouchPcb(i: nat, content: Content, svc: Service) returns (c: Content)
      requires i < |pcbs|
      modifies this`pcbs
      ensures pcbs == old(pcbs)[i := Passed(old(pcbs)[i], content, svc).0]
      ensures c == Passed(old(pcbs)[i], content, svc).1
    {
      var pcb := pcbs[i];
      c := Dropped(content, svc);
      if Probing(pcb.state) {
        var at := FindService(pcb.services, svc);
        if at < |pcb.services| {
          if |pcb.services| > 1 {
            WithoutAt(pcb.services, svc, at);
            pcbs := pcbs[i := pcb.(services := pcb.services[..at] + pcb.services[at + 1..])];
          } else {
            pcbs := pcbs[i := pcb.(services := [])];
            if !pcb.probeIp {
              pcbs := pcbs[i := pcbs[i].(running := false, state := Running)];
            }
          }
          var asks := DropQuestion(c.asks, svc.kind);
          c := c.(asks := asks);
        }
      } else if Announcing(pcb.state) && content.answers != {} && c.answers == {} {
        pcbs := pcbs[i := pcb.(state := Running)];
      }
    }

    static lemma SweepStep(ps: seq<Pcb>, t: seq<Packet>, k: nat, svc: Service)
      requires k < |t| && forall p | p in t :: p.pcb < |ps|
      ensures forall p | p in t[k..] :: p.pcb < |ps|
      ensures t[k] in t && forall p | p in t[k + 1..] :: p.pcb < |ps|
      ensures var (pcb, c) := Passed(ps[t[k].pcb], t[k].content, svc);
              var rest := Sweep(ps[t[k].pcb := pcb], t[k + 1..], svc);
              Sweep(ps, t[k..], svc) == (rest.0, if Empty(c) then rest.1 else [t[k].(content := c)] + rest.1)
    {
      hide Passed, Empty;
      assert t[k..][0] == t[k] && t[k..][1..] == t[k + 1..];
    }

    /** Taking a packet out, or changing what it holds, brings in no other interface. */
    static lemma StillSized(t: seq<Packet>, k: nat, p: Packet, n: nat)
      requires k < |t| && p.pcb < n && forall x | x in t :: x.pcb < n
      ensures forall x | x in t[..k] + t[k + 1..] || x in t[k := p] || x in t[k + 1..] :: x.pcb < n
    {
      forall x | x in t[k := p]
        ensures x.pcb < n
      {
        var i :| 0 <= i < |t| && t[k := p][i] == x;
        assert i != k ==> t[i] == x;
      }
    }

    static lemma SweepEnds(ps: seq<Pcb>, svc: Service)
      ensures Sweep(ps, [], svc) == (ps, [])
    {
    }

    /**
     Walk the whole list: take the service's records out of every packet and unlink the packets that
     are left empty.
     */
    method RemoveScheduledServicePackets(svc: Service)
      requires Sized(St())
      modifies this
      ensures St() == RemoveService(old(St()), svc)
    {
      hide Passed, Sweep, Empty;
      var k := 0;
      assert tx[0..] == tx;
      while k < |tx|
        invariant k <= |tx| && |pcbs| == |old(pcbs)| && forall p | p in tx :: p.pcb < |pcbs|
        invariant now == old(now) && actions == old(actions) && nextId == old(nextId) && hostname == old(hostname)
        invariant epochs == old(epochs) && log == old(log)
        invariant forall p | p in tx[k..] :: p.pcb < |pcbs|
        invariant var rest := Sweep(pcbs, tx[k..], svc);
                  Sweep(old(pcbs), old(tx), svc).0 == rest.0 && Sweep(old(pcbs), old(tx), svc).1 == tx[..k] + rest.1
        decreases |tx| - k
      {
        var p := tx[k];
        SweepStep(pcbs, tx, k, svc);
        ghost var t := tx;
        var c := TouchPcb(p.pcb, p.content, svc);
        StillSized(t, k, p.(content := c), |pcbs|);
        if Empty(c) {
          tx := tx[..k] + tx[k + 1..];
          assert tx[k..] == t[k + 1..] && tx[..k] == t[..k];
        } else {
          tx := tx[k := p.(content := c)];
          assert tx[k + 1..] == t[k + 1..] && tx[..k + 1] == t[..k] + [p.(content := c)];
          k := k + 1;
        }
      }
      assert tx[k..] == [] && tx[..k] == tx;
      SweepEnds(pcbs, svc);
      epochs := Marked(old(pcbs), pcbs, epochs);
    }
  }
}
