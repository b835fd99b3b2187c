/** The keep-alive monitor: a task that sleeps, checks its clients, and reports those that stayed silent. */
module KeepAlive {

  const MAX_DELAY: int := 30000
  const MIN_DELAY: int := 1000

  datatype Client = NoClient | Active(fd: int, lastSeen: nat)

  /** What the monitor is asked to do through its queue. */
  datatype Request = Add(fd: int) | Remove(fd: int) | Update(fd: int, timestamp: nat)

  /** What one check pass does with the outside world. */
  datatype Call = Ping(fd: int) | NotAlive(fd: int)

  // ----- the delay until the next check -----

  /** One turn of the delay loop. */
  function DelayTurn(delay: int, c: Client, period: nat, now: nat): int {
    if c.Active? && c.lastSeen + period < delay + now then
      if c.lastSeen + period < now then MIN_DELAY else c.lastSeen + period - now
    else delay
  }

  function Delay(cs: seq<Client>, period: nat, now: nat): int {
    if cs == [] then MAX_DELAY else DelayTurn(Delay(cs[..|cs| - 1], period, now), cs[|cs| - 1], period, now)
  }

  predicate Overdue(c: Client, period: nat, now: nat) {
    c.Active? && c.lastSeen + period < now
  }

  /** A client's own check time bounds the delay, unless somebody is overdue, when 1000 does. */
  lemma {:induction false} DelayBounds(cs: seq<Client>, period: nat, now: nat)
    ensures 0 <= Delay(cs, period, now) <= 30000
    ensures (exists c | c in cs :: Overdue(c, period, now)) ==> Delay(cs, period, now) <= 1000
    ensures forall c | c in cs && c.Active? && !Overdue(c, period, now) ::
            Delay(cs, period, now) <= c.lastSeen + period - now
                                                                       || Delay(cs, period, now) <= MIN_DELAY
    decreases |cs|
  {
    if cs != [] {
      DelayBounds(cs[..|cs| - 1], period, now);
      assert cs == cs[..|cs| - 1] + [cs[|cs| - 1]];
    }
  }

  /** With nobody overdue the delay is the exact minimum of 30 seconds and the times to the clients' checks. */
  lemma {:induction false} DelayIsMinimum(cs: seq<Client>, period: nat, now: nat)
    requires forall c | c in cs :: !Overdue(c, period, now)
    ensures forall c | c in cs && c.Active? :: Delay(cs, period, now) <= c.lastSeen + period - now
    ensures Delay(cs, period, now) == 30000
            || exists c :: c in cs && c.Active? && Delay(cs, period, now) == c.lastSeen + period - now
    decreases |cs|
  {
    if cs != [] {
      var init, last := cs[..|cs| - 1], cs[|cs| - 1];
      DelayIsMinimum(init, period, now);
      assert cs == init + [last];
      if Delay(cs, period, now) == Delay(init, period, now) {
        if Delay(init, period, now) != MAX_DELAY {
          var c :| c in init && c.Active? && Delay(init, period, now) == c.lastSeen + period - now;
          assert c in cs;
        }
      } else {
        assert last in cs;
      }
    }
  }

  // ----- the client table -----

  /** The first slot that holds the given client, |cs| if there is none. */
  function SlotOf(cs: seq<Client>, fd: int): (k: nat)
    ensures k <= |cs| && (k < |cs| ==> cs[k].Active? && cs[k].fd == fd)
    ensures forall i | 0 <= i < k :: !(cs[i].Active? && cs[i].fd == fd)
  {
    if cs == [] || (cs[0].Active? && cs[0].fd == fd) then 0 else 1 + SlotOf(cs[1..], fd)
  }

  function FreeSlot(cs: seq<Client>): (k: nat)
    ensures k <= |cs| && (k < |cs| ==> cs[k].NoClient?)
    ensures forall i | 0 <= i < k :: cs[i].Active?
  {
    if cs == [] || cs[0].NoClient? then 0 else 1 + FreeSlot(cs[1..])
  }

  function Served(cs: seq<Client>, r: Request, now: nat): (r': seq<Client>)
    ensures |r'| == |cs|
  {
    match r
    case Add(fd) => var k := FreeSlot(cs); if k < |cs| then cs[k := Active(fd, now)] else cs
    case Remove(fd) => var k := SlotOf(cs, fd); if k < |cs| then cs[k := NoClient] else cs
    case Update(fd, timestamp) => var k := SlotOf(cs, fd); if k < |cs| then cs[k := Active(fd, timestamp)] else cs
  }

  // ----- one check pass -----

  predicate Silent(c: Client, limit: nat, now: nat) {
    c.Active? && c.lastSeen + limit <= now
  }

  /** No two active slots hold the same client. */
  ghost predicate DistinctFds(cs: seq<Client>) {
    forall i, j | 0 <= i < j < |cs| && cs[i].Active? && cs[j].Active? :: cs[i].fd != cs[j].fd
  }

  /** Silent for both limits. */
  predicate Dead(c: Client, period: nat, notAliveAfter: nat, now: nat) {
    Silent(c, period, now) && Silent(c, notAliveAfter, now)
  }

  /** What the pass leaves: the clients that have been silent for both limits are gone. */
  function Checked(c: Client, period: nat, notAliveAfter: nat, now: nat): Client {
    if Dead(c, period, notAliveAfter, now) then NoClient else c
  }

  /** What the pass calls for one client. */
  function CallsFor(c: Client, period: nat, notAliveAfter: nat, now: nat): seq<Call> {
    if !Silent(c, period, now) then []
    else if Silent(c, notAliveAfter, now) then [NotAlive(c.fd)]
    else [Ping(c.fd)]
  }

  /**
   The table and the calls after the first n turns of the pass. A silent client is removed by its
   descriptor, not by its slot.
   */
  datatype Sweep = Sweep(cs: seq<Client>, calls: seq<Call>)

  function Swept(cs: seq<Client>, n: nat, period: nat, notAliveAfter: nat, now: nat): (r: Sweep)
    requires n <= |cs|
    ensures |r.cs| == |cs|
  {
    if n == 0 then Sweep(cs, [])
    else
      var w := Swept(cs, n - 1, period, notAliveAfter, now);
      var c := w.cs[n - 1];
      Sweep(if Checked(c, period, notAliveAfter, now) == c then w.cs else Served(w.cs, Remove(c.fd), now),
            w.calls + CallsFor(c, period, notAliveAfter, now))
  }

  function PassCalls(cs: seq<Client>, period: nat, notAliveAfter: nat, now: nat): seq<Call> {
    if cs == [] then []
    else
      PassCalls(cs[..|cs| - 1], period, notAliveAfter, now) + CallsFor(cs[|cs| - 1], period, notAliveAfter, now)
  }

  function Pass(cs: seq<Client>, period: nat, notAliveAfter: nat, now: nat): (r: seq<Client>)
    ensures |r| == |cs| && forall i | 0 <= i < |cs| :: r[i] == Checked(cs[i], period, notAliveAfter, now)
  {
    seq(|cs|, i requires 0 <= i < |cs| => Checked(cs[i], period, notAliveAfter, now))
  }

  /** The monitor's storage and the loops of its task. */
  class Monitor {
    const period: nat
    const notAliveAfter: nat
    const clients: array<Client>

    constructor (maxClients: nat, period: nat, notAliveAfter: nat)
      ensures fresh(clients) && clients.Length == maxClients && this.period == period
              && this.notAliveAfter == notAliveAfter
      ensures forall i | 0 <= i < maxClients :: clients[i] == NoClient
    {
      this.period, this.notAliveAfter := period, notAliveAfter;
      clients := new Client[maxClients](_ => NoClient);
    }

    method GetMaxDelay(now: nat) returns (delay: int)
      ensures delay == Delay(clients[..], period, now)
    {
      delay := MAX_DELAY;
      var i := 0;
      while i < clients.Length
        invariant i <= clients.Length && delay == Delay(clients[..i], period, now)
      {
        assert clients[..i + 1][..i] == clients[..i];
        var c := clients[i];
        if c.Active? {
          var checkAt := c.lastSeen + period;
          if checkAt < delay + now {
            delay := checkAt - now;
            if delay < 0 {
              delay := MIN_DELAY;
            }
          }
        }
        i := i + 1;
      }
      assert clients[..clients.Length] == clients[..];
    }

    /** The search of the client table by file descriptor, or for a free slot. */
    method FindSlot(fd: int) returns (k: nat)
      ensures k == SlotOf(clients[..], fd)
    {
      k := 0;
      assert clients[0..] == clients[..];
      while k < clients.Length && !(clients[k].Active? && clients[k].fd == fd)
        invariant k <= clients.Length && SlotOf(clients[..], fd) == k + SlotOf(clients[k..], fd)
      {
        assert clients[k..][1..] == clients[k + 1..];
        k := k + 1;
      }
    }

    method FindFree() returns (k: nat)
      ensures k == FreeSlot(clients[..])
    {
      k := 0;
      assert clients[0..] == clients[..];
      while k < clients.Length && clients[k].Active?
        invariant k <= clients.Length && FreeSlot(clients[..]) == k + FreeSlot(clients[k..])
      {
        assert clients[k..][1..] == clients[k + 1..];
        k := k + 1;
      }
    }

    method AddNewClient(fd: int, now: nat) returns (ok: bool)
      modifies clients
      ensures clients[..] == Served(old(clients[..]), Add(fd), now)
              && ok == (FreeSlot(old(clients[..])) < clients.Length)
    {
      var k := FindFree();
      ok := k < clients.Length;
      if ok {
        clients[k] := Active(fd, now);
      }
    }

    method UpdateClient(fd: int, timestamp: nat, ghost now: nat) returns (ok: bool)
      modifies clients
      ensures clients[..] == Served(old(clients[..]), Update(fd, timestamp), now)
              && ok == (SlotOf(old(clients[..]), fd) < clients.Length)
    {
      var k := FindSlot(fd);
      ok := k < clients.Length;
      if ok {
        clients[k] := Active(fd, timestamp);
      }
    }

    method RemoveClient(fd: int, ghost now: nat) returns (ok: bool)
      modifies clients
      ensures clients[..] == Served(old(clients[..]), Remove(fd), now)
              && ok == (SlotOf(old(clients[..]), fd) < clients.Length)
    {
      var k := FindSlot(fd);
      ok := k < clients.Length;
      if ok {
        clients[k] := NoClient;
      }
    }

    /** The pass after a timeout; the callbacks are the calls it returns. */
    method CheckPass(now: nat) returns (calls: seq<Call>)
      modifies clients
      ensures Sweep(clients[..], calls) == Swept(old(clients[..]), clients.Length, period, notAliveAfter, now)
    {
      calls := [];
      ghost var cs := clients[..];
      var i := 0;
      while i < clients.Length
        invariant i <= clients.Length && Sweep(clients[..], calls) == Swept(cs, i, period, notAliveAfter, now)
      {
        var c := clients[i];
        if c.Active? && c.lastSeen + period <= now {
          if c.lastSeen + notAliveAfter <= now {
            calls := calls + [NotAlive(c.fd)];
            var _ := RemoveClient(c.fd, now);
          } else {
            calls := calls + [Ping(c.fd)];
          }
        }
        i := i + 1;
      }
    }
  }

  /**
   Among the first n slots no client that has been silent for both limits stands behind one with its
   descriptor that has not.
   */
  ghost predicate DeadFirst(cs: seq<Client>, n: nat, period: nat, notAliveAfter: nat, now: nat)
    requires n <= |cs|
  {
    forall i, j | 0 <= j < i < n && cs[i].Active? && cs[j].Active? && cs[i].fd == cs[j].fd ::
      Dead(cs[i], period, notAliveAfter, now) ==> Dead(cs[j], period, notAliveAfter, now)
  }

  /**
   Whatever the table, each slot is untouched until its turn, and so the calls are those of a pass
   that checks every client on its own.
   */
  lemma {:induction false} SweptCalls(cs: seq<Client>, n: nat, period: nat, notAliveAfter: nat, now: nat)
    requires n <= |cs|
    ensures var w := Swept(cs, n, period, notAliveAfter, now);
            && w.calls == PassCalls(cs[..n], period, notAliveAfter, now)
            && forall j | n <= j < |cs| :: w.cs[j] == cs[j]
    decreases n
  {
    hide FreeSlot;
    if n > 0 {
      SweptCalls(cs, n - 1, period, notAliveAfter, now);
      assert cs[..n][..n - 1] == cs[..n - 1];
    }
  }

  lemma {:induction false} SweptIsChecked(cs: seq<Client>, n: nat, period: nat, notAliveAfter: nat, now: nat)
    requires n <= |cs| && DeadFirst(cs, n, period, notAliveAfter, now)
    ensures forall j | 0 <= j < n ::
              Swept(cs, n, period, notAliveAfter, now).cs[j] == Checked(cs[j], period, notAliveAfter, now)
    decreases n
  {
    hide FreeSlot, PassCalls;
    if n > 0 {
      SweptIsChecked(cs, n - 1, period, notAliveAfter, now);
      SweptCalls(cs, n - 1, period, notAliveAfter, now);
      var w := Swept(cs, n - 1, period, notAliveAfter, now).cs;
      if Dead(cs[n - 1], period, notAliveAfter, now) {
        var c := cs[n - 1];
        assert forall j | 0 <= j < n - 1 && cs[j].Active? && cs[j].fd == c.fd :: w[j] == NoClient;
        assert SlotOf(w, c.fd) == n - 1;
      }
    }
  }

  /** Otherwise a client that should have stayed is gone. */
  lemma {:induction false} SweptMisses(cs: seq<Client>, n: nat, period: nat, notAliveAfter: nat, now: nat)
    returns (k: nat)
    requires n <= |cs| && !DeadFirst(cs, n, period, notAliveAfter, now)
    ensures k < n && Checked(cs[k], period, notAliveAfter, now) == cs[k] != NoClient
    ensures Swept(cs, n, period, notAliveAfter, now).cs[k] == NoClient
    decreases n
  {
    hide FreeSlot, PassCalls, Dead;
    if DeadFirst(cs, n - 1, period, notAliveAfter, now) {
      k := WrongOneFreed(cs, n, period, notAliveAfter, now);
    } else {
      hide DeadFirst;
      k := SweptMisses(cs, n - 1, period, notAliveAfter, now);
    }
  }

  /** The first silent client behind a live one with its descriptor frees the slot of a live one. */
  lemma WrongOneFreed(cs: seq<Client>, n: nat, period: nat, notAliveAfter: nat, now: nat) returns (k: nat)
    requires 0 < n <= |cs|
    requires DeadFirst(cs, n - 1, period, notAliveAfter, now) && !DeadFirst(cs, n, period, notAliveAfter, now)
    ensures k < n && Checked(cs[k], period, notAliveAfter, now) == cs[k] != NoClient
    ensures Swept(cs, n, period, notAliveAfter, now).cs[k] == NoClient
  {
    hide FreeSlot, PassCalls, Dead;
    var w := Swept(cs, n - 1, period, notAliveAfter, now).cs;
    SweptIsChecked(cs, n - 1, period, notAliveAfter, now);
    SweptCalls(cs, n - 1, period, notAliveAfter, now);
    var c := cs[n - 1];
    var j :| 0 <= j < n - 1 && cs[j].Active? && cs[j].fd == c.fd && c.Active?
             && Dead(c, period, notAliveAfter, now) && !Dead(cs[j], period, notAliveAfter, now);
    hide DeadFirst;
    assert w[j] == cs[j] && w[n - 1] == c;
    k := SlotOf(w, c.fd);
    assert k <= j && w[k] == Checked(cs[k], period, notAliveAfter, now);
  }

  /**
   The pass leaves the table that checking every client on its own leaves, if and only if no silent
   client stands behind a live one with its descriptor. The calls are the same in any case.
   */
  lemma {:induction false} PassIsPerClient(cs: seq<Client>, period: nat, notAliveAfter: nat, now: nat)
    ensures Swept(cs, |cs|, period, notAliveAfter, now).calls == PassCalls(cs, period, notAliveAfter, now)
    ensures Swept(cs, |cs|, period, notAliveAfter, now).cs == Pass(cs, period, notAliveAfter, now)
        <==> DeadFirst(cs, |cs|, period, notAliveAfter, now)
  {
    SweptCalls(cs, |cs|, period, notAliveAfter, now);
    assert cs[..|cs|] == cs;
    if DeadFirst(cs, |cs|, period, notAliveAfter, now) {
      SweptIsChecked(cs, |cs|, period, notAliveAfter, now);
    } else {
      var k := SweptMisses(cs, |cs|, period, notAliveAfter, now);
      assert Pass(cs, period, notAliveAfter, now)[k] == cs[k];
    }
  }

  /** With distinct descriptors that is so, and what the pass leaves has distinct descriptors again. */
  lemma DistinctPass(cs: seq<Client>, period: nat, notAliveAfter: nat, now: nat)
    requires DistinctFds(cs)
    ensures Swept(cs, |cs|, period, notAliveAfter, now)
         == Sweep(Pass(cs, period, notAliveAfter, now), PassCalls(cs, period, notAliveAfter, now))
    ensures DistinctFds(Pass(cs, period, notAliveAfter, now))
  {
    PassIsPerClient(cs, period, notAliveAfter, now);
  }

  /**
   With a descriptor registered twice the pass can remove the client that was just heard from and
   keep the silent one.
   */
  lemma DuplicateRemovesTheLiveOne(fd: int, now: nat)
    requires now >= 1000
    ensures var w := Swept([Active(fd, now), Active(fd, 0)], 2, 100, 1000, now);
            w.calls == [NotAlive(fd)] && w.cs == [NoClient, Active(fd, 0)]
  {
    var cs := [Active(fd, now), Active(fd, 0)];
    assert Swept(cs, 1, 100, 1000, now) == Sweep(cs, []);
    assert SlotOf(cs, fd) == 0;
  }

  // ----- timing -----

  /** Whatever the table, what the pass leaves in a slot was there before, or the slot is free. */
  lemma {:induction false} SweptOnlyFrees(cs: seq<Client>, n: nat, period: nat, notAliveAfter: nat, now: nat)
    requires n <= |cs|
    ensures var w := Swept(cs, n, period, notAliveAfter, now);
            forall j | 0 <= j < |cs| :: w.cs[j] == cs[j] || w.cs[j] == NoClient
    decreases n
  {
    if n > 0 {
      SweptOnlyFrees(cs, n - 1, period, notAliveAfter, now);
    }
  }

  /** Whatever the table, a descriptor is reported only if a client with it has been silent for both limits. */
  lemma {:induction false} ReportedOnlyIfSilent(cs: seq<Client>, n: nat, period: nat, notAliveAfter: nat, now: nat,
                                                fd: int)
    requires n <= |cs| && NotAlive(fd) in Swept(cs, n, period, notAliveAfter, now).calls
    ensures exists c ::
              c in cs && c.Active? && c.fd == fd && c.lastSeen + notAliveAfter <= now && c.lastSeen + period <= now
    decreases n
  {
    var w := Swept(cs, n - 1, period, notAliveAfter, now);
    if NotAlive(fd) in w.calls {
      ReportedOnlyIfSilent(cs, n - 1, period, notAliveAfter, now, fd);
    } else {
      SweptOnlyFrees(cs, n - 1, period, notAliveAfter, now);
      assert cs[n - 1] in cs;
    }
  }

  lemma {:induction false} SilentIsReported(cs: seq<Client>, period: nat, notAliveAfter: nat, now: nat, i: nat)
    requires i < |cs| && Silent(cs[i], period, now) && Silent(cs[i], notAliveAfter, now)
    ensures NotAlive(cs[i].fd) in PassCalls(cs, period, notAliveAfter, now)
    decreases |cs|
  {
    if i < |cs| - 1 {
      SilentIsReported(cs[..|cs| - 1], period, notAliveAfter, now, i);
    }
  }

  /** The table at the time of the latest event. */
  datatype Moment = Moment(cs: seq<Client>, now: nat)

  /** With nothing in the queue the monitor wakes by the end of its delay, and each waking is a pass. */
  ghost predicate QuietRun(m: Moment, period: nat, notAliveAfter: nat, wakes: seq<nat>)
    decreases |wakes|
  {
    wakes == [] ||
    (m.now <= wakes[0] <= m.now + Delay(m.cs, period, m.now)
     && QuietRun(Moment(Swept(m.cs, |m.cs|, period, notAliveAfter, wakes[0]).cs, wakes[0]), period, notAliveAfter,
                 wakes[1..]))
  }

  /** The table before the k-th pass of a quiet run. */
  ghost function Before(m: Moment, period: nat, notAliveAfter: nat, wakes: seq<nat>, k: nat): seq<Client>
    requires k <= |wakes|
    decreases k
  {
    if k == 0 then m.cs
    else Before(Moment(Swept(m.cs, |m.cs|, period, notAliveAfter, wakes[0]).cs, wakes[0]), period, notAliveAfter,
                wakes[1..], k - 1)
  }

  /** A client that is not yet due lets the monitor sleep to at most one second past the client's deadline. */
  lemma NextWakeInTime(cs: seq<Client>, period: nat, notAliveAfter: nat, now: nat, c: Client)
    requires c in cs && c.Active? && period <= notAliveAfter && now < c.lastSeen + notAliveAfter
    ensures now + Delay(cs, period, now) <= c.lastSeen + notAliveAfter + MIN_DELAY
  {
    DelayBounds(cs, period, now);
  }

  /**
   Detection latency: in a quiet run that reaches a client's deadline, the client is reported in a
   pass that takes place no earlier than the deadline and no more than one second after it, and
   that pass removes it.
   */
  lemma {:induction false} SilentClientIsReported(m: Moment, period: nat, notAliveAfter: nat, wakes: seq<nat>, i: nat)
    returns (k: nat)
    requires QuietRun(m, period, notAliveAfter, wakes) && period <= notAliveAfter && DistinctFds(m.cs)
    requires i < |m.cs| && m.cs[i].Active? && m.now < m.cs[i].lastSeen + notAliveAfter
    requires wakes != [] && wakes[|wakes| - 1] >= m.cs[i].lastSeen + notAliveAfter
    ensures k < |wakes| && |Before(m, period, notAliveAfter, wakes, k)| == |m.cs|
    ensures m.cs[i].lastSeen + notAliveAfter <= wakes[k] <= m.cs[i].lastSeen + notAliveAfter + 1000
    ensures Before(m, period, notAliveAfter, wakes, k)[i] == m.cs[i]
    ensures var w := Swept(Before(m, period, notAliveAfter, wakes, k), |m.cs|, period, notAliveAfter, wakes[k]);
            NotAlive(m.cs[i].fd) in w.calls && w.cs[i] == NoClient
    decreases |wakes|
  {
    hide Delay, PassCalls, Swept, DistinctFds;
    NextWakeInTime(m.cs, period, notAliveAfter, m.now, m.cs[i]);
    DistinctPass(m.cs, period, notAliveAfter, wakes[0]);
    if wakes[0] >= m.cs[i].lastSeen + notAliveAfter {
      SilentIsReported(m.cs, period, notAliveAfter, wakes[0], i);
      k := 0;
    } else {
      var m1 := Moment(Pass(m.cs, period, notAliveAfter, wakes[0]), wakes[0]);
      k := SilentClientIsReported(m1, period, notAliveAfter, wakes[1..], i);
      k := k + 1;
    }
  }

  // ----- clients that are heard from -----

  /** Only one slot of a table without duplicates holds a descriptor. */
  lemma OneSlot(cs: seq<Client>, i: nat, j: nat)
    requires DistinctFds(cs) && i < |cs| && j < |cs| && cs[i].Active? && cs[j].Active? && cs[i].fd == cs[j].fd
    ensures i == j
  {
  }

  /**
   A client that was last seen at some time is neither reported nor removed by any pass of a quiet run that
   comes before its deadline.
   */
  lemma {:induction false} NotReportedBefore(m: Moment, period: nat, notAliveAfter: nat, wakes: seq<nat>, i: nat,
                                             fd: int, seen: nat, k: nat)
    requires QuietRun(m, period, notAliveAfter, wakes) && DistinctFds(m.cs) && period <= notAliveAfter
    requires i < |m.cs| && m.cs[i] == Active(fd, seen) && k < |wakes| && wakes[k] < seen + notAliveAfter
    ensures |Before(m, period, notAliveAfter, wakes, k)| == |m.cs|
    ensures Before(m, period, notAliveAfter, wakes, k)[i] == m.cs[i]
    ensures var w := Swept(Before(m, period, notAliveAfter, wakes, k), |m.cs|, period, notAliveAfter, wakes[k]);
            NotAlive(fd) !in w.calls && w.cs[i] == m.cs[i]
    decreases k
  {
    hide Delay, PassCalls, DistinctFds, Swept;
    DistinctPass(m.cs, period, notAliveAfter, wakes[0]);
    if k == 0 {
      if NotAlive(fd) in Swept(m.cs, |m.cs|, period, notAliveAfter, wakes[0]).calls {
        ReportedOnlyIfSilent(m.cs, |m.cs|, period, notAliveAfter, wakes[0], fd);
        var j :| 0 <= j < |m.cs| && m.cs[j].Active? && m.cs[j].fd == fd && m.cs[j].lastSeen + notAliveAfter <= wakes[0];
        OneSlot(m.cs, i, j);
      }
    } else {
      WakesGrow(m, period, notAliveAfter, wakes, 0, k);
      var m1 := Moment(Pass(m.cs, period, notAliveAfter, wakes[0]), wakes[0]);
      NotReportedBefore(m1, period, notAliveAfter, wakes[1..], i, fd, seen, k - 1);
    }
  }

  lemma {:induction false} WakesGrow(m: Moment, period: nat, notAliveAfter: nat, wakes: seq<nat>, j: nat, k: nat)
    requires QuietRun(m, period, notAliveAfter, wakes) && j <= k < |wakes|
    ensures m.now <= wakes[j] <= wakes[k]
    decreases |wakes|
  {
    hide Delay, Swept;
    var m1 := Moment(Swept(m.cs, |m.cs|, period, notAliveAfter, wakes[0]).cs, wakes[0]);
    if j > 0 {
      WakesGrow(m1, period, notAliveAfter, wakes[1..], j - 1, k - 1);
    } else if k > 0 {
      WakesGrow(m1, period, notAliveAfter, wakes[1..], 0, k - 1);
    }
  }

  /** After an update with a timestamp the client is not reported before that timestamp and the limit have passed. */
  lemma {:induction false} UpdatedIsNotReported(cs: seq<Client>, now: nat, period: nat, notAliveAfter: nat,
                                                wakes: seq<nat>, i: nat, timestamp: nat, k: nat)
    requires DistinctFds(cs) && i < |cs| && cs[i].Active? && period <= notAliveAfter
    requires QuietRun(Moment(Served(cs, Update(cs[i].fd, timestamp), now), now), period, notAliveAfter, wakes)
    requires k < |wakes| && wakes[k] < timestamp + notAliveAfter
    ensures var m := Moment(Served(cs, Update(cs[i].fd, timestamp), now), now);
            && |Before(m, period, notAliveAfter, wakes, k)| == |cs|
            && var w := Swept(Before(m, period, notAliveAfter, wakes, k), |cs|, period, notAliveAfter, wakes[k]);
               NotAlive(cs[i].fd) !in w.calls && w.cs[i] == Active(cs[i].fd, timestamp)
  {
    hide QuietRun, Before, Swept;
    var m := Moment(Served(cs, Update(cs[i].fd, timestamp), now), now);
    OneSlot(cs, i, SlotOf(cs, cs[i].fd));
    assert DistinctFds(m.cs);
    NotReportedBefore(m, period, notAliveAfter, wakes, i, cs[i].fd, timestamp, k);
  }

  /** A new client is not reported before the limit has passed since it was added. */
  lemma {:induction false} AddedIsNotReported(cs: seq<Client>, now: nat, period: nat, notAliveAfter: nat,
                                              wakes: seq<nat>, i: nat, fd: int, k: nat)
    requires DistinctFds(cs) && (forall j | 0 <= j < |cs| && cs[j].Active? :: cs[j].fd != fd) && period <= notAliveAfter
    requires i < |cs| && cs[i].NoClient? && forall j | 0 <= j < i :: cs[j].Active?
    requires QuietRun(Moment(Served(cs, Add(fd), now), now), period, notAliveAfter, wakes)
    requires k < |wakes| && wakes[k] < now + notAliveAfter
    ensures var m := Moment(Served(cs, Add(fd), now), now);
            && |Before(m, period, notAliveAfter, wakes, k)| == |cs|
            && var w := Swept(Before(m, period, notAliveAfter, wakes, k), |cs|, period, notAliveAfter, wakes[k]);
               NotAlive(fd) !in w.calls && w.cs[i] == Active(fd, now)
  {
    hide QuietRun, Before, Swept;
    var m := Moment(Served(cs, Add(fd), now), now);
    assert FreeSlot(cs) == i;
    assert DistinctFds(m.cs);
    NotReportedBefore(m, period, notAliveAfter, wakes, i, fd, now, k);
  }

  /** A client that was removed is not in the table any more, and every other one still is. */
  lemma {:induction false} RemovedIsForgotten(cs: seq<Client>, fd: int, now: nat)
    requires DistinctFds(cs)
    ensures forall j | 0 <= j < |cs| ::
              Served(cs, Remove(fd), now)[j] == if cs[j].Active? && cs[j].fd == fd then NoClient else cs[j]
  {
    forall j | 0 <= j < |cs| && cs[j].Active? && cs[j].fd == fd
      ensures j == SlotOf(cs, fd)
    {
      OneSlot(cs, j, SlotOf(cs, fd));
    }
  }

  /** A pass pings exactly the clients that have been silent for the period but not for the limit. */
  lemma {:induction false} PingedExactly(cs: seq<Client>, period: nat, notAliveAfter: nat, now: nat, fd: int)
    ensures Ping(fd) in PassCalls(cs, period, notAliveAfter, now)
       <==> exists c :: c in cs && c.Active? && c.fd == fd && c.lastSeen + period <= now < c.lastSeen + notAliveAfter
    decreases |cs|
  {
    if cs != [] {
      var init, last := cs[..|cs| - 1], cs[|cs| - 1];
      assert cs == init + [last];
      PingedExactly(init, period, notAliveAfter, now, fd);
      if Ping(fd) in CallsFor(last, period, notAliveAfter, now) {
        assert last in cs;
      }
    }
  }
}
