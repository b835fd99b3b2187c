/**
 The register-bank cache of the ENC28J60 driver. Threads interleave at the granularity of single
 SPI transactions; a register access holds the register lock while it selects the bank and
 touches the register, but other bits of ECON1, the register that holds the bank bits, are set and
 cleared without that lock.
 */
module BankCache {
  import opened Bytes

  /** A banked register as the chip sees it: bank 0 to 3 and an address below the shared ones. */
  datatype Reg = Reg(bank: nat, index: nat)

  /** The first of the registers that all banks share; ECON1 is one of them and holds the bank bits. */
  const SHARED: nat := 0x1B
  /** The cached bank before the first access. */
  const NO_BANK: nat := 0xFF

  datatype Access = Write(addr: nat, value: byte) | Read(addr: nat)

  /** The bank bits of ECON1. */
  const BANK_BITS: bv8 := 3
  /** The bits that the driver sets and clears without the lock: receive enable, transmit request, transmit reset. */
  const RXEN: bv8 := 0x04
  const TXRTS: bv8 := 0x08
  const TXRST: bv8 := 0x80

  /** The bank that ECON1 selects. */
  function Selected(econ1: bv8): nat {
    var bits := econ1 & BANK_BITS;
    if bits == 0 then 0 else if bits == 1 then 1 else if bits == 2 then 2 else 3
  }

  /** bank & 0x03 */
  function Bits(bank: nat): bv8 {
    match bank % 4
    case 0 => 0
    case 1 => 1
    case 2 => 2
    case _ => 3
  }

  /** A bit field set command: every bit of the mask becomes 1. */
  function BitsSet(econ1: bv8, mask: bv8): bv8 { econ1 | mask }

  /** A bit field clear command: every bit of the mask becomes 0. */
  function BitsCleared(econ1: bv8, mask: bv8): bv8 { econ1 & !mask }

  /** Clearing the bank bits selects bank 0, and setting bits after that selects the bank they name. */
  lemma SwitchSelects(econ1: bv8, bank: nat)
    ensures Selected(BitsCleared(econ1, BANK_BITS)) == 0
    ensures Selected(econ1) == 0 ==> Selected(BitsSet(econ1, Bits(bank))) == bank % 4
  {
  }

  /**
   Only because of the clear in front of it does a set select the wanted bank: without it, exactly
   from a bank whose bits the wanted one has too.
   */
  lemma SetAloneSelects(econ1: bv8, bank: nat)
    ensures Selected(BitsSet(econ1, Bits(bank))) == bank % 4
            <==> Selected(econ1) == 0 || Selected(econ1) == bank % 4 || bank % 4 == 3
  {
  }

  /** A command leaves every bank selected that was selected if and only if its mask spares the bank bits. */
  lemma MaskSparesBank(mask: bv8)
    ensures (forall e: bv8 :: Selected(BitsSet(e, mask)) == Selected(e)) <==> mask & BANK_BITS == 0
    ensures (forall e: bv8 :: Selected(BitsCleared(e, mask)) == Selected(e)) <==> mask & BANK_BITS == 0
    ensures mask == RXEN || mask == TXRTS || mask == TXRST ==> mask & BANK_BITS == 0
  {
    assert Selected(BitsSet(0, mask)) == 0 ==> mask & BANK_BITS == 0;
    assert Selected(BitsCleared(3, mask)) == 3 ==> mask & BANK_BITS == 0;
  }

  /** (reg_addr & 0xF00) >> 8 */
  function BankOf(addr: nat): nat { addr / 0x100 % 16 }

  /** The register that a 16-bit address names. */
  function Named(addr: nat): Reg { Reg(BankOf(addr) % 4, addr % 0x100) }

  /** A 16-bit address: four bits in front, four of the bank, eight of the register in the bank. */
  predicate Spells(addr: nat, hi: nat, bank: nat, low: nat) {
    bank < 16 && low < 0x100 && addr == hi * 0x1000 + bank * 0x100 + low
  }

  lemma SpelledBank(addr: nat, hi: nat, bank: nat, low: nat)
    requires Spells(addr, hi, bank, low)
    ensures BankOf(addr) == bank && Named(addr) == Reg(bank % 4, low)
  {
    assert addr / 0x100 == hi * 16 + bank;
  }

  /** Where a thread stands inside a register access; it holds the register lock unless Idle. */
  datatype Pc =
    | Idle
    | Compare(op: Access)
    | Clear(op: Access)
    | Set(op: Access)
    | Remember(op: Access)
    | Transfer(op: Access)
    | Unlock

  /** What the wire saw: the register that was reached for an access, and the value that went over. */
  datatype Event = Event(op: Access, reached: Reg, value: byte)

  /**
   Chip: ECON1 and the banked registers. Driver: the cached bank and
   one program counter per thread. `flat` is the register file the driver's callers have in mind.
   */
  datatype State = State(econ1: bv8, regs: map<Reg, byte>, lastBank: nat, pcs: seq<Pc>,
                         flat: map<Reg, byte>, events: seq<Event>)

  function Value(regs: map<Reg, byte>, r: Reg): byte {
    if r in regs then regs[r] else 0
  }

  /** One atomic step of thread t. `ok` tells whether the SPI transaction of the step succeeds. */
  datatype Step =
    | Begin(t: nat, op: Access)
    | Advance(t: nat, ok: bool)
    | SetBits(mask: bv8)
    | ClearBits(mask: bv8)
    | Reset

  /** The lock is free. */
  predicate Free(s: State) {
    forall t | 0 <= t < |s.pcs| :: s.pcs[t].Idle?
  }

  predicate Enabled(s: State, step: Step) {
    match step
    case Begin(t, op) => t < |s.pcs| && Free(s) && op.addr % 0x100 < SHARED
    case Advance(t, _) => t < |s.pcs| && !s.pcs[t].Idle?
    case _ => true
  }

  function Goto(s: State, t: nat, pc: Pc): State
    requires t < |s.pcs|
  {
    s.(pcs := s.pcs[t := pc])
  }

  function Next(s: State, step: Step): State
    requires Enabled(s, step)
  {
    match step
    case Begin(t, op) => Goto(s, t, Compare(op))
    case SetBits(mask) => s.(econ1 := BitsSet(s.econ1, mask))
    case ClearBits(mask) => s.(econ1 := BitsCleared(s.econ1, mask))
    case Reset => s.(econ1 := 0)
    case Advance(t, ok) =>
      match s.pcs[t]
      case Compare(op) => Goto(s, t, if BankOf(op.addr) != s.lastBank then Clear(op) else Transfer(op))
      case Clear(op) =>
        if ok then Goto(s.(econ1 := BitsCleared(s.econ1, BANK_BITS)), t, Set(op)) else Goto(s, t, Unlock)
      case Set(op) =>
        if ok then Goto(s.(econ1 := BitsSet(s.econ1, Bits(BankOf(op.addr)))), t, Remember(op)) else Goto(s, t, Unlock)
      case Remember(op) => Goto(s.(lastBank := BankOf(op.addr)), t, Transfer(op))
      case Transfer(op) => if ok then Goto(Touch(s, op), t, Unlock) else Goto(s, t, Unlock)
      case Unlock => Goto(s, t, Idle)
  }

  /** The transaction reaches the register that the chip's own bank bits select. */
  function Touch(s: State, op: Access): State {
    var r := Reg(Selected(s.econ1), op.addr % 0x100);
    match op
    case Write(addr, value) =>
      s.(regs := s.regs[r := value], flat := s.flat[Named(addr) := value], events := s.events + [Event(op, r, value)])
    case Read(_) => s.(events := s.events + [Event(op, r, Value(s.regs, r))])
  }

  // ----- the invariant -----

  /** The cache tells the truth, or knows nothing. */
  predicate Coherent(s: State) {
    s.lastBank == NO_BANK || (s.lastBank < 16 && Selected(s.econ1) == s.lastBank % 4)
  }

  /** What holds while the lock holder stands at a given point. */
  ghost predicate Standing(s: State, pc: Pc) {
    match pc
    case Idle => true
    case Compare(op) => Coherent(s) && op.addr % 0x100 < SHARED
    case Clear(op) => Coherent(s) && op.addr % 0x100 < SHARED
    case Set(op) => Selected(s.econ1) == 0 && op.addr % 0x100 < SHARED
    case Remember(op) => Selected(s.econ1) == BankOf(op.addr) % 4 && op.addr % 0x100 < SHARED
    case Transfer(op) => Coherent(s) && s.lastBank == BankOf(op.addr) && op.addr % 0x100 < SHARED
    case Unlock => Coherent(s)
  }

  /** Every access so far reached the register its address names. */
  ghost predicate AllReached(s: State) {
    forall e | e in s.events :: e.reached == Named(e.op.addr)
  }

  ghost predicate Inv(s: State) {
    && (forall t, u | 0 <= t < u < |s.pcs| :: s.pcs[t].Idle? || s.pcs[u].Idle?)
    && (forall t | 0 <= t < |s.pcs| :: Standing(s, s.pcs[t]))
    && (Free(s) ==> Coherent(s))
    && s.regs == s.flat && AllReached(s)
  }

  /**
   What must not happen: a reset once a bank is cached, a failed set after its clear, an unlocked
   command on the bank bits.
   */
  ghost predicate Benign(s: State, step: Step)
    requires Enabled(s, step)
  {
    match step
    case Reset => s.lastBank == NO_BANK && Free(s)
    case Advance(t, ok) => s.pcs[t].Set? ==> ok
    case SetBits(mask) => mask & BANK_BITS == 0
    case ClearBits(mask) => mask & BANK_BITS == 0
    case Begin(_, _) => true
  }

  lemma AdvanceKeeps(s: State, t: nat, ok: bool)
    requires Inv(s) && Enabled(s, Advance(t, ok)) && Benign(s, Advance(t, ok))
    ensures Inv(Next(s, Advance(t, ok)))
  {
    hide Selected, Bits, BitsSet, BitsCleared;
    var s' := Next(s, Advance(t, ok));
    assert Standing(s, s.pcs[t]);
    if s.pcs[t].Clear? || s.pcs[t].Set? {
      SwitchSelects(s.econ1, BankOf(s.pcs[t].op.addr));
    }
    assert forall u | 0 <= u < |s.pcs| && u != t :: s.pcs[u].Idle? && s'.pcs[u].Idle?;
    if s.pcs[t].Unlock? {
      assert Coherent(s');
    } else {
      assert !s'.pcs[t].Idle?;
    }
  }

  lemma StepKeeps(s: State, step: Step)
    requires Inv(s) && Enabled(s, step) && Benign(s, step)
    ensures Inv(Next(s, step))
  {
    hide Bits, BitsSet, BitsCleared;
    match step
    case Advance(t, ok) => AdvanceKeeps(s, t, ok);
    case SetBits(mask) => MaskSparesBank(mask);
    case ClearBits(mask) => MaskSparesBank(mask);
    case Reset =>
    case Begin(_, _) =>
  }

  /** An initialised driver with n threads on a chip that has any bank selected. */
  function Start(n: nat, econ1: bv8, regs: map<Reg, byte>): State {
    State(econ1, regs, NO_BANK, seq(n, _ => Idle), regs, [])
  }

  ghost predicate BenignRun(s: State, steps: seq<Step>)
    decreases |steps|
  {
    steps == [] || (Enabled(s, steps[0]) && Benign(s, steps[0]) && BenignRun(Next(s, steps[0]), steps[1..]))
  }

  ghost function Run(s: State, steps: seq<Step>): State
    requires BenignRun(s, steps)
    decreases |steps|
  {
    if steps == [] then s else Run(Next(s, steps[0]), steps[1..])
  }

  lemma {:induction false} RunKeeps(s: State, steps: seq<Step>)
    requires Inv(s) && BenignRun(s, steps)
    ensures Inv(Run(s, steps))
    decreases |steps|
  {
    hide Next, Enabled, Benign, Inv;
    if steps != [] {
      StepKeeps(s, steps[0]);
      RunKeeps(Next(s, steps[0]), steps[1..]);
    }
  }

  // ----- what the accesses see -----

  /**
   The last value written to a register, by bits 8 and 9 of the address and by its low byte; at first
   what was there.
   */
  ghost function LastWritten(regs: map<Reg, byte>, events: seq<Event>, bank: nat, low: nat): byte {
    if events == [] then Value(regs, Reg(bank, low))
    else
      var op := events[|events| - 1].op;
      if op.Write? && op.addr / 0x100 % 4 == bank && op.addr % 0x100 == low then op.value
      else LastWritten(regs, events[..|events| - 1], bank, low)
  }

  /** An access that went over the wire: the register it reached, and the value it wrote or read. */
  ghost predicate Served(regs: map<Reg, byte>, events: seq<Event>, k: nat)
    requires k < |events|
  {
    var e := events[k];
    && (forall hi: nat, bank: nat, low: nat | Spells(e.op.addr, hi, bank, low) :: e.reached == Reg(bank % 4, low))
    && e.value == match e.op
                  case Write(_, value) => value
                  case Read(addr) => LastWritten(regs, events[..k], addr / 0x100 % 4, addr % 0x100)
  }

  ghost predicate Replays(regs: map<Reg, byte>, s: State) {
    && (forall k | 0 <= k < |s.events| :: Served(regs, s.events, k))
    && forall bank, low | 0 <= bank < 4 && 0 <= low ::
         Value(s.regs, Reg(bank, low)) == LastWritten(regs, s.events, bank, low)
  }

  lemma TouchReplays(regs: map<Reg, byte>, s: State, op: Access)
    requires Replays(regs, s) && Selected(s.econ1) == BankOf(op.addr) % 4
    ensures Replays(regs, Touch(s, op))
  {
    hide Selected, BankOf;
    var s', n := Touch(s, op), |s.events|;
    assert BankOf(op.addr) % 4 == op.addr / 0x100 % 4 by { BankBits(op.addr); }
    assert s'.events[..n] == s.events;
    forall k | 0 <= k < |s'.events|
      ensures Served(regs, s'.events, k)
    {
      if k < n {
        assert Served(regs, s.events, k) && s'.events[..k] == s.events[..k];
      } else {
        forall hi: nat, bank: nat, low: nat | Spells(op.addr, hi, bank, low)
          ensures s'.events[k].reached == Reg(bank % 4, low)
        {
          SpelledBank(op.addr, hi, bank, low);
        }
      }
    }
  }

  lemma BankBits(addr: nat)
    ensures BankOf(addr) % 4 == addr / 0x100 % 4
  {
    LastTwoBits(addr / 0x100);
  }

  lemma LastTwoBits(n: nat)
    ensures n % 16 % 4 == n % 4
  {
    assert n == 4 * (4 * (n / 16) + n % 16 / 4) + n % 16 % 4;
  }

  lemma StepReplays(regs: map<Reg, byte>, s: State, step: Step)
    requires Inv(s) && Enabled(s, step) && Benign(s, step) && Replays(regs, s)
    ensures Replays(regs, Next(s, step))
  {
    hide Selected, Bits, BitsSet, BitsCleared, BankOf, LastWritten, Served, Touch;
    if step.Advance? && s.pcs[step.t].Transfer? && step.ok {
      assert Standing(s, s.pcs[step.t]);
      assert s.lastBank != NO_BANK by { SmallBank(s.pcs[step.t].op.addr); }
      TouchReplays(regs, s, s.pcs[step.t].op);
    }
  }

  lemma SmallBank(addr: nat)
    ensures BankOf(addr) < 16
  {
  }

  lemma {:induction false} RunReplays(regs: map<Reg, byte>, s: State, steps: seq<Step>)
    requires Inv(s) && BenignRun(s, steps) && Replays(regs, s)
    ensures Replays(regs, Run(s, steps))
    decreases |steps|
  {
    hide Next, Enabled, Benign, Inv, Replays;
    if steps != [] {
      StepKeeps(s, steps[0]);
      StepReplays(regs, s, steps[0]);
      RunReplays(regs, Next(s, steps[0]), steps[1..]);
    }
  }

  /**
   The cache refines a flat register file. For every interleaving of any number of threads, every
   access reached the register in the bank of bits 8 and 9 of its address, at its low byte; every read
   got the last value written there; and the chip's registers hold the last values written.
   */
  lemma {:induction false} CacheRefinesFlatFile(n: nat, econ1: bv8, regs: map<Reg, byte>, steps: seq<Step>)
    requires BenignRun(Start(n, econ1, regs), steps)
    ensures var s := Run(Start(n, econ1, regs), steps);
            && (forall k, hi: nat, bank: nat, low: nat | 0 <= k < |s.events|
                && Spells(s.events[k].op.addr, hi, bank, low) ::
                  s.events[k].reached == Reg(bank % 4, low))
            && (forall k | 0 <= k < |s.events| :: Served(regs, s.events, k))
            && (forall bank, low | 0 <= bank < 4 && 0 <= low ::
                  Value(s.regs, Reg(bank, low)) == LastWritten(regs, s.events, bank, low))
            && s.regs == s.flat
  {
    hide Next, Enabled, Benign;
    assert Inv(Start(n, econ1, regs));
    RunKeeps(Start(n, econ1, regs), steps);
    RunReplays(regs, Start(n, econ1, regs), steps);
    var s := Run(Start(n, econ1, regs), steps);
    forall k, hi: nat, bank: nat, low: nat | 0 <= k < |s.events| && Spells(s.events[k].op.addr, hi, bank, low)
      ensures s.events[k].reached == Reg(bank % 4, low)
    {
      assert Served(regs, s.events, k);
    }
  }

  // ----- exactly when the two exclusions matter -----

  /**
   A set that fails after its clear leaves the cache telling the truth exactly if it held bank 0
   modulo 4, or nothing.
   */
  lemma FailedSet(s: State, t: nat)
    requires Inv(s) && t < |s.pcs| && s.pcs[t].Set? && (s.lastBank < 16 || s.lastBank == NO_BANK)
    ensures Coherent(Next(s, Advance(t, false))) <==> s.lastBank == NO_BANK || s.lastBank % 4 == 0
  {
    hide Selected;
    assert Standing(s, s.pcs[t]);
  }

  /** A reset keeps the cache truthful under the same condition. */
  lemma ResetWhileCached(s: State)
    requires s.lastBank < 16 || s.lastBank == NO_BANK
    ensures Coherent(Next(s, Reset)) <==> s.lastBank == NO_BANK || s.lastBank % 4 == 0
  {
  }

  /** After either accident, the next access to the cached bank goes to a register of bank 0. */
  lemma StaleCacheMisses(s: State, t: nat, op: Access)
    requires t < |s.pcs| && Free(s) && op.addr % 0x100 < SHARED
    requires Selected(s.econ1) == 0 && s.lastBank == BankOf(op.addr) && s.lastBank % 4 != 0
    ensures var s1 := Next(s, Begin(t, op));
            var s2 := Next(s1, Advance(t, true));
            var s3 := Next(s2, Advance(t, true));
            var e := s3.events[|s.events|];
            |s3.events| == |s.events| + 1 && e.op == op && e.reached == Reg(0, op.addr % 0x100)
                && e.reached != Named(op.addr)
  {
  }

  // ----- the driver's own methods -----

  /** The next transaction of the one thread, if it stands at the given point. */
  function Go(s: State, here: bool, ok: bool): (r: State)
    requires |s.pcs| == 1
    ensures |r.pcs| == 1 && (!here ==> r == s)
  {
    if here && !s.pcs[0].Idle? then Next(s, Advance(0, ok)) else s
  }

  /** One thread's access from lock to unlock, with the outcome of each transaction. */
  function Alone(s: State, op: Access, clearOk: bool, setOk: bool, transferOk: bool): State
    requires s.pcs == [Idle] && op.addr % 0x100 < SHARED
  {
    var s1 := Go(Next(s, Begin(0, op)), true, true);
    var s2 := Go(s1, s1.pcs[0].Clear?, clearOk);
    var s3 := Go(s2, s2.pcs[0].Set?, setOk);
    var s4 := Go(s3, s3.pcs[0].Remember?, true);
    var s5 := Go(s4, s4.pcs[0].Transfer?, transferOk);
    Go(s5, true, true)
  }

  /** Each transaction of the one thread on its own. */
  lemma GoesOn(s: State, pc: Pc, op: Access, ok: bool)
    requires s.pcs == [pc]
    ensures pc == Compare(op) ==>
              Go(s, true, ok) == s.(pcs := [if BankOf(op.addr) != s.lastBank then Clear(op) else Transfer(op)])
    ensures pc == Clear(op) ==>
              Go(s, true, ok) == if ok then s.(econ1 := BitsCleared(s.econ1, BANK_BITS), pcs := [Set(op)])
                  else s.(pcs := [Unlock])
    ensures pc == Set(op) ==>
              Go(s, true, ok) == if ok then s.(econ1 := BitsSet(s.econ1, Bits(BankOf(op.addr))), pcs := [Remember(op)])
                                 else s.(pcs := [Unlock])
    ensures pc == Remember(op) ==> Go(s, true, ok) == s.(lastBank := BankOf(op.addr), pcs := [Transfer(op)])
    ensures pc == Transfer(op) ==> Go(s, true, ok) == if ok then Touch(s, op).(pcs := [Unlock]) else s.(pcs := [Unlock])
    ensures pc == Unlock ==> Go(s, true, ok) == s.(pcs := [Idle])
  {
    hide Selected, Bits, BitsSet, BitsCleared;
    assert forall x: Pc :: s.pcs[0 := x] == [x];
  }

  /** Where a touch leaves the thread does not matter. */
  lemma TouchGoes(s: State, op: Access, pcs: seq<Pc>)
    ensures Touch(s.(pcs := pcs), op) == Touch(s, op).(pcs := pcs)
  {
    hide Selected;
  }

  /** What a whole access amounts to: switch unless the cache says the bank is selected, then touch the register. */
  lemma AloneOutcome(s: State, op: Access, clearOk: bool, setOk: bool, transferOk: bool)
    requires s.pcs == [Idle] && op.addr % 0x100 < SHARED
    ensures var want := BankOf(op.addr);
            Alone(s, op, clearOk, setOk, transferOk)
            == if want != s.lastBank && !clearOk then s
               else if want != s.lastBank && !setOk then s.(econ1 := BitsCleared(s.econ1, BANK_BITS))
               else
                 var s1 := if want != s.lastBank
                           then s.(econ1 := BitsSet(BitsCleared(s.econ1, BANK_BITS), Bits(want)), lastBank := want)
                           else s;
                 if transferOk then Touch(s1, op) else s1
  {
    hide Selected, Bits, BitsSet, BitsCleared, Touch, Go;
    var s0 := Next(s, Begin(0, op));
    assert s0 == s.(pcs := [Compare(op)]) by { assert s.pcs[0 := Compare(op)] == [Compare(op)]; }
    hide Next;
    GoesOn(s0, Compare(op), op, true);
    var s1 := Go(s0, true, true);
    GoesOn(s1, s1.pcs[0], op, clearOk);
    var s2 := Go(s1, s1.pcs[0].Clear?, clearOk);
    GoesOn(s2, s2.pcs[0], op, setOk);
    var s3 := Go(s2, s2.pcs[0].Set?, setOk);
    GoesOn(s3, s3.pcs[0], op, true);
    var s4 := Go(s3, s3.pcs[0].Remember?, true);
    GoesOn(s4, s4.pcs[0], op, transferOk);
    var s5 := Go(s4, s4.pcs[0].Transfer?, transferOk);
    GoesOn(s5, Unlock, op, true);
    if s4.pcs == [Transfer(op)] {
      TouchGoes(s4, op, s.pcs);
    }
  }

  /** With a truthful cache the selected register is the one that the address spells. */
  lemma ReachesNamed(s: State, econ1: bv8, addr: nat)
    requires if BankOf(addr) == s.lastBank then econ1 == s.econ1 else Selected(econ1) == BankOf(addr) % 4
    ensures Coherent(s) ==>
              forall hi: nat, bank: nat, low: nat | Spells(addr, hi, bank, low) ::
                Reg(Selected(econ1), addr % 0x100) == Reg(bank % 4, low)
  {
    hide Selected;
    SmallBank(addr);
    forall hi: nat, bank: nat, low: nat | Spells(addr, hi, bank, low)
      ensures Coherent(s) ==> Reg(Selected(econ1), addr % 0x100) == Reg(bank % 4, low)
    {
      SpelledBank(addr, hi, bank, low);
    }
  }

  /** The driver object, with the part of the chip that it drives. */
  class Mac {
    var lastBank: nat
    var econ1: bv8
    var regs: map<Reg, byte>
    ghost var flat: map<Reg, byte>
    ghost var events: seq<Event>

    ghost function St(): State
      reads this
    {
      State(econ1, regs, lastBank, [Idle], flat, events)
    }

    constructor (econ1: bv8, regs: map<Reg, byte>)
      ensures St() == State(econ1, regs, NO_BANK, [Idle], regs, [])
    {
      this.econ1, this.regs := econ1, regs;
      lastBank := NO_BANK;
      flat, events := regs, [];
    }

    /** Clear the bank bits, set the wanted ones, remember the bank. */
    method SwitchRegisterBank(want: nat, clearOk: bool, setOk: bool) returns (ok: bool)
      modifies this`econ1, this`lastBank
      ensures ok <==> want == old(lastBank) || (clearOk && setOk)
      ensures want == old(lastBank) || !clearOk ==> econ1 == old(econ1)
      ensures want != old(lastBank) && clearOk ==>
                econ1 == if setOk then BitsSet(BitsCleared(old(econ1), BANK_BITS), Bits(want))
                         else BitsCleared(old(econ1), BANK_BITS)
      ensures want != old(lastBank) && clearOk ==> Selected(econ1) == if setOk then want % 4 else 0
      ensures lastBank == if ok then want else old(lastBank)
    {
      hide Selected, Bits;
      if want != lastBank {
        if !clearOk {
          return false;
        }
        SwitchSelects(econ1, want);
        econ1 := econ1 & !BANK_BITS;
        SwitchSelects(econ1, want);
        if !setOk {
          return false;
        }
        econ1 := econ1 | Bits(want);
        lastBank := want;
      }
      return true;
    }

    method RegisterWrite(addr: nat, value: byte, clearOk: bool, setOk: bool, transferOk: bool) returns (ok: bool)
      requires addr % 0x100 < SHARED
      modifies this
      ensures St() == Alone(old(St()), Write(addr, value), clearOk, setOk, transferOk)
      ensures ok ==> |events| == |old(events)| + 1
      ensures ok && Coherent(old(St())) ==>
                forall hi: nat, bank: nat, low: nat | Spells(addr, hi, bank, low) ::
                    regs == old(regs)[Reg(bank % 4, low) := value]
      ensures !ok ==> regs == old(regs)
    {
      hide Alone;
      AloneOutcome(St(), Write(addr, value), clearOk, setOk, transferOk);
      ok := SwitchRegisterBank(BankOf(addr), clearOk, setOk);
      if !ok || !transferOk {
        return false;
      }
      ReachesNamed(old(St()), econ1, addr);
      var r := Reg(Selected(econ1), addr % 0x100);
      regs := regs[r := value];
      flat := flat[Named(addr) := value];
      events := events + [Event(Write(addr, value), r, value)];
    }

    method RegisterRead(addr: nat, clearOk: bool, setOk: bool, transferOk: bool) returns (ok: bool, value: byte)
      requires addr % 0x100 < SHARED
      modifies this
      ensures St() == Alone(old(St()), Read(addr), clearOk, setOk, transferOk)
      ensures ok ==> |events| == |old(events)| + 1 && events[|events| - 1].value == value
      ensures ok && Coherent(old(St())) ==>
                forall hi: nat, bank: nat, low: nat | Spells(addr, hi, bank, low) ::
                  events[|events| - 1].reached == Reg(bank % 4, low) && value == Value(regs, Reg(bank % 4, low))
      ensures regs == old(regs)
    {
      hide Alone;
      AloneOutcome(St(), Read(addr), clearOk, setOk, transferOk);
      value := 0;
      ok := SwitchRegisterBank(BankOf(addr), clearOk, setOk);
      if !ok || !transferOk {
        ok := false;
        return;
      }
      ReachesNamed(old(St()), econ1, addr);
      var r := Reg(Selected(econ1), addr % 0x100);
      value := Value(regs, r);
      events := events + [Event(Read(addr), r, value)];
    }
  }
}
