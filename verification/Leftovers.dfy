/**
 What an append that fails leaves in the packet, and what the parser makes of it: exactly when
 something is left, and that the walk over the packet then goes wrong.
 */
module Leftovers {
  import opened Bytes
  import opened FqdnReader
  import opened FqdnWriter
  import opened FqdnCompression
  import opened FqdnHistory
  import opened FqdnSafety
  import opened TxtCodec
  import opened Records
  import opened RecordBuilders
  import opened Messages
  import opened Dispatch

  // ----- one append -----

  /** Before the call: there is no room for the first label of the owner, or for the pointer that replaces it all. */
  ghost predicate OwnerStuck(reverse: bool, cap: nat, p: Packet, owner: seq<text>)
    requires Fit(cap, p) && owner != []
  {
    if Search(reverse, p.b, p.index, cap, owner, 0).At? then p.index + 1 >= cap
    else p.index + 1 + LenByte(owner[0]) >= cap
  }

  lemma StuckIsStill(reverse: bool, cap: nat, p: Packet, owner: seq<text>)
    requires Fit(cap, p) && owner != []
    ensures Append(reverse, p.b, p.index, cap, owner).index == p.index <==> OwnerStuck(reverse, cap, p, owner)
  {
    hide Search, Put;
  }

  /**
   An append that fails leaves the write position where it was if and only if the instance or the
   host is missing, or there was no room for the first label of its owner. In every other case a part of
   its record stays in the packet, in front of whatever is appended next.
   */
  lemma {:induction false} LeftoverExact(reverse: bool, cap: nat, p: Packet, a: Answer)
    requires Fit(cap, p) && !Succeeds(reverse, cap, p, a)
    ensures AnswerLeft(reverse, cap, p, a).index == p.index
       <==> !Named(a) || OwnerStuck(reverse, cap, p, RecOf(a).owner)
  {
    hide Append, OwnerStuck, Search, Header, Encode, SrvFields, Counted, PutRecord, Plain, Recordable, Put, DataLeft;
    var rec := RecOf(a);
    StuckIsStill(reverse, cap, p, rec.owner);
    StepWrites(reverse, cap, p, WriteName(rec.owner));
    if Named(a) && HeadFits(reverse, cap, p, rec.owner) {
      AddedMoves(reverse, cap, p.b, p.index, rec.owner);
      HeadMoves(reverse, cap, p, rec);
      hide Headed, HeadFits, Step;
      BehindHead(reverse, cap, p, a);
    }
  }

  /** An answer without the instance or the host it is to name is not counted and writes nothing. */
  lemma MissingIsLeftOut(reverse: bool, cap: nat, p: Packet, service: text, proto: text, items: seq<Item>,
                         fields: Fields, serviceHost: Maybe, ownHost: Maybe, address: seq<byte>, flush: bool,
                         ttl: nat)
    requires Fit(cap, p)
    ensures forall a | a in [TxtAnswer(Absent, service, proto, items, flush, ttl),
                             SrvAnswer(Absent, service, proto, fields, serviceHost, ownHost, flush, ttl),
                             AddressAnswer(Absent, address, flush, ttl),
                             AddressAnswer(Present([]), address, flush, ttl)] ::
              AnswerLeft(reverse, cap, p, a) == p && !Succeeds(reverse, cap, p, a)
  {
  }

  lemma AddedMoves(reverse: bool, cap: nat, b: seq<byte>, index: nat, strings: seq<text>)
    requires cap + SLACK <= |b| && index <= cap
    ensures var o := Append(reverse, b, index, cap, strings); o.added > 0 ==> o.index > index
  {
    hide Search, Put;
  }

  lemma HeadMoves(reverse: bool, cap: nat, p: Packet, rec: Rec)
    requires Fit(cap, p) && HeadFits(reverse, cap, p, rec.owner) && |rec.header| == DATA_OFFSET
    ensures var o, h := Append(reverse, p.b, p.index, cap, rec.owner), Headed(reverse, cap, p, rec.owner, rec.header);
            h.index == o.index + DATA_OFFSET && o.index >= p.index
  {
    hide Append, Plain, Recordable, Put;
  }

  /** Behind an owner and its header the write position does not go back. */
  lemma BehindHead(reverse: bool, cap: nat, p: Packet, a: Answer)
    requires Fit(cap, p) && Named(a) && !Succeeds(reverse, cap, p, a) && HeadFits(reverse, cap, p, RecOf(a).owner)
    ensures Headed(reverse, cap, p, RecOf(a).owner, RecOf(a).header).index <= AnswerLeft(reverse, cap, p, a).index
  {
    hide Step, Headed, HeadFits, PutRecord, Counted, Header, Encode, SrvFields, AgreeBelow, DataLeft;
    var rec := RecOf(a);
    var h := Headed(reverse, cap, p, rec.owner, rec.header);
    match a {
      case PtrAnswer(instance, service, proto, _) =>
        StepAgrees(reverse, cap, h, WriteName(InstanceNames(instance, service, proto)));
      case SdPtrAnswer(service, proto, _, _) =>
        StepAgrees(reverse, cap, h, WriteName(TypeNames(service, proto)));
      case TxtAnswer(_, _, _, items, _, _) =>
        StepAgrees(reverse, cap, h, WriteRaw(DataLeft(h.index, cap, items)));
      case SrvAnswer(_, _, _, f, serviceHost, ownHost, _, _) =>
        AgreesWithItself(h.b, h.index);
        FieldsAgreeBelow(reverse, cap, h, h, f);
        StepAgrees(reverse, cap, WithFields(reverse, cap, h, f),
                   WriteName(HostNames(Text(HostOf(serviceHost, ownHost)))));
      case AddressAnswer(_, _, _, _) =>
    }
  }

  /** Two writes that keep the names. */
  lemma KeepsOn(reverse: bool, cap: nat, a: Packet, p: Packet, op: Op)
    requires Inv(p, cap) && Extends(a, p) && Kept(0, a, p) && !op.SetU16?
    ensures var q := Step(reverse, cap, p, op); Inv(q, cap) && Extends(a, q) && Kept(0, a, q)
  {
    hide Inv, Extends, Kept, Step;
    RoomBehind(p, cap);
    StepKeeps(reverse, cap, p, op);
    StepFront(reverse, cap, p, op);
    ExtendsTwice(a, p, Step(reverse, cap, p, op));
    KeptTwice(0, a, p, Step(reverse, cap, p, op));
  }

  /** An append that fails leaves every name and every byte of the packet as they are. */
  lemma FailureKeeps(reverse: bool, cap: nat, p: Packet, a: Answer)
    requires Inv(p, cap) && Fit(cap, p) && !Succeeds(reverse, cap, p, a)
    ensures var q := AnswerLeft(reverse, cap, p, a); Inv(q, cap) && Extends(p, q) && Kept(0, p, q)
  {
    hide Inv, Extends, Kept, Step, PutRecord, HeadFits, Counted, Header, Encode, SrvFields, DataLeft, U16Bytes;
    ExtendsItself(p);
    KeptTwice(0, p, p, p);
    var rec := RecOf(a);
    var named := Step(reverse, cap, p, WriteName(rec.owner));
    KeepsOn(reverse, cap, p, p, WriteName(rec.owner));
    if Named(a) && HeadFits(reverse, cap, p, rec.owner) {
      RoomBehind(named, cap);
      KeepsOn(reverse, cap, p, named, WriteRaw(rec.header));
      var h := Headed(reverse, cap, p, rec.owner, rec.header);
      match a {
        case PtrAnswer(instance, service, proto, _) =>
          KeepsOn(reverse, cap, p, h, WriteName(InstanceNames(instance, service, proto)));
        case SdPtrAnswer(service, proto, _, _) =>
          KeepsOn(reverse, cap, p, h, WriteName(TypeNames(service, proto)));
        case TxtAnswer(_, _, _, items, _, _) =>
          KeepsOn(reverse, cap, p, h, WriteRaw(DataLeft(h.index, cap, items)));
        case SrvAnswer(_, _, _, f, serviceHost, ownHost, _, _) =>
          FieldsKeep(reverse, cap, p, h, f);
          KeepsOn(reverse, cap, p, WithFields(reverse, cap, h, f),
                  WriteName(HostNames(Text(HostOf(serviceHost, ownHost)))));
        case AddressAnswer(_, _, _, _) =>
      }
    }
  }

  lemma FieldsKeep(reverse: bool, cap: nat, a: Packet, h: Packet, f: Fields)
    requires Fit(cap, h) && Inv(h, cap) && Extends(a, h) && Kept(0, a, h)
    ensures var q := WithFields(reverse, cap, h, f); Inv(q, cap) && Extends(a, q) && Kept(0, a, q)
  {
    hide Inv, Extends, Kept, Step, U16Bytes;
    var h1 := Step(reverse, cap, h, WriteRaw(U16Bytes(f.priority)));
    KeepsOn(reverse, cap, a, h, WriteRaw(U16Bytes(f.priority)));
    KeepsOn(reverse, cap, a, h1, WriteRaw(U16Bytes(f.weight)));
    KeepsOn(reverse, cap, a, Step(reverse, cap, h1, WriteRaw(U16Bytes(f.weight))), WriteRaw(U16Bytes(f.port)));
  }

  // ----- an input -----

  /**
   A TXT record whose first entry does not fit: owner and header stay, with a length of zero, so
   the parser takes them for a whole record that nobody counted.
   */
  lemma {:induction false} EmptyRecordStays(reverse: bool, cap: nat, p: Packet, a: Answer)
    requires Inv(p, cap) && Fit(cap, p) && a.TxtAnswer? && a.txtInstance.Present?
    requires GoodName(reverse, cap, p, RecOf(a).owner) && HeadFits(reverse, cap, p, RecOf(a).owner)
    requires var h := Headed(reverse, cap, p, RecOf(a).owner, RecOf(a).header);
             a.items != [] && h.index + |Content(a.items[0])| + 1 >= cap
    ensures !Succeeds(reverse, cap, p, a)
    ensures var q := AnswerLeft(reverse, cap, p, a);
            && q.index > p.index && q.index < |q.b|
            && NextRecord(reverse, q.b, q.index, p.index) == Behind(q.index)
  {
    hide Append, Labels, NameHolds, Recordable, Plain, ReadFrom, GoodData, Step, Put;
    var rec := RecOf(a);
    var h := Headed(reverse, cap, p, rec.owner, rec.header);
    FirstTooLong(h.index, cap, a.items);
    EmptyRaw(reverse, cap, h);
    HeadIsEmptyRecord(reverse, cap, p, rec);
  }

  lemma FirstTooLong(index: nat, cap: nat, items: seq<Item>)
    requires items != [] && index + |Content(items[0])| + 1 >= cap
    ensures DataLeft(index, cap, items) == [] && index + |Encode(items)| >= cap
  {
  }

  lemma EmptyRaw(reverse: bool, cap: nat, h: Packet)
    requires Fit(cap, h)
    ensures Step(reverse, cap, h, WriteRaw([])) == h
  {
    assert Put(h.b, h.index, []) == h.b;
  }

  lemma HeadIsEmptyRecord(reverse: bool, cap: nat, p: Packet, rec: Rec)
    requires Inv(p, cap) && GoodName(reverse, cap, p, rec.owner) && HeadFits(reverse, cap, p, rec.owner)
    requires |rec.header| == DATA_OFFSET && rec.header[8] == 0 && rec.header[9] == 0
    ensures Fit(cap, p)
    ensures var h := Headed(reverse, cap, p, rec.owner, rec.header);
            h.index > p.index && h.index < |h.b| && NextRecord(reverse, h.b, h.index, p.index) == Behind(h.index)
  {
    hide Append, Labels, NameHolds, Recordable, Plain, ReadFrom, Step;
    var bare := Rec(rec.owner, rec.header, []);
    var named := Step(reverse, cap, p, WriteName(rec.owner));
    StepWrites(reverse, cap, p, WriteName(rec.owner));
    StepWrites(reverse, cap, named, WriteRaw(rec.header));
    HeadedKeeps(reverse, cap, p, bare);
    var h := Headed(reverse, cap, p, rec.owner, rec.header);
    assert U16At(h.b, h.index - 2) == 0;
    FramedIsStepped(reverse, cap, h, p.index, h.index);
  }

  /** "a._b._c.local" with one item of as many letters as the packet has bytes. */
  function LongTxt(cap: nat): Answer {
    TxtAnswer(Present([97]), [95, 98], [95, 99], [Item(seq(cap, _ => 107), NoValue)], true, 4500)
  }

  lemma AbcIsSafe(cap: nat, p: Packet)
    requires p.names == map[] && p.index == HEAD_LEN && 40 <= cap <= |p.b| && forall at | 0 <= at < |p.b| ::
             p.b[at] == 0
    ensures SafeName(cap, p, ABC_OWNER) && WireLength(ABC_OWNER) == 15
  {
    AbcIsTame();
    AbcLength();
    hide Spelled, Tame, AllDifferent, WireLength;
    assert forall k | 0 <= k < |ABC_OWNER| :: |ABC_OWNER[k]| > 0;
    assert Quiet(p, ABC_OWNER);
  }

  lemma AbcIsTame()
    ensures Plain(ABC_OWNER) && Tame(ABC_OWNER) && AllDifferent(ABC_OWNER)
  {
    assert ABC_OWNER[0] == [97] && ABC_OWNER[1] == [95, 98] && ABC_OWNER[2] == [95, 99] && ABC_OWNER[3] == LOCAL;
    assert |SUB| == 4 && |LOCAL| == 5;
  }

  lemma AbcLength()
    ensures WireLength(ABC_OWNER) == 15
  {
    var t1 := ABC_OWNER[1..];
    var t2 := t1[1..];
    var t3 := t2[1..];
    assert t1[0] == [95, 98] && t2[0] == [95, 99] && t3 == [LOCAL] && t3[1..] == [];
    assert WireLength(t3) == 1 + 5 + WireLength([]);
    assert WireLength(t2) == 1 + 2 + WireLength(t3);
    assert WireLength(t1) == 1 + 2 + WireLength(t2);
  }

  const ABC_OWNER: seq<text> := [[97], [95, 98], [95, 99], LOCAL]

  /** In a packet without names nothing is replaced by a pointer. */
  lemma NoNamesNoPointers(reverse: bool, cap: nat, p: Packet, strings: seq<text>)
    requires Inv(p, cap) && SafeName(cap, p, strings) && p.names == map[]
    ensures var o := Append(reverse, p.b, p.index, cap, strings);
            o.stop.Root? && o.added == WireLength(strings) == o.index - p.index
  {
    hide Append, Spelled, Begun, Labels, Tight, Stands, Inside;
    HasRoom(reverse, cap, p.b, p.index, strings);
    NothingBegun(p, strings);
    var m := TargetStands(reverse, cap, p, strings, 0);
    var o := Append(reverse, p.b, p.index, cap, strings);
    if o.stop.Ref? {
      NothingInside(p, o.stop.at);
      QuietThere(p, strings, m, o.stop.at);
    }
    SafeCallIsRecordable(reverse, cap, p, strings);
    NameLength(reverse, cap, p.b, p.index, strings);
    NameAdds(reverse, cap, p, strings);
  }

  lemma NothingInside(p: Packet, at: nat)
    requires p.names == map[]
    ensures !Inside(p, at)
  {
  }

  /**
   In a packet of any size: the record is not counted, and its owner and header stay behind the packet's
   own header.
   */
  lemma {:induction false} LongItemKeepsAnEmptyRecord(reverse: bool, cap: nat)
    requires 40 <= cap <= POINTER_SPACE
    ensures var p := Cleared(seq(cap + SLACK, _ => 0));
            && Fit(cap, p) && !Succeeds(reverse, cap, p, LongTxt(cap))
            && var q := AnswerLeft(reverse, cap, p, LongTxt(cap));
               && HEAD_LEN < q.index < |q.b|
               && NextRecord(reverse, q.b, q.index, HEAD_LEN) == Behind(q.index)
  {
    hide Append, Step, Labels, NextRecord, SafeName, Recordable, Plain;
    var zeros := seq(cap + SLACK, _ => 0);
    var p := Cleared(zeros);
    ClearedIsSound(zeros, cap);
    assert forall at | 0 <= at < |p.b| :: p.b[at] == 0;
    AbcIsSafe(cap, p);
    SafeCallIsRecordable(reverse, cap, p, ABC_OWNER);
    NoNamesNoPointers(reverse, cap, p, ABC_OWNER);
    SafeIsPlain(cap, p, ABC_OWNER);
    var a := LongTxt(cap);
    var rec := RecOf(a);
    assert rec.owner == ABC_OWNER;
    StepWrites(reverse, cap, p, WriteName(rec.owner));
    StepWrites(reverse, cap, Step(reverse, cap, p, WriteName(rec.owner)), WriteRaw(rec.header));
    assert |Content(a.items[0])| == cap;
    EmptyRecordStays(reverse, cap, p, a);
  }

  // ----- the walk over a packet with leftovers -----

  /** Every record that is written whole has its names recorded. */
  ghost predicate AllRecorded(reverse: bool, cap: nat, p: Packet, answers: seq<Answer>)
    requires Fit(cap, p)
    decreases |answers|
  {
    answers == []
    || (&& (Succeeds(reverse, cap, p, answers[0]) ==> GoodRecord(reverse, cap, p, RecOf(answers[0])))
        && AllRecorded(reverse, cap, AnswerLeft(reverse, cap, p, answers[0]), answers[1..]))
  }

  /** Where the records start that were written whole. */
  ghost function SuccessStarts(reverse: bool, cap: nat, p: Packet, answers: seq<Answer>): (ss: seq<nat>)
    requires Fit(cap, p)
    ensures |ss| == Successes(reverse, cap, p, answers)
    decreases |answers|
  {
    if answers == [] then []
    else
      (if Succeeds(reverse, cap, p, answers[0]) then [p.index] else [])
      + SuccessStarts(reverse, cap, AnswerLeft(reverse, cap, p, answers[0]), answers[1..])
  }

  /** An append that fails moves the write position. */
  ghost predicate LeavesSomething(reverse: bool, cap: nat, p: Packet, answers: seq<Answer>)
    requires Fit(cap, p)
    decreases |answers|
  {
    answers != []
    && var q := AnswerLeft(reverse, cap, p, answers[0]);
       || (!Succeeds(reverse, cap, p, answers[0]) && q.index != p.index)
       || LeavesSomething(reverse, cap, q, answers[1..])
  }

  /** Behind framed records something stands that starts at none of the given offsets. */
  ghost predicate Derailed(q: Packet, from: nat, starts: seq<nat>) {
    exists ss: seq<nat>, s: nat :: Chain(q, from, ss, s) && s < q.index && s !in starts
  }

  /** The walk goes along framed records, whatever stands behind them. */
  lemma {:induction false} WalkThroughChain(reverse: bool, cap: nat, q: Packet, from: nat, ss: seq<nat>, s: nat)
    requires Inv(q, cap) && Chain(q, from, ss, s) && s < q.index
    ensures q.index < |q.b|
    ensures var w := Walk(reverse, q.b, q.index, s);
            Walk(reverse, q.b, q.index, from) == Walked(ss + w.starts, w.complete)
    decreases |ss|
  {
    hide Inv, Framed, NextRecord, Walk;
    RoomBehind(q, cap);
    if ss == [] {
      assert [] + Walk(reverse, q.b, q.index, s).starts == Walk(reverse, q.b, q.index, s).starts;
    } else {
      var next := if |ss| > 1 then ss[1] else s;
      FramedGoesOn(q, from, next);
      FramedIsStepped(reverse, cap, q, from, next);
      WalkThroughChain(reverse, cap, q, next, ss[1..], s);
      WalkTurns(reverse, q.b, q.index, from);
      var w := Walk(reverse, q.b, q.index, s);
      assert [from] + (ss[1..] + w.starts) == ss + w.starts;
    }
  }

  /** A walk that is derailed does not visit exactly the given records and come to the end. */
  lemma DerailedWalk(reverse: bool, cap: nat, q: Packet, from: nat, starts: seq<nat>)
    requires Inv(q, cap) && Derailed(q, from, starts)
    ensures q.index < |q.b| && Walk(reverse, q.b, q.index, from) != Walked(starts, true)
  {
    hide Inv, Chain, NextRecord, Walk;
    var ss: seq<nat>, s: nat :| Chain(q, from, ss, s) && s < q.index && s !in starts;
    WalkThroughChain(reverse, cap, q, from, ss, s);
    WalkTurns(reverse, q.b, q.index, s);
    var w := Walk(reverse, q.b, q.index, s);
    if w.complete {
      assert w.starts[0] == s;
      assert (ss + w.starts)[|ss|] == s;
    }
  }

  lemma DerailedStays(lo: nat, p: Packet, q: Packet, from: nat, starts: seq<nat>)
    requires lo <= from && Derailed(p, from, starts) && Extends(p, q) && Kept(lo, p, q)
    ensures Derailed(q, from, starts)
  {
    hide Chain, Extends;
    var ss: seq<nat>, s: nat :| Chain(p, from, ss, s) && s < p.index && s !in starts;
    ChainStays(lo, p, q, from, ss, s);
  }

  /** In front of a derailed stretch, framed records that start elsewhere change nothing. */
  lemma DerailedBehind(q: Packet, from: nat, xs: seq<nat>, m: nat, starts: seq<nat>)
    requires Chain(q, from, xs, m) && Derailed(q, m, starts)
    requires forall x | x in xs :: x < m
    ensures Derailed(q, from, xs + starts)
  {
    hide Framed;
    var ss: seq<nat>, s: nat :| Chain(q, m, ss, s) && s < q.index && s !in starts;
    ChainJoins(q, from, xs, m, ss, s);
    ChainGoesOn(q, m, ss, s);
    assert Chain(q, from, xs + ss, s) && s !in xs + starts;
  }

  lemma {:induction false} ChainGoesOn(q: Packet, s: nat, ss: seq<nat>, e: nat)
    requires Chain(q, s, ss, e)
    ensures s <= e && forall x | x in ss :: s <= x < e
    decreases |ss|
  {
    hide Framed;
    if ss != [] {
      var next := if |ss| > 1 then ss[1] else e;
      FramedGoesOn(q, s, next);
      ChainGoesOn(q, next, ss[1..], e);
      assert ss == [s] + ss[1..];
    }
  }

  /** What a list of answers leaves: its whole records in a row, unless a failed append left something. */
  lemma {:induction false} ListLeft(reverse: bool, cap: nat, p: Packet, answers: seq<Answer>)
    requires Inv(p, cap) && Fit(cap, p) && AllRecorded(reverse, cap, p, answers)
    ensures var r, starts := LeftBy(reverse, cap, p, answers), SuccessStarts(reverse, cap, p, answers);
            && Inv(r, cap) && Extends(p, r) && Kept(0, p, r)
            && (forall x | x in starts :: p.index <= x < r.index)
            && (!LeavesSomething(reverse, cap, p, answers) ==> Chain(r, p.index, starts, r.index))
            && (LeavesSomething(reverse, cap, p, answers) ==> Derailed(r, p.index, starts))
    decreases |answers|
  {
    hide Inv, Extends, Kept, Succeeds, AnswerLeft, PutRecord, GoodRecord, RecOf, Framed, Chain, Derailed,
         NamesInDomain, Reported;
    if answers == [] {
      ExtendsItself(p);
      KeptTwice(0, p, p, p);
      ChainOfNone(p, p.index);
    } else {
      var q := AnswerLeft(reverse, cap, p, answers[0]);
      AnswerAgreesIndex(reverse, cap, p, answers[0]);
      if Succeeds(reverse, cap, p, answers[0]) {
        SuccessPuts(reverse, cap, p, answers[0]);
        RecOfInDomain(answers[0]);
        DomainRecordIsExact(reverse, cap, p, RecOf(answers[0]));
      } else {
        FailureKeeps(reverse, cap, p, answers[0]);
      }
      ListLeft(reverse, cap, q, answers[1..]);
      var r := LeftBy(reverse, cap, q, answers[1..]);
      AnswersAgree(reverse, cap, q, answers[1..]);
      ExtendsTwice(p, q, r);
      KeptTwice(0, p, q, r);
      var rest := SuccessStarts(reverse, cap, q, answers[1..]);
      if Succeeds(reverse, cap, p, answers[0]) {
        FramedStays(0, q, r, p.index, q.index);
        ChainOfOne(r, p.index, q.index);
        if LeavesSomething(reverse, cap, q, answers[1..]) {
          DerailedBehind(r, p.index, [p.index], q.index, rest);
        } else {
          ChainJoins(r, p.index, [p.index], q.index, rest, r.index);
        }
      } else {
        assert [] + rest == rest;
        if q.index != p.index {
          DerailedAtOnce(r, p.index, rest);
        }
      }
    }
  }

  lemma AnswerAgreesIndex(reverse: bool, cap: nat, p: Packet, a: Answer)
    requires Fit(cap, p)
    ensures p.index <= AnswerLeft(reverse, cap, p, a).index
  {
    hide AnswerLeft, AgreeBelow;
    AnswerAgrees(reverse, cap, p, a);
  }

  lemma ChainOfNone(q: Packet, s: nat)
    ensures Chain(q, s, [], s)
  {
  }

  lemma ChainOfOne(q: Packet, s: nat, e: nat)
    requires Framed(q, s, e)
    ensures Chain(q, s, [s], e)
  {
    hide Framed;
    assert [s][1..] == [];
  }

  lemma DerailedAtOnce(q: Packet, s: nat, starts: seq<nat>)
    requires s < q.index && s !in starts
    ensures Derailed(q, s, starts)
  {
    ChainOfNone(q, s);
  }

  /** What one section leaves, its count filled in. */
  lemma {:induction false} SectionLeft(reverse: bool, cap: nat, p: Packet, answers: seq<Answer>, countAt: nat)
    requires Sound(p, cap) && Fit(cap, p) && AllRecorded(reverse, cap, p, answers) && countAt + 2 <= HEAD_LEN
    ensures var r, starts := WithSection(reverse, cap, p, answers, countAt), SuccessStarts(reverse, cap, p, answers);
            && Sound(r, cap) && After(p, r)
            && (forall x | x in starts :: p.index <= x < r.index)
            && (!LeavesSomething(reverse, cap, p, answers) ==> Chain(r, p.index, starts, r.index))
            && (LeavesSomething(reverse, cap, p, answers) ==> Derailed(r, p.index, starts))
  {
    hide Inv, Extends, Kept, Chain, Derailed, Patch, U16At, LeftBy, SuccessStarts, Successes, AllRecorded,
         LeavesSomething;
    ListLeft(reverse, cap, p, answers);
    var q := LeftBy(reverse, cap, p, answers);
    StaysSound(p, q, cap);
    PatchKeeps(reverse, cap, q, countAt, Successes(reverse, cap, p, answers) % 256);
    var r := WithSection(reverse, cap, p, answers, countAt);
    AfterTwice(p, q, r);
    SoundBounds(p, cap);
    if LeavesSomething(reverse, cap, p, answers) {
      DerailedStays(HEAD_LEN, q, r, p.index, SuccessStarts(reverse, cap, p, answers));
    } else {
      ChainStays(HEAD_LEN, q, r, p.index, SuccessStarts(reverse, cap, p, answers), q.index);
    }
  }

  lemma SoundBounds(p: Packet, cap: nat)
    requires Sound(p, cap)
    ensures p.index >= HEAD_LEN && Inv(p, cap) && Fit(cap, p)
  {
    hide Labels, NameHolds;
  }

  /** The questions are whole, and their names and those of all whole records are recorded. */
  ghost predicate NamesRecorded(reverse: bool, cap: nat, p: Packet, m: Outgoing)
    requires Fit(cap, p)
  {
    && m.id < 0x10000 && m.flags < 0x10000 && |m.asks| < 256
    && GoodQuestions(reverse, cap, Marked(reverse, cap, p, m), QuestionsOf(m.asks))
    && AllRecorded(reverse, cap, WithQuestions(reverse, cap, p, m), m.answers)
    && AllRecorded(reverse, cap, UpToServers(reverse, cap, p, m), m.servers)
    && AllRecorded(reverse, cap, UpToAdditional(reverse, cap, p, m), m.additional)
  }

  /** Some append that failed left something in the packet. */
  ghost predicate AnythingLeft(reverse: bool, cap: nat, p: Packet, m: Outgoing)
    requires Fit(cap, p)
  {
    || LeavesSomething(reverse, cap, WithQuestions(reverse, cap, p, m), m.answers)
    || LeavesSomething(reverse, cap, UpToServers(reverse, cap, p, m), m.servers)
    || LeavesSomething(reverse, cap, UpToAdditional(reverse, cap, p, m), m.additional)
  }

  /** Where the whole records of all sections start. */
  ghost function AllStarts(reverse: bool, cap: nat, p: Packet, m: Outgoing): seq<nat>
    requires Fit(cap, p)
  {
    SuccessStarts(reverse, cap, WithQuestions(reverse, cap, p, m), m.answers)
    + SuccessStarts(reverse, cap, UpToServers(reverse, cap, p, m), m.servers)
    + SuccessStarts(reverse, cap, UpToAdditional(reverse, cap, p, m), m.additional)
  }

  /** Header and questions of such a packet. */
  lemma {:induction false} QuestionsLeft(reverse: bool, cap: nat, p: Packet, m: Outgoing)
    requires Sound(p, cap) && p.index == HEAD_LEN && Fit(cap, p) && NamesRecorded(reverse, cap, p, m)
    ensures var o := WithQuestions(reverse, cap, p, m);
            && Sound(o, cap) && AskedInARow(o, HEAD_LEN, QuestionsOf(m.asks), o.index)
            && AsksCounted(reverse, cap, Marked(reverse, cap, p, m), m.asks) == |m.asks| < 256
  {
    hide Inv, Sound, GoodQuestions, PutQuestions, QuestionsOf, AskedInARow, Patch, U16At, WithAsks, AsksCounted,
         AllFit, AllRecorded;
    var bare := Message(m.id, m.flags, QuestionsOf(m.asks), [], [], []);
    assert GoodMessage(reverse, cap, p, bare) by { hide *; BareIsGood(reverse, cap, p, m); }
    OpenedKeeps(reverse, cap, p, bare);
    MarkedIsSound(reverse, cap, p, m);
    GoodAsksFit(reverse, cap, Marked(reverse, cap, p, m), m.asks);
    AsksPut(reverse, cap, Marked(reverse, cap, p, m), m.asks);
    assert |QuestionsOf(m.asks)| == |m.asks|;
    assert WithQuestions(reverse, cap, p, m) == Opened(reverse, cap, p, bare);
  }

  lemma BareIsGood(reverse: bool, cap: nat, p: Packet, m: Outgoing)
    requires Fit(cap, p) && NamesRecorded(reverse, cap, p, m)
    ensures GoodMessage(reverse, cap, p, Message(m.id, m.flags, QuestionsOf(m.asks), [], [], []))
  {
    hide GoodQuestions, Patch, PutQuestions, QuestionsOf, AllRecorded;
  }

  /** Records in a row up to the end, or, if something was left, a derailed stretch. */
  ghost predicate Outcome(q: Packet, from: nat, starts: seq<nat>, left: bool) {
    && (forall x | x in starts :: from <= x < q.index)
    && if left then Derailed(q, from, starts) else Chain(q, from, starts, q.index)
  }

  /** The outcome of one stretch, and that of the stretch behind it. */
  lemma OutcomesJoin(a: Packet, q: Packet, from: nat, xs: seq<nat>, l1: bool, ys: seq<nat>, l2: bool)
    requires HEAD_LEN <= from <= a.index <= q.index
    requires Outcome(a, from, xs, l1) && After(a, q) && Outcome(q, a.index, ys, l2)
    ensures Outcome(q, from, xs + ys, l1 || l2)
  {
    hide Chain, Extends, Kept, Derailed;
    if l1 {
      StaysDerailed(a, q, from, xs, ys);
    } else {
      ChainStays(HEAD_LEN, a, q, from, xs, a.index);
      if l2 {
        DerailedBehind(q, from, xs, a.index, ys);
      } else {
        ChainJoins(q, from, xs, a.index, ys, q.index);
      }
    }
  }

  /** A derailed section stays derailed, and what starts behind it does not put it right. */
  lemma StaysDerailed(p: Packet, q: Packet, from: nat, starts: seq<nat>, more: seq<nat>)
    requires HEAD_LEN <= from && Derailed(p, from, starts) && After(p, q) && forall x | x in more :: x >= p.index
    ensures Derailed(q, from, starts + more)
  {
    hide Chain, Extends;
    var ss: seq<nat>, s: nat :| Chain(p, from, ss, s) && s < p.index && s !in starts;
    ChainStays(HEAD_LEN, p, q, from, ss, s);
    assert Chain(q, from, ss, s) && s !in starts + more;
  }

  /** The three sections, seen from the packet that goes out. */
  lemma {:induction false} SectionsLeft(reverse: bool, cap: nat, p: Packet, m: Outgoing)
    requires Sound(p, cap) && p.index == HEAD_LEN && Fit(cap, p) && NamesRecorded(reverse, cap, p, m)
    ensures var o, q := WithQuestions(reverse, cap, p, m), Sent(reverse, cap, p, m);
            && Sound(q, cap) && After(o, q) && Sound(o, cap)
            && Outcome(q, o.index, AllStarts(reverse, cap, p, m), AnythingLeft(reverse, cap, p, m))
  {
    hide Inv, Sound, WithSection, WithQuestions, SuccessStarts, AllRecorded, LeavesSomething, After, Outcome,
         GoodQuestions, Marked;
    QuestionsLeft(reverse, cap, p, m);
    var o, a := WithQuestions(reverse, cap, p, m), UpToServers(reverse, cap, p, m);
    var v, q := UpToAdditional(reverse, cap, p, m), Sent(reverse, cap, p, m);
    var xs, ys := SuccessStarts(reverse, cap, o, m.answers), SuccessStarts(reverse, cap, a, m.servers);
    var zs := SuccessStarts(reverse, cap, v, m.additional);
    SectionOutcome(reverse, cap, o, m.answers, ANSWERS_AT);
    SectionOutcome(reverse, cap, a, m.servers, SERVERS_AT);
    SectionOutcome(reverse, cap, v, m.additional, ADDITIONAL_AT);
    ThreeOutcomes(o, a, v, q, xs, LeavesSomething(reverse, cap, o, m.answers),
                  ys, LeavesSomething(reverse, cap, a, m.servers), zs, LeavesSomething(reverse, cap, v, m.additional));
  }

  lemma ThreeOutcomes(o: Packet, a: Packet, v: Packet, q: Packet, xs: seq<nat>, l1: bool, ys: seq<nat>, l2: bool,
                      zs: seq<nat>, l3: bool)
    requires HEAD_LEN <= o.index <= a.index <= v.index <= q.index && After(o, a) && After(a, v) && After(v, q)
    requires Outcome(a, o.index, xs, l1) && Outcome(v, a.index, ys, l2) && Outcome(q, v.index, zs, l3)
    ensures After(o, q) && Outcome(q, o.index, xs + ys + zs, l1 || l2 || l3)
  {
    hide After, Outcome;
    AfterTwice(a, v, q);
    AfterTwice(o, a, q);
    OutcomesJoin(v, q, a.index, ys, l2, zs, l3);
    OutcomesJoin(a, q, o.index, xs, l1, ys + zs, l2 || l3);
    assert xs + (ys + zs) == xs + ys + zs;
  }

  lemma SectionOutcome(reverse: bool, cap: nat, p: Packet, answers: seq<Answer>, countAt: nat)
    requires Sound(p, cap) && Fit(cap, p) && AllRecorded(reverse, cap, p, answers) && countAt + 2 <= HEAD_LEN
    ensures var r, starts := WithSection(reverse, cap, p, answers, countAt), SuccessStarts(reverse, cap, p, answers);
            && Sound(r, cap) && After(p, r) && HEAD_LEN <= p.index <= r.index
            && Outcome(r, p.index, starts, LeavesSomething(reverse, cap, p, answers))
  {
    hide Inv, Chain, Derailed, WithSection, SuccessStarts, AllRecorded, LeavesSomething, Extends;
    SectionLeft(reverse, cap, p, answers, countAt);
  }

  /**
   What the parser makes of a packet with whole questions and recorded names, whatever became of its
   answers: the walk visits exactly the records that were written whole and comes to the end if
   and only if no append that failed left anything behind. If any record is counted, so does the
   parser's whole walk.
   */
  lemma {:induction false} WalkTellsLeftovers(reverse: bool, cap: nat, b: seq<byte>, m: Outgoing)
    requires HEAD_LEN <= cap <= POINTER_SPACE && cap + SLACK <= |b|
    requires NamesRecorded(reverse, cap, Cleared(b), m)
    ensures var p, q := Cleared(b), Sent(reverse, cap, Cleared(b), m);
            var o := WithQuestions(reverse, cap, p, m);
            && q.index < |q.b|
            && (Walk(reverse, q.b, q.index, o.index) == Walked(AllStarts(reverse, cap, p, m), true)
                <==> !AnythingLeft(reverse, cap, p, m))
            && (!NoRecords(q.b) ==> WalkMessage(reverse, q.b, q.index) == Walk(reverse, q.b, q.index, o.index))
  {
    hide Inv, Sound, Extends, Kept, Chain, Derailed, AllRecorded, GoodQuestions, AllStarts, AnythingLeft, U16At, Walk,
         SkipQuestions, WithQuestions, Sent, AsksCounted, Marked, QuestionsOf, AskedInARow, NoRecords, Cleared;
    ClearedIsSound(b, cap);
    var p, q := Cleared(b), Sent(reverse, cap, Cleared(b), m);
    var o := WithQuestions(reverse, cap, p, m);
    QuestionsLeft(reverse, cap, p, m);
    SectionsLeft(reverse, cap, p, m);
    SoundBounds(q, cap);
    SoundBounds(o, cap);
    RoomBehind(q, cap);
    assert After(o, q);
    AskedInARowStays(HEAD_LEN, o, q, HEAD_LEN, QuestionsOf(m.asks), o.index);
    SkipsAsked(reverse, cap, q, HEAD_LEN, QuestionsOf(m.asks), o.index);
    HeaderTellsOutcome(reverse, cap, b, m);
    if AnythingLeft(reverse, cap, p, m) {
      DerailedWalk(reverse, cap, q, o.index, AllStarts(reverse, cap, p, m));
    } else {
      WalkAlongChain(reverse, cap, q, o.index, AllStarts(reverse, cap, p, m));
    }
  }

  // ----- a question that was cut -----

  /** The first question that is not whole has a recorded name. */
  ghost predicate AskIsCut(reverse: bool, cap: nat, p: Packet, asks: seq<Ask>)
    requires Fit(cap, p)
    decreases |asks|
  {
    && asks != []
    && if AskFits(reverse, cap, p, asks[0]) then AskIsCut(reverse, cap, WithAsk(reverse, cap, p, asks[0]), asks[1..])
       else Inv(p, cap) && GoodName(reverse, cap, p, QuestionOf(asks[0]).names) && InDomain(QuestionOf(asks[0]).names)
  }

  /** Behind a question that was cut there are less than four bytes left. */
  lemma {:induction false} CutLeavesNoRoom(reverse: bool, cap: nat, p: Packet, asks: seq<Ask>)
    requires Fit(cap, p) && AskIsCut(reverse, cap, p, asks)
    ensures WithAsks(reverse, cap, p, asks).index + 4 > cap
    decreases |asks|
  {
    hide WithAsk, AskFits, Inv, GoodName, QuestionOf, InDomain;
    var r := WithAsk(reverse, cap, p, asks[0]);
    if AskFits(reverse, cap, p, asks[0]) {
      CutLeavesNoRoom(reverse, cap, r, asks[1..]);
    } else {
      CutAskIsCounted(reverse, cap, p, asks[0]);
      AskGoesOn(reverse, cap, p, asks[0]);
      AsksAgree(reverse, cap, r, asks[1..]);
    }
  }

  lemma AskGoesOn(reverse: bool, cap: nat, p: Packet, a: Ask)
    requires Fit(cap, p)
    ensures WithAsk(reverse, cap, p, a).index >= Append(reverse, p.b, p.index, cap, QuestionOf(a).names).index
  {
    hide Append, Plain, Recordable, U16Bytes, Put, Counted, QuestionOf;
  }

  /** Without room for ten bytes no answer is written whole. */
  lemma NoRoomNoRecord(reverse: bool, cap: nat, p: Packet, a: Answer)
    requires Fit(cap, p) && p.index + DATA_OFFSET >= cap
    ensures !Succeeds(reverse, cap, p, a) && AnswerLeft(reverse, cap, p, a).index >= p.index
  {
    hide Append, Plain, Recordable, Headed, PutRecord, RecOf, WithFields, Counted;
    StepWrites(reverse, cap, p, WriteName(RecOf(a).owner));
  }

  lemma {:induction false} NoRoomNoRecords(reverse: bool, cap: nat, p: Packet, answers: seq<Answer>, countAt: nat)
    requires Fit(cap, p) && p.index + DATA_OFFSET >= cap
    ensures Successes(reverse, cap, p, answers) == 0
    ensures WithSection(reverse, cap, p, answers, countAt).index + DATA_OFFSET >= cap
    decreases |answers|
  {
    hide Succeeds, AnswerLeft;
    if answers != [] {
      NoRoomNoRecord(reverse, cap, p, answers[0]);
      NoRoomNoRecords(reverse, cap, AnswerLeft(reverse, cap, p, answers[0]), answers[1..], countAt);
    }
  }

  /**
   A question that was cut ends the message: it is counted, but no answer behind it is written whole, all
   three record counts are zero, and the parser visits no record, whatever the answers left.
   */
  lemma {:induction false} CutQuestionEndsMessage(reverse: bool, cap: nat, b: seq<byte>, m: Outgoing)
    requires HEAD_LEN <= cap && cap + SLACK <= |b| && m.id < 0x10000 && m.flags < 0x10000
    requires AskIsCut(reverse, cap, Marked(reverse, cap, Cleared(b), m), m.asks)
    ensures var p, q := Cleared(b), Sent(reverse, cap, Cleared(b), m);
            && Successes(reverse, cap, WithQuestions(reverse, cap, p, m), m.answers) == 0
            && Successes(reverse, cap, UpToServers(reverse, cap, p, m), m.servers) == 0
            && Successes(reverse, cap, UpToAdditional(reverse, cap, p, m), m.additional) == 0
            && NoRecords(q.b) && q.index < |q.b| && WalkMessage(reverse, q.b, q.index).starts == []
  {
    hide AskIsCut, WithAsks, AsksCounted, Successes, WithSection, Marked, Walk, SkipQuestions, U16At;
    var p := Cleared(b);
    CutLeavesNoRoom(reverse, cap, Marked(reverse, cap, p, m), m.asks);
    var o := WithQuestions(reverse, cap, p, m);
    NoRoomNoRecords(reverse, cap, o, m.answers, ANSWERS_AT);
    NoRoomNoRecords(reverse, cap, UpToServers(reverse, cap, p, m), m.servers, SERVERS_AT);
    NoRoomNoRecords(reverse, cap, UpToAdditional(reverse, cap, p, m), m.additional, ADDITIONAL_AT);
    HeaderTellsOutcome(reverse, cap, b, m);
  }
}
