/**
 Putting a packet on the wire: the static buffer is cleared in its header only, and questions and
 three lists of answers are appended to it. What goes out is stated byte for byte for every outcome of
 the appends; if all of them succeed, it is the message that the packet stands for, and the parser's
 walk finds it.
 */
module Dispatch {
  import opened Bytes
  import opened FqdnReader
  import opened FqdnWriter
  import opened FqdnCompression
  import opened FqdnHistory
  import opened TxtCodec
  import opened Records
  import opened RecordBuilders
  import opened Messages

  /** A question; absent parts of its name are left out. */
  datatype Ask = Ask(host: Maybe, service: Maybe, proto: Maybe, domain: Maybe, qtype: nat, unicast: bool)

  /** An answer that becomes one record. */
  datatype Answer =
    | PtrAnswer(instance: text, service: text, proto: text, ttl: nat)
    | SdPtrAnswer(service: text, proto: text, flush: bool, ttl: nat)
    | TxtAnswer(txtInstance: Maybe, service: text, proto: text, items: seq<Item>, flush: bool, ttl: nat)
    | SrvAnswer(srvInstance: Maybe, service: text, proto: text, fields: Fields, serviceHost: Maybe, ownHost: Maybe,
                flush: bool, ttl: nat)
    | AddressAnswer(host: Maybe, address: seq<byte>, flush: bool, ttl: nat)

  function Label(part: Maybe): seq<text> {
    match part case Absent => [] case Present(s) => [s]
  }

  function QuestionOf(a: Ask): Question {
    Question(Label(a.host) + Label(a.service) + Label(a.proto) + Label(a.domain),
             U16Bytes(a.qtype) + U16Bytes(ClassOf(a)))
  }

  function RecOf(a: Answer): Rec {
    match a
    case PtrAnswer(instance, service, proto, ttl) => PtrRecord(instance, service, proto, ttl)
    case SdPtrAnswer(service, proto, flush, ttl) => SdPtrRecord(service, proto, flush, ttl)
    case TxtAnswer(instance, service, proto, items, flush, ttl) =>
      TxtRecord(Text(instance), service, proto, items, flush, ttl)
    case SrvAnswer(instance, service, proto, fields, serviceHost, ownHost, flush, ttl) =>
      SrvRecord(Text(instance), service, proto, fields, Text(HostOf(serviceHost, ownHost)), flush, ttl)
    case AddressAnswer(host, address, flush, ttl) => AddressRecord(Text(host), address, flush, ttl)
  }

  /** The host of a service, its own or else that of the responder. */
  function HostOf(serviceHost: Maybe, ownHost: Maybe): Maybe {
    if serviceHost.Present? then serviceHost else ownHost
  }

  function RecsOf(answers: seq<Answer>): (r: seq<Rec>)
    ensures |r| == |answers| && forall k | 0 <= k < |answers| :: r[k] == RecOf(answers[k])
  {
    seq(|answers|, k requires 0 <= k < |answers| => RecOf(answers[k]))
  }

  function QuestionsOf(asks: seq<Ask>): (r: seq<Question>)
    ensures |r| == |asks| && forall k | 0 <= k < |asks| :: r[k] == QuestionOf(asks[k])
  {
    seq(|asks|, k requires 0 <= k < |asks| => QuestionOf(asks[k]))
  }

  predicate Sizes(answers: seq<Answer>) {
    forall k | 0 <= k < |answers| && answers[k].AddressAnswer? ::
      |answers[k].address| == 4 || |answers[k].address| == 16
  }

  /** A packet that the methods may go on with. */
  ghost predicate Fit(cap: nat, p: Packet) {
    cap + SLACK <= |p.b| && p.index <= cap
  }

  // ----- when an append succeeds, and what it leaves -----

  /** What the builder asks for before it writes anything. */
  predicate Named(a: Answer) {
    match a
    case PtrAnswer(_, _, _, _) => true
    case SdPtrAnswer(_, _, _, _) => true
    case TxtAnswer(instance, _, _, _, _, _) => instance.Present?
    case SrvAnswer(instance, _, _, _, _, _, _, _) => instance.Present?
    case AddressAnswer(host, _, _, _) => Text(host) != []
  }

  /** The names are there and counted, and everything has room. */
  ghost predicate Succeeds(reverse: bool, cap: nat, p: Packet, a: Answer)
    requires Fit(cap, p)
  {
    && Named(a)
    && match a
       case PtrAnswer(instance, service, proto, _) =>
         PointerFits(reverse, cap, p, RecOf(a), InstanceNames(instance, service, proto))
       case SdPtrAnswer(service, proto, _, _) => PointerFits(reverse, cap, p, RecOf(a), TypeNames(service, proto))
       case TxtAnswer(_, _, _, items, _, _) => TxtFits(reverse, cap, p, RecOf(a), items)
       case SrvAnswer(_, _, _, fields, serviceHost, ownHost, _, _) =>
         SrvFits(reverse, cap, p, RecOf(a), fields, Text(HostOf(serviceHost, ownHost)))
       case AddressAnswer(_, address, _, _) => AddressFits(reverse, cap, p, RecOf(a), address)
  }

  /** The packet behind the append of one answer, whether it succeeds or not. */
  ghost function AnswerLeft(reverse: bool, cap: nat, p: Packet, a: Answer): (r: Packet)
    requires Fit(cap, p)
    ensures |r.b| == |p.b| && Fit(cap, r)
  {
    if !Named(a) then p
    else
      match a
      case PtrAnswer(instance, service, proto, _) =>
        PointerLeft(reverse, cap, p, RecOf(a), InstanceNames(instance, service, proto))
      case SdPtrAnswer(service, proto, _, _) => PointerLeft(reverse, cap, p, RecOf(a), TypeNames(service, proto))
      case TxtAnswer(_, _, _, items, _, _) => TxtLeft(reverse, cap, p, RecOf(a), items)
      case SrvAnswer(_, _, _, fields, serviceHost, ownHost, _, _) =>
        SrvLeft(reverse, cap, p, RecOf(a), fields, Text(HostOf(serviceHost, ownHost)))
      case AddressAnswer(_, address, _, _) => AddressLeft(reverse, cap, p, RecOf(a), address)
  }

  /** An append that succeeds leaves the whole record. */
  lemma SuccessPuts(reverse: bool, cap: nat, p: Packet, a: Answer)
    requires Fit(cap, p) && Succeeds(reverse, cap, p, a)
    ensures AnswerLeft(reverse, cap, p, a) == PutRecord(reverse, cap, p, RecOf(a))
  {
    hide PutRecord, PointerFits, TxtFits, SrvFits, AddressFits;
  }

  /** The packet behind a list of answers. */
  ghost function LeftBy(reverse: bool, cap: nat, p: Packet, answers: seq<Answer>): (r: Packet)
    requires Fit(cap, p)
    ensures |r.b| == |p.b| && Fit(cap, r)
    decreases |answers|
  {
    if answers == [] then p else LeftBy(reverse, cap, AnswerLeft(reverse, cap, p, answers[0]), answers[1..])
  }

  /** How many of them are written whole. */
  ghost function Successes(reverse: bool, cap: nat, p: Packet, answers: seq<Answer>): (n: nat)
    requires Fit(cap, p)
    ensures n <= |answers|
    decreases |answers|
  {
    if answers == [] then 0
    else
      (if Succeeds(reverse, cap, p, answers[0]) then 1 else 0)
      + Successes(reverse, cap, AnswerLeft(reverse, cap, p, answers[0]), answers[1..])
  }

  ghost predicate AllSucceed(reverse: bool, cap: nat, p: Packet, answers: seq<Answer>)
    requires Fit(cap, p)
    decreases |answers|
  {
    answers == []
    || (&& Succeeds(reverse, cap, p, answers[0])
        && AllSucceed(reverse, cap, PutRecord(reverse, cap, p, RecOf(answers[0])), answers[1..]))
  }

  /** A list is written as the message says if and only if every append succeeds, that is, if all are counted. */
  lemma {:induction false} AllSucceedPuts(reverse: bool, cap: nat, p: Packet, answers: seq<Answer>)
    requires Fit(cap, p)
    ensures AllSucceed(reverse, cap, p, answers) <==> Successes(reverse, cap, p, answers) == |answers|
    ensures AllSucceed(reverse, cap, p, answers) ==>
              LeftBy(reverse, cap, p, answers) == PutAll(reverse, cap, p, RecsOf(answers))
    decreases |answers|
  {
    hide PutRecord, RecOf, Succeeds, AnswerLeft;
    if answers != [] {
      assert RecsOf(answers)[1..] == RecsOf(answers[1..]);
      if Succeeds(reverse, cap, p, answers[0]) {
        SuccessPuts(reverse, cap, p, answers[0]);
        AllSucceedPuts(reverse, cap, PutRecord(reverse, cap, p, RecOf(answers[0])), answers[1..]);
      }
    }
  }

  /** A question is written whole and counted. Its size is kept in a uint8_t, which is 0 for a name of 252 bytes. */
  ghost predicate AskFits(reverse: bool, cap: nat, p: Packet, a: Ask)
    requires cap + SLACK <= |p.b| && p.index <= cap
  {
    var o := Append(reverse, p.b, p.index, cap, QuestionOf(a).names);
    o.added % 256 != 0 && o.added % 256 != 252 && o.index + 4 <= cap
  }

  ghost predicate AllFit(reverse: bool, cap: nat, p: Packet, asks: seq<Ask>)
    requires Fit(cap, p)
    decreases |asks|
  {
    asks == []
    || (&& AskFits(reverse, cap, p, asks[0])
        && AllFit(reverse, cap, Headed(reverse, cap, p, QuestionOf(asks[0]).names, QuestionOf(asks[0]).fields),
                  asks[1..]))
  }

  // ----- one question -----

  function ClassOf(a: Ask): nat {
    if a.unicast then 0x8001 else 1
  }

  /**
   What one question leaves: its name, and behind a name that is counted its type and its class, each
   only if it has room.
   */
  ghost function WithAsk(reverse: bool, cap: nat, p: Packet, a: Ask): (r: Packet)
    requires cap + SLACK <= |p.b| && p.index <= cap
    ensures |r.b| == |p.b| && r.index <= cap
  {
    var named := Step(reverse, cap, p, WriteName(QuestionOf(a).names));
    if !Counted(reverse, cap, p, QuestionOf(a).names) then named
    else Step(reverse, cap, Step(reverse, cap, named, WriteRaw(U16Bytes(a.qtype))), WriteRaw(U16Bytes(ClassOf(a))))
  }

  /** The size that is returned for it: 0 if the name is not counted, and kept in a uint8_t otherwise. */
  ghost function AskSize(reverse: bool, cap: nat, p: Packet, a: Ask): nat
    requires cap + SLACK <= |p.b| && p.index <= cap
  {
    var o := Append(reverse, p.b, p.index, cap, QuestionOf(a).names);
    if o.added % 256 == 0 then 0
    else (o.added % 256 + if o.index + 4 <= cap then 4 else if o.index + 2 <= cap then 2 else 0) % 256
  }

  /** A whole question is the name with four bytes behind it. */
  lemma WholeAsk(reverse: bool, cap: nat, p: Packet, a: Ask)
    requires cap + SLACK <= |p.b| && p.index <= cap
    ensures AskFits(reverse, cap, p, a) ==>
              && AskSize(reverse, cap, p, a) > 0
              && WithAsk(reverse, cap, p, a) == Headed(reverse, cap, p, QuestionOf(a).names, QuestionOf(a).fields)
  {
    hide Append, Plain, Recordable, U16Bytes, Put;
    var o := Append(reverse, p.b, p.index, cap, QuestionOf(a).names);
    if AskFits(reverse, cap, p, a) {
      PutPut(o.b, o.index, U16Bytes(a.qtype), U16Bytes(ClassOf(a)));
    }
  }

  /**
   A question whose name is recorded and ends in a domain is always counted, and it is whole if and
   only if four bytes have room behind its name: one that is cut off is counted all the same.
   */
  lemma CutAskIsCounted(reverse: bool, cap: nat, p: Packet, a: Ask)
    requires Inv(p, cap) && GoodName(reverse, cap, p, QuestionOf(a).names) && InDomain(QuestionOf(a).names)
    ensures AskSize(reverse, cap, p, a) > 0
    ensures AskFits(reverse, cap, p, a) <==> Append(reverse, p.b, p.index, cap, QuestionOf(a).names).index + 4 <= cap
    ensures AskFits(reverse, cap, p, a)
       <==> WithAsk(reverse, cap, p, a) == Headed(reverse, cap, p, QuestionOf(a).names, QuestionOf(a).fields)
            && WithAsk(reverse, cap, p, a).index == Step(reverse, cap, p, WriteName(QuestionOf(a).names)).index + 4
  {
    hide Append, WireLength, Labels, U16Bytes, Put, Plain, Recordable;
    NameAdds(reverse, cap, p, QuestionOf(a).names);
    OwnerAdds(reverse, cap, p, QuestionOf(a).names);
    DomainNameIsShort(QuestionOf(a).names);
    WholeAsk(reverse, cap, p, a);
  }

  /** Sums of uint8_t. */
  lemma AddModulo(x: nat, y: nat)
    ensures (x % 256 + y) % 256 == (x + y) % 256
  {
  }

  /** The buffer and the size behind the name, step by step. */
  lemma AskWrites(reverse: bool, cap: nat, p: Packet, a: Ask)
    requires cap + SLACK <= |p.b| && p.index <= cap
    ensures var o, q := Append(reverse, p.b, p.index, cap, QuestionOf(a).names), WithAsk(reverse, cap, p, a);
            var part, i := o.added % 256, o.index;
            && (part == 0 ==> AskSize(reverse, cap, p, a) == 0 && q.b == o.b && q.index == i)
            && (part != 0 && cap < i + 2 ==>
                  AskSize(reverse, cap, p, a) == part && q.b == o.b && q.index == i)
            && (part != 0 && i + 2 <= cap < i + 4 ==>
                  AskSize(reverse, cap, p, a) == (part + 2) % 256 && q.b == Put(o.b, i, U16Bytes(a.qtype))
                      && q.index == i + 2)
            && (part != 0 && i + 4 <= cap ==>
                  && AskSize(reverse, cap, p, a) == (part + 4) % 256
                  && q.b == Put(Put(o.b, i, U16Bytes(a.qtype)), i + 2, U16Bytes(ClassOf(a))) && q.index == i + 4)
  {
    hide Append, Plain, Recordable, U16Bytes, Put;
  }

  /** Append one question; its size as a uint8_t, 0 if its name is not counted. */
  method AppendQuestion(reverse: bool, packet: array<byte>, index: nat, cap: nat, a: Ask, ghost p: Packet)
    returns (index': nat, added: nat)
    requires cap + SLACK <= packet.Length && index <= cap && Leaves(p, packet[..], index)
    modifies packet
    ensures added == AskSize(reverse, cap, p, a)
    ensures Leaves(WithAsk(reverse, cap, p, a), packet[..], index')
  {
    hide Append, WithAsk, AskSize, U16Bytes, Put;
    AskWrites(reverse, cap, p, a);
    var part, n, m;
    index', part := AppendFqdn(reverse, packet, index, cap,
                               Label(a.host) + Label(a.service) + Label(a.proto) + Label(a.domain));
    added := part % 256;
    if added == 0 {
      return;
    }
    index', n := AppendU16(packet, index', cap, a.qtype);
    added := (added + n) % 256;
    index', m := AppendU16(packet, index', cap, if a.unicast then 0x8001 else 1);
    AddModulo(part % 256 + n, m);
    added := (added + m) % 256;
  }

  // ----- one answer -----

  /** Append one answer: 1 if its record was written, else 0. */
  method AppendAnswer(reverse: bool, packet: array<byte>, index: nat, cap: nat, a: Answer, ghost p: Packet)
    returns (index': nat, n: nat)
    requires cap + SLACK <= packet.Length && index <= cap && Sizes([a]) && Leaves(p, packet[..], index)
    modifies packet
    ensures Leaves(AnswerLeft(reverse, cap, p, a), packet[..], index')
    ensures n == if Succeeds(reverse, cap, p, a) then 1 else 0
  {
    hide PutRecord, Reported, PointerFits, TxtFits, SrvFits, AddressFits, PointerLeft, TxtLeft, SrvLeft, AddressLeft;
    assert [a][0] == a;
    ReportedIsPositive(reverse, cap, p, RecOf(a));
    var added;
    match a {
      case PtrAnswer(instance, service, proto, ttl) =>
        index', added := AppendPtrRecord(reverse, packet, index, cap, instance, service, proto, ttl, p);
      case SdPtrAnswer(service, proto, flush, ttl) =>
        index', added := AppendSdPtrRecord(reverse, packet, index, cap, service, proto, flush, ttl, p);
      case TxtAnswer(instance, service, proto, items, flush, ttl) =>
        index', added := AppendTxtRecord(reverse, packet, index, cap, instance, service, proto, items, flush, ttl, p);
      case SrvAnswer(instance, service, proto, fields, serviceHost, ownHost, flush, ttl) =>
        index', added := AppendSrvRecord(reverse, packet, index, cap, instance, service, proto, fields, serviceHost,
                                         ownHost, flush, ttl, p);
      case AddressAnswer(host, address, flush, ttl) =>
        index', added := AppendAddressRecord(reverse, packet, index, cap, host, address, flush, ttl, p);
    }
    n := if added > 0 then 1 else 0;
  }

  lemma ReportedIsPositive(reverse: bool, cap: nat, p: Packet, rec: Rec)
    requires Fit(cap, p)
    ensures Reported(reverse, cap, p, rec) > 0
  {
    hide Append, Headed, RdLength;
  }

  // ----- the loops -----

  /** One list of answers, and its count. */
  ghost function WithSection(reverse: bool, cap: nat, p: Packet, answers: seq<Answer>, countAt: nat): (r: Packet)
    requires Fit(cap, p)
    ensures |r.b| == |p.b| && Fit(cap, r)
  {
    Patch(reverse, cap, LeftBy(reverse, cap, p, answers), countAt, Successes(reverse, cap, p, answers) % 256)
  }

  method AppendSection(reverse: bool, packet: array<byte>, index: nat, cap: nat, answers: seq<Answer>, countAt: nat,
                       ghost p: Packet)
    returns (index': nat)
    requires cap + SLACK <= packet.Length && index <= cap && Sizes(answers) && Leaves(p, packet[..], index)
    modifies packet
    ensures Leaves(WithSection(reverse, cap, p, answers, countAt), packet[..], index')
  {
    hide AnswerLeft, Succeeds, LeftBy, Successes, Put, U16Bytes, Sizes, Step;
    ghost var cur := p;
    var count: nat, k: nat := 0, 0;
    index' := index;
    assert answers[0..] == answers;
    while k < |answers|
      invariant k <= |answers| && count < 256 && Fit(cap, cur) && Leaves(cur, packet[..], index')
      invariant LeftBy(reverse, cap, p, answers) == LeftBy(reverse, cap, cur, answers[k..])
      invariant Successes(reverse, cap, p, answers) % 256
             == (count + Successes(reverse, cap, cur, answers[k..])) % 256
    {
      OneSize(answers, k);
      LeftNext(reverse, cap, cur, answers, k);
      var n;
      index', n := AppendAnswer(reverse, packet, index', cap, answers[k], cur);
      cur := AnswerLeft(reverse, cap, cur, answers[k]);
      AddModulo(count + n, Successes(reverse, cap, cur, answers[k + 1..]));
      count := (count + n) % 256;
      k := k + 1;
    }
    LeftEnd(reverse, cap, cur, answers[k..]);
    SetField(packet, cap, countAt, count);
    StepWrites(reverse, cap, cur, SetU16(countAt, count));
  }

  lemma LeftNext(reverse: bool, cap: nat, p: Packet, answers: seq<Answer>, k: nat)
    requires Fit(cap, p) && k < |answers|
    ensures var q := AnswerLeft(reverse, cap, p, answers[k]);
            && LeftBy(reverse, cap, p, answers[k..]) == LeftBy(reverse, cap, q, answers[k + 1..])
            && Successes(reverse, cap, p, answers[k..])
               == (if Succeeds(reverse, cap, p, answers[k]) then 1 else 0)
                  + Successes(reverse, cap, q, answers[k + 1..])
  {
    hide AnswerLeft, Succeeds;
    assert answers[k..][1..] == answers[k + 1..];
  }

  lemma LeftEnd(reverse: bool, cap: nat, p: Packet, answers: seq<Answer>)
    requires Fit(cap, p) && answers == []
    ensures LeftBy(reverse, cap, p, answers) == p && Successes(reverse, cap, p, answers) == 0
  {
  }

  lemma OneSize(answers: seq<Answer>, k: nat)
    requires k < |answers| && Sizes(answers)
    ensures Sizes([answers[k]])
  {
  }

  /** The questions one behind the other, whole or not. */
  ghost function WithAsks(reverse: bool, cap: nat, p: Packet, asks: seq<Ask>): (r: Packet)
    requires Fit(cap, p)
    ensures |r.b| == |p.b| && Fit(cap, r)
    decreases |asks|
  {
    if asks == [] then p else WithAsks(reverse, cap, WithAsk(reverse, cap, p, asks[0]), asks[1..])
  }

  /** How many of them are counted. */
  ghost function AsksCounted(reverse: bool, cap: nat, p: Packet, asks: seq<Ask>): (n: nat)
    requires Fit(cap, p)
    ensures n <= |asks|
    decreases |asks|
  {
    if asks == [] then 0
    else
      (if AskSize(reverse, cap, p, asks[0]) > 0 then 1 else 0)
      + AsksCounted(reverse, cap, WithAsk(reverse, cap, p, asks[0]), asks[1..])
  }

  /** If every question fits, the questions are those of the message, and all are counted. */
  lemma {:induction false} AsksPut(reverse: bool, cap: nat, p: Packet, asks: seq<Ask>)
    requires Fit(cap, p) && AllFit(reverse, cap, p, asks)
    ensures WithAsks(reverse, cap, p, asks) == PutQuestions(reverse, cap, p, QuestionsOf(asks))
    ensures AsksCounted(reverse, cap, p, asks) == |asks|
    decreases |asks|
  {
    hide QuestionOf, Headed, WithAsk, AskSize, AskFits;
    if asks != [] {
      assert QuestionsOf(asks)[1..] == QuestionsOf(asks[1..]);
      WholeAsk(reverse, cap, p, asks[0]);
      AsksPut(reverse, cap, WithAsk(reverse, cap, p, asks[0]), asks[1..]);
    }
  }

  /** The questions, and their count. */
  method AppendQuestions(reverse: bool, packet: array<byte>, index: nat, cap: nat, asks: seq<Ask>, ghost p: Packet)
    returns (index': nat)
    requires cap + SLACK <= packet.Length && index <= cap && Leaves(p, packet[..], index)
    modifies packet
    ensures var n := AsksCounted(reverse, cap, p, asks) % 256;
            Leaves(Patch(reverse, cap, WithAsks(reverse, cap, p, asks), QUESTIONS_AT, n), packet[..], index')
  {
    hide WithAsk, AskSize, WithAsks, AsksCounted, Put, U16Bytes, Step;
    ghost var cur := p;
    var count: nat, k: nat := 0, 0;
    index' := index;
    assert asks[0..] == asks;
    while k < |asks|
      invariant k <= |asks| && count < 256 && Fit(cap, cur) && Leaves(cur, packet[..], index')
      invariant WithAsks(reverse, cap, p, asks) == WithAsks(reverse, cap, cur, asks[k..])
      invariant AsksCounted(reverse, cap, p, asks) % 256 == (count + AsksCounted(reverse, cap, cur, asks[k..])) % 256
    {
      AskedNext(reverse, cap, cur, asks, k);
      var added;
      index', added := AppendQuestion(reverse, packet, index', cap, asks[k], cur);
      cur := WithAsk(reverse, cap, cur, asks[k]);
      if added > 0 {
        AddModulo(count + 1, AsksCounted(reverse, cap, cur, asks[k + 1..]));
        count := (count + 1) % 256;
      }
      k := k + 1;
    }
    AskedEnd(reverse, cap, cur, asks[k..]);
    SetField(packet, cap, QUESTIONS_AT, count);
    StepWrites(reverse, cap, cur, SetU16(QUESTIONS_AT, count));
  }

  lemma AskedNext(reverse: bool, cap: nat, p: Packet, asks: seq<Ask>, k: nat)
    requires Fit(cap, p) && k < |asks|
    ensures var q := WithAsk(reverse, cap, p, asks[k]);
            && WithAsks(reverse, cap, p, asks[k..]) == WithAsks(reverse, cap, q, asks[k + 1..])
            && AsksCounted(reverse, cap, p, asks[k..])
               == (if AskSize(reverse, cap, p, asks[k]) > 0 then 1 else 0) + AsksCounted(reverse, cap, q, asks[k + 1..])
  {
    hide WithAsk, AskSize;
    assert asks[k..][1..] == asks[k + 1..];
  }

  lemma AskedEnd(reverse: bool, cap: nat, p: Packet, asks: seq<Ask>)
    requires Fit(cap, p) && asks == []
    ensures WithAsks(reverse, cap, p, asks) == p && AsksCounted(reverse, cap, p, asks) == 0
  {
  }

  // ----- the whole packet -----

  /** A packet that is to go out. */
  datatype Outgoing = Outgoing(id: nat, flags: nat, asks: seq<Ask>, answers: seq<Answer>, servers: seq<Answer>,
                               additional: seq<Answer>)

  function MessageOf(m: Outgoing): Message {
    Message(m.id, m.flags, QuestionsOf(m.asks), RecsOf(m.answers), RecsOf(m.servers), RecsOf(m.additional))
  }

  /** The buffer with its header cleared, nothing written behind it yet. */
  ghost function Cleared(b: seq<byte>): Packet
    requires HEAD_LEN <= |b|
  {
    Packet(Put(b, 0, seq(HEAD_LEN, _ => 0)), HEAD_LEN, {}, map[])
  }

  /** Whatever the buffer held before, a cleared header is a sound start for a message. */
  lemma ClearedIsSound(b: seq<byte>, cap: nat)
    requires HEAD_LEN <= cap <= POINTER_SPACE && cap + SLACK <= |b|
    ensures Sound(Cleared(b), cap) && Cleared(b).index == HEAD_LEN
    ensures forall f | 0 <= f < HEAD_LEN - 1 :: U16At(Cleared(b).b, f) == 0
  {
  }

  /** Flags and identity. */
  ghost function Marked(reverse: bool, cap: nat, p: Packet, m: Outgoing): (r: Packet)
    requires Fit(cap, p)
    ensures |r.b| == |p.b| && Fit(cap, r)
  {
    Patch(reverse, cap, Patch(reverse, cap, p, FLAGS_AT, m.flags), ID_AT, m.id)
  }

  /** The header and the questions, whole or not. */
  ghost function WithQuestions(reverse: bool, cap: nat, p: Packet, m: Outgoing): (r: Packet)
    requires Fit(cap, p)
    ensures |r.b| == |p.b| && Fit(cap, r)
  {
    var p1 := Marked(reverse, cap, p, m);
    Patch(reverse, cap, WithAsks(reverse, cap, p1, m.asks), QUESTIONS_AT, AsksCounted(reverse, cap, p1, m.asks) % 256)
  }

  /** Where each section begins, and the packet that goes out. */
  ghost function UpToServers(reverse: bool, cap: nat, p: Packet, m: Outgoing): (r: Packet)
    requires Fit(cap, p)
    ensures |r.b| == |p.b| && Fit(cap, r)
  {
    WithSection(reverse, cap, WithQuestions(reverse, cap, p, m), m.answers, ANSWERS_AT)
  }

  ghost function UpToAdditional(reverse: bool, cap: nat, p: Packet, m: Outgoing): (r: Packet)
    requires Fit(cap, p)
    ensures |r.b| == |p.b| && Fit(cap, r)
  {
    WithSection(reverse, cap, UpToServers(reverse, cap, p, m), m.servers, SERVERS_AT)
  }

  ghost function Sent(reverse: bool, cap: nat, p: Packet, m: Outgoing): (r: Packet)
    requires Fit(cap, p)
    ensures |r.b| == |p.b| && Fit(cap, r)
  {
    WithSection(reverse, cap, UpToAdditional(reverse, cap, p, m), m.additional, ADDITIONAL_AT)
  }

  /** Everything has room and every name is counted. */
  ghost predicate Whole(reverse: bool, cap: nat, p: Packet, m: Outgoing)
    requires Fit(cap, p)
  {
    && AllFit(reverse, cap, Marked(reverse, cap, p, m), m.asks)
    && AllSucceed(reverse, cap, Opened(reverse, cap, p, MessageOf(m)), m.answers)
    && AllSucceed(reverse, cap, WithAnswers(reverse, cap, p, MessageOf(m)), m.servers)
    && AllSucceed(reverse, cap, WithServers(reverse, cap, p, MessageOf(m)), m.additional)
  }

  /** A section is what the message says if every append succeeds. */
  lemma SectionPuts(reverse: bool, cap: nat, p: Packet, answers: seq<Answer>, countAt: nat)
    requires Fit(cap, p) && AllSucceed(reverse, cap, p, answers)
    ensures WithSection(reverse, cap, p, answers, countAt) == PutSection(reverse, cap, p, RecsOf(answers), countAt)
  {
    hide PutAll, RecOf, LeftBy, Successes, AllSucceed, Patch;
    AllSucceedPuts(reverse, cap, p, answers);
  }

  /**
   With all questions whole, the packet is whole if and only if every answer is counted, and then it
   is the message.
   */
  lemma SentIsMessage(reverse: bool, cap: nat, p: Packet, m: Outgoing)
    requires Fit(cap, p) && AllFit(reverse, cap, Marked(reverse, cap, p, m), m.asks)
    ensures Whole(reverse, cap, p, m)
       <==> && Successes(reverse, cap, WithQuestions(reverse, cap, p, m), m.answers) == |m.answers|
            && Successes(reverse, cap, UpToServers(reverse, cap, p, m), m.servers) == |m.servers|
            && Successes(reverse, cap, UpToAdditional(reverse, cap, p, m), m.additional) == |m.additional|
    ensures Whole(reverse, cap, p, m) ==> Sent(reverse, cap, p, m) == PutMessage(reverse, cap, p, MessageOf(m))
  {
    hide PutQuestions, RecsOf, QuestionsOf, AllFit, AllSucceed, Patch, WithSection, PutSection, WithAsks, AsksCounted,
         Successes;
    AsksPut(reverse, cap, Marked(reverse, cap, p, m), m.asks);
    var o := WithQuestions(reverse, cap, p, m);
    assert o == Opened(reverse, cap, p, MessageOf(m));
    AllSucceedPuts(reverse, cap, o, m.answers);
    AllSucceedPuts(reverse, cap, UpToServers(reverse, cap, p, m), m.servers);
    AllSucceedPuts(reverse, cap, UpToAdditional(reverse, cap, p, m), m.additional);
    if AllSucceed(reverse, cap, o, m.answers) {
      SectionPuts(reverse, cap, o, m.answers, ANSWERS_AT);
      if AllSucceed(reverse, cap, UpToServers(reverse, cap, p, m), m.servers) {
        SectionPuts(reverse, cap, UpToServers(reverse, cap, p, m), m.servers, SERVERS_AT);
        if AllSucceed(reverse, cap, UpToAdditional(reverse, cap, p, m), m.additional) {
          SectionPuts(reverse, cap, UpToAdditional(reverse, cap, p, m), m.additional, ADDITIONAL_AT);
        }
      }
    }
  }

  /** Clear the header, append everything, fill in the counts. */
  method DispatchPacket(reverse: bool, packet: array<byte>, cap: nat, m: Outgoing) returns (index: nat)
    requires HEAD_LEN <= cap && cap + SLACK <= packet.Length
    requires Sizes(m.answers) && Sizes(m.servers) && Sizes(m.additional)
    modifies packet
    ensures Leaves(Sent(reverse, cap, Cleared(old(packet[..])), m), packet[..], index)
  {
    hide Sizes, WithAsks, AsksCounted, WithSection;
    ghost var p := Cleared(packet[..]);
    Copy(packet, 0, seq(HEAD_LEN, _ => 0));
    index := HEAD_LEN;
    SetField(packet, cap, FLAGS_AT, m.flags);
    StepWrites(reverse, cap, p, SetU16(FLAGS_AT, m.flags));
    SetField(packet, cap, ID_AT, m.id);
    StepWrites(reverse, cap, Patch(reverse, cap, p, FLAGS_AT, m.flags), SetU16(ID_AT, m.id));
    index := AppendQuestions(reverse, packet, index, cap, m.asks, Marked(reverse, cap, p, m));
    index := AppendSection(reverse, packet, index, cap, m.answers, ANSWERS_AT, WithQuestions(reverse, cap, p, m));
    index := AppendSection(reverse, packet, index, cap, m.servers, SERVERS_AT, UpToServers(reverse, cap, p, m));
    index := AppendSection(reverse, packet, index, cap, m.additional, ADDITIONAL_AT,
                           UpToAdditional(reverse, cap, p, m));
  }

  // ----- what the header says, whatever the outcome -----

  /** Every write but the patch of a field leaves what stands in front of it. */
  lemma StepAgrees(reverse: bool, cap: nat, p: Packet, op: Op)
    requires Fit(cap, p) && !op.SetU16?
    ensures var q := Step(reverse, cap, p, op); p.index <= q.index && AgreeBelow(p.b, q.b, p.index)
  {
    hide Append, AgreeBelow, Plain, Recordable, Put;
    AgreesWithItself(p.b, p.index);
    match op
    case WriteName(strings) => AppendAgrees(reverse, p.b, p.index, cap, strings);
    case WriteRaw(bytes) =>
      if p.index + |bytes| <= cap {
        PutAgrees(p.b, p.index, bytes, p.index);
      }
  }

  /** Two writes, one behind the other. */
  lemma StepsAgree(reverse: bool, cap: nat, a: Packet, p: Packet, op: Op)
    requires Fit(cap, p) && !op.SetU16? && a.index <= p.index && AgreeBelow(a.b, p.b, a.index)
    ensures var q := Step(reverse, cap, p, op); a.index <= q.index && AgreeBelow(a.b, q.b, a.index)
  {
    hide Step, AgreeBelow;
    StepAgrees(reverse, cap, p, op);
    AgreeTwice(a.b, p.b, Step(reverse, cap, p, op).b, a.index, p.index, a.index);
  }

  lemma {:induction false} RunAgrees(reverse: bool, cap: nat, a: Packet, p: Packet, ops: seq<Op>)
    requires Fit(cap, p) && a.index <= p.index && AgreeBelow(a.b, p.b, a.index)
    requires forall i | 0 <= i < |ops| :: !ops[i].SetU16?
    ensures var q := Run(reverse, cap, p, ops); a.index <= q.index && AgreeBelow(a.b, q.b, a.index)
    decreases |ops|
  {
    hide Step, AgreeBelow;
    if ops != [] {
      StepsAgree(reverse, cap, a, p, ops[0]);
      RunAgrees(reverse, cap, a, Step(reverse, cap, p, ops[0]), ops[1..]);
    }
  }

  lemma RecordAgrees(reverse: bool, cap: nat, p: Packet, rec: Rec)
    requires Fit(cap, p) && HeadFits(reverse, cap, p, rec.owner) && |rec.header| == DATA_OFFSET
    requires forall i | 0 <= i < |rec.rdata| :: !rec.rdata[i].SetU16?
    ensures var q := PutRecord(reverse, cap, p, rec); p.index <= q.index && AgreeBelow(p.b, q.b, p.index)
  {
    hide Append, AgreeBelow, Plain, Recordable, Put, U16Bytes, RdLength, Run;
    AgreesWithItself(p.b, p.index);
    var named := Step(reverse, cap, p, WriteName(rec.owner));
    StepsAgree(reverse, cap, p, p, WriteName(rec.owner));
    StepsAgree(reverse, cap, p, named, WriteRaw(rec.header));
    var h := Headed(reverse, cap, p, rec.owner, rec.header);
    StepWrites(reverse, cap, p, WriteName(rec.owner));
    StepWrites(reverse, cap, named, WriteRaw(rec.header));
    RunAgrees(reverse, cap, p, h, rec.rdata);
    var d := Run(reverse, cap, h, rec.rdata);
    StepWrites(reverse, cap, d, SetU16(h.index - 2, RdLength(reverse, cap, h, rec.rdata)));
    hide Step;
    if h.index - 1 < cap {
      PutAgrees(d.b, h.index - 2, U16Bytes(RdLength(reverse, cap, h, rec.rdata)), p.index);
    } else {
      AgreesWithItself(d.b, p.index);
    }
    AgreeTwice(p.b, d.b, PutRecord(reverse, cap, p, rec).b, p.index, p.index, p.index);
  }

  /** Whatever its outcome, an append leaves what stands in front of it. */
  lemma AnswerAgrees(reverse: bool, cap: nat, p: Packet, a: Answer)
    requires Fit(cap, p)
    ensures var q := AnswerLeft(reverse, cap, p, a); p.index <= q.index && AgreeBelow(p.b, q.b, p.index)
  {
    hide AgreeBelow, Step, PutRecord, HeadFits, Counted, Header, Encode, SrvFields;
    AgreesWithItself(p.b, p.index);
    var rec := RecOf(a);
    StepsAgree(reverse, cap, p, p, WriteName(rec.owner));
    if HeadFits(reverse, cap, p, rec.owner) {
      RecordAgrees(reverse, cap, p, rec);
      var named := Step(reverse, cap, p, WriteName(rec.owner));
      StepsAgree(reverse, cap, p, named, WriteRaw(rec.header));
      var h := Headed(reverse, cap, p, rec.owner, rec.header);
      match a {
        case PtrAnswer(instance, service, proto, _) =>
          StepsAgree(reverse, cap, p, h, WriteName(InstanceNames(instance, service, proto)));
        case SdPtrAnswer(service, proto, _, _) =>
          StepsAgree(reverse, cap, p, h, WriteName(TypeNames(service, proto)));
        case TxtAnswer(_, _, _, items, _, _) =>
          StepsAgree(reverse, cap, p, h, WriteRaw(DataLeft(h.index, cap, items)));
        case SrvAnswer(_, _, _, f, serviceHost, ownHost, _, _) =>
          FieldsAgreeBelow(reverse, cap, p, h, f);
          StepsAgree(reverse, cap, p, WithFields(reverse, cap, h, f),
                     WriteName(HostNames(Text(HostOf(serviceHost, ownHost)))));
        case AddressAnswer(_, _, _, _) =>
      }
    }
  }

  lemma FieldsAgreeBelow(reverse: bool, cap: nat, a: Packet, h: Packet, f: Fields)
    requires Fit(cap, h) && a.index <= h.index && AgreeBelow(a.b, h.b, a.index)
    ensures var q := WithFields(reverse, cap, h, f); a.index <= q.index && AgreeBelow(a.b, q.b, a.index)
  {
    hide AgreeBelow, Step;
    var h1 := Step(reverse, cap, h, WriteRaw(U16Bytes(f.priority)));
    StepsAgree(reverse, cap, a, h, WriteRaw(U16Bytes(f.priority)));
    StepsAgree(reverse, cap, a, h1, WriteRaw(U16Bytes(f.weight)));
    StepsAgree(reverse, cap, a, Step(reverse, cap, h1, WriteRaw(U16Bytes(f.weight))), WriteRaw(U16Bytes(f.port)));
  }

  lemma {:induction false} AnswersAgree(reverse: bool, cap: nat, p: Packet, answers: seq<Answer>)
    requires Fit(cap, p)
    ensures var q := LeftBy(reverse, cap, p, answers); p.index <= q.index && AgreeBelow(p.b, q.b, p.index)
    decreases |answers|
  {
    hide AgreeBelow, AnswerLeft;
    AgreesWithItself(p.b, p.index);
    if answers != [] {
      var q := AnswerLeft(reverse, cap, p, answers[0]);
      AnswerAgrees(reverse, cap, p, answers[0]);
      AnswersAgree(reverse, cap, q, answers[1..]);
      AgreeTwice(p.b, q.b, LeftBy(reverse, cap, q, answers[1..]).b, p.index, q.index, p.index);
    }
  }

  /** Every question leaves what stood in front of it. */
  lemma {:induction false} AsksAgree(reverse: bool, cap: nat, p: Packet, asks: seq<Ask>)
    requires Fit(cap, p)
    ensures var q := WithAsks(reverse, cap, p, asks); p.index <= q.index && AgreeBelow(p.b, q.b, p.index)
    decreases |asks|
  {
    hide AgreeBelow, WithAsk;
    AgreesWithItself(p.b, p.index);
    if asks != [] {
      var q := WithAsk(reverse, cap, p, asks[0]);
      AskAgrees(reverse, cap, p, asks[0]);
      AsksAgree(reverse, cap, q, asks[1..]);
      AgreeTwice(p.b, q.b, WithAsks(reverse, cap, q, asks[1..]).b, p.index, q.index, p.index);
    }
  }

  lemma AskAgrees(reverse: bool, cap: nat, p: Packet, a: Ask)
    requires Fit(cap, p)
    ensures var q := WithAsk(reverse, cap, p, a); p.index <= q.index && AgreeBelow(p.b, q.b, p.index)
  {
    hide AgreeBelow, Step, U16Bytes;
    AgreesWithItself(p.b, p.index);
    var named := Step(reverse, cap, p, WriteName(QuestionOf(a).names));
    StepsAgree(reverse, cap, p, p, WriteName(QuestionOf(a).names));
    StepsAgree(reverse, cap, p, named, WriteRaw(U16Bytes(a.qtype)));
    StepsAgree(reverse, cap, p, Step(reverse, cap, named, WriteRaw(U16Bytes(a.qtype))), WriteRaw(U16Bytes(ClassOf(a))));
  }

  /** The other fields of the header. */
  ghost predicate SameFields(b: seq<byte>, b': seq<byte>, at: nat) {
    HEAD_LEN <= |b| == |b'| && forall f | 0 <= f < HEAD_LEN - 1 && (f + 2 <= at || at + 2 <= f) ::
        U16At(b', f) == U16At(b, f)
  }

  /** A patched field. */
  lemma PatchSets(reverse: bool, cap: nat, p: Packet, at: nat, value: nat)
    requires HEAD_LEN <= cap && Fit(cap, p) && at + 2 <= HEAD_LEN && value < 0x10000
    ensures var q := Patch(reverse, cap, p, at, value);
            q.index == p.index && U16At(q.b, at) == value && SameFields(p.b, q.b, at)
  {
    hide Append, Recordable, Plain;
    assert value / 256 % 256 == value / 256;
  }

  lemma FieldsAgree(b: seq<byte>, b': seq<byte>)
    requires AgreeBelow(b, b', HEAD_LEN) && HEAD_LEN <= |b|
    ensures forall f | 0 <= f < HEAD_LEN - 1 :: U16At(b', f) == U16At(b, f)
  {
  }

  lemma AgreeLess(b: seq<byte>, b': seq<byte>, n: nat, k: nat)
    requires AgreeBelow(b, b', n) && k <= n
    ensures AgreeBelow(b, b', k)
  {
  }

  /** One section sets its own count, to the number of appends that succeeded, and no other field. */
  lemma SectionCounts(reverse: bool, cap: nat, p: Packet, answers: seq<Answer>, countAt: nat)
    requires HEAD_LEN <= cap && p.index >= HEAD_LEN && Fit(cap, p) && countAt + 2 <= HEAD_LEN
    ensures var q := WithSection(reverse, cap, p, answers, countAt);
            && q.index >= p.index && HEAD_LEN <= |p.b|
            && U16At(q.b, countAt) == Successes(reverse, cap, p, answers) % 256 && SameFields(p.b, q.b, countAt)
  {
    hide AgreeBelow, Patch, U16At, LeftBy, Successes;
    var last := LeftBy(reverse, cap, p, answers);
    AnswersAgree(reverse, cap, p, answers);
    AgreeLess(p.b, last.b, p.index, HEAD_LEN);
    FieldsAgree(p.b, last.b);
    PatchSets(reverse, cap, last, countAt, Successes(reverse, cap, p, answers) % 256);
  }

  /**
   Whatever fails, the header of what goes out holds the identity, the flags, the number of
   questions whose append reported a size, and for each section the number of answers that were
   written whole, each as a uint8_t.
   */
  lemma {:induction false} HeaderTellsOutcome(reverse: bool, cap: nat, b: seq<byte>, m: Outgoing)
    requires HEAD_LEN <= cap && cap + SLACK <= |b| && m.id < 0x10000 && m.flags < 0x10000
    ensures var p := Cleared(b);
            var q := Sent(reverse, cap, p, m).b;
            && U16At(q, ID_AT) == m.id && U16At(q, FLAGS_AT) == m.flags
            && U16At(q, QUESTIONS_AT) == AsksCounted(reverse, cap, Marked(reverse, cap, p, m), m.asks) % 256
            && U16At(q, ANSWERS_AT) == Successes(reverse, cap, WithQuestions(reverse, cap, p, m), m.answers) % 256
            && U16At(q, SERVERS_AT) == Successes(reverse, cap, UpToServers(reverse, cap, p, m), m.servers) % 256
            && U16At(q, ADDITIONAL_AT)
               == Successes(reverse, cap, UpToAdditional(reverse, cap, p, m), m.additional) % 256
  {
    hide AgreeBelow, Patch, U16At, WithAsks, WithSection, Successes, AsksCounted;
    var p := Cleared(b);
    var p0 := Patch(reverse, cap, p, FLAGS_AT, m.flags);
    var p1 := Marked(reverse, cap, p, m);
    PatchSets(reverse, cap, p, FLAGS_AT, m.flags);
    PatchSets(reverse, cap, p0, ID_AT, m.id);
    AsksAgree(reverse, cap, p1, m.asks);
    var r := WithAsks(reverse, cap, p1, m.asks);
    AgreeLess(p1.b, r.b, p1.index, HEAD_LEN);
    FieldsAgree(p1.b, r.b);
    PatchSets(reverse, cap, r, QUESTIONS_AT, AsksCounted(reverse, cap, p1, m.asks) % 256);
    SectionCounts(reverse, cap, WithQuestions(reverse, cap, p, m), m.answers, ANSWERS_AT);
    SectionCounts(reverse, cap, UpToServers(reverse, cap, p, m), m.servers, SERVERS_AT);
    SectionCounts(reverse, cap, UpToAdditional(reverse, cap, p, m), m.additional, ADDITIONAL_AT);
  }

  // ----- what goes out is parsed -----

  /** Every name of every record that is built ends in the domain. */
  lemma RecOfInDomain(a: Answer)
    ensures NamesInDomain(RecOf(a))
  {
    hide SameText;
    SameItself(LOCAL);
  }

  lemma SameItself(s: text)
    ensures SameText(s, s)
  {
  }

  lemma {:induction false} GoodAsksFit(reverse: bool, cap: nat, p: Packet, asks: seq<Ask>)
    requires Inv(p, cap) && GoodQuestions(reverse, cap, p, QuestionsOf(asks))
    ensures Fit(cap, p) && AllFit(reverse, cap, p, asks)
    decreases |asks|
  {
    hide Inv, GoodName, InDomain, Headed, QuestionOf, AskFits, NameHolds;
    RoomBehind(p, cap);
    var qs := QuestionsOf(asks);
    if asks != [] {
      assert GoodQuestion(reverse, cap, p, qs[0]);
      QuestionIsAsked(reverse, cap, p, qs[0]);
      GoodAskFits(reverse, cap, p, asks[0]);
      assert QuestionsOf(asks[1..]) == qs[1..];
      GoodAsksFit(reverse, cap, Headed(reverse, cap, p, qs[0].names, qs[0].fields), asks[1..]);
    }
  }

  lemma GoodAskFits(reverse: bool, cap: nat, p: Packet, a: Ask)
    requires Inv(p, cap) && GoodQuestion(reverse, cap, p, QuestionOf(a))
    ensures AskFits(reverse, cap, p, a)
  {
    hide Append, Labels, NameHolds, Recordable, Plain, QuestionOf, InDomain;
    StepWrites(reverse, cap, p, WriteName(QuestionOf(a).names));
    CutAskIsCounted(reverse, cap, p, a);
  }

  /** A name that is recorded and ends in a domain is counted. */
  lemma GoodNameCounts(reverse: bool, cap: nat, p: Packet, names: seq<text>)
    requires Inv(p, cap) && GoodName(reverse, cap, p, names) && InDomain(names)
    ensures Counted(reverse, cap, p, names)
  {
    hide Append, WireLength, Labels, Plain, Recordable, InDomain;
    NameAdds(reverse, cap, p, names);
    OwnerAdds(reverse, cap, p, names);
    DomainNameIsShort(names);
  }

  lemma GoodHeadFits(reverse: bool, cap: nat, p: Packet, rec: Rec)
    requires Inv(p, cap) && GoodRecord(reverse, cap, p, rec) && PutRecord(reverse, cap, p, rec).index < cap
    requires InDomain(rec.owner)
    ensures HeadFits(reverse, cap, p, rec.owner)
    ensures var h := Headed(reverse, cap, p, rec.owner, rec.header);
            && Inv(h, cap) && h.index <= cap && GoodData(reverse, cap, h, rec.rdata)
            && PutRecord(reverse, cap, p, rec).index == Run(reverse, cap, h, rec.rdata).index
  {
    hide Append, Labels, NameHolds, Plain, Recordable, Run, RdLength, Kept, Extends, ShortNames, InDomain, GoodData,
         Step, Put;
    HeadedKeeps(reverse, cap, p, rec);
    StepWrites(reverse, cap, p, WriteName(rec.owner));
    RawAdds(reverse, cap, Step(reverse, cap, p, WriteName(rec.owner)), rec.header);
    GoodNameCounts(reverse, cap, p, rec.owner);
    RecordKeeps(reverse, cap, p, rec);
  }

  lemma OneGoodName(reverse: bool, cap: nat, h: Packet, strings: seq<text>)
    requires cap + SLACK <= |h.b| && h.index <= cap && GoodData(reverse, cap, h, [WriteName(strings)])
    ensures GoodName(reverse, cap, h, strings)
  {
    hide GoodName;
  }

  lemma OneGoodRaw(reverse: bool, cap: nat, h: Packet, bytes: seq<byte>)
    requires cap + SLACK <= |h.b| && h.index <= cap && GoodData(reverse, cap, h, [WriteRaw(bytes)])
    ensures h.index + |bytes| <= cap && Run(reverse, cap, h, [WriteRaw(bytes)]).index == h.index + |bytes|
  {
    hide Step;
    OneRaw(reverse, cap, h, bytes);
    RawAdds(reverse, cap, h, bytes);
  }

  lemma GoodRawThenName(reverse: bool, cap: nat, h: Packet, bytes: seq<byte>, strings: seq<text>)
    requires Inv(h, cap) && GoodData(reverse, cap, h, [WriteRaw(bytes), WriteName(strings)])
    ensures var h1 := Step(reverse, cap, h, WriteRaw(bytes));
            h.index + |bytes| <= cap && Inv(h1, cap) && GoodName(reverse, cap, h1, strings)
  {
    hide GoodName, Step, NameHolds;
    var ops := [WriteRaw(bytes), WriteName(strings)];
    assert ops[1..] == [WriteName(strings)];
    StepKeeps(reverse, cap, h, WriteRaw(bytes));
    OneGoodName(reverse, cap, Step(reverse, cap, h, WriteRaw(bytes)), strings);
  }

  /** A good record that ends in front of the end of the buffer is written whole. */
  lemma GoodAnswerSucceeds(reverse: bool, cap: nat, p: Packet, a: Answer)
    requires Inv(p, cap) && GoodRecord(reverse, cap, p, RecOf(a)) && PutRecord(reverse, cap, p, RecOf(a)).index < cap
    ensures Fit(cap, p) && Succeeds(reverse, cap, p, a)
  {
    hide Inv, Append, Step, Labels, Recordable, Run, Headed, HeadFits, GoodData, PutRecord, SameText, Header, Encode,
         SrvFields, GoodName, Counted, WithFields;
    var rec := RecOf(a);
    RoomBehind(p, cap);
    RecOfInDomain(a);
    SameItself(LOCAL);
    assert rec.owner[0] != [] by { FirstIsThere(reverse, cap, p, rec); }
    GoodHeadFits(reverse, cap, p, rec);
    var h := Headed(reverse, cap, p, rec.owner, rec.header);
    match a {
      case PtrAnswer(instance, service, proto, _) =>
        OneGoodName(reverse, cap, h, InstanceNames(instance, service, proto));
        GoodNameCounts(reverse, cap, h, InstanceNames(instance, service, proto));
      case SdPtrAnswer(service, proto, _, _) =>
        OneGoodName(reverse, cap, h, TypeNames(service, proto));
        GoodNameCounts(reverse, cap, h, TypeNames(service, proto));
      case TxtAnswer(_, _, _, items, _, _) =>
        OneGoodRaw(reverse, cap, h, Encode(items));
      case SrvAnswer(_, _, _, f, serviceHost, ownHost, _, _) =>
        var host := Text(HostOf(serviceHost, ownHost));
        GoodRawThenName(reverse, cap, h, SrvFields(f), HostNames(host));
        WholeFields(reverse, cap, h, f);
        GoodNameCounts(reverse, cap, WithFields(reverse, cap, h, f), HostNames(host));
        NoEmptyFirst(reverse, cap, WithFields(reverse, cap, h, f), HostNames(host));
      case AddressAnswer(_, address, _, _) =>
        OneGoodRaw(reverse, cap, h, address);
    }
  }

  lemma FirstIsThere(reverse: bool, cap: nat, p: Packet, rec: Rec)
    requires Inv(p, cap) && GoodRecord(reverse, cap, p, rec)
    ensures rec.owner != [] && rec.owner[0] != []
  {
    NoEmptyFirst(reverse, cap, p, rec.owner);
  }

  lemma NoEmptyFirst(reverse: bool, cap: nat, p: Packet, names: seq<text>)
    requires cap + SLACK <= |p.b| && p.index <= cap && GoodName(reverse, cap, p, names)
    ensures names != [] && names[0] != []
  {
  }

  lemma {:induction false} GoodAnswersSucceed(reverse: bool, cap: nat, p: Packet, answers: seq<Answer>)
    requires Inv(p, cap) && GoodRecords(reverse, cap, p, RecsOf(answers))
             && PutAll(reverse, cap, p, RecsOf(answers)).index < cap
    ensures Fit(cap, p) && AllSucceed(reverse, cap, p, answers)
    decreases |answers|
  {
    hide Inv, GoodRecord, PutRecord, RecOf, Succeeds, NamesInDomain, Extends, Framed, Reported;
    RoomBehind(p, cap);
    var recs := RecsOf(answers);
    if answers != [] {
      var q := PutRecord(reverse, cap, p, recs[0]);
      DomainRecordIsExact(reverse, cap, p, recs[0]);
      assert RecsOf(answers[1..]) == recs[1..];
      RecordsStandInARow(reverse, cap, q, recs[1..]);
      GoodAnswerSucceeds(reverse, cap, p, answers[0]);
      GoodAnswersSucceed(reverse, cap, q, answers[1..]);
    }
  }

  /** A section behind which there is still room is written whole. */
  lemma GoodSection(reverse: bool, cap: nat, p: Packet, answers: seq<Answer>, countAt: nat)
    requires Sound(p, cap) && GoodRecords(reverse, cap, p, RecsOf(answers)) && countAt + 2 <= HEAD_LEN
             && |answers| < 256
    requires PutSection(reverse, cap, p, RecsOf(answers), countAt).index < cap
    ensures Fit(cap, p) && AllSucceed(reverse, cap, p, answers)
    ensures p.index <= PutSection(reverse, cap, p, RecsOf(answers), countAt).index
  {
    hide Inv, GoodRecords, AllSucceed, PutAll, RecsOf, Chain;
    RoomBehind(p, cap);
    var r := PutAll(reverse, cap, p, RecsOf(answers));
    SectionKeeps(reverse, cap, p, RecsOf(answers), countAt);
    StepWrites(reverse, cap, r, SetU16(countAt, |answers| % 256));
    GoodAnswersSucceed(reverse, cap, p, answers);
  }

  /** A message whose names are recorded and which leaves room behind its last byte is written whole. */
  lemma {:induction false} GoodIsWhole(reverse: bool, cap: nat, p: Packet, m: Outgoing)
    requires Sound(p, cap) && p.index == HEAD_LEN && GoodMessage(reverse, cap, p, MessageOf(m))
    requires PutMessage(reverse, cap, p, MessageOf(m)).index < cap
    ensures Fit(cap, p) && Whole(reverse, cap, p, m)
  {
    hide Inv, Sound, GoodRecords, GoodQuestions, AllSucceed, AllFit, PutSection, RecsOf, QuestionsOf, Patch, Opened;
    var msg := MessageOf(m);
    GoodRoom(p, cap);
    OpenedKeeps(reverse, cap, p, msg);
    SectionsAreSound(reverse, cap, p, msg);
    MarkedIsSound(reverse, cap, p, m);
    GoodAsksFit(reverse, cap, Marked(reverse, cap, p, m), m.asks);
    GoodSection(reverse, cap, WithServers(reverse, cap, p, msg), m.additional, ADDITIONAL_AT);
    GoodSection(reverse, cap, WithAnswers(reverse, cap, p, msg), m.servers, SERVERS_AT);
    GoodSection(reverse, cap, Opened(reverse, cap, p, msg), m.answers, ANSWERS_AT);
  }

  lemma GoodRoom(p: Packet, cap: nat)
    requires Sound(p, cap)
    ensures Fit(cap, p) && Inv(p, cap)
  {
    hide Labels, NameHolds;
  }

  lemma SectionsAreSound(reverse: bool, cap: nat, p: Packet, msg: Message)
    requires Sound(p, cap) && p.index == HEAD_LEN && GoodMessage(reverse, cap, p, msg)
    ensures Sound(Opened(reverse, cap, p, msg), cap) && Sound(WithAnswers(reverse, cap, p, msg), cap)
    ensures Sound(WithServers(reverse, cap, p, msg), cap)
  {
    hide Inv, Sound, GoodRecords, GoodQuestions, PutSection, Opened, Chain, Patch;
    GoodRoom(p, cap);
    OpenedKeeps(reverse, cap, p, msg);
    SectionKeeps(reverse, cap, Opened(reverse, cap, p, msg), msg.answers, ANSWERS_AT);
    SectionKeeps(reverse, cap, WithAnswers(reverse, cap, p, msg), msg.servers, SERVERS_AT);
  }

  lemma MarkedIsSound(reverse: bool, cap: nat, p: Packet, m: Outgoing)
    requires Sound(p, cap) && Fit(cap, p) && m.id < 0x10000 && m.flags < 0x10000
    ensures Inv(Marked(reverse, cap, p, m), cap)
  {
    hide Inv, Patch, Extends, Kept, U16At;
    PatchKeeps(reverse, cap, p, FLAGS_AT, m.flags);
    PatchKeeps(reverse, cap, Patch(reverse, cap, p, FLAGS_AT, m.flags), ID_AT, m.id);
    GoodRoom(Patch(reverse, cap, p, FLAGS_AT, m.flags), cap);
    GoodRoom(Marked(reverse, cap, p, m), cap);
  }

  /**
   From the packet to the parser: whatever the buffer held before, if every name of the message is
   recorded and the message leaves room behind its last byte, then it is written whole, and the
   parser's walk over the same buffer stops exactly at the boundaries of its records, in the order
   of the three lists, visits nothing else, and comes to the end.
   */
  lemma {:induction false} DispatchedIsParsed(reverse: bool, cap: nat, b: seq<byte>, m: Outgoing)
    requires HEAD_LEN <= cap <= POINTER_SPACE && cap + SLACK <= |b|
    requires GoodMessage(reverse, cap, Cleared(b), MessageOf(m))
    requires PutMessage(reverse, cap, Cleared(b), MessageOf(m)).index < cap
    ensures var p, q := Cleared(b), Sent(reverse, cap, Cleared(b), m);
            && q == PutMessage(reverse, cap, p, MessageOf(m)) && q.index < |q.b|
            && WalkMessage(reverse, q.b, q.index) == Walked(MessageStarts(reverse, cap, p, MessageOf(m)), true)
            && |MessageStarts(reverse, cap, p, MessageOf(m))| == |m.answers| + |m.servers| + |m.additional|
  {
    hide Sound, GoodMessage, PutMessage, MessageStarts, WalkMessage, U16At, Sent, AllFit, AllSucceed, Cleared;
    ClearedIsSound(b, cap);
    GoodIsWhole(reverse, cap, Cleared(b), m);
    SentIsMessage(reverse, cap, Cleared(b), m);
    WalkVisitsEveryRecord(reverse, cap, Cleared(b), MessageOf(m));
  }
}
