/**
 What the parser reads from a packet that was sent: every question and every answer, field by field,
 as it was given to the sender.
 */
module SentContents {
  import opened Bytes
  import opened FqdnReader
  import opened FqdnWriter
  import opened FqdnCompression
  import opened FqdnHistory
  import opened FqdnSlots
  import opened TxtCodec
  import opened Records
  import opened RecordBuilders
  import opened Messages
  import opened RecordContents
  import opened Dispatch
  import SafeMessages

  /** "_services", "_dns-sd" and "_udp" (section 9 of RFC 6763). */
  const SERVICES: text := [95, 115, 101, 114, 118, 105, 99, 101, 115]
  const DNS: text := [95, 100, 110, 115, 45, 115, 100]
  const UDP: text := [95, 117, 100, 112]

  // ----- what is read -----

  /** Where the parser stops behind the name at an offset. */
  ghost function NameEnd(reverse: bool, b: seq<byte>, limit: nat, at: nat): nat
    requires limit < |b|
  {
    var raw := ReadFrom(reverse, b, limit, at, at, EMPTY_NAME);
    if raw.Parsed? then raw.end else at
  }

  /** The parser finds these parts, up to case, in its four fields for the name at an offset. */
  ghost predicate NameIs(reverse: bool, b: seq<byte>, limit: nat, at: nat, host: text, service: text, proto: text,
                         domain: text)
    requires limit < |b|
  {
    var raw := ReadFrom(reverse, b, limit, at, at, EMPTY_NAME);
    && raw.Parsed?
    && var f := Arrange(raw.name);
       && !f.invalid && !f.sub && SameText(f.host, host) && SameText(f.service, service) && SameText(f.proto, proto)
       && SameText(f.domain, domain)
  }

  /** A part of a question's name, empty if it is left out. */
  function Part(m: Maybe): text {
    match m case Absent => [] case Present(s) => s
  }

  /** A question is read: host, service, protocol and domain in their fields, the type, and the class. */
  ghost predicate AskIsRead(reverse: bool, b: seq<byte>, limit: nat, at: nat, a: Ask)
    requires limit < |b|
  {
    var end := NameEnd(reverse, b, limit, at);
    && NameIs(reverse, b, limit, at, Part(a.host), Part(a.service), Part(a.proto), Part(a.domain))
    && end + 4 <= |b| && U16At(b, end) == a.qtype && U16At(b, end + 2) == if a.unicast then 0x8001 else 1
  }

  /** An answer is read: owner, type, class and time to live, and its data. */
  ghost predicate AnswerIsRead(reverse: bool, b: seq<byte>, limit: nat, at: nat, a: Answer)
    requires limit < |b|
  {
    var end := NameEnd(reverse, b, limit, at);
    && end + 10 <= |b|
    && match a
       case PtrAnswer(instance, service, proto, ttl) =>
         && NameIs(reverse, b, limit, at, [], service, proto, LOCAL) && ReadsHeader(b, end, 12, false, ttl)
         && NameIs(reverse, b, limit, end + 10, instance, service, proto, LOCAL)
       case SdPtrAnswer(service, proto, flush, ttl) =>
         && NameIs(reverse, b, limit, at, SERVICES, DNS, UDP, LOCAL)
         && ReadsHeader(b, end, 12, flush, ttl) && NameIs(reverse, b, limit, end + 10, [], service, proto, LOCAL)
       case TxtAnswer(instance, service, proto, items, flush, ttl) =>
         var n := U16At(b, end + 8);
         && NameIs(reverse, b, limit, at, Part(instance), service, proto, LOCAL) && ReadsHeader(b, end, 16, flush, ttl)
         && end + 10 + n <= |b| && (Decode(b[end + 10..end + 10 + n]) == PairsOf(items) <==> ValuesBeforeLast(items))
       case SrvAnswer(instance, service, proto, fields, serviceHost, ownHost, flush, ttl) =>
         && NameIs(reverse, b, limit, at, Part(instance), service, proto, LOCAL) && ReadsHeader(b, end, 33, flush, ttl)
         && end + 16 <= |b| && U16At(b, end + 10) == fields.priority && U16At(b, end + 12) == fields.weight
         && U16At(b, end + 14) == fields.port
         && NameIs(reverse, b, limit, end + 16, Part(if serviceHost.Present? then serviceHost else ownHost), [], [],
                   LOCAL)
       case AddressAnswer(host, address, flush, ttl) =>
         && NameIs(reverse, b, limit, at, Part(host), [], [], LOCAL)
         && ReadsHeader(b, end, if |address| == 4 then 1 else 28, flush, ttl)
         && U16At(b, end + 8) == |address| && end + 10 + |address| <= |b|
            && b[end + 10..end + 10 + |address|] == address
  }

  /**
   The whole message is read: identity, flags and counts in the header; where the question loop stands
   every question; and where the record loop stands every answer of the three lists, in order, each
   taken for one of its list.
   */
  ghost predicate MessageIsRead(reverse: bool, b: seq<byte>, limit: nat, m: Outgoing)
    requires 12 <= limit < |b|
  {
    var w, all := WalkMessage(reverse, b, limit), m.answers + m.servers + m.additional;
    && U16At(b, 0) == m.id && U16At(b, 2) == m.flags && U16At(b, 4) == |m.asks|
    && U16At(b, 6) == |m.answers| && U16At(b, 8) == |m.servers| && U16At(b, 10) == |m.additional|
    && (forall k | 0 <= k < |m.asks| ::
          var at := SkipQuestions(reverse, b, limit, 12, k);
          at.Behind? && AskIsRead(reverse, b, limit, at.at, m.asks[k]))
    && w.complete && |w.starts| == |all|
    && forall k | 0 <= k < |all| ::
         && AnswerIsRead(reverse, b, limit, w.starts[k], all[k])
         && SectionOf(b, k) == if k < |m.answers| then AnswerSection
                               else if k < |m.answers + m.servers| then ServerSection
                               else AdditionalSection
  }

  // ----- what is asked of the names -----

  /** A host, a type or an instance in the default domain. */
  ghost predicate GoodAsk(a: Ask) {
    && a.domain == Present(LOCAL) && a.qtype < 0x10000
    && (|| (a.host.Present? && a.service.Absent? && a.proto.Absent? && NameShape([a.host.value, LOCAL]))
        || (a.host.Absent? && a.service.Present? && a.proto.Present?
            && NameShape([a.service.value, a.proto.value, LOCAL]))
        || (a.host.Present? && a.service.Present? && a.proto.Present?
            && NameShape([a.host.value, a.service.value, a.proto.value, LOCAL])))
  }

  ghost predicate GoodAnswer(a: Answer) {
    && a.ttl < 0x1_0000_0000
    && match a
       case PtrAnswer(instance, service, proto, _) =>
         NameShape([service, proto, LOCAL]) && NameShape([instance, service, proto, LOCAL])
       case SdPtrAnswer(service, proto, _, _) => NameShape([service, proto, LOCAL])
       case TxtAnswer(instance, service, proto, items, _, _) =>
         instance.Present? && NameShape([instance.value, service, proto, LOCAL]) && AllValid(items)
       case SrvAnswer(instance, service, proto, fields, serviceHost, ownHost, _, _) =>
         && instance.Present? && NameShape([instance.value, service, proto, LOCAL])
         && (serviceHost.Present? || ownHost.Present?)
         && NameShape([if serviceHost.Present? then serviceHost.value else ownHost.value, LOCAL])
         && fields.priority < 0x10000 && fields.weight < 0x10000 && fields.port < 0x10000
       case AddressAnswer(host, _, _, _) => host.Present? && NameShape([host.value, LOCAL])
  }

  ghost predicate GoodOutgoing(m: Outgoing) {
    var all := m.answers + m.servers + m.additional;
    (forall k | 0 <= k < |m.asks| :: GoodAsk(m.asks[k])) && forall k | 0 <= k < |all| :: GoodAnswer(all[k])
  }

  // ----- one question, one answer -----

  lemma NameFields(reverse: bool, cap: nat, q: Packet, at: nat, strings: seq<text>)
    requires Inv(q, cap) && at in q.names && q.names[at] == strings && NameShape(strings)
    ensures q.index < |q.b|
    ensures NameIs(reverse, q.b, q.index, at, if |strings| == 3 then [] else strings[0],
                   if |strings| == 2 then [] else strings[|strings| - 3],
                   if |strings| == 2 then [] else strings[|strings| - 2], strings[|strings| - 1])
    ensures Labels(q.b, q.own, at, at).Decoded?
    ensures NameEnd(reverse, q.b, q.index, at) == Labels(q.b, q.own, at, at).end
  {
    hide ReadFrom, Labels, Arrange, InSlots;
    RoomBehind(q, cap);
    assert NameHolds(q, at);
    RecordedNameParses(reverse, cap, q, q.index, at);
    FieldsOf(Arrange(ReadFrom(reverse, q.b, q.index, at, at, EMPTY_NAME).name), strings);
  }

  lemma AskFields(reverse: bool, cap: nat, q: Packet, at: nat, a: Ask, e: nat)
    requires Inv(q, cap) && GoodAsk(a) && Asked(q, at, QuestionOf(a), e)
    ensures q.index < |q.b| && AskIsRead(reverse, q.b, q.index, at, a)
  {
    hide ReadFrom, Labels, NameIs, NameEnd, NameShape, U16Bytes, U16At, Inv;
    var names := QuestionOf(a).names;
    assert names == if a.service.Absent? then [a.host.value, LOCAL]
                    else if a.host.Absent? then [a.service.value, a.proto.value, LOCAL]
                    else [a.host.value, a.service.value, a.proto.value, LOCAL];
    NameFields(reverse, cap, q, at, names);
    var end := e - 4;
    var x := q.b[end..end + 4];
    assert q.b[end..end + 2] == x[..2] == U16Bytes(a.qtype);
    assert q.b[end + 2..end + 4] == x[2..] == U16Bytes(ClassOf(a));
    U16Reads(q.b, end, a.qtype);
    U16Reads(q.b, end + 2, ClassOf(a));
  }

  lemma OwnerFields(reverse: bool, cap: nat, q: Packet, s: nat, rec: Rec)
    requires Inv(q, cap) && Holds(q, s, rec) && NameShape(rec.owner)
    ensures q.index < |q.b| && NameEnd(reverse, q.b, q.index, s) == Labels(q.b, q.own, s, s).end
  {
    hide ReadFrom, Labels, NameShape, NameIs, NameEnd, HoldsData, DataEnd, Inv;
    NameFields(reverse, cap, q, s, rec.owner);
  }

  /** What the parser finds under the name of one of the three shapes. */
  lemma FoundIs(reverse: bool, q: Packet, at: nat, strings: seq<text>)
    requires ReadsName(reverse, q, at, strings)
    ensures q.index < |q.b|
    ensures NameIs(reverse, q.b, q.index, at, if |strings| == 3 then [] else strings[0],
                   if |strings| == 2 then [] else strings[|strings| - 3],
                   if |strings| == 2 then [] else strings[|strings| - 2], strings[|strings| - 1])
  {
    hide ReadFrom, Arrange, InSlots;
    FieldsOf(Arrange(ReadFrom(reverse, q.b, q.index, at, at, EMPTY_NAME).name), strings);
  }

  lemma PtrIsRead(reverse: bool, cap: nat, q: Packet, s: nat, a: Answer)
    requires Inv(q, cap) && Holds(q, s, RecOf(a)) && GoodAnswer(a) && a.PtrAnswer?
    ensures q.index < |q.b| && AnswerIsRead(reverse, q.b, q.index, s, a)
  {
    hide ReadFrom, Labels, NameShape, NameIs, NameEnd, Holds, Inv, ReadsName, ReadsHeader, U16At, Decode, AllValid,
         DNS_SD,
         Encode;
    OwnerFields(reverse, cap, q, s, RecOf(a));
    HoldsEnd(q, s, RecOf(a));
    var end := Labels(q.b, q.own, s, s).end;
    PtrReadsBack(reverse, cap, q, s, a.instance, a.service, a.proto, a.ttl);
    FoundIs(reverse, q, s, [a.service, a.proto, LOCAL]);
    FoundIs(reverse, q, end + 10, [a.instance, a.service, a.proto, LOCAL]);
  }

  lemma SdPtrIsRead(reverse: bool, cap: nat, q: Packet, s: nat, a: Answer)
    requires Inv(q, cap) && Holds(q, s, RecOf(a)) && GoodAnswer(a) && a.SdPtrAnswer?
    ensures q.index < |q.b| && AnswerIsRead(reverse, q.b, q.index, s, a)
  {
    hide ReadFrom, Labels, NameShape, NameIs, NameEnd, Holds, Inv, ReadsName, ReadsHeader, U16At, Decode, AllValid,
         DNS_SD,
         Encode;
    EnumerationShape();
    FourLabels();
    OwnerFields(reverse, cap, q, s, RecOf(a));
    HoldsEnd(q, s, RecOf(a));
    var end := Labels(q.b, q.own, s, s).end;
    SdPtrReadsBack(reverse, cap, q, s, a.service, a.proto, a.flush, a.ttl);
    FoundIs(reverse, q, s, DNS_SD);
    FoundIs(reverse, q, end + 10, [a.service, a.proto, LOCAL]);
  }

  lemma TxtIsRead(reverse: bool, cap: nat, q: Packet, s: nat, a: Answer)
    requires Inv(q, cap) && Holds(q, s, RecOf(a)) && GoodAnswer(a) && a.TxtAnswer?
    ensures q.index < |q.b| && AnswerIsRead(reverse, q.b, q.index, s, a)
  {
    hide ReadFrom, Labels, NameShape, NameIs, NameEnd, Holds, Inv, ReadsName, ReadsHeader, U16At, Decode, AllValid,
         DNS_SD,
         Encode;
    OwnerFields(reverse, cap, q, s, RecOf(a));
    HoldsEnd(q, s, RecOf(a));
    var end := Labels(q.b, q.own, s, s).end;
    TxtReadsBack(reverse, cap, q, s, a.txtInstance.value, a.service, a.proto, a.items, a.flush, a.ttl);
    FoundIs(reverse, q, s, [a.txtInstance.value, a.service, a.proto, LOCAL]);
  }

  lemma SrvIsRead(reverse: bool, cap: nat, q: Packet, s: nat, a: Answer)
    requires Inv(q, cap) && Holds(q, s, RecOf(a)) && GoodAnswer(a) && a.SrvAnswer?
    ensures q.index < |q.b| && AnswerIsRead(reverse, q.b, q.index, s, a)
  {
    hide ReadFrom, Labels, NameShape, NameIs, NameEnd, Holds, Inv, ReadsName, ReadsHeader, U16At, Decode, AllValid,
         DNS_SD,
         Encode;
    OwnerFields(reverse, cap, q, s, RecOf(a));
    HoldsEnd(q, s, RecOf(a));
    var end := Labels(q.b, q.own, s, s).end;
    var host := if a.serviceHost.Present? then a.serviceHost.value else a.ownHost.value;
    SrvReadsBack(reverse, cap, q, s, a.srvInstance.value, a.service, a.proto, a.fields.priority, a.fields.weight,
                 a.fields.port, host, a.flush, a.ttl);
    FoundIs(reverse, q, s, [a.srvInstance.value, a.service, a.proto, LOCAL]);
    FoundIs(reverse, q, end + 16, [host, LOCAL]);
  }

  lemma AddressIsRead(reverse: bool, cap: nat, q: Packet, s: nat, a: Answer)
    requires Inv(q, cap) && Holds(q, s, RecOf(a)) && GoodAnswer(a) && a.AddressAnswer?
    ensures q.index < |q.b| && AnswerIsRead(reverse, q.b, q.index, s, a)
  {
    hide ReadFrom, Labels, NameShape, NameIs, NameEnd, Holds, Inv, ReadsName, ReadsHeader, U16At, Decode, AllValid,
         DNS_SD,
         Encode;
    OwnerFields(reverse, cap, q, s, RecOf(a));
    HoldsEnd(q, s, RecOf(a));
    var end := Labels(q.b, q.own, s, s).end;
    AddressReadsBack(reverse, cap, q, s, a.host.value, a.address, a.flush, a.ttl);
    FoundIs(reverse, q, s, [a.host.value, LOCAL]);
  }

  lemma {:induction false} AnswerReadsBack(reverse: bool, cap: nat, q: Packet, s: nat, a: Answer)
    requires Inv(q, cap) && Holds(q, s, RecOf(a)) && GoodAnswer(a)
    ensures q.index < |q.b| && AnswerIsRead(reverse, q.b, q.index, s, a)
  {
    hide Inv, Holds, GoodAnswer, AnswerIsRead, RecOf;
    match a
    case PtrAnswer(_, _, _, _) => PtrIsRead(reverse, cap, q, s, a);
    case SdPtrAnswer(_, _, _, _) => SdPtrIsRead(reverse, cap, q, s, a);
    case TxtAnswer(_, _, _, _, _, _) => TxtIsRead(reverse, cap, q, s, a);
    case SrvAnswer(_, _, _, _, _, _, _, _) => SrvIsRead(reverse, cap, q, s, a);
    case AddressAnswer(_, _, _, _) => AddressIsRead(reverse, cap, q, s, a);
  }

  lemma FourLabels()
    ensures DNS_SD == [SERVICES, DNS, UDP, LOCAL]
  {
  }

  lemma HoldsEnd(q: Packet, s: nat, rec: Rec)
    requires Holds(q, s, rec)
    ensures Labels(q.b, q.own, s, s).Decoded? && Labels(q.b, q.own, s, s).end + 10 <= |q.b|
  {
    hide Labels, HoldsData, DataEnd;
  }

  // ----- all of them -----

  /** Where the question loop stands after k questions it reads the k-th. */
  lemma {:induction false} AsksAreRead(reverse: bool, cap: nat, q: Packet, s: nat, asks: seq<Ask>, e: nat, k: nat)
    requires Inv(q, cap) && AskedInARow(q, s, QuestionsOf(asks), e) && k < |asks| && forall i | 0 <= i < |asks| ::
             GoodAsk(asks[i])
    ensures q.index < |q.b|
    ensures var at := SkipQuestions(reverse, q.b, q.index, s, k);
            at.Behind? && AskIsRead(reverse, q.b, q.index, at.at, asks[k])
    decreases k
  {
    hide Inv, Asked, NextQuestion, QuestionOf, AskIsRead, GoodAsk;
    RoomBehind(q, cap);
    var qs := QuestionsOf(asks);
    assert qs[0] == QuestionOf(asks[0]) && qs[1..] == QuestionsOf(asks[1..]);
    var m :| Asked(q, s, qs[0], m) && AskedInARow(q, m, qs[1..], e);
    if k == 0 {
      AskFields(reverse, cap, q, s, asks[0], m);
    } else {
      AskedIsStepped(reverse, cap, q, s, qs[0], m);
      AsksAreRead(reverse, cap, q, m, asks[1..], e, k - 1);
    }
  }

  lemma RecsInOrder(xs: seq<Answer>, ys: seq<Answer>, zs: seq<Answer>, k: nat)
    requires k < |xs + ys + zs|
    ensures (RecsOf(xs) + RecsOf(ys) + RecsOf(zs))[k] == RecOf((xs + ys + zs)[k])
  {
    hide RecOf;
  }

  /**
   Sending and reading composed. A message whose names are recorded and that leaves room behind its
   last byte is read by the parser as it was given to the sender.
   */
  lemma {:induction false} SentIsRead(reverse: bool, cap: nat, b: seq<byte>, m: Outgoing)
    requires HEAD_LEN <= cap <= POINTER_SPACE && cap + SLACK <= |b|
    requires GoodMessage(reverse, cap, Cleared(b), MessageOf(m))
    requires PutMessage(reverse, cap, Cleared(b), MessageOf(m)).index < cap && GoodOutgoing(m)
    ensures var q := Sent(reverse, cap, Cleared(b), m);
            12 <= q.index < |q.b| && MessageIsRead(reverse, q.b, q.index, m)
  {
    hide Sound, GoodMessage, PutMessage, MessageStarts, WalkMessage, U16At, Sent, Cleared, RecsOf, QuestionsOf, Opened,
         AskIsRead, AnswerIsRead, GoodAsk, GoodAnswer, SkipQuestions, Holds, Inv, AskedInARow, After, Chain;
    SafeMessages.ClearedSize(b);
    var p, q, msg := Cleared(b), Sent(reverse, cap, Cleared(b), m), MessageOf(m);
    ClearedIsSound(b, cap);
    DispatchedIsParsed(reverse, cap, b, m);
    WalkVisitsEveryRecord(reverse, cap, p, msg);
    OpenedKeeps(reverse, cap, p, msg);
    SectionsKeep(reverse, cap, p, msg);
    SoundStands(q, cap);
    var o := Opened(reverse, cap, p, msg);
    OpenedStays(o, q, QuestionsOf(m.asks));
    forall k | 0 <= k < |m.asks|
      ensures var at := SkipQuestions(reverse, q.b, q.index, 12, k);
              at.Behind? && AskIsRead(reverse, q.b, q.index, at.at, m.asks[k])
    {
      AsksAreRead(reverse, cap, q, 12, m.asks, o.index, k);
    }
    var all := m.answers + m.servers + m.additional;
    forall k | 0 <= k < |all|
      ensures AnswerIsRead(reverse, q.b, q.index, MessageStarts(reverse, cap, p, msg)[k], all[k])
    {
      MessageHolds(reverse, cap, p, msg, k);
      RecsInOrder(m.answers, m.servers, m.additional, k);
      AnswerReadsBack(reverse, cap, q, MessageStarts(reverse, cap, p, msg)[k], all[k]);
    }
  }

  lemma SoundStands(q: Packet, cap: nat)
    requires Sound(q, cap)
    ensures Inv(q, cap) && 12 <= q.index && q.index < |q.b|
  {
    RoomBehind(q, cap);
  }

  lemma OpenedStays(o: Packet, q: Packet, qs: seq<Question>)
    requires After(o, q) && q.index <= |q.b| && AskedInARow(o, HEAD_LEN, qs, o.index)
    ensures AskedInARow(q, HEAD_LEN, qs, o.index)
  {
    hide AskedInARow, Extends, Kept;
    AskedInARowStays(HEAD_LEN, o, q, HEAD_LEN, qs, o.index);
  }

  /** So is every safe message. */
  lemma {:induction false} SafeIsRead(reverse: bool, cap: nat, words: set<text>, b: seq<byte>, m: Outgoing)
    requires HEAD_LEN <= cap <= POINTER_SPACE && cap + SLACK <= |b|
    requires SafeMessages.SafeMessage(words, b, cap, MessageOf(m)) && GoodOutgoing(m)
    ensures Fit(cap, Cleared(b))
    ensures var q := Sent(reverse, cap, Cleared(b), m);
            12 <= q.index < |q.b| && MessageIsRead(reverse, q.b, q.index, m)
  {
    hide GoodMessage, PutMessage, Sent, MessageOf, MessageIsRead, GoodOutgoing;
    SafeMessages.SafeMessageIsGood(reverse, cap, words, b, MessageOf(m));
    SentIsRead(reverse, cap, b, m);
  }
}
