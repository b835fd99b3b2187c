/**
 Print and parse for whole records: what the parser reads from a record in a finished message is what
 the builder was given.
 */
module RecordContents {
  import opened Bytes
  import opened FqdnReader
  import opened FqdnWriter
  import opened FqdnCompression
  import opened FqdnHistory
  import opened FqdnSlots
  import opened TxtCodec
  import opened Records
  import opened RecordBuilders
  import opened Messages

  // ----- what stands in a packet -----

  /** One piece of record data at an offset. */
  ghost predicate HoldsPiece(q: Packet, at: nat, op: Op) {
    match op
    case WriteName(strings) => at in q.names && q.names[at] == strings && Labels(q.b, q.own, at, at).Decoded?
    case WriteRaw(bytes) => at + |bytes| <= q.index <= |q.b| && q.b[at..at + |bytes|] == bytes
    case SetU16(_, _) => false
  }

  ghost function PieceEnd(q: Packet, at: nat, op: Op): nat {
    match op
    case WriteName(_) => if Labels(q.b, q.own, at, at).Decoded? then Labels(q.b, q.own, at, at).end else at
    case WriteRaw(bytes) => at + |bytes|
    case SetU16(_, _) => at
  }

  /** Record data one piece behind the other. */
  ghost predicate HoldsData(q: Packet, at: nat, rdata: seq<Op>)
    decreases |rdata|
  {
    rdata == [] || (HoldsPiece(q, at, rdata[0]) && HoldsData(q, PieceEnd(q, at, rdata[0]), rdata[1..]))
  }

  /** Where record data ends. */
  ghost function DataEnd(q: Packet, at: nat, rdata: seq<Op>): nat
    decreases |rdata|
  {
    if rdata == [] then at else DataEnd(q, PieceEnd(q, at, rdata[0]), rdata[1..])
  }

  /** The record at s: its owner, type, class and time to live, its data, and the length of the data. */
  ghost predicate Holds(q: Packet, s: nat, rec: Rec) {
    && s in q.names && q.names[s] == rec.owner && Labels(q.b, q.own, s, s).Decoded?
    && var end := Labels(q.b, q.own, s, s).end;
       && |rec.header| == DATA_OFFSET && end + DATA_OFFSET <= q.index <= |q.b|
       && q.b[end..end + LEN_OFFSET] == rec.header[..LEN_OFFSET]
       && HoldsData(q, end + DATA_OFFSET, rec.rdata)
       && DataEnd(q, end + DATA_OFFSET, rec.rdata) == end + DATA_OFFSET + U16At(q.b, end + LEN_OFFSET)
  }

  lemma PieceStays(lo: nat, p: Packet, q: Packet, at: nat, op: Op)
    requires lo <= at && HoldsPiece(p, at, op) && Extends(p, q) && Kept(lo, p, q) && q.index <= |q.b|
    ensures HoldsPiece(q, at, op) && PieceEnd(q, at, op) == PieceEnd(p, at, op) >= at
  {
    hide Labels;
    if op.WriteRaw? {
      assert q.b[at..at + |op.bytes|] == p.b[at..at + |op.bytes|];
    }
  }

  lemma {:induction false} DataStays(lo: nat, p: Packet, q: Packet, at: nat, rdata: seq<Op>)
    requires lo <= at && HoldsData(p, at, rdata) && Extends(p, q) && Kept(lo, p, q) && q.index <= |q.b|
    ensures HoldsData(q, at, rdata) && DataEnd(q, at, rdata) == DataEnd(p, at, rdata)
    decreases |rdata|
  {
    hide HoldsPiece, PieceEnd, Extends, Kept;
    if rdata != [] {
      PieceStays(lo, p, q, at, rdata[0]);
      DataStays(lo, p, q, PieceEnd(p, at, rdata[0]), rdata[1..]);
    }
  }

  lemma HoldsStays(lo: nat, p: Packet, q: Packet, s: nat, rec: Rec)
    requires lo <= s && Holds(p, s, rec) && Extends(p, q) && Kept(lo, p, q) && q.index <= |q.b|
    ensures Holds(q, s, rec)
  {
    hide Labels, HoldsData, DataEnd;
    var end := Labels(p.b, p.own, s, s).end;
    assert q.b[end..end + LEN_OFFSET] == p.b[end..end + LEN_OFFSET];
    DataStays(lo, p, q, end + DATA_OFFSET, rec.rdata);
  }

  // ----- what the builders put there -----

  lemma StepHolds(reverse: bool, cap: nat, p: Packet, op: Op)
    requires Inv(p, cap) && GoodData(reverse, cap, p, [op])
    ensures var q := Step(reverse, cap, p, op);
            && Inv(q, cap) && Extends(p, q) && Kept(0, p, q) && HoldsPiece(q, p.index, op)
               && PieceEnd(q, p.index, op) == q.index
  {
    hide Append, Labels, Step, Recordable, Plain, NameHolds;
    DataStep(reverse, cap, p, op);
    if op.WriteName? {
      NameAdds(reverse, cap, p, op.strings);
    } else {
      RawAdds(reverse, cap, p, op.bytes);
    }
  }

  lemma {:induction false} RunHolds(reverse: bool, cap: nat, p: Packet, rdata: seq<Op>)
    requires Inv(p, cap) && GoodData(reverse, cap, p, rdata)
    ensures var q := Run(reverse, cap, p, rdata);
            Inv(q, cap) && Extends(p, q) && Kept(0, p, q) && HoldsData(q, p.index, rdata)
                && DataEnd(q, p.index, rdata) == q.index
    decreases |rdata|
  {
    hide Inv, Append, Labels, Step, Recordable, Plain, NameHolds, Extends, Kept, HoldsPiece, PieceEnd;
    RoomBehind(p, cap);
    if rdata == [] {
      ExtendsItself(p);
      KeptTwice(0, p, p, p);
    } else {
      var p1 := Step(reverse, cap, p, rdata[0]);
      StepHolds(reverse, cap, p, rdata[0]);
      RoomBehind(p1, cap);
      RunHolds(reverse, cap, p1, rdata[1..]);
      var q := Run(reverse, cap, p1, rdata[1..]);
      RoomBehind(q, cap);
      ExtendsTwice(p, p1, q);
      KeptTwice(0, p, p1, q);
      PieceStays(0, p1, q, p.index, rdata[0]);
    }
  }

  /** The first eight bytes of the header survive the patch of the length field. */
  lemma HeaderStands(reverse: bool, cap: nat, p: Packet, rec: Rec)
    requires Inv(p, cap) && GoodRecord(reverse, cap, p, rec)
    ensures var h := Headed(reverse, cap, p, rec.owner, rec.header);
            h.index >= DATA_OFFSET && h.b[h.index - DATA_OFFSET..h.index - 2] == rec.header[..LEN_OFFSET]
  {
    hide Append, Labels, Step, Recordable, Plain, NameHolds, GoodData;
    var p1 := Step(reverse, cap, p, WriteName(rec.owner));
    NameAdds(reverse, cap, p, rec.owner);
    RawAdds(reverse, cap, p1, rec.header);
  }

  /** The patch of the length field touches neither what stands behind it nor the eight bytes in front of it. */
  lemma PatchSpares(reverse: bool, cap: nat, h: Packet, d: Packet, n: nat)
    requires Inv(d, cap) && h.index >= DATA_OFFSET && Kept(0, h, d) && n < 0x10000 && h.index <= |h.b|
    requires h.index - 2 !in h.own && h.index - 1 !in h.own
    ensures var q := Step(reverse, cap, d, SetU16(h.index - 2, n));
            && Extends(d, q) && Kept(h.index, d, q)
            && q.b[h.index - DATA_OFFSET..h.index - 2] == h.b[h.index - DATA_OFFSET..h.index - 2]
  {
    hide Labels, NameHolds, Append, Recordable, Step, U16At, Extends;
    Patched(reverse, cap, d, h.index - 2, n);
  }

  /** A record that is written is held. */
  lemma {:induction false} RecordHolds(reverse: bool, cap: nat, p: Packet, rec: Rec)
    requires Inv(p, cap) && GoodRecord(reverse, cap, p, rec) && NamesInDomain(rec)
    ensures Holds(PutRecord(reverse, cap, p, rec), p.index, rec)
  {
    hide Append, Labels, Step, Recordable, Plain, NameHolds, GoodData, RdLength, Run, Headed, Extends, HoldsData,
         DataEnd, ShortNames, U16At,
         Kept, Inv;
    RoomBehind(p, cap);
    var h := Headed(reverse, cap, p, rec.owner, rec.header);
    HeadedKeeps(reverse, cap, p, rec);
    RoomBehind(h, cap);
    HeaderStands(reverse, cap, p, rec);
    RunHolds(reverse, cap, h, rec.rdata);
    RecordKeeps(reverse, cap, p, rec);
    var d, q := Run(reverse, cap, h, rec.rdata), PutRecord(reverse, cap, p, rec);
    RoomBehind(d, cap);
    RoomBehind(q, cap);
    PatchSpares(reverse, cap, h, d, RdLength(reverse, cap, h, rec.rdata));
    DataStays(h.index, d, q, h.index, rec.rdata);
    DomainRecordIsShort(reverse, cap, p, rec);
    RecordIsFramed(reverse, cap, p, rec);
    OwnerEnds(h, q, p.index);
  }

  lemma OwnerEnds(h: Packet, q: Packet, s: nat)
    requires Extends(h, q) && s in h.names
    ensures Labels(q.b, q.own, s, s) == Labels(h.b, h.own, s, s)
  {
    hide Labels;
  }

  /** In a row of records each one is held. */
  lemma {:induction false} RowHolds(reverse: bool, cap: nat, p: Packet, recs: seq<Rec>, k: nat)
    requires Inv(p, cap) && GoodRecords(reverse, cap, p, recs) && k < |recs|
    ensures Holds(PutAll(reverse, cap, p, recs), Starts(reverse, cap, p, recs)[k], recs[k])
    ensures Starts(reverse, cap, p, recs)[k] >= p.index
    decreases |recs|
  {
    hide Inv, Labels, PutRecord, GoodRecord, NamesInDomain, Headed, NameHolds, Kept, Extends, Holds, Framed, Chain,
         Reported;
    RoomBehind(p, cap);
    var q := PutRecord(reverse, cap, p, recs[0]);
    DomainRecordIsExact(reverse, cap, p, recs[0]);
    RoomBehind(q, cap);
    RecordsStandInARow(reverse, cap, q, recs[1..]);
    var r := PutAll(reverse, cap, q, recs[1..]);
    RoomBehind(r, cap);
    if k == 0 {
      RecordHolds(reverse, cap, p, recs[0]);
      HoldsStays(0, q, r, p.index, recs[0]);
    } else {
      RowHolds(reverse, cap, q, recs[1..], k - 1);
    }
  }

  lemma SectionHolds(reverse: bool, cap: nat, p: Packet, recs: seq<Rec>, countAt: nat, r: Packet, k: nat)
    requires Sound(p, cap) && GoodRecords(reverse, cap, p, recs) && countAt + 2 <= HEAD_LEN && |recs| < 256
             && k < |recs|
    requires After(PutSection(reverse, cap, p, recs, countAt), r) && r.index <= |r.b|
    ensures Holds(r, Starts(reverse, cap, p, recs)[k], recs[k])
  {
    hide Inv, Extends, Kept, Chain, Starts, PutAll, GoodRecords, Patch, U16At, Holds;
    RoomBehind(p, cap);
    RecordsStandInARow(reverse, cap, p, recs);
    RowHolds(reverse, cap, p, recs, k);
    var a := PutAll(reverse, cap, p, recs);
    RoomBehind(a, cap);
    StaysSound(p, a, cap);
    PatchKeeps(reverse, cap, a, countAt, |recs|);
    AfterTwice(a, Patch(reverse, cap, a, countAt, |recs|), r);
    HoldsStays(HEAD_LEN, a, r, Starts(reverse, cap, p, recs)[k], recs[k]);
  }

  /** In a finished message every record of every section stands, whole, where the parser's walk stops for it. */
  lemma {:induction false} MessageHolds(reverse: bool, cap: nat, p: Packet, m: Message, k: nat)
    requires Sound(p, cap) && p.index == HEAD_LEN && GoodMessage(reverse, cap, p, m)
    requires k < |m.answers + m.servers + m.additional|
    ensures Holds(PutMessage(reverse, cap, p, m), MessageStarts(reverse, cap, p, m)[k],
                  (m.answers + m.servers + m.additional)[k])
  {
    hide Inv, Extends, Kept, Chain, Opened, PutSection, GoodQuestions, GoodRecords, Starts, U16At, Holds;
    RoomBehind(p, cap);
    OpenedKeeps(reverse, cap, p, m);
    var o, a := Opened(reverse, cap, p, m), WithAnswers(reverse, cap, p, m);
    var v, q := WithServers(reverse, cap, p, m), PutMessage(reverse, cap, p, m);
    SectionKeeps(reverse, cap, o, m.answers, ANSWERS_AT);
    SectionKeeps(reverse, cap, a, m.servers, SERVERS_AT);
    SectionKeeps(reverse, cap, v, m.additional, ADDITIONAL_AT);
    RoomBehind(q, cap);
    AfterTwice(a, v, q);
    AfterTwice(q, q, q);
    var na, ns := |m.answers|, |m.servers|;
    if k < na {
      SectionHolds(reverse, cap, o, m.answers, ANSWERS_AT, q, k);
    } else if k < na + ns {
      SectionHolds(reverse, cap, a, m.servers, SERVERS_AT, q, k - na);
    } else {
      SectionHolds(reverse, cap, v, m.additional, ADDITIONAL_AT, q, k - na - ns);
    }
  }

  // ----- what the parser reads -----

  function U32At(b: seq<byte>, at: nat): nat
    requires at + 4 <= |b|
  {
    U16At(b, at) * 0x10000 + U16At(b, at + 2)
  }

  /** Type, class and time to live of the record whose owner ends at `end`. */
  ghost predicate ReadsHeader(b: seq<byte>, end: nat, rtype: nat, flush: bool, ttl: nat) {
    && end + DATA_OFFSET <= |b|
    && U16At(b, end) == rtype && U16At(b, end + 2) == (if flush then 0x8001 else 1) && U32At(b, end + 4) == ttl
  }

  lemma U16Reads(b: seq<byte>, at: nat, v: nat)
    requires at + 2 <= |b| && b[at..at + 2] == U16Bytes(v) && v < 0x10000
    ensures U16At(b, at) == v
  {
    assert b[at] == b[at..at + 2][0] && b[at + 1] == b[at..at + 2][1];
  }

  lemma FourParts(b: seq<byte>, at: nat, x: seq<byte>, y: seq<byte>, z: seq<byte>, w: seq<byte>)
    requires |x| == |y| == |z| == |w| == 2 && at + 8 <= |b| && b[at..at + 8] == x + y + z + w
    ensures b[at..at + 2] == x && b[at + 2..at + 4] == y && b[at + 4..at + 6] == z && b[at + 6..at + 8] == w
  {
    var s := b[at..at + 8];
    assert forall i | 0 <= i < 8 :: b[at + i] == s[i];
    assert s[0..2] == x && s[2..4] == y && s[4..6] == z && s[6..8] == w;
  }

  lemma ThreeParts(b: seq<byte>, at: nat, x: seq<byte>, y: seq<byte>, z: seq<byte>)
    requires |x| == |y| == |z| == 2 && at + 6 <= |b| && b[at..at + 6] == x + y + z
    ensures b[at..at + 2] == x && b[at + 2..at + 4] == y && b[at + 4..at + 6] == z
  {
    var s := b[at..at + 6];
    assert forall i | 0 <= i < 6 :: b[at + i] == s[i];
    assert s[0..2] == x && s[2..4] == y && s[4..6] == z;
  }

  lemma HeaderReads(b: seq<byte>, end: nat, rtype: nat, flush: bool, ttl: nat)
    requires end + DATA_OFFSET <= |b| && rtype < 0x10000 && ttl < 0x1_0000_0000
    requires b[end..end + LEN_OFFSET] == Header(rtype, flush, ttl)[..LEN_OFFSET]
    ensures ReadsHeader(b, end, rtype, flush, ttl)
  {
    hide U16At, U16Bytes;
    var c, h, l := if flush then 0x8001 else 1, ttl / 0x10000, ttl % 0x10000;
    var x := b[end..end + LEN_OFFSET];
    assert x == U16Bytes(rtype) + U16Bytes(c) + U16Bytes(h) + U16Bytes(l);
    FourParts(b, end, U16Bytes(rtype), U16Bytes(c), U16Bytes(h), U16Bytes(l));
    U16Reads(b, end, rtype);
    U16Reads(b, end + 2, c);
    U16Reads(b, end + 4, h);
    U16Reads(b, end + 6, l);
  }

  /** The parser finds a name of one of the three shapes at an offset. */
  ghost predicate ReadsName(reverse: bool, q: Packet, at: nat, strings: seq<text>) {
    && q.index < |q.b| && 2 <= |strings| <= 4
    && var raw := ReadFrom(reverse, q.b, q.index, at, at, EMPTY_NAME);
       raw.Parsed? && InSlots(Arrange(raw.name), strings)
  }

  lemma NamePieceReads(reverse: bool, cap: nat, q: Packet, at: nat, strings: seq<text>)
    requires Inv(q, cap) && HoldsPiece(q, at, WriteName(strings)) && NameShape(strings)
    ensures ReadsName(reverse, q, at, strings)
  {
    hide ReadFrom, Labels;
    RecordedNameParses(reverse, cap, q, q.index, at);
  }

  /** A PTR record: type, class and time to live, and the instance label by label. */
  lemma {:induction false} PtrReadsBack(reverse: bool, cap: nat, q: Packet, s: nat, instance: text, service: text,
                                        proto: text, ttl: nat)
    requires Inv(q, cap) && Holds(q, s, PtrRecord(instance, service, proto, ttl))
    requires NameShape([service, proto, LOCAL]) && NameShape([instance, service, proto, LOCAL]) && ttl < 0x1_0000_0000
    ensures var end := Labels(q.b, q.own, s, s).end;
            && ReadsName(reverse, q, s, [service, proto, LOCAL]) && ReadsHeader(q.b, end, 12, false, ttl)
            && ReadsName(reverse, q, end + 10, [instance, service, proto, LOCAL])
  {
    hide Inv, Labels, ReadsName, ReadsHeader, Header, NameShape;
    var end := Labels(q.b, q.own, s, s).end;
    NamePieceReads(reverse, cap, q, s, [service, proto, LOCAL]);
    HeaderReads(q.b, end, TYPE_PTR, false, ttl);
    NamePieceReads(reverse, cap, q, end + 10, [instance, service, proto, LOCAL]);
  }

  /** The record that enumerates service types: owner "_services._dns-sd._udp.local", and the type. */
  lemma {:induction false} SdPtrReadsBack(reverse: bool, cap: nat, q: Packet, s: nat, service: text, proto: text,
                                          flush: bool, ttl: nat)
    requires Inv(q, cap) && Holds(q, s, SdPtrRecord(service, proto, flush, ttl))
    requires NameShape([service, proto, LOCAL]) && ttl < 0x1_0000_0000
    ensures var end := Labels(q.b, q.own, s, s).end;
            && ReadsName(reverse, q, s, DNS_SD) && ReadsHeader(q.b, end, 12, flush, ttl)
            && ReadsName(reverse, q, end + 10, [service, proto, LOCAL])
  {
    hide Inv, Labels, ReadsName, ReadsHeader, Header, NameShape, DNS_SD;
    var end := Labels(q.b, q.own, s, s).end;
    EnumerationShape();
    NamePieceReads(reverse, cap, q, s, DNS_SD);
    HeaderReads(q.b, end, TYPE_PTR, flush, ttl);
    NamePieceReads(reverse, cap, q, end + 10, [service, proto, LOCAL]);
  }

  lemma EnumerationShape()
    ensures NameShape(DNS_SD)
  {
    var names := DNS_SD;
    assert |names[0]| == 9 && |names[1]| == 7 && |names[2]| == 4 && names[3] == LOCAL;
    assert Lower(names[2][1]) != Lower(SUB[1]);
  }

  /** An SRV record: also priority, weight and port, each from its own offset, and the host. */
  lemma {:induction false} SrvReadsBack(reverse: bool, cap: nat, q: Packet, s: nat, instance: text, service: text,
                                        proto: text, priority: nat, weight: nat, port: nat, host: text, flush: bool,
                                        ttl: nat)
    requires Inv(q, cap)
    requires Holds(q, s, SrvRecord(instance, service, proto, Fields(priority, weight, port), host, flush, ttl))
    requires NameShape([instance, service, proto, LOCAL]) && NameShape([host, LOCAL])
    requires priority < 0x10000 && weight < 0x10000 && port < 0x10000 && ttl < 0x1_0000_0000
    ensures var end := Labels(q.b, q.own, s, s).end;
            var data := end + 10;
            && ReadsName(reverse, q, s, [instance, service, proto, LOCAL]) && ReadsHeader(q.b, end, 33, flush, ttl)
            && data + 6 <= |q.b| && U16At(q.b, data) == priority && U16At(q.b, data + 2) == weight
               && U16At(q.b, data + 4) == port
            && ReadsName(reverse, q, data + 6, [host, LOCAL])
  {
    hide Inv, Labels, ReadsName, ReadsHeader, Header, NameShape, U16At, U16Bytes;
    var end := Labels(q.b, q.own, s, s).end;
    var data := end + 10;
    var fields := SrvFields(Fields(priority, weight, port));
    NamePieceReads(reverse, cap, q, s, [instance, service, proto, LOCAL]);
    HeaderReads(q.b, end, TYPE_SRV, flush, ttl);
    assert HoldsPiece(q, data, WriteRaw(fields));
    ThreeParts(q.b, data, U16Bytes(priority), U16Bytes(weight), U16Bytes(port));
    U16Reads(q.b, data, priority);
    U16Reads(q.b, data + 2, weight);
    U16Reads(q.b, data + 4, port);
    assert HoldsData(q, data + 6, [WriteRaw(fields), WriteName(HostNames(host))][1..]);
    NamePieceReads(reverse, cap, q, data + 6, [host, LOCAL]);
  }

  /** A TXT record: the items themselves, exactly if every one but the last has a value. */
  lemma {:induction false} TxtReadsBack(reverse: bool, cap: nat, q: Packet, s: nat, instance: text, service: text,
                                        proto: text, items: seq<Item>, flush: bool, ttl: nat)
    requires Inv(q, cap) && Holds(q, s, TxtRecord(instance, service, proto, items, flush, ttl)) && AllValid(items)
    requires NameShape([instance, service, proto, LOCAL]) && ttl < 0x1_0000_0000
    ensures var end := Labels(q.b, q.own, s, s).end;
            && ReadsName(reverse, q, s, [instance, service, proto, LOCAL]) && ReadsHeader(q.b, end, 16, flush, ttl)
    ensures var data, n := Labels(q.b, q.own, s, s).end + 10, |Encode(items)|;
            && data + n <= |q.b| && U16At(q.b, data - 2) == n
            && (Decode(q.b[data..data + n]) == PairsOf(items) <==> ValuesBeforeLast(items))
  {
    hide Inv, Labels, ReadsName, ReadsHeader, Header, NameShape, U16At, Decode, Encode;
    var end := Labels(q.b, q.own, s, s).end;
    NamePieceReads(reverse, cap, q, s, [instance, service, proto, LOCAL]);
    HeaderReads(q.b, end, TYPE_TXT, flush, ttl);
    assert [WriteRaw(Encode(items))][1..] == [];
    assert DataEnd(q, end + DATA_OFFSET, [WriteRaw(Encode(items))]) == end + DATA_OFFSET + |Encode(items)|;
    TxtRoundTrip(items);
  }

  /** An A or AAAA record: the address bytes, and their number. */
  lemma {:induction false} AddressReadsBack(reverse: bool, cap: nat, q: Packet, s: nat, host: text,
                                            address: seq<byte>, flush: bool, ttl: nat)
    requires Inv(q, cap) && Holds(q, s, AddressRecord(host, address, flush, ttl))
    requires NameShape([host, LOCAL]) && ttl < 0x1_0000_0000
    ensures var end := Labels(q.b, q.own, s, s).end;
            && ReadsName(reverse, q, s, [host, LOCAL])
            && ReadsHeader(q.b, end, if |address| == 4 then 1 else 28, flush, ttl)
            && end + 10 + |address| <= |q.b| && U16At(q.b, end + 8) == |address|
            && q.b[end + 10..end + 10 + |address|] == address
  {
    hide Inv, Labels, ReadsName, ReadsHeader, Header, NameShape, U16At;
    var end := Labels(q.b, q.own, s, s).end;
    NamePieceReads(reverse, cap, q, s, [host, LOCAL]);
    HeaderReads(q.b, end, if |address| == 4 then TYPE_A else TYPE_AAAA, flush, ttl);
    assert [WriteRaw(address)][1..] == [];
    assert DataEnd(q, end + DATA_OFFSET, [WriteRaw(address)]) == end + DATA_OFFSET + |address|;
  }

  /** What stands in the fields of the parser. */
  lemma FieldsOf(f: Fqdn, strings: seq<text>)
    requires 2 <= |strings| <= 4 && InSlots(f, strings)
    ensures !f.invalid && !f.sub && SameText(f.domain, strings[|strings| - 1])
    ensures |strings| == 2 ==> SameText(f.host, strings[0]) && SameText(f.service, []) && SameText(f.proto, [])
    ensures |strings| == 3 ==> SameText(f.host, []) && SameText(f.service, strings[0]) && SameText(f.proto, strings[1])
    ensures |strings| == 4 ==> SameText(f.host, strings[0]) && SameText(f.service, strings[1])
                               && SameText(f.proto, strings[2])
  {
  }
}
