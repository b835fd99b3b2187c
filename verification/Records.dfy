/** Resource records (section 3.2.1 of RFC 1035): what the builders write, and the length field they patch. */
module Records {
  import opened Bytes
  import opened FqdnReader
  import opened FqdnWriter
  import opened FqdnCompression
  import opened FqdnHistory

  // Offsets behind the owner name.
  const LEN_OFFSET: nat := 8
  const DATA_OFFSET: nat := 10

  function U16At(b: seq<byte>, at: nat): nat
    requires at + 2 <= |b|
  {
    var hi: nat, lo: nat := b[at], b[at + 1];
    hi * 256 + lo
  }

  // ----- one record -----

  /** The owner name, the ten bytes behind it, and the data: raw bytes and names, in order. */
  datatype Rec = Rec(owner: seq<text>, header: seq<byte>, rdata: seq<Op>)

  /** The length the builders compute for the data: a name counts with the uint8_t it is kept in. */
  ghost function RdLength(reverse: bool, cap: nat, p: Packet, rdata: seq<Op>): nat
    requires cap + SLACK <= |p.b| && p.index <= cap
    decreases |rdata|
  {
    if rdata == [] then 0
    else
      (match rdata[0]
       case WriteName(strings) => Append(reverse, p.b, p.index, cap, strings).added % 256
       case WriteRaw(bytes) => |bytes|
       case SetU16(_, _) => 0)
      + RdLength(reverse, cap, Step(reverse, cap, p, rdata[0]), rdata[1..])
  }

  /** The packet with the owner name and the header behind it. */
  ghost function Headed(reverse: bool, cap: nat, p: Packet, owner: seq<text>, header: seq<byte>): (r: Packet)
    requires cap + SLACK <= |p.b| && p.index <= cap
    ensures |r.b| == |p.b| && r.index <= cap
  {
    Step(reverse, cap, Step(reverse, cap, p, WriteName(owner)), WriteRaw(header))
  }

  /** Owner name, header, data, and the length patched into the header. */
  ghost function PutRecord(reverse: bool, cap: nat, p: Packet, rec: Rec): (r: Packet)
    requires cap + SLACK <= |p.b| && p.index <= cap
    ensures |r.b| == |p.b| && r.index <= cap
  {
    var h := Headed(reverse, cap, p, rec.owner, rec.header);
    var d := Run(reverse, cap, h, rec.rdata);
    if h.index < 2 then d else Step(reverse, cap, d, SetU16(h.index - 2, RdLength(reverse, cap, h, rec.rdata)))
  }

  /** The number of bytes a builder reports for a record. */
  ghost function Reported(reverse: bool, cap: nat, p: Packet, rec: Rec): nat
    requires cap + SLACK <= |p.b| && p.index <= cap
  {
    Append(reverse, p.b, p.index, cap, rec.owner).added % 256 + DATA_OFFSET
    + RdLength(reverse, cap, Headed(reverse, cap, p, rec.owner, rec.header), rec.rdata)
  }

  /** A name call that is recorded. */
  ghost predicate GoodName(reverse: bool, cap: nat, p: Packet, strings: seq<text>)
    requires cap + SLACK <= |p.b| && p.index <= cap
  {
    Plain(strings) && Recordable(p, Append(reverse, p.b, p.index, cap, strings))
  }

  /** Every name of the data is recorded, and all of it has room. */
  ghost predicate GoodData(reverse: bool, cap: nat, p: Packet, rdata: seq<Op>)
    requires cap + SLACK <= |p.b| && p.index <= cap
    decreases |rdata|
  {
    rdata == [] ||
    (&& (match rdata[0]
         case WriteName(strings) => GoodName(reverse, cap, p, strings)
         case WriteRaw(bytes) => p.index + |bytes| <= cap
         case SetU16(_, _) => false)
     && GoodData(reverse, cap, Step(reverse, cap, p, rdata[0]), rdata[1..]))
  }

  ghost predicate GoodRecord(reverse: bool, cap: nat, p: Packet, rec: Rec)
    requires cap + SLACK <= |p.b| && p.index <= cap
  {
    && |rec.header| == DATA_OFFSET && GoodName(reverse, cap, p, rec.owner)
    && Step(reverse, cap, p, WriteName(rec.owner)).index + DATA_OFFSET <= cap
    && GoodData(reverse, cap, Headed(reverse, cap, p, rec.owner, rec.header), rec.rdata)
  }

  /** No name of the data takes 256 bytes or more. */
  ghost predicate ShortNames(reverse: bool, cap: nat, p: Packet, rdata: seq<Op>)
    requires cap + SLACK <= |p.b| && p.index <= cap
    decreases |rdata|
  {
    rdata == [] ||
    (&& (rdata[0].WriteName? ==> Append(reverse, p.b, p.index, cap, rdata[0].strings).added < 256)
     && ShortNames(reverse, cap, Step(reverse, cap, p, rdata[0]), rdata[1..]))
  }

  /** The bytes from lo to p's write position, and which of them belong to names, are as they were. */
  ghost predicate Kept(lo: nat, p: Packet, p': Packet) {
    && |p'.b| == |p.b| && p.index <= p'.index
    && forall j | lo <= j < p.index && j < |p.b| :: p'.b[j] == p.b[j] && (j in p'.own <==> j in p.own)
  }

  /** What the writer reports for a recorded name is what it added. */
  lemma NameAdds(reverse: bool, cap: nat, p: Packet, strings: seq<text>)
    requires Inv(p, cap) && GoodName(reverse, cap, p, strings)
    ensures var o := Append(reverse, p.b, p.index, cap, strings);
            && o.added == o.index - p.index > 0
            && Step(reverse, cap, p, WriteName(strings))
               == Packet(o.b, o.index, p.own + Span(p.index, o.index), p.names[p.index := strings])
            && Labels(o.b, p.own + Span(p.index, o.index), p.index, p.index).Decoded?
            && Labels(o.b, p.own + Span(p.index, o.index), p.index, p.index).end == o.index
  {
    hide Append, Labels, Tight;
    var o := Append(reverse, p.b, p.index, cap, strings);
    AppendDecodes(reverse, p.b, p.own, p.own + Span(p.index, o.index), p.index, p.index, cap, strings, o);
  }

  lemma StepFront(reverse: bool, cap: nat, p: Packet, op: Op)
    requires Inv(p, cap) && !op.SetU16?
    ensures Kept(0, p, Step(reverse, cap, p, op))
  {
    hide Append, Labels, Recordable, NameHolds;
    if op.WriteName? {
      AppendFrame(reverse, p.b, p.index, cap, op.strings);
    }
  }

  lemma RawAdds(reverse: bool, cap: nat, p: Packet, bytes: seq<byte>)
    requires cap + SLACK <= |p.b| && p.index + |bytes| <= cap
    ensures var q := Step(reverse, cap, p, WriteRaw(bytes));
            q.index == p.index + |bytes| && q.b == Put(p.b, p.index, bytes) && q.own == p.own && q.names == p.names
  {
    hide Append;
  }

  lemma ExtendsItself(p: Packet)
    ensures Extends(p, p)
  {
    hide Labels;
  }

  lemma ExtendsTwice(p: Packet, q: Packet, r: Packet)
    requires Extends(p, q) && Extends(q, r)
    ensures Extends(p, r)
  {
    hide Labels;
  }

  lemma KeptTwice(lo: nat, p: Packet, q: Packet, r: Packet)
    ensures Kept(lo, p, p)
    ensures Kept(lo, p, q) && Kept(lo, q, r) ==> Kept(lo, p, r)
  {
  }

  /** One piece of record data, and what the builder counts for it. */
  lemma DataStep(reverse: bool, cap: nat, p: Packet, op: Op)
    requires Inv(p, cap) && GoodData(reverse, cap, p, [op])
    ensures var q := Step(reverse, cap, p, op);
            && Inv(q, cap) && Extends(p, q) && Kept(0, p, q) && Allowed(p, op)
            && q.index - p.index == if op.WriteName? then Append(reverse, p.b, p.index, cap, op.strings).added
               else |op.bytes|
  {
    hide Append, Labels, Step, Recordable, Plain, NameHolds;
    StepKeeps(reverse, cap, p, op);
    StepFront(reverse, cap, p, op);
    if op.WriteName? {
      NameAdds(reverse, cap, p, op.strings);
    } else {
      RawAdds(reverse, cap, p, op.bytes);
    }
  }

  /**
   Data whose names respect the 255 byte limit of section 2.3.4 of RFC 1035 is always short. Four
   labels of 63 bytes are over it: written without a back-pointer they count as one byte.
   */
  lemma {:induction false} LegalNamesAreShort(reverse: bool, cap: nat, p: Packet, rdata: seq<Op>)
    requires Inv(p, cap) && GoodData(reverse, cap, p, rdata)
    requires forall i | 0 <= i < |rdata| && rdata[i].WriteName? :: WireLength(rdata[i].strings) <= 255
    ensures ShortNames(reverse, cap, p, rdata)
    decreases |rdata|
  {
    hide Append, Labels, Step, Tight, NameHolds, WireLength;
    if rdata != [] {
      DataStep(reverse, cap, p, rdata[0]);
      LegalNamesAreShort(reverse, cap, Step(reverse, cap, p, rdata[0]), rdata[1..]);
      if rdata[0].WriteName? {
        NameLength(reverse, cap, p.b, p.index, rdata[0].strings);
      }
    }
  }

  lemma OneName(reverse: bool, cap: nat, h: Packet, strings: seq<text>)
    requires cap + SLACK <= |h.b| && h.index <= cap
    ensures Run(reverse, cap, h, [WriteName(strings)]) == Step(reverse, cap, h, WriteName(strings))
    ensures RdLength(reverse, cap, h, [WriteName(strings)]) == Append(reverse, h.b, h.index, cap, strings).added % 256
  {
    hide Append, Step;
    var ops := [WriteName(strings)];
    var h1 := Step(reverse, cap, h, WriteName(strings));
    assert ops[1..] == [];
    assert Run(reverse, cap, h1, []) == h1 && RdLength(reverse, cap, h1, []) == 0;
  }

  lemma OneRaw(reverse: bool, cap: nat, h: Packet, bytes: seq<byte>)
    requires cap + SLACK <= |h.b| && h.index <= cap
    ensures Run(reverse, cap, h, [WriteRaw(bytes)]) == Step(reverse, cap, h, WriteRaw(bytes))
    ensures RdLength(reverse, cap, h, [WriteRaw(bytes)]) == |bytes|
  {
    hide Step;
    var ops := [WriteRaw(bytes)];
    var h1 := Step(reverse, cap, h, WriteRaw(bytes));
    assert ops[1..] == [];
    assert Run(reverse, cap, h1, []) == h1 && RdLength(reverse, cap, h1, []) == 0;
  }

  lemma RawThenName(reverse: bool, cap: nat, h: Packet, bytes: seq<byte>, strings: seq<text>)
    requires cap + SLACK <= |h.b| && h.index <= cap
    ensures var h1 := Step(reverse, cap, h, WriteRaw(bytes));
            && Run(reverse, cap, h, [WriteRaw(bytes), WriteName(strings)]) == Step(reverse, cap, h1, WriteName(strings))
            && RdLength(reverse, cap, h, [WriteRaw(bytes), WriteName(strings)])
               == |bytes| + Append(reverse, h1.b, h1.index, cap, strings).added % 256
  {
    hide Append, Step;
    var ops := [WriteRaw(bytes), WriteName(strings)];
    assert ops[1..] == [WriteName(strings)];
    OneName(reverse, cap, Step(reverse, cap, h, WriteRaw(bytes)), strings);
  }

  /**
   The data of a record: everything in front of it is kept, and the computed length is never more
   than the bytes written, and equal to them if and only if every name in it is short.
   */
  lemma {:induction false} DataLength(reverse: bool, cap: nat, p: Packet, rdata: seq<Op>)
    requires Inv(p, cap) && GoodData(reverse, cap, p, rdata)
    ensures GoodRun(reverse, cap, p, rdata)
    ensures var r := Run(reverse, cap, p, rdata);
            && Inv(r, cap) && Extends(p, r) && Kept(0, p, r)
            && RdLength(reverse, cap, p, rdata) <= r.index - p.index
            && (RdLength(reverse, cap, p, rdata) == r.index - p.index <==> ShortNames(reverse, cap, p, rdata))
    decreases |rdata|
  {
    hide Append, Labels, Step, Recordable, NameHolds, Extends, Kept, Plain;
    if rdata == [] {
      ExtendsItself(p);
      KeptTwice(0, p, p, p);
    } else {
      var p1 := Step(reverse, cap, p, rdata[0]);
      DataStep(reverse, cap, p, rdata[0]);
      DataLength(reverse, cap, p1, rdata[1..]);
      ExtendsTwice(p, p1, Run(reverse, cap, p1, rdata[1..]));
      KeptTwice(0, p, p1, Run(reverse, cap, p1, rdata[1..]));
    }
  }

  // ----- framing -----

  /** A record from s to e: its owner name is recorded, and its length field says where it ends. */
  ghost predicate Framed(p: Packet, s: nat, e: nat) {
    && s in p.names && Labels(p.b, p.own, s, s).Decoded?
    && var end := Labels(p.b, p.own, s, s).end;
       end + DATA_OFFSET <= e <= p.index && e <= |p.b| && U16At(p.b, end + LEN_OFFSET) == e - (end + DATA_OFFSET)
  }

  /** The owner and the header of a record. */
  lemma HeadedKeeps(reverse: bool, cap: nat, p: Packet, rec: Rec)
    requires Inv(p, cap) && GoodRecord(reverse, cap, p, rec)
    ensures var h := Headed(reverse, cap, p, rec.owner, rec.header);
            && Inv(h, cap) && Extends(p, h) && Kept(0, p, h)
            && p.index in h.names && h.names[p.index] == rec.owner
            && Labels(h.b, h.own, p.index, p.index).Decoded?
            && Labels(h.b, h.own, p.index, p.index).end + DATA_OFFSET == h.index
            && h.index - p.index == Append(reverse, p.b, p.index, cap, rec.owner).added + DATA_OFFSET
            && h.index - 1 !in h.own && h.index - 2 !in h.own
  {
    hide Append, Labels, Step, Recordable, Plain, NameHolds, GoodData;
    var op := WriteName(rec.owner);
    var p1 := Step(reverse, cap, p, op);
    NameAdds(reverse, cap, p, rec.owner);
    WriteNameKeeps(reverse, cap, p, rec.owner);
    StepFront(reverse, cap, p, op);
    RawAdds(reverse, cap, p1, rec.header);
    StepKeeps(reverse, cap, p1, WriteRaw(rec.header));
    StepFront(reverse, cap, p1, WriteRaw(rec.header));
  }

  /** A patched 16-bit field outside the names. */
  lemma Patched(reverse: bool, cap: nat, p: Packet, at: nat, value: nat)
    requires Inv(p, cap) && at + 2 <= p.index && at !in p.own && at + 1 !in p.own && value < 0x10000
    ensures var q := Step(reverse, cap, p, SetU16(at, value));
            && Inv(q, cap) && Extends(p, q) && q.index == p.index && q.own == p.own
            && U16At(q.b, at) == value
            && forall j | 0 <= j < |p.b| && j != at && j != at + 1 :: q.b[j] == p.b[j]
  {
    hide Labels, NameHolds, Append, Recordable;
    StepKeeps(reverse, cap, p, SetU16(at, value));
    assert value / 256 % 256 == value / 256;
  }

  /** The field that is patched last lies behind the bytes in front of the record. */
  lemma RecordKeeps(reverse: bool, cap: nat, p: Packet, rec: Rec)
    requires Inv(p, cap) && GoodRecord(reverse, cap, p, rec)
    ensures var h := Headed(reverse, cap, p, rec.owner, rec.header);
            var d := Run(reverse, cap, h, rec.rdata);
            var n := RdLength(reverse, cap, h, rec.rdata);
            var q := PutRecord(reverse, cap, p, rec);
            && Inv(q, cap) && Extends(p, q) && Extends(h, q) && Kept(0, p, q) && q.index == d.index
            && h.index >= 2 && U16At(q.b, h.index - 2) == n <= d.index - h.index
            && (n == d.index - h.index <==> ShortNames(reverse, cap, h, rec.rdata))
  {
    hide Append, Labels, Step, Recordable, Plain, NameHolds, GoodData, ShortNames, RdLength, Run, Headed, GoodRun,
         Extends;
    var h := Headed(reverse, cap, p, rec.owner, rec.header);
    HeadedKeeps(reverse, cap, p, rec);
    assert GoodData(reverse, cap, h, rec.rdata);
    DataLength(reverse, cap, h, rec.rdata);
    var d := Run(reverse, cap, h, rec.rdata);
    var n := RdLength(reverse, cap, h, rec.rdata);
    Patched(reverse, cap, d, h.index - 2, n);
    var q := Step(reverse, cap, d, SetU16(h.index - 2, n));
    ExtendsTwice(h, d, q);
    ExtendsTwice(p, h, q);
  }

  /**
   A record whose names are recorded keeps every earlier name, byte and length field. It starts
   with its owner, the builder's count and the length field never exceed the bytes written, and
   the record is framed, that is, its length field equals the bytes that follow it, if and only
   if every name in its data takes fewer than 256 bytes.
   */
  lemma RecordIsFramed(reverse: bool, cap: nat, p: Packet, rec: Rec)
    requires Inv(p, cap) && GoodRecord(reverse, cap, p, rec)
    ensures var q := PutRecord(reverse, cap, p, rec);
            && Inv(q, cap) && Extends(p, q) && Kept(0, p, q) && q.index > p.index
            && p.index in q.names && q.names[p.index] == rec.owner
            && (Framed(q, p.index, q.index)
                <==> ShortNames(reverse, cap, Headed(reverse, cap, p, rec.owner, rec.header), rec.rdata))
            && (Reported(reverse, cap, p, rec) == q.index - p.index
                <==> Append(reverse, p.b, p.index, cap, rec.owner).added < 256
                     && ShortNames(reverse, cap, Headed(reverse, cap, p, rec.owner, rec.header), rec.rdata))
  {
    hide Append, Labels, Step, Recordable, Plain, NameHolds, GoodData, ShortNames, RdLength, Run, Headed, GoodRun,
         PutRecord;
    RecordKeeps(reverse, cap, p, rec);
    HeadedKeeps(reverse, cap, p, rec);
  }

  // ----- names in a domain -----

  /** The name ends in one of the two domains the responder knows, whatever its case. */
  predicate InDomain(strings: seq<text>) {
    strings != [] && (SameText(strings[|strings| - 1], LOCAL) || SameText(strings[|strings| - 1], ARPA))
  }

  /** Every name of the record ends in a domain. */
  predicate NamesInDomain(rec: Rec) {
    InDomain(rec.owner) && forall i | 0 <= i < |rec.rdata| && rec.rdata[i].WriteName? :: InDomain(rec.rdata[i].strings)
  }

  lemma {:induction false} WireBound(strings: seq<text>)
    requires Writable(strings)
    ensures WireLength(strings) <= 1 + 64 * |strings|
    decreases |strings|
  {
    if strings != [] {
      WireBound(strings[1..]);
    }
  }

  lemma {:induction false} WireSnoc(init: seq<text>, last: text)
    ensures WireLength(init + [last]) == WireLength(init) + 1 + |last|
    decreases |init|
  {
    if init == [] {
      assert ([] + [last])[1..] == [];
    } else {
      assert (init + [last])[1..] == init[1..] + [last];
      WireSnoc(init[1..], last);
    }
  }

  /** A name of at most four labels in a domain takes at most 199 bytes. */
  lemma {:induction false} DomainNameIsShort(strings: seq<text>)
    requires Plain(strings) && InDomain(strings)
    ensures WireLength(strings) <= 199
  {
    hide WireLength;
    var n := |strings| - 1;
    assert strings == strings[..n] + [strings[n]];
    WireSnoc(strings[..n], strings[n]);
    WireBound(strings[..n]);
  }

  /** Every name in good data is plain. */
  lemma {:induction false} GoodNamesArePlain(reverse: bool, cap: nat, p: Packet, rdata: seq<Op>, i: nat)
    requires cap + SLACK <= |p.b| && p.index <= cap && GoodData(reverse, cap, p, rdata)
    requires i < |rdata| && rdata[i].WriteName?
    ensures Plain(rdata[i].strings)
    decreases |rdata|
  {
    hide Append, Step, Recordable, Plain;
    if i > 0 {
      GoodNamesArePlain(reverse, cap, Step(reverse, cap, p, rdata[0]), rdata[1..], i - 1);
    }
  }

  lemma {:induction false} DomainRecordIsShort(reverse: bool, cap: nat, p: Packet, rec: Rec)
    requires Inv(p, cap) && GoodRecord(reverse, cap, p, rec) && NamesInDomain(rec)
    ensures ShortNames(reverse, cap, Headed(reverse, cap, p, rec.owner, rec.header), rec.rdata)
    ensures Append(reverse, p.b, p.index, cap, rec.owner).added <= 199
  {
    hide Append, Labels, Tight, Headed, ShortNames, Plain, InDomain, WireLength;
    var h := Headed(reverse, cap, p, rec.owner, rec.header);
    HeadedKeeps(reverse, cap, p, rec);
    DomainNameIsShort(rec.owner);
    OwnerAdds(reverse, cap, p, rec.owner);
    forall i | 0 <= i < |rec.rdata| && rec.rdata[i].WriteName?
      ensures WireLength(rec.rdata[i].strings) <= 255
    {
      GoodNamesArePlain(reverse, cap, h, rec.rdata, i);
      DomainNameIsShort(rec.rdata[i].strings);
    }
    LegalNamesAreShort(reverse, cap, h, rec.rdata);
  }

  lemma OwnerAdds(reverse: bool, cap: nat, p: Packet, strings: seq<text>)
    requires Inv(p, cap) && GoodName(reverse, cap, p, strings)
    ensures Append(reverse, p.b, p.index, cap, strings).added <= WireLength(strings)
  {
    hide Append, Labels, Tight, WireLength;
    NameLength(reverse, cap, p.b, p.index, strings);
  }

  /** Every record whose names are recorded and end in a domain is framed, and its size is reported exactly. */
  lemma {:induction false} DomainRecordIsExact(reverse: bool, cap: nat, p: Packet, rec: Rec)
    requires Inv(p, cap) && GoodRecord(reverse, cap, p, rec) && NamesInDomain(rec)
    ensures var q := PutRecord(reverse, cap, p, rec);
            && Inv(q, cap) && Extends(p, q) && Kept(0, p, q)
            && p.index in q.names && q.names[p.index] == rec.owner
            && Framed(q, p.index, q.index) && Reported(reverse, cap, p, rec) == q.index - p.index > 0
  {
    hide Append, Labels, Headed, ShortNames, PutRecord, GoodRecord, Inv, Extends, Kept, Framed, Reported;
    DomainRecordIsShort(reverse, cap, p, rec);
    RecordIsFramed(reverse, cap, p, rec);
  }
}
