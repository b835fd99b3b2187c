/** The record builders of the responder, as methods over the packet buffer. */
module RecordBuilders {
  import opened Bytes
  import opened FqdnReader
  import opened FqdnWriter
  import opened FqdnHistory
  import opened TxtCodec
  import opened Records

  const TYPE_A: nat := 1
  const TYPE_PTR: nat := 12
  const TYPE_TXT: nat := 16
  const TYPE_AAAA: nat := 28
  const TYPE_SRV: nat := 33

  /** Type, class, time to live, and a length that is still zero. */
  function Header(rtype: nat, flush: bool, ttl: nat): (r: seq<byte>)
    ensures |r| == DATA_OFFSET
  {
    U16Bytes(rtype) + U16Bytes(if flush then 0x8001 else 1) + U16Bytes(ttl / 0x10000) + U16Bytes(ttl % 0x10000) + [0, 0]
  }

  datatype Maybe = Absent | Present(value: text)

  function HostNames(host: text): seq<text> { [host, LOCAL] }
  function TypeNames(service: text, proto: text): seq<text> { [service, proto, LOCAL] }
  function InstanceNames(instance: text, service: text, proto: text): seq<text> { [instance, service, proto, LOCAL] }

  function SubtypeNames(subtype: text, service: text, proto: text): seq<text> { [subtype, SUB, service, proto, LOCAL] }

  /** "_services._dns-sd._udp.local" (section 9 of RFC 6763). */
  const DNS_SD: seq<text> := [
    [95, 115, 101, 114, 118, 105, 99, 101, 115], [95, 100, 110, 115, 45, 115, 100], [95, 117, 100, 112], LOCAL]

  function PointerRecord(owner: seq<text>, names: seq<text>, flush: bool, ttl: nat): Rec {
    Rec(owner, Header(TYPE_PTR, flush, ttl), [WriteName(names)])
  }

  function PtrRecord(instance: text, service: text, proto: text, ttl: nat): Rec {
    PointerRecord(TypeNames(service, proto), InstanceNames(instance, service, proto), false, ttl)
  }

  /** The record that enumerates service types: it points to the type. */
  function SdPtrRecord(service: text, proto: text, flush: bool, ttl: nat): Rec {
    PointerRecord(DNS_SD, TypeNames(service, proto), flush, ttl)
  }

  /** The record of a subtype, whose owner has five labels. */
  function SubtypeRecord(instance: text, subtype: text, service: text, proto: text, ttl: nat): Rec {
    PointerRecord(SubtypeNames(subtype, service, proto), InstanceNames(instance, service, proto), false, ttl)
  }

  function TxtRecord(instance: text, service: text, proto: text, items: seq<Item>, flush: bool, ttl: nat): Rec {
    Rec(InstanceNames(instance, service, proto), Header(TYPE_TXT, flush, ttl), [WriteRaw(Encode(items))])
  }

  function SrvFields(f: Fields): (r: seq<byte>)
    ensures |r| == 6
  {
    U16Bytes(f.priority) + U16Bytes(f.weight) + U16Bytes(f.port)
  }

  function SrvRecord(instance: text, service: text, proto: text, f: Fields, host: text, flush: bool, ttl: nat): Rec {
    Rec(InstanceNames(instance, service, proto), Header(TYPE_SRV, flush, ttl),
        [WriteRaw(SrvFields(f)), WriteName(HostNames(host))])
  }

  function AddressRecord(host: text, address: seq<byte>, flush: bool, ttl: nat): Rec {
    Rec(HostNames(host), Header(if |address| == 4 then TYPE_A else TYPE_AAAA, flush, ttl), [WriteRaw(address)])
  }

  /** Owner and header go out: the writer's count is not 0 as a uint8_t, and the header has room. */
  ghost predicate HeadFits(reverse: bool, cap: nat, p: Packet, owner: seq<text>)
    requires cap + SLACK <= |p.b| && p.index <= cap
  {
    var o := Append(reverse, p.b, p.index, cap, owner);
    o.added % 256 != 0 && o.index + DATA_OFFSET < cap
  }

  /** A name is counted: what the writer reports is not 0 as a uint8_t. */
  ghost predicate Counted(reverse: bool, cap: nat, p: Packet, strings: seq<text>)
    requires cap + SLACK <= |p.b| && p.index <= cap
  {
    Append(reverse, p.b, p.index, cap, strings).added % 256 != 0
  }

  // ----- when a record is written, and what an append leaves if it is not -----

  ghost predicate PointerFits(reverse: bool, cap: nat, p: Packet, rec: Rec, names: seq<text>)
    requires cap + SLACK <= |p.b| && p.index <= cap
  {
    && HeadFits(reverse, cap, p, rec.owner)
    && Counted(reverse, cap, Headed(reverse, cap, p, rec.owner, rec.header), names)
  }

  ghost predicate TxtFits(reverse: bool, cap: nat, p: Packet, rec: Rec, items: seq<Item>)
    requires cap + SLACK <= |p.b| && p.index <= cap
  {
    && HeadFits(reverse, cap, p, rec.owner)
    && (items == [] || Headed(reverse, cap, p, rec.owner, rec.header).index + |Encode(items)| < cap)
  }

  ghost predicate SrvFits(reverse: bool, cap: nat, p: Packet, rec: Rec, fields: Fields, host: text)
    requires cap + SLACK <= |p.b| && p.index <= cap
  {
    var h := Headed(reverse, cap, p, rec.owner, rec.header);
    && HeadFits(reverse, cap, p, rec.owner) && h.index + 5 < cap && host != []
    && Counted(reverse, cap, WithFields(reverse, cap, h, fields), HostNames(host))
  }

  ghost predicate AddressFits(reverse: bool, cap: nat, p: Packet, rec: Rec, address: seq<byte>)
    requires cap + SLACK <= |p.b| && p.index <= cap
  {
    && HeadFits(reverse, cap, p, rec.owner)
    && Headed(reverse, cap, p, rec.owner, rec.header).index + |address| <= cap
  }

  /** Owner and header, or the owner alone, as much of it as was written. */
  ghost function OwnerLeft(reverse: bool, cap: nat, p: Packet, rec: Rec): (r: Packet)
    requires cap + SLACK <= |p.b| && p.index <= cap
    ensures |r.b| == |p.b| && r.index <= cap
  {
    if HeadFits(reverse, cap, p, rec.owner) then Headed(reverse, cap, p, rec.owner, rec.header)
    else Step(reverse, cap, p, WriteName(rec.owner))
  }

  ghost function PointerLeft(reverse: bool, cap: nat, p: Packet, rec: Rec, names: seq<text>): (r: Packet)
    requires cap + SLACK <= |p.b| && p.index <= cap
    ensures |r.b| == |p.b| && r.index <= cap
  {
    if PointerFits(reverse, cap, p, rec, names) then PutRecord(reverse, cap, p, rec)
    else if !HeadFits(reverse, cap, p, rec.owner) then OwnerLeft(reverse, cap, p, rec)
    else Step(reverse, cap, OwnerLeft(reverse, cap, p, rec), WriteName(names))
  }

  ghost function TxtLeft(reverse: bool, cap: nat, p: Packet, rec: Rec, items: seq<Item>): (r: Packet)
    requires cap + SLACK <= |p.b| && p.index <= cap
    ensures |r.b| == |p.b| && r.index <= cap
  {
    if TxtFits(reverse, cap, p, rec, items) then PutRecord(reverse, cap, p, rec)
    else if !HeadFits(reverse, cap, p, rec.owner) then OwnerLeft(reverse, cap, p, rec)
    else
      var h := OwnerLeft(reverse, cap, p, rec);
      Step(reverse, cap, h, WriteRaw(DataLeft(h.index, cap, items)))
  }

  /** Priority, weight and port. */
  datatype Fields = Fields(priority: nat, weight: nat, port: nat)

  /** The three fields, each only if it has room. */
  ghost function WithFields(reverse: bool, cap: nat, h: Packet, f: Fields): (r: Packet)
    requires cap + SLACK <= |h.b| && h.index <= cap
    ensures |r.b| == |h.b| && r.index <= cap
  {
    var h1 := Step(reverse, cap, h, WriteRaw(U16Bytes(f.priority)));
    Step(reverse, cap, Step(reverse, cap, h1, WriteRaw(U16Bytes(f.weight))), WriteRaw(U16Bytes(f.port)))
  }

  ghost function SrvLeft(reverse: bool, cap: nat, p: Packet, rec: Rec, f: Fields, host: text): (r: Packet)
    requires cap + SLACK <= |p.b| && p.index <= cap
    ensures |r.b| == |p.b| && r.index <= cap
  {
    if SrvFits(reverse, cap, p, rec, f, host) then PutRecord(reverse, cap, p, rec)
    else if !HeadFits(reverse, cap, p, rec.owner) then OwnerLeft(reverse, cap, p, rec)
    else
      var h := OwnerLeft(reverse, cap, p, rec);
      var h1 := WithFields(reverse, cap, h, f);
      if h.index + 5 >= cap || host == [] then h1 else Step(reverse, cap, h1, WriteName(HostNames(host)))
  }

  ghost function AddressLeft(reverse: bool, cap: nat, p: Packet, rec: Rec, address: seq<byte>): (r: Packet)
    requires cap + SLACK <= |p.b| && p.index <= cap
    ensures |r.b| == |p.b| && r.index <= cap
  {
    if AddressFits(reverse, cap, p, rec, address) then PutRecord(reverse, cap, p, rec)
    else OwnerLeft(reverse, cap, p, rec)
  }

  /** The buffer and the write position are those of the packet. */
  ghost predicate Leaves(q: Packet, b: seq<byte>, index: nat) {
    b == q.b && index == q.index
  }

  method AppendU16(packet: array<byte>, index: nat, cap: nat, value: nat) returns (index': nat, added: nat)
    requires cap + SLACK <= packet.Length && index <= cap
    modifies packet
    ensures index + 1 >= cap ==> index' == index && added == 0 && packet[..] == old(packet[..])
    ensures index + 1 < cap ==>
              index' == index + 2 && added == 2 && packet[..] == Put(old(packet[..]), index, U16Bytes(value))
  {
    if index + 1 >= cap {
      return index, 0;
    }
    Copy(packet, index, U16Bytes(value));
    return index + 2, 2;
  }

  /** Type, class, time to live and an empty length; 0 if they do not fit. */
  method AppendType(packet: array<byte>, index: nat, cap: nat, rtype: nat, flush: bool, ttl: nat)
    returns (index': nat, added: nat)
    requires cap + SLACK <= packet.Length && index <= cap
    modifies packet
    ensures index + DATA_OFFSET >= cap ==> index' == index && added == 0 && packet[..] == old(packet[..])
    ensures index + DATA_OFFSET < cap ==> index' == index + DATA_OFFSET && added == DATA_OFFSET
                                          && packet[..] == Put(old(packet[..]), index, Header(rtype, flush, ttl))
  {
    if index + DATA_OFFSET >= cap {
      return index, 0;
    }
    Copy(packet, index, Header(rtype, flush, ttl));
    return index + DATA_OFFSET, DATA_OFFSET;
  }

  /** Patch a 16-bit field. */
  method SetField(packet: array<byte>, cap: nat, at: nat, value: nat)
    requires cap + SLACK <= packet.Length
    modifies packet
    ensures packet[..] == if at + 1 >= cap then old(packet[..]) else Put(old(packet[..]), at, U16Bytes(value))
  {
    if at + 1 >= cap {
      return;
    }
    Copy(packet, at, U16Bytes(value));
  }

  /** What one step does to the buffer and the write position. */
  lemma StepWrites(reverse: bool, cap: nat, p: Packet, op: Op)
    requires cap + SLACK <= |p.b| && p.index <= cap
    ensures var q := Step(reverse, cap, p, op);
            && (op.WriteName? ==> q.b == Append(reverse, p.b, p.index, cap, op.strings).b
                                  && q.index == Append(reverse, p.b, p.index, cap, op.strings).index)
            && (op.WriteRaw? && p.index + |op.bytes| <= cap ==>
                  q.b == Put(p.b, p.index, op.bytes) && q.index == p.index + |op.bytes|)
            && (op.WriteRaw? && p.index + |op.bytes| > cap ==> q == p)
            && (op.SetU16? ==> q.index == p.index && q.b == if op.at + 1 >= cap then p.b
                else Put(p.b, op.at, U16Bytes(op.value)))
  {
    hide Append, Plain, Recordable;
  }

  /** Owner name and header; 0 if either does not fit. */
  method AppendOwner(reverse: bool, packet: array<byte>, index: nat, cap: nat, owner: seq<text>, rtype: nat,
                     flush: bool, ttl: nat, ghost p: Packet, ghost rec: Rec)
    returns (index': nat, added: nat)
    requires cap + SLACK <= packet.Length && index <= cap
    requires Leaves(p, packet[..], index) && rec.owner == owner && rec.header == Header(rtype, flush, ttl)
    modifies packet
    ensures Leaves(OwnerLeft(reverse, cap, p, rec), packet[..], index')
    ensures added > 0 <==> HeadFits(reverse, cap, p, owner)
    ensures added > 0 ==> index + DATA_OFFSET <= index' < cap
                          && added == Append(reverse, p.b, index, cap, owner).added % 256 + DATA_OFFSET
  {
    hide Append, Header, Plain, Recordable, Put;
    StepWrites(reverse, cap, p, WriteName(owner));
    var n, m;
    index', n := AppendFqdn(reverse, packet, index, cap, owner);
    if n % 256 == 0 {
      return index', 0;
    }
    index', m := AppendType(packet, index', cap, rtype, flush, ttl);
    if m == 0 {
      return index', 0;
    }
    added := n % 256 + m;
  }

  /** The name that ends a record, and the length field patched: 0 if the name's count is 0 as a uint8_t. */
  method AppendLastName(reverse: bool, packet: array<byte>, index: nat, cap: nat, strings: seq<text>, lenAt: nat,
                        before: nat, ghost h: Packet)
    returns (index': nat, n: nat)
    requires cap + SLACK <= packet.Length && index <= cap && Leaves(h, packet[..], index)
    modifies packet
    ensures n == Append(reverse, h.b, index, cap, strings).added % 256
    ensures var named := Step(reverse, cap, h, WriteName(strings));
            Leaves(if n == 0 then named else Step(reverse, cap, named, SetU16(lenAt, before + n)), packet[..], index')
  {
    hide Append, Step, U16Bytes, Put;
    StepWrites(reverse, cap, h, WriteName(strings));
    var part;
    index', part := AppendFqdn(reverse, packet, index, cap, strings);
    n := part % 256;
    if n == 0 {
      return;
    }
    StepWrites(reverse, cap, Step(reverse, cap, h, WriteName(strings)), SetU16(lenAt, before + n));
    SetField(packet, cap, lenAt, before + n);
  }

  /** The body that the builders of PTR records share. */
  method AppendPointerRecord(reverse: bool, packet: array<byte>, index: nat, cap: nat, owner: seq<text>,
                             names: seq<text>, flush: bool, ttl: nat, ghost p: Packet)
    returns (index': nat, added: nat)
    requires cap + SLACK <= packet.Length && index <= cap && Leaves(p, packet[..], index)
    modifies packet
    ensures Leaves(PointerLeft(reverse, cap, p, PointerRecord(owner, names, flush, ttl), names), packet[..], index')
    ensures var rec := PointerRecord(owner, names, flush, ttl);
            added == if PointerFits(reverse, cap, p, rec, names) then Reported(reverse, cap, p, rec) else 0
  {
    hide Append, Header, Headed, Step, HeadFits;
    ghost var rec := PointerRecord(owner, names, flush, ttl);
    index', added := AppendOwner(reverse, packet, index, cap, owner, TYPE_PTR, flush, ttl, p, rec);
    if added == 0 {
      return;
    }
    ghost var h := Headed(reverse, cap, p, owner, rec.header);
    OneName(reverse, cap, h, names);
    var lenAt := index' - 2;
    var n;
    index', n := AppendLastName(reverse, packet, index', cap, names, lenAt, 0, h);
    if n == 0 {
      return index', 0;
    }
    added := added + n;
  }

  method AppendPtrRecord(reverse: bool, packet: array<byte>, index: nat, cap: nat, instance: text, service: text,
                         proto: text, ttl: nat, ghost p: Packet)
    returns (index': nat, added: nat)
    requires cap + SLACK <= packet.Length && index <= cap && Leaves(p, packet[..], index)
    modifies packet
    ensures var rec, names := PtrRecord(instance, service, proto, ttl), InstanceNames(instance, service, proto);
            && Leaves(PointerLeft(reverse, cap, p, rec, names), packet[..], index')
            && added == if PointerFits(reverse, cap, p, rec, names) then Reported(reverse, cap, p, rec) else 0
  {
    hide PointerLeft, PointerFits, Reported;
    index', added := AppendPointerRecord(reverse, packet, index, cap, TypeNames(service, proto),
                                         InstanceNames(instance, service, proto), false, ttl, p);
  }

  method AppendSubtypePtrRecord(reverse: bool, packet: array<byte>, index: nat, cap: nat, instance: text,
                                subtype: text, service: text, proto: text, ttl: nat, ghost p: Packet)
    returns (index': nat, added: nat)
    requires cap + SLACK <= packet.Length && index <= cap && Leaves(p, packet[..], index)
    modifies packet
    ensures var rec := SubtypeRecord(instance, subtype, service, proto, ttl);
            var names := InstanceNames(instance, service, proto);
            && Leaves(PointerLeft(reverse, cap, p, rec, names), packet[..], index')
            && added == if PointerFits(reverse, cap, p, rec, names) then Reported(reverse, cap, p, rec) else 0
  {
    hide PointerLeft, PointerFits, Reported;
    index', added := AppendPointerRecord(reverse, packet, index, cap, SubtypeNames(subtype, service, proto),
                                         InstanceNames(instance, service, proto), false, ttl, p);
  }

  // ----- an owner that is not checked -----

  /** A name of labels of at most 9 bytes that runs out of room leaves no room for a header; otherwise it is counted. */
  lemma {:induction false} SmallNameFits(reverse: bool, b: seq<byte>, index: nat, cap: nat, strings: seq<text>)
    requires cap + SLACK <= |b| && index <= cap
    requires forall i | 0 <= i < |strings| :: 1 <= |strings[i]| <= 9
    ensures var o := Append(reverse, b, index, cap, strings);
            if o.stop.Full? then o.index + DATA_OFFSET >= cap else 0 < o.added <= 1 + 10 * |strings|
    decreases |strings|
  {
    hide Search, Put;
    if strings != [] && Search(reverse, b, index, cap, strings, 0).Nowhere? && index + |strings[0]| + 1 < cap {
      var b1 := Put(b, index, [LenByte(strings[0])] + strings[0][..LenByte(strings[0])]);
      SmallNameFits(reverse, b1, index + 1 + |strings[0]|, cap, strings[1..]);
    }
  }

  /** The builder of service type enumerations does not look whether its owner was written. It need not. */
  lemma SdOwnerNeedsNoCheck(reverse: bool, cap: nat, p: Packet)
    requires cap + SLACK <= |p.b| && p.index <= cap
    ensures var o := Append(reverse, p.b, p.index, cap, DNS_SD);
            && (HeadFits(reverse, cap, p, DNS_SD) <==> o.index + DATA_OFFSET < cap)
            && (o.index + DATA_OFFSET < cap ==> !o.stop.Full?)
  {
    hide Append;
    SmallNameFits(reverse, p.b, p.index, cap, DNS_SD);
  }

  method AppendSdPtrRecord(reverse: bool, packet: array<byte>, index: nat, cap: nat, service: text, proto: text,
                           flush: bool, ttl: nat, ghost p: Packet)
    returns (index': nat, added: nat)
    requires cap + SLACK <= packet.Length && index <= cap && Leaves(p, packet[..], index)
    modifies packet
    ensures var rec, names := SdPtrRecord(service, proto, flush, ttl), TypeNames(service, proto);
            && Leaves(PointerLeft(reverse, cap, p, rec, names), packet[..], index')
            && added == if PointerFits(reverse, cap, p, rec, names) then Reported(reverse, cap, p, rec) else 0
  {
    hide Append, Header, Plain, Recordable, Put, PutRecord, U16Bytes;
    ghost var rec, names := SdPtrRecord(service, proto, flush, ttl), TypeNames(service, proto);
    SdOwnerNeedsNoCheck(reverse, cap, p);
    StepWrites(reverse, cap, p, WriteName(DNS_SD));
    var part, n, m;
    index', part := AppendFqdn(reverse, packet, index, cap, DNS_SD);
    index', m := AppendType(packet, index', cap, TYPE_PTR, flush, ttl);
    if m == 0 {
      return index', 0;
    }
    hide Step, Headed;
    ghost var h := Headed(reverse, cap, p, DNS_SD, rec.header);
    SdHeadIsHeaded(reverse, cap, p, rec.header, packet[..], index');
    SdIsPut(reverse, cap, p, rec, names);
    var lenAt := index' - 2;
    index', n := AppendLastName(reverse, packet, index', cap, TypeNames(service, proto), lenAt, 0, h);
    if n == 0 {
      return index', 0;
    }
    added := part % 256 + m + n;
  }

  lemma SdHeadIsHeaded(reverse: bool, cap: nat, p: Packet, header: seq<byte>, b: seq<byte>, index: nat)
    requires cap + SLACK <= |p.b| && p.index <= cap && |header| == DATA_OFFSET
    requires var o := Append(reverse, p.b, p.index, cap, DNS_SD);
             o.index + DATA_OFFSET < cap && b == Put(o.b, o.index, header) && index == o.index + DATA_OFFSET
    ensures Leaves(Headed(reverse, cap, p, DNS_SD, header), b, index)
  {
    hide Append, Plain, Recordable, Put;
  }

  lemma SdIsPut(reverse: bool, cap: nat, p: Packet, rec: Rec, names: seq<text>)
    requires cap + SLACK <= |p.b| && p.index <= cap && rec.rdata == [WriteName(names)] && |rec.header| == DATA_OFFSET
    requires HeadFits(reverse, cap, p, rec.owner)
    ensures var h := Headed(reverse, cap, p, rec.owner, rec.header);
            var n := Append(reverse, h.b, h.index, cap, names).added % 256;
            && h.index >= DATA_OFFSET
            && PutRecord(reverse, cap, p, rec)
               == Step(reverse, cap, Step(reverse, cap, h, WriteName(names)), SetU16(h.index - 2, n))
            && Reported(reverse, cap, p, rec)
               == Append(reverse, p.b, p.index, cap, rec.owner).added % 256 + DATA_OFFSET + n
  {
    hide Append, Plain, Recordable, Put;
    var h := Headed(reverse, cap, p, rec.owner, rec.header);
    OneName(reverse, cap, h, names);
  }

  // ----- the other records -----

  method AppendTxtRecord(reverse: bool, packet: array<byte>, index: nat, cap: nat, instance: Maybe, service: text,
                         proto: text, items: seq<Item>, flush: bool, ttl: nat, ghost p: Packet)
    returns (index': nat, added: nat)
    requires cap + SLACK <= packet.Length && index <= cap && Leaves(p, packet[..], index)
    modifies packet
    ensures instance.Absent? ==> added == 0 && Leaves(p, packet[..], index')
    ensures instance.Present? ==>
              var rec := TxtRecord(instance.value, service, proto, items, flush, ttl);
              && Leaves(TxtLeft(reverse, cap, p, rec, items), packet[..], index')
              && added == if TxtFits(reverse, cap, p, rec, items) then Reported(reverse, cap, p, rec) else 0
  {
    hide Append, Header, Headed, Step, HeadFits, Entries, U16Bytes, Put;
    if instance.Absent? {
      return index, 0;
    }
    ghost var rec := TxtRecord(instance.value, service, proto, items, flush, ttl);
    index', added := AppendOwner(reverse, packet, index, cap, InstanceNames(instance.value, service, proto), TYPE_TXT,
                                 flush, ttl, p, rec);
    if added == 0 {
      return;
    }
    ghost var h := Headed(reverse, cap, p, rec.owner, rec.header);
    StepWrites(reverse, cap, h, WriteRaw(DataLeft(h.index, cap, items)));
    OneRaw(reverse, cap, h, Encode(items));
    var lenAt := index' - 2;
    var n;
    index', n := AppendTxtData(packet, index', cap, items);
    if n == 0 {
      return index', 0;
    }
    StepWrites(reverse, cap, Step(reverse, cap, h, rec.rdata[0]), SetU16(lenAt, n));
    SetField(packet, cap, lenAt, n);
    added := added + n;
  }

  method AppendSrvRecord(reverse: bool, packet: array<byte>, index: nat, cap: nat, instance: Maybe, service: text,
                         proto: text, f: Fields, serviceHost: Maybe, ownHost: Maybe, flush: bool, ttl: nat,
                         ghost p: Packet)
    returns (index': nat, added: nat)
    requires cap + SLACK <= packet.Length && index <= cap && Leaves(p, packet[..], index)
    modifies packet
    ensures instance.Absent? ==> added == 0 && Leaves(p, packet[..], index')
    ensures instance.Present? ==>
              var host := Text(if serviceHost.Present? then serviceHost else ownHost);
              var rec := SrvRecord(instance.value, service, proto, f, host, flush, ttl);
              && Leaves(SrvLeft(reverse, cap, p, rec, f, host), packet[..], index')
              && added == if SrvFits(reverse, cap, p, rec, f, host) then Reported(reverse, cap, p, rec) else 0
  {
    hide Append, Header, Headed, Step, HeadFits, U16Bytes, Put, SrvFields;
    if instance.Absent? {
      return index, 0;
    }
    var host := if serviceHost.Present? then serviceHost else ownHost;
    ghost var rec := SrvRecord(instance.value, service, proto, f, Text(host), flush, ttl);
    index', added := AppendOwner(reverse, packet, index, cap, InstanceNames(instance.value, service, proto), TYPE_SRV,
                                 flush, ttl, p, rec);
    if added == 0 {
      return;
    }
    ghost var h := Headed(reverse, cap, p, rec.owner, rec.header);
    var lenAt := index' - 2;
    var part;
    index', part := AppendFields(reverse, packet, index', cap, f, h);
    if part != 6 {
      return index', 0;
    }
    if host.Absent? || host.value == [] {
      return index', 0;
    }
    WholeFields(reverse, cap, h, f);
    RawThenName(reverse, cap, h, SrvFields(f), HostNames(host.value));
    var n;
    index', n := AppendLastName(reverse, packet, index', cap, HostNames(host.value), lenAt, 6,
                                WithFields(reverse, cap, h, f));
    if n == 0 {
      return index', 0;
    }
    added := added + 6 + n;
  }

  function Text(part: Maybe): text {
    match part case Absent => [] case Present(s) => s
  }

  /** Three fields that have room are one piece of six bytes. */
  lemma WholeFields(reverse: bool, cap: nat, h: Packet, f: Fields)
    requires cap + SLACK <= |h.b| && h.index + 5 < cap
    ensures WithFields(reverse, cap, h, f) == Step(reverse, cap, h, WriteRaw(SrvFields(f)))
    ensures WithFields(reverse, cap, h, f).index == h.index + 6
  {
    hide Put, U16Bytes;
    PutPut(h.b, h.index, U16Bytes(f.priority), U16Bytes(f.weight));
    PutPut(h.b, h.index, U16Bytes(f.priority) + U16Bytes(f.weight), U16Bytes(f.port));
  }

  /** Priority, weight and port: 6 bytes, or fewer if they do not fit. */
  method AppendFields(reverse: bool, packet: array<byte>, index: nat, cap: nat, f: Fields, ghost h: Packet)
    returns (index': nat, added: nat)
    requires cap + SLACK <= packet.Length && index <= cap && Leaves(h, packet[..], index)
    modifies packet
    ensures Leaves(WithFields(reverse, cap, h, f), packet[..], index') && index' == index + added
    ensures added == 6 <==> index + 5 < cap
  {
    hide U16Bytes, Put, Step;
    var n;
    StepWrites(reverse, cap, h, WriteRaw(U16Bytes(f.priority)));
    index', added := AppendU16(packet, index, cap, f.priority);
    ghost var h1 := Step(reverse, cap, h, WriteRaw(U16Bytes(f.priority)));
    StepWrites(reverse, cap, h1, WriteRaw(U16Bytes(f.weight)));
    index', n := AppendU16(packet, index', cap, f.weight);
    added := added + n;
    StepWrites(reverse, cap, Step(reverse, cap, h1, WriteRaw(U16Bytes(f.weight))), WriteRaw(U16Bytes(f.port)));
    index', n := AppendU16(packet, index', cap, f.port);
    added := added + n;
  }

  /** A and AAAA records: four or sixteen address bytes. */
  method AppendAddressRecord(reverse: bool, packet: array<byte>, index: nat, cap: nat, host: Maybe, address: seq<byte>,
                             flush: bool, ttl: nat, ghost p: Packet)
    returns (index': nat, added: nat)
    requires cap + SLACK <= packet.Length && index <= cap && Leaves(p, packet[..], index)
    requires |address| == 4 || |address| == 16
    modifies packet
    ensures Text(host) == [] ==> added == 0 && Leaves(p, packet[..], index')
    ensures Text(host) != [] ==>
              var rec := AddressRecord(host.value, address, flush, ttl);
              && Leaves(AddressLeft(reverse, cap, p, rec, address), packet[..], index')
              && added == if AddressFits(reverse, cap, p, rec, address) then Reported(reverse, cap, p, rec) else 0
  {
    hide Append, Header, Headed, Step, HeadFits, U16Bytes, Put;
    if host.Absent? || host.value == [] {
      return index, 0;
    }
    ghost var rec := AddressRecord(host.value, address, flush, ttl);
    var rtype := if |address| == 4 then TYPE_A else TYPE_AAAA;
    index', added := AppendOwner(reverse, packet, index, cap, HostNames(host.value), rtype, flush, ttl, p, rec);
    if added == 0 {
      return;
    }
    ghost var h := Headed(reverse, cap, p, rec.owner, rec.header);
    var lenAt := index' - 2;
    if index' + |address| > cap {
      return index', 0;
    }
    StepWrites(reverse, cap, h, rec.rdata[0]);
    OneRaw(reverse, cap, h, address);
    Copy(packet, index', address);
    index' := index' + |address|;
    StepWrites(reverse, cap, Step(reverse, cap, h, rec.rdata[0]), SetU16(lenAt, |address|));
    SetField(packet, cap, lenAt, |address|);
    added := added + |address|;
  }
}
