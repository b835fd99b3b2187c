/** The parser's view of names: four slots, filled from what the reader saw. */
module FqdnSlots {
  import opened Bytes
  import opened FqdnReader
  import opened FqdnWriter
  import opened FqdnCompression
  import opened FqdnHistory
  import opened FqdnSafety

  datatype Fqdn = Fqdn(host: text, service: text, proto: text, domain: text, parts: nat, sub: bool, invalid: bool)

  datatype ParseResult = Rejected | Accepted(end: nat, fqdn: Fqdn)

  function Slot(n: Name, k: nat): text {
    if k < |n.slots| then n.slots[k] else []
  }

  /** The slots after the shifts for three and two parts, and the check of the domain. */
  function Arrange(n: Name): Fqdn
    requires Sane(n)
  {
    var raw := Fqdn(Slot(n, 0), Slot(n, 1), Slot(n, 2), Slot(n, 3), |n.slots|, n.sub, n.invalid);
    if raw.parts == 0 || n.invalid then raw
    else
      var f := if raw.parts == 3 then raw.(host := [], service := raw.host, proto := raw.service, domain := raw.proto)
               else if raw.parts == 2 then raw.(domain := raw.service, service := [], proto := [])
               else raw;
      if SameText(f.domain, LOCAL) || SameText(f.domain, ARPA) then f else f.(invalid := true)
  }

  method ParseFqdn(reverse: bool, packet: array<byte>, limit: nat, start: nat) returns (r: ParseResult)
    requires limit < packet.Length
    ensures var raw := ReadFrom(reverse, packet[..], limit, start, start, EMPTY_NAME);
            r == if raw.Failed? then Rejected else Accepted(raw.end, Arrange(raw.name))
  {
    hide ReadFrom;
    var raw := ReadFqdn(reverse, packet, limit, start, EMPTY_NAME);
    if raw.Failed? {
      return Rejected;
    }
    var n := raw.name;
    var f := Fqdn(Slot(n, 0), Slot(n, 1), Slot(n, 2), Slot(n, 3), |n.slots|, n.sub, n.invalid);
    if f.parts == 0 || f.invalid {
      return Accepted(raw.end, f);
    }
    if f.parts == 3 {
      f := f.(service := f.host, proto := f.service, domain := f.proto);
      f := f.(host := []);
    } else if f.parts == 2 {
      f := f.(domain := f.service);
      f := f.(service := [], proto := []);
    }
    if !SameText(f.domain, LOCAL) && !SameText(f.domain, ARPA) {
      f := f.(invalid := true);
    }
    return Accepted(raw.end, f);
  }

  /** The three shapes of names the responder writes: host, service type, service instance. */
  ghost predicate NameShape(strings: seq<text>) {
    && Writable(strings) && NoSub(strings)
    && 2 <= |strings| <= 4 && strings[|strings| - 1] == LOCAL
    && (|strings| == 3 ==> strings[0][0] == UNDERSCORE && strings[1][0] == UNDERSCORE)
    && (|strings| == 4 ==> strings[1][0] == UNDERSCORE && strings[2][0] == UNDERSCORE)
  }

  /** Each label in its slot, up to letter case; the other slots empty; the name marked valid. */
  ghost predicate InSlots(f: Fqdn, strings: seq<text>)
    requires 2 <= |strings| <= 4
  {
    && !f.invalid && !f.sub && f.parts == |strings|
    && SameText(f.domain, strings[|strings| - 1])
    && match |strings|
       case 2 => SameText(f.host, strings[0]) && f.service == [] && f.proto == []
       case 3 => f.host == [] && SameText(f.service, strings[0]) && SameText(f.proto, strings[1])
       case _ => SameText(f.host, strings[0]) && SameText(f.service, strings[1]) && SameText(f.proto, strings[2])
  }

  /** With the second label an underscore name or the domain, every label takes its own slot. */
  lemma {:induction false} ViewOfShape(reverse: bool, n: Name, ls: seq<text>)
    requires !n.invalid && |n.slots| + |ls| <= 4
    requires AllNulFree(ls) && NoSub(ls)
    requires forall k | 0 <= k < |ls| && |n.slots| + k == 1 ::
              ls[k] != [] && (ls[k][0] == UNDERSCORE || SameText(ls[k], LOCAL))
    ensures View(reverse, n, ls) == n.(slots := n.slots + ls)
    decreases |ls|
  {
    if ls == [] {
      assert n.slots + ls == n.slots;
    } else {
      var m := Store(reverse, Mark(n), ls[0]);
      assert m == n.(slots := n.slots + [ls[0]]);
      ViewOfShape(reverse, m, ls[1..]);
      assert n.slots + [ls[0]] + ls[1..] == n.slots + ls;
    }
  }

  /**
   Print and parse: bytes that convey a name of one of the three shapes are parsed into its
   slots, and the parser stops where the name stops.
   */
  lemma SlotRoundTrip(reverse: bool, b: seq<byte>, own: set<nat>, limit: nat, start: nat, end: nat, strings: seq<text>)
    requires limit < |b| && forall j | j in own :: j < limit
    requires NameShape(strings)
    requires Conveys(b, own, start, start, end, strings) && Tight(b, own, start, start)
    ensures var raw := ReadFrom(reverse, b, limit, start, start, EMPTY_NAME);
            raw.Parsed? && raw.end == end && InSlots(Arrange(raw.name), strings)
  {
    hide ReadFrom, Labels, View, Store;
    var ls := Labels(b, own, start, start).labels;
    ReaderSeesLabels(reverse, b, own, limit, start, start, EMPTY_NAME);
    ReaderStaysValid(reverse, b, own, limit, start, start, EMPTY_NAME);
    LabelsOfShape(ls, strings);
    ViewOfShape(reverse, EMPTY_NAME, ls);
    assert [] + ls == ls;
    ArrangedInSlots(ReadFrom(reverse, b, limit, start, start, EMPTY_NAME).name, ls, strings);
  }

  lemma ArrangedInSlots(n: Name, ls: seq<text>, strings: seq<text>)
    requires Sane(n) && !n.invalid && !n.sub && n.slots == ls
    requires NameShape(strings) && SameLabels(ls, strings)
    ensures InSlots(Arrange(n), strings)
  {
    assert SameText(ls[|ls| - 1], LOCAL);
    assert SameText(ls[0], strings[0]) && SameText(ls[1], strings[1]);
    assert |ls| > 2 ==> SameText(ls[2], strings[2]);
  }

  lemma LabelsOfShape(ls: seq<text>, strings: seq<text>)
    requires NameShape(strings) && SameLabels(ls, strings)
    ensures AllNulFree(ls) && NoSub(ls)
    ensures ls[1] != [] && (ls[1][0] == UNDERSCORE || SameText(ls[1], LOCAL))
  {
    SameLabelsNulFree(ls, strings);
    forall i | 0 <= i < |ls|
      ensures !SameText(ls[i], SUB)
    {
      assert SameText(ls[i], strings[i]);
    }
    assert SameText(ls[1], strings[1]);
    assert |strings| != 2 ==> strings[1][0] == UNDERSCORE;
    if |strings| != 2 {
      assert Lower(ls[1][0]) == Lower(strings[1][0]);
    }
  }

  /** The writer's own output is parsed back into the slots, and the parser stops where the writer stopped. */
  lemma WriteThenParse(reverse: bool, b: seq<byte>, own: set<nat>, index: nat, cap: nat, strings: seq<text>, o: Out)
    requires cap + SLACK <= |b| && index <= cap <= POINTER_SPACE
    requires o == Append(reverse, b, index, cap, strings)
    requires forall j | j in own :: j < index
    requires NameShape(strings) && SoundCall(b, own, o)
    requires o.stop.Ref? ==> Tight(b, own, o.stop.at, o.stop.at)
    ensures var raw := ReadFrom(reverse, o.b, cap, index, index, EMPTY_NAME);
            raw.Parsed? && raw.end == o.index && InSlots(Arrange(raw.name), strings)
  {
    hide ReadFrom, Labels, View, Store, Append;
    var own' := own + Span(index, o.index);
    AppendDecodes(reverse, b, own, own', index, index, cap, strings, o);
    SlotRoundTrip(reverse, o.b, own', cap, index, o.index, strings);
  }

  /** In a finished packet every recorded name of one of the shapes is parsed into its slots. */
  lemma RecordedNameParses(reverse: bool, cap: nat, p: Packet, limit: nat, s: nat)
    requires Inv(p, cap) && s in p.names && NameShape(p.names[s]) && p.index <= limit <= cap
    ensures var raw := ReadFrom(reverse, p.b, limit, s, s, EMPTY_NAME);
            raw.Parsed? && raw.end == Labels(p.b, p.own, s, s).end && InSlots(Arrange(raw.name), p.names[s])
  {
    hide ReadFrom, Labels;
    assert NameHolds(p, s);
    SlotRoundTrip(reverse, p.b, p.own, limit, s, Labels(p.b, p.own, s, s).end, p.names[s]);
  }

  /** Where a name stands, spelled out in its first label, the search finds it. */
  lemma MeantIsFound(reverse: bool, b: seq<byte>, own: set<nat>, cap: nat, at: nat, strings: seq<text>)
    requires cap + SLACK <= |b| && at < cap && (forall j | j in own :: j < cap)
    requires NameShape(strings) && Stands(b, at, strings[0])
    requires var d := Labels(b, own, at, at); d.Decoded? && SameLabels(d.labels, strings)
    ensures Matches(reverse, b, cap, at, strings)
  {
    hide ReadFrom, Labels, View, NameShape;
    var ls := Labels(b, own, at, at).labels;
    ReaderSeesLabels(reverse, b, own, cap, at, at, EMPTY_NAME);
    LabelsOfShape(ls, strings);
    ShapeIsShort(strings);
    ViewOfShape(reverse, EMPTY_NAME, ls);
    assert [] + ls == ls;
    assert strings[0][..|strings[0]|] == strings[0];
    SameBack(ls, strings);
  }

  lemma ShapeIsShort(strings: seq<text>)
    requires NameShape(strings)
    ensures 2 <= |strings| <= 4 && 1 <= |strings[0]| <= MAX_LABEL
  {
  }

  lemma SameBack(xs: seq<text>, ys: seq<text>)
    requires SameLabels(xs, ys)
    ensures SameLabels(ys, xs)
  {
    forall i | 0 <= i < |ys|
      ensures SameText(ys[i], xs[i])
    {
      assert SameText(xs[i], ys[i]);
    }
  }

  /**
   A name of up to four labels in the parser's fields, for any domain: the host with its labels joined,
   the labels behind it where their number puts them, and the mark of an invalid name exactly if the last
   of them is neither "local" nor "arpa", or there is none.
   */
  lemma {:induction false} MarkedUnlessDomain(reverse: bool, b: seq<byte>, own: set<nat>, limit: nat, pos: nat,
                                              hs: seq<text>, rest: seq<text>)
    requires limit < |b| && (forall j | j in own :: j < limit)
    requires var d := Labels(b, own, pos, pos); d.Decoded? && d.tight && d.labels == hs + rest
    requires hs != [] && |hs + rest| <= 4 && AllNulFree(hs + rest) && !SameText(hs[0], SUB) && NoSub(rest)
    requires (forall i | 0 < i < |hs| :: GoesOn(reverse, hs[i])) && (rest != [] ==> !GoesOn(reverse, rest[0]))
    ensures var raw := ReadFrom(reverse, b, limit, pos, pos, EMPTY_NAME);
            && raw.Parsed?
            && var f, host := Arrange(raw.name), Cut(Dotted(hs));
               && (f.invalid <==> rest == [] || !(SameText(rest[|rest| - 1], LOCAL)
                                                  || SameText(rest[|rest| - 1], ARPA)))
               && match |rest|
                  case 0 => f.host == host && f.service == f.proto == f.domain == []
                  case 1 => f.host == host && f.service == f.proto == [] && f.domain == rest[0]
                  case 2 => f.host == [] && f.service == host && f.proto == rest[0] && f.domain == rest[1]
                  case _ => f.host == host && f.service == rest[0] && f.proto == rest[1] && f.domain == rest[2]
  {
    hide ReadFrom, Labels, GoesOn, Cut, AllNulFree, NoSub;
    assert |rest| == |hs + rest| - |hs| <= 3;
    HostIsJoined(reverse, b, own, limit, pos, hs, rest);
    ReaderStaysValid(reverse, b, own, limit, pos, pos, EMPTY_NAME);
    assert !SameText([], LOCAL) && !SameText([], ARPA);
  }
}
