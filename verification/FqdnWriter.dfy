/**
 The name writer of the mDNS responder: it replaces the longest suffix of a name that it finds
 earlier in the packet by a back-pointer, asking the lossy reader whether a candidate matches.
 */
module FqdnWriter {
  import opened Bytes
  import opened FqdnReader

  /** Offsets at and above this do not fit the 14 bits of a back-pointer. */
  const POINTER_SPACE: nat := 0x4000
  /** Bytes behind the packet buffer that the byte comparison of a candidate may touch. */
  const SLACK: nat := 256

  /** How the writer stopped: with the root label, with a back-pointer, or short of room. */
  datatype Stop = Root | Ref(at: nat) | Full

  datatype Out = Out(b: seq<byte>, index: nat, added: nat, stop: Stop)

  datatype Found = Nowhere | At(at: nat)

  function Put(b: seq<byte>, at: nat, bytes: seq<byte>): (r: seq<byte>)
    requires at + |bytes| <= |b|
    ensures |r| == |b|
    ensures forall j | 0 <= j < |b| :: r[j] == if at <= j < at + |bytes| then bytes[j - at] else b[j]
  {
    b[..at] + bytes + b[at + |bytes|..]
  }

  /** strlen, truncated to the uint8_t it is kept in. */
  function LenByte(s: text): byte { |s| % 256 }

  function RefBytes(at: nat): seq<byte> {
    [REF + at / 256 % 64, at % 256]
  }

  /** The candidate at an offset passes the byte comparison and the reader's slot comparison. */
  predicate Matches(reverse: bool, b: seq<byte>, cap: nat, at: nat, strings: seq<text>)
    requires cap + SLACK <= |b| && at < cap && strings != []
  {
    var len := LenByte(strings[0]);
    && b[at] == len
    && b[at + 1..at + 1 + len] == strings[0][..len]
    && var r := ReadFrom(reverse, b, cap, at, at, EMPTY_NAME);
       r.Parsed? && SameLabels(strings, r.name.slots)
  }

  /** The first matching offset at or after `from`. */
  function Search(reverse: bool, b: seq<byte>, index: nat, cap: nat, strings: seq<text>, from: nat): (f: Found)
    requires cap + SLACK <= |b| && index <= cap && strings != []
    ensures f.At? ==> from <= f.at < index && Matches(reverse, b, cap, f.at, strings)
    decreases index - from
  {
    if from >= index then Nowhere
    else if Matches(reverse, b, cap, from, strings) then At(from)
    else Search(reverse, b, index, cap, strings, from + 1)
  }

  function Append(reverse: bool, b: seq<byte>, index: nat, cap: nat, strings: seq<text>): (o: Out)
    requires cap + SLACK <= |b| && index <= cap
    ensures |o.b| == |b| && index <= o.index <= cap
    decreases |strings|
  {
    if strings == [] then
      if index >= cap then Out(b, index, 0, Full)
      else Out(Put(b, index, [0]), index + 1, 1, Root)
    else
      match Search(reverse, b, index, cap, strings, 0)
      case At(at) =>
        if index + 1 >= cap then Out(b, index, 0, Full)
        else Out(Put(b, index, RefBytes(at)), index + 2, 2, Ref(at))
      case Nowhere =>
        var len := LenByte(strings[0]);
        if index + len + 1 >= cap then Out(b, index, 0, Full)
        else
          var b1 := Put(b, index, [len] + strings[0][..len]);
          if len == 255 then Out(b1, index + 256, 0, Full)
          else
            var rest := Append(reverse, b1, index + 1 + len, cap, strings[1..]);
            Out(rest.b, rest.index, 1 + len + rest.added, rest.stop)
  }

  /** The writer changes only the bytes it steps over. */
  lemma {:induction false} AppendFrame(reverse: bool, b: seq<byte>, index: nat, cap: nat, strings: seq<text>)
    requires cap + SLACK <= |b| && index <= cap
    ensures var o := Append(reverse, b, index, cap, strings);
            forall j | 0 <= j < |b| && !(index <= j < o.index) :: o.b[j] == b[j]
    decreases |strings|
  {
    hide ReadFrom, Matches;
    if strings != [] && Search(reverse, b, index, cap, strings, 0).Nowhere? {
      var len := LenByte(strings[0]);
      if index + len + 1 < cap && len != 255 {
        AppendFrame(reverse, Put(b, index, [len] + strings[0][..len]), index + 1 + len, cap, strings[1..]);
      }
    }
  }

  /** Two buffers agree in front of an offset. */
  ghost predicate AgreeBelow(b: seq<byte>, b1: seq<byte>, hi: nat) {
    |b1| == |b| && forall j | 0 <= j < hi && j < |b| :: b1[j] == b[j]
  }

  lemma AgreeTwice(a: seq<byte>, b: seq<byte>, c: seq<byte>, n: nat, m: nat, k: nat)
    requires AgreeBelow(a, b, n) && AgreeBelow(b, c, m) && k <= n && k <= m
    ensures AgreeBelow(a, c, k)
  {
  }

  lemma AgreesWithItself(b: seq<byte>, n: nat)
    ensures AgreeBelow(b, b, n)
  {
  }

  lemma PutAgrees(b: seq<byte>, at: nat, bytes: seq<byte>, n: nat)
    requires at + |bytes| <= |b| && n <= at
    ensures AgreeBelow(b, Put(b, at, bytes), n)
  {
  }

  /** What stands in front of a name is as it was. */
  lemma AppendAgrees(reverse: bool, b: seq<byte>, index: nat, cap: nat, strings: seq<text>)
    requires cap + SLACK <= |b| && index <= cap
    ensures var o := Append(reverse, b, index, cap, strings);
            index <= o.index <= cap && AgreeBelow(b, o.b, index)
  {
    hide Append;
    AppendFrame(reverse, b, index, cap, strings);
  }

  /** memchr over packet[from..to]; `to` when the byte does not occur. */
  method Memchr(packet: array<byte>, c: byte, from: nat, to: nat) returns (at: nat)
    requires from <= to <= packet.Length
    ensures from <= at <= to
    ensures at < to ==> packet[at] == c
    ensures forall j | from <= j < at :: packet[j] != c
  {
    at := from;
    while at < to && packet[at] != c
      invariant from <= at <= to
      invariant forall j | from <= j < at :: packet[j] != c
    {
      at := at + 1;
    }
  }

  /** One candidate: compare the label, then read the rest of the name and compare the slots. */
  method TestCandidate(reverse: bool, packet: array<byte>, cap: nat, at: nat, strings: seq<text>) returns (found: bool)
    requires cap + SLACK <= packet.Length && at < cap && strings != []
    requires packet[at] == LenByte(strings[0])
    ensures found == Matches(reverse, packet[..], cap, at, strings)
  {
    hide ReadFrom;
    var len := LenByte(strings[0]);
    assert packet[..][at + 1..at + 1 + len] == packet[at + 1..at + 1 + len];
    if packet[at + 1..at + 1 + len] != strings[0][..len] {
      return false;
    }
    var r := ReadFqdn(reverse, packet, cap, at, EMPTY_NAME);
    return r.Parsed? && SameLabels(strings, r.name.slots);
  }

  /** The search loop: memchr for the length byte, test the candidate, go on behind it. */
  method FindName(reverse: bool, packet: array<byte>, index: nat, cap: nat, strings: seq<text>) returns (f: Found)
    requires cap + SLACK <= packet.Length && index <= cap && strings != []
    ensures f == Search(reverse, packet[..], index, cap, strings, 0)
  {
    hide ReadFrom, Matches;
    ghost var b := packet[..];
    var len := LenByte(strings[0]);
    var at := Memchr(packet, len, 0, index);
    SearchSkips(reverse, b, index, cap, strings, 0, at);
    while at < index
      invariant at <= index
      invariant at < index ==> packet[at] == len
      invariant Search(reverse, b, index, cap, strings, 0) == Search(reverse, b, index, cap, strings, at)
    {
      var found := TestCandidate(reverse, packet, cap, at, strings);
      if found {
        return At(at);
      }
      var next := Memchr(packet, len, at + 1, index);
      SearchSkips(reverse, b, index, cap, strings, at + 1, next);
      at := next;
    }
    return Nowhere;
  }

  lemma {:induction false} SearchSkips(reverse: bool, b: seq<byte>, index: nat, cap: nat, strings: seq<text>,
                                       from: nat, to: nat)
    requires cap + SLACK <= |b| && index <= cap && strings != []
    requires from <= to <= index
    requires forall j | from <= j < to :: b[j] != LenByte(strings[0])
    ensures Search(reverse, b, index, cap, strings, from) == Search(reverse, b, index, cap, strings, to)
    decreases index - from
  {
    if from < to {
      SearchSkips(reverse, b, index, cap, strings, from + 1, to);
    }
  }

  /** memcpy into the packet. */
  method Copy(packet: array<byte>, at: nat, bytes: seq<byte>)
    requires at + |bytes| <= packet.Length
    modifies packet
    ensures packet[..] == Put(old(packet[..]), at, bytes)
  {
    forall k | 0 <= k < |bytes| {
      packet[at + k] := bytes[k];
    }
  }

  /** One level of the writer's recursion that emits a literal label. */
  lemma AppendUnfolds(reverse: bool, b: seq<byte>, index: nat, cap: nat, strings: seq<text>, b1: seq<byte>, next: nat)
    requires cap + SLACK <= |b| && index <= cap && strings != []
    requires Search(reverse, b, index, cap, strings, 0).Nowhere?
    requires next == index + 1 + LenByte(strings[0]) < cap && next != index + 256
    requires b1 == Put(b, index, [LenByte(strings[0])] + strings[0][..LenByte(strings[0])])
    ensures var rest := Append(reverse, b1, next, cap, strings[1..]);
            Append(reverse, b, index, cap, strings) == Out(rest.b, rest.index, next - index + rest.added, rest.stop)
  {
    hide ReadFrom, Matches, Search, Put;
  }

  /** The writer: returns the new index and the count of bytes it reports. */
  method AppendFqdn(reverse: bool, packet: array<byte>, index: nat, cap: nat, strings: seq<text>)
    returns (index': nat, added: nat)
    requires cap + SLACK <= packet.Length && index <= cap
    modifies packet
    ensures var o := Append(reverse, old(packet[..]), index, cap, strings);
            packet[..] == o.b && index' == o.index && added == o.added
    decreases |strings|
  {
    hide ReadFrom, Matches, Search, Put;
    if strings == [] {
      if index >= cap {
        return index, 0;
      }
      Copy(packet, index, [0]);
      return index + 1, 1;
    }
    var f := FindName(reverse, packet, index, cap, strings);
    if f.At? {
      if index + 1 >= cap {
        return index, 0;
      }
      Copy(packet, index, RefBytes(f.at));
      return index + 2, 2;
    }
    var len := LenByte(strings[0]);
    if index + len + 1 >= cap {
      return index, 0;
    }
    Copy(packet, index, [len] + strings[0][..len]);
    if len == 255 {
      return index + 256, 0;
    }
    AppendUnfolds(reverse, old(packet[..]), index, cap, strings, packet[..], index + 1 + len);
    var rest;
    index', rest := AppendFqdn(reverse, packet, index + 1 + len, cap, strings[1..]);
    added := 1 + len + rest;
  }
}
