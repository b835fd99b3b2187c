/**
 TXT records (section 6 of RFC 6763): one length byte and "key=value" or "key" for each item.
 The writer and the reader of the responder, and exactly which item lists survive the trip.
 */
module TxtCodec {
  import opened Bytes
  import opened FqdnWriter

  const EQUALS: byte := 61

  datatype Value = NoValue | HasValue(bytes: seq<byte>)

  datatype Item = Item(key: text, value: Value)

  /** An item as the reader reports it: an absent value and an empty one look the same. */
  datatype Pair = Pair(key: text, value: seq<byte>)

  datatype Decoded = Malformed | Pairs(pairs: seq<Pair>)

  // ----- writing -----

  /** The entry without its length byte. */
  function Content(t: Item): seq<byte> {
    t.key + match t.value case NoValue => [] case HasValue(v) => [EQUALS] + v
  }

  function Entry(t: Item): seq<byte> {
    [|Content(t)| % 256] + Content(t)
  }

  function Entries(items: seq<Item>): seq<byte> {
    if items == [] then [] else Entry(items[0]) + Entries(items[1..])
  }

  /** The data of a TXT record: the entries, or one zero byte if there are none. */
  function Encode(items: seq<Item>): seq<byte> {
    if items == [] then [0] else Entries(items)
  }

  /** Append one entry: the bytes added, 0 if they do not fit. */
  method AppendEntry(packet: array<byte>, index: nat, cap: nat, t: Item) returns (index': nat, added: nat)
    requires cap <= packet.Length && index <= cap
    modifies packet
    ensures index + |Content(t)| + 1 >= cap ==> index' == index && added == 0 && packet[..] == old(packet[..])
    ensures index + |Content(t)| + 1 < cap ==>
              index' == index + added && added == |Entry(t)| && packet[..] == Put(old(packet[..]), index, Entry(t))
  {
    var len := |Content(t)|;
    if index + len + 1 >= cap {
      return index, 0;
    }
    Copy(packet, index, Entry(t));
    return index + len + 1, len + 1;
  }

  /** The entries in front of the first one that does not fit. */
  function FitEntries(index: nat, cap: nat, items: seq<Item>): (r: seq<byte>)
    ensures index <= cap ==> index + |r| <= cap
    decreases |items|
  {
    if items == [] || index + |Content(items[0])| + 1 >= cap then []
    else Entry(items[0]) + FitEntries(index + |Entry(items[0])|, cap, items[1..])
  }

  /** What appending the data leaves behind the index: for no items one zero byte. */
  function DataLeft(index: nat, cap: nat, items: seq<Item>): (r: seq<byte>)
    ensures index <= cap ==> index + |r| <= cap + 1
    ensures index < cap ==> index + |r| <= cap
  {
    if items == [] then [0] else FitEntries(index, cap, items)
  }

  /** The data of a TXT record: every entry in turn; 0 if one of them does not fit. */
  method AppendTxtData(packet: array<byte>, index: nat, cap: nat, items: seq<Item>) returns (index': nat, added: nat)
    requires cap + SLACK <= packet.Length && index <= cap
    modifies packet
    ensures packet[..] == Put(old(packet[..]), index, DataLeft(index, cap, items))
    ensures index' == index + |DataLeft(index, cap, items)|
    ensures added > 0 ==> added == |Encode(items)| && DataLeft(index, cap, items) == Encode(items)
    ensures added == 0 <==> items != [] && index + |Encode(items)| >= cap
  {
    hide Entry, Entries, Put, FitEntries;
    var k := 0;
    index', added := index, 0;
    ghost var b := packet[..];
    ghost var out: seq<byte> := [];
    NoEntries(b, index, items);
    while k < |items|
      invariant k <= |items| && index' == index + added <= cap && added == |out|
      invariant packet[..] == Put(b, index, out) && out + Entries(items[k..]) == Entries(items)
      invariant FitEntries(index, cap, items) == out + FitEntries(index', cap, items[k..])
      invariant k == 0 || (added > 0 && index' < cap)
    {
      EntryTurn(out, index, index', cap, items, k);
      var n;
      index', n := AppendEntry(packet, index', cap, items[k]);
      if n == 0 {
        return index', 0;
      }
      PutPut(b, index, out, Entry(items[k]));
      out := out + Entry(items[k]);
      added := added + n;
      k := k + 1;
    }
    NoEntries(b, index, items[k..]);
    FitsNothing(index', cap, items[k..]);
    assert out + [] == out;
    if added == 0 {
      Copy(packet, index', [0]);
      index', added := index' + 1, 1;
    }
  }

  /** One turn of the loop, as the entries in front of it and those behind it see it. */
  lemma EntryTurn(out: seq<byte>, index: nat, at: nat, cap: nat, items: seq<Item>, k: nat)
    requires k < |items| && out + Entries(items[k..]) == Entries(items)
    requires FitEntries(index, cap, items) == out + FitEntries(at, cap, items[k..])
    ensures |Entry(items[k])| == |Content(items[k])| + 1
    ensures at + |Content(items[k])| + 1 >= cap ==>
              FitEntries(index, cap, items) == out && at + |Entries(items[k..])| >= cap
    ensures at + |Content(items[k])| + 1 < cap ==>
              FitEntries(index, cap, items)
              == out + Entry(items[k]) + FitEntries(at + |Entry(items[k])|, cap, items[k + 1..])
    ensures out + Entry(items[k]) + Entries(items[k + 1..]) == Entries(items)
  {
    hide Entry, Entries, FitEntries;
    EntriesSnoc(items, k);
    FitsNext(at, cap, items, k);
    var e, rest, more := Entry(items[k]), Entries(items[k + 1..]),
        FitEntries(at + |Entry(items[k])|, cap, items[k + 1..]);
    assert out + (e + rest) == out + e + rest && out + (e + more) == out + e + more && out + [] == out;
  }

  lemma FitsNext(index: nat, cap: nat, items: seq<Item>, k: nat)
    requires k < |items|
    ensures FitEntries(index, cap, items[k..])
         == if index + |Content(items[k])| + 1 >= cap then []
            else Entry(items[k]) + FitEntries(index + |Entry(items[k])|, cap, items[k + 1..])
  {
    assert items[k..][1..] == items[k + 1..];
  }

  lemma FitsNothing(index: nat, cap: nat, items: seq<Item>)
    requires items == []
    ensures FitEntries(index, cap, items) == []
  {
  }

  lemma NoEntries(b: seq<byte>, at: nat, items: seq<Item>)
    requires at <= |b|
    ensures Put(b, at, []) == b
    ensures items == [] ==> Entries(items) == []
    ensures items[0..] == items
  {
  }

  lemma PutPut(b: seq<byte>, at: nat, x: seq<byte>, y: seq<byte>)
    requires at + |x| + |y| <= |b|
    ensures Put(Put(b, at, x), at + |x|, y) == Put(b, at, x + y)
  {
  }

  lemma {:induction false} EntriesAppend(a: seq<Item>, b: seq<Item>)
    ensures Entries(a + b) == Entries(a) + Entries(b)
    decreases |a|
  {
    if a == [] {
      assert a + b == b;
    } else {
      assert (a + b)[1..] == a[1..] + b;
      EntriesAppend(a[1..], b);
    }
  }

  lemma EntriesSnoc(items: seq<Item>, k: nat)
    requires k < |items|
    ensures Entries(items[..k + 1]) == Entries(items[..k]) + Entry(items[k])
    ensures Entries(items[k..]) == Entry(items[k]) + Entries(items[k + 1..])
    ensures |Entry(items[k])| == |Content(items[k])| + 1
  {
    assert items[..k + 1] == items[..k] + [items[k]];
    EntriesAppend(items[..k], [items[k]]);
    assert Entries([items[k]]) == Entry(items[k]) + Entries([]);
    assert items[k..][1..] == items[k + 1..];
  }

  // ----- reading -----

  /** The counting pass; -1 for malformed data. */
  function CountFrom(data: seq<byte>): int {
    if data == [] || data[0] == 0 then 0
    else if 1 + data[0] > |data| then -1
    else
      var rest := CountFrom(data[1 + data[0]..]);
      if rest < 0 then -1 else 1 + rest
  }

  function ItemCount(data: seq<byte>): int {
    if |data| == 1 then 0 else CountFrom(data)
  }

  /** The length of the key: -1 if the part starts with '=', the whole part if it has no '='. */
  function KeyLen(part: seq<byte>): (n: int)
    ensures -1 <= n <= |part|
    ensures n == -1 <==> part != [] && part[0] == EQUALS
    ensures n >= 0 ==> (forall j | 0 <= j < n :: part[j] != EQUALS) && (n < |part| ==> part[n] == EQUALS)
  {
    if part == [] then 0
    else if part[0] == EQUALS then -1
    else
      var n := KeyLen(part[1..]);
      if n == -1 then 1 else n + 1
  }

  /** What the creating pass does with the bytes at the front: behind a key it always steps over one more byte. */
  datatype Head = Stop | Bad | Skip(next: nat) | One(pair: Pair, next: nat)

  function HeadOf(data: seq<byte>): (h: Head)
    ensures h.Skip? || h.One? ==> h.next > 0
  {
    if data == [] || data[0] == 0 then Stop
    else if 1 + data[0] > |data| then Bad
    else HeadOfPart(data[1..1 + data[0]])
  }

  function HeadOfPart(part: seq<byte>): (h: Head)
    ensures (h.Skip? || h.One?) && h.next > 0
  {
    var n := KeyLen(part);
    if n < 0 then Skip(1 + |part|)
    else
      var value := if n + 1 < |part| then part[n + 1..] else [];
      One(Pair(part[..n], value), 1 + n + 1 + |value|)
  }

  /** data from i on, nothing if i is behind the end. */
  function From(data: seq<byte>, i: nat): seq<byte> {
    if i <= |data| then data[i..] else []
  }

  function CreateFrom(data: seq<byte>): Decoded
    decreases |data|
  {
    match HeadOf(data)
    case Stop => Pairs([])
    case Bad => Malformed
    case Skip(next) => CreateFrom(From(data, next))
    case One(pair, next) => Joined([pair], CreateFrom(From(data, next)))
  }

  function Joined(pairs: seq<Pair>, d: Decoded): Decoded {
    if d.Malformed? then Malformed else Pairs(pairs + d.pairs)
  }

  /** What the reader reports: nothing at all for malformed data. */
  function Decode(data: seq<byte>): seq<Pair> {
    if ItemCount(data) <= 0 then []
    else match CreateFrom(data) case Malformed => [] case Pairs(ps) => ps
  }

  method CountItems(data: seq<byte>) returns (n: int)
    ensures n == ItemCount(data)
  {
    if |data| == 1 {
      return 0;
    }
    var i := 0;
    n := 0;
    while i < |data|
      invariant i <= |data| && n >= 0
      invariant CountFrom(data) == (if CountFrom(data[i..]) < 0 then -1 else n + CountFrom(data[i..]))
      decreases |data| - i
    {
      var partLen := data[i];
      assert data[i..][0] == partLen;
      i := i + 1;
      if partLen == 0 {
        return;
      }
      if i + partLen > |data| {
        return -1;
      }
      assert data[i - 1..][1 + partLen..] == data[i + partLen..];
      i := i + partLen;
      n := n + 1;
    }
  }

  method KeyLength(part: seq<byte>) returns (n: int)
    requires part != []
    ensures n == KeyLen(part)
  {
    if part[0] == EQUALS {
      return -1;
    }
    var i := 0;
    while i < |part|
      invariant i <= |part| && forall j | 0 <= j < i :: part[j] != EQUALS
    {
      if part[i] == EQUALS {
        KeyLenUnique(part, i);
        return i;
      }
      i := i + 1;
    }
    KeyLenUnique(part, i);
    return |part|;
  }

  lemma KeyLenUnique(part: seq<byte>, n: nat)
    requires part != [] && part[0] != EQUALS && n <= |part|
    requires (forall j | 0 <= j < n :: part[j] != EQUALS) && (n < |part| ==> part[n] == EQUALS)
    ensures KeyLen(part) == n
  {
  }

  /** One turn of the creating pass. */
  method ReadHead(data: seq<byte>, i: nat) returns (h: Head)
    requires i < |data|
    ensures h == HeadOf(From(data, i))
  {
    hide HeadOf, HeadOfPart;
    var partLen: nat := data[i];
    HeadCases(data, i);
    if partLen == 0 {
      return Stop;
    }
    if i + 1 + partLen > |data| {
      return Bad;
    }
    h := ReadPart(data[i + 1..i + 1 + partLen]);
  }

  lemma HeadCases(data: seq<byte>, i: nat)
    requires i < |data|
    ensures HeadOf(From(data, i)) == if data[i] == 0 then Stop
                                     else if i + 1 + data[i] > |data| then Bad
                                     else HeadOfPart(data[i + 1..i + 1 + data[i]])
  {
    hide HeadOfPart;
    if data[i] != 0 && i + 1 + data[i] <= |data| {
      assert From(data, i)[1..1 + data[i]] == data[i + 1..i + 1 + data[i]];
    }
  }

  method ReadPart(part: seq<byte>) returns (h: Head)
    requires part != []
    ensures h == HeadOfPart(part)
  {
    hide KeyLen;
    var nameLen := KeyLength(part);
    if nameLen < 0 {
      return Skip(1 + |part|);
    }
    var value := if nameLen + 1 < |part| then part[nameLen + 1..] else [];
    return One(Pair(part[..nameLen], value), 1 + nameLen + 1 + |value|);
  }

  lemma FromFrom(data: seq<byte>, i: nat, n: nat)
    ensures From(From(data, i), n) == From(data, i + n)
  {
  }

  /** The reader: nothing for malformed data, else every item with a key. */
  method DecodeTxt(data: seq<byte>) returns (pairs: seq<Pair>)
    ensures pairs == Decode(data)
  {
    hide HeadOf, From;
    pairs := [];
    var n := CountItems(data);
    if n <= 0 {
      return;
    }
    var i := 0;
    assert From(data, 0) == data by { FromStart(data); }
    while i < |data|
      invariant CreateFrom(data) == Joined(pairs, CreateFrom(From(data, i)))
      decreases |data| - i
    {
      var h := ReadHead(data, i);
      match h {
        case Stop => return;
        case Bad => return [];
        case Skip(next) =>
          FromFrom(data, i, next);
          i := i + next;
        case One(pair, next) =>
          FromFrom(data, i, next);
          pairs := pairs + [pair];
          i := i + next;
      }
    }
    FromEnd(data, i);
  }

  lemma FromStart(data: seq<byte>)
    ensures From(data, 0) == data
  {
  }

  lemma FromEnd(data: seq<byte>, i: nat)
    requires i >= |data|
    ensures From(data, i) == [] && CreateFrom([]) == Pairs([])
  {
  }

  // ----- the round trip -----

  /** An item a caller may register: a key without '=' and NUL, and an entry that fits its length byte. */
  predicate Valid(t: Item) {
    t.key != [] && EQUALS !in t.key && 0 !in t.key && |Content(t)| <= 255
  }

  predicate AllValid(items: seq<Item>) {
    forall i | 0 <= i < |items| :: Valid(items[i])
  }

  function PairOf(t: Item): Pair {
    Pair(t.key, match t.value case NoValue => [] case HasValue(v) => v)
  }

  function PairsOf(items: seq<Item>): (ps: seq<Pair>)
    ensures |ps| == |items|
  {
    if items == [] then [] else [PairOf(items[0])] + PairsOf(items[1..])
  }

  predicate ValuesBeforeLast(items: seq<Item>) {
    forall i | 0 <= i < |items| - 1 :: items[i].value.HasValue?
  }

  /** One entry is read back as its item; behind a key-only entry the reader is one byte too far. */
  lemma ReadsEntry(t: Item, rest: seq<byte>)
    requires Valid(t)
    ensures var next := |Entry(t)| + if t.value.NoValue? then 1 else 0;
            && HeadOf(Entry(t) + rest) == One(PairOf(t), next)
            && From(Entry(t) + rest, next) == if t.value.HasValue? then rest else From(rest, 1)
  {
    hide HeadOfPart;
    var c := Content(t);
    var d := Entry(t) + rest;
    assert |c| % 256 == |c|;
    assert d[0] == |c| && d[1..1 + |c|] == c;
    ReadsContent(t);
  }

  lemma ReadsContent(t: Item)
    requires Valid(t)
    ensures HeadOfPart(Content(t)) == One(PairOf(t), |Content(t)| + if t.value.NoValue? then 2 else 1)
  {
    KeyIsFound(t);
    var c := Content(t);
    match t.value
    case NoValue =>
      assert c == t.key && c[..|c|] == c;
    case HasValue(v) =>
      assert c[..|t.key|] == t.key && c[|t.key| + 1..] == v;
  }

  lemma KeyIsFound(t: Item)
    requires Valid(t)
    ensures KeyLen(Content(t)) == |t.key|
  {
    var c := Content(t);
    forall j | 0 <= j < |t.key|
      ensures c[j] != EQUALS
    {
      assert c[j] == t.key[j] && t.key[j] in t.key;
    }
    KeyLenUnique(c, |t.key|);
  }

  lemma {:induction false} CountsEntries(items: seq<Item>)
    requires AllValid(items)
    ensures CountFrom(Entries(items)) == |items|
    decreases |items|
  {
    if items != [] {
      CountsEntries(items[1..]);
      CountsOne(Content(items[0]), Entries(items[1..]));
    }
  }

  lemma CountsOne(c: seq<byte>, rest: seq<byte>)
    requires 0 < |c| <= 255
    ensures CountFrom([|c| % 256] + c + rest) == if CountFrom(rest) < 0 then -1 else 1 + CountFrom(rest)
  {
    var d := [|c| % 256] + c + rest;
    assert |c| % 256 == |c| && d[1 + |c|..] == rest;
  }

  lemma {:induction false} ReadsBack(items: seq<Item>)
    requires AllValid(items) && ValuesBeforeLast(items)
    ensures CreateFrom(Entries(items)) == Pairs(PairsOf(items))
    decreases |items|
  {
    hide HeadOf;
    if items == [] {
      assert HeadOf([]) == Stop by { NothingThere(); }
    } else {
      ReadsEntry(items[0], Entries(items[1..]));
      ReadsBack(items[1..]);
      if items[0].value.NoValue? {
        assert items[1..] == [] && From([], 1) == [];
      }
    }
  }

  lemma NothingThere()
    ensures HeadOf([]) == Stop
  {
  }

  /** The bytes the creating pass steps over for its items. */
  function Weight(ps: seq<Pair>): nat {
    if ps == [] then 0 else 2 + |ps[0].key| + |ps[0].value| + Weight(ps[1..])
  }

  /** It never steps more than one byte past the end. */
  lemma {:induction false} WeightBound(data: seq<byte>)
    requires CreateFrom(data).Pairs?
    ensures Weight(CreateFrom(data).pairs) <= |data| + 1
    decreases |data|
  {
    match HeadOf(data)
    case Stop =>
    case Skip(next) => WeightBound(From(data, next));
    case One(pair, next) =>
      WeightBound(From(data, next));
      assert next <= |data| + 1;
      var ps := CreateFrom(From(data, next)).pairs;
      assert ([pair] + ps)[1..] == ps;
      if next > |data| {
        assert HeadOf([]) == Stop && ps == [];
      }
  }

  function KeyOnly(items: seq<Item>): nat {
    if items == [] then 0 else (if items[0].value.NoValue? then 1 else 0) + KeyOnly(items[1..])
  }

  lemma {:induction false} EntriesWeight(items: seq<Item>)
    ensures |Entries(items)| + KeyOnly(items) == Weight(PairsOf(items))
    decreases |items|
  {
    if items != [] {
      EntriesWeight(items[1..]);
      assert PairsOf(items)[1..] == PairsOf(items[1..]);
    }
  }

  /** Entries read one byte too late are never read as the items they are. */
  lemma MisreadsShifted(items: seq<Item>)
    requires items != [] && AllValid(items) && KeyOnly(items) == 0
    ensures CreateFrom(Entries(items)[1..]) != Pairs(PairsOf(items))
  {
    var t := items[0];
    var d := Entries(items)[1..];
    EntriesWeight(items);
    assert t.value.HasValue?;
    assert d[0] == t.key[0] && t.key[0] in t.key;
    assert d[|t.key|] == EQUALS;
    match HeadOf(d)
    case Stop =>
    case Bad =>
    case Skip(next) =>
      if CreateFrom(d).Pairs? {
        WeightBound(From(d, next));
      }
    case One(pair, next) =>
      var part := d[1..1 + d[0]];
      assert |t.key| - 1 < |part| ==> part[|t.key| - 1] == EQUALS;
      assert |pair.key| < |t.key|;
  }

  lemma JoinedDiffers(pair: Pair, d: Decoded, ps: seq<Pair>)
    requires d != Pairs(ps)
    ensures Joined([pair], d) != Pairs([pair] + ps)
  {
    assert d.Pairs? ==> ([pair] + d.pairs)[1..] == d.pairs;
    assert ([pair] + ps)[1..] == ps;
  }

  lemma KeyOnlyBehind(items: seq<Item>)
    requires items != [] && items[0].value.HasValue? && !ValuesBeforeLast(items)
    ensures !ValuesBeforeLast(items[1..])
  {
    var i :| 0 <= i < |items| - 1 && !items[i].value.HasValue?;
    assert items[1..][i - 1] == items[i];
  }

  /** A single key-only item in front of another one is enough to lose the list. */
  lemma {:induction false} MisreadsOnlyOne(items: seq<Item>)
    requires AllValid(items) && KeyOnly(items) == 1 && !ValuesBeforeLast(items)
    ensures CreateFrom(Entries(items)) != Pairs(PairsOf(items))
    decreases |items|
  {
    hide HeadOf, Entry, PairOf, From, Joined, ValuesBeforeLast;
    assert |items| > 1 by { TwoItems(items); }
    var rest := items[1..];
    ReadsEntry(items[0], Entries(rest));
    assert PairsOf(items) == [PairOf(items[0])] + PairsOf(rest);
    if items[0].value.NoValue? {
      MisreadsShifted(rest);
      assert From(Entries(rest), 1) == Entries(rest)[1..] by { ShiftedByOne(rest); }
      JoinedDiffers(PairOf(items[0]), CreateFrom(From(Entries(rest), 1)), PairsOf(rest));
    } else {
      KeyOnlyBehind(items);
      MisreadsOnlyOne(rest);
      JoinedDiffers(PairOf(items[0]), CreateFrom(Entries(rest)), PairsOf(rest));
    }
  }

  lemma TwoItems(items: seq<Item>)
    requires !ValuesBeforeLast(items)
    ensures |items| > 1
  {
  }

  lemma ShiftedByOne(items: seq<Item>)
    requires items != []
    ensures Entries(items) != [] && From(Entries(items), 1) == Entries(items)[1..]
  {
  }

  lemma {:induction false} KeyOnlyCount(items: seq<Item>)
    ensures KeyOnly(items) == 0 ==> ValuesBeforeLast(items)
    decreases |items|
  {
    if items != [] {
      KeyOnlyCount(items[1..]);
      if KeyOnly(items) == 0 {
        forall i | 0 <= i < |items| - 1
          ensures items[i].value.HasValue?
        {
          KeyOnlyNone(items, i);
        }
      }
    }
  }

  lemma {:induction false} KeyOnlyNone(items: seq<Item>, i: nat)
    requires i < |items| && KeyOnly(items) == 0
    ensures items[i].value.HasValue?
    decreases |items|
  {
    if i > 0 {
      KeyOnlyNone(items[1..], i - 1);
    }
  }

  /**
   Any list with a key-only item in front of another one is misread: with two of them the reader has
   too few bytes left.
   */
  lemma {:induction false} MisreadsKeyOnly(items: seq<Item>)
    requires AllValid(items) && !ValuesBeforeLast(items)
    ensures CreateFrom(Entries(items)) != Pairs(PairsOf(items))
  {
    hide HeadOf, CreateFrom, Weight, PairsOf, Entries;
    EntriesWeight(items);
    KeyOnlyCount(items);
    if KeyOnly(items) == 1 {
      MisreadsOnlyOne(items);
    } else if CreateFrom(Entries(items)).Pairs? {
      WeightBound(Entries(items));
    }
  }

  /**
   The TXT round trip: for every list of valid items the reader reports exactly the written keys
   and values, in order, if and only if every item but the last has a value.
   */
  lemma {:induction false} TxtRoundTrip(items: seq<Item>)
    requires AllValid(items)
    ensures Decode(Encode(items)) == PairsOf(items) <==> ValuesBeforeLast(items)
    ensures items != [] ==> ItemCount(Encode(items)) == |items|
  {
    hide HeadOf, CreateFrom, CountFrom, Weight, PairsOf, Entries;
    if items != [] {
      CountsEntries(items);
      AtLeastTwo(items);
      if ValuesBeforeLast(items) {
        ReadsBack(items);
      } else {
        MisreadsKeyOnly(items);
      }
    }
  }

  lemma AtLeastTwo(items: seq<Item>)
    requires items != [] && Valid(items[0])
    ensures |Entries(items)| >= 2
  {
  }

  // ----- entries without a key -----

  /** An entry that begins with '=' is counted by the counting pass and skipped by the creating one. */
  lemma NamelessIsSkipped(part: seq<byte>, rest: seq<byte>)
    requires part != [] && part[0] == 61 && |part| <= 255
    ensures CreateFrom([|part|] + part + rest) == CreateFrom(rest)
    ensures CountFrom([|part|] + part + rest) == if CountFrom(rest) < 0 then -1 else 1 + CountFrom(rest)
  {
    var d := [|part|] + part + rest;
    assert d[0] == |part| && d[1..1 + |part|] == part && d[1 + |part|..] == rest;
  }

  lemma {:induction false} CreatesBehind(a: seq<Item>, rest: seq<byte>)
    requires AllValid(a) && forall i | 0 <= i < |a| :: a[i].value.HasValue?
    ensures CreateFrom(Entries(a) + rest) == Joined(PairsOf(a), CreateFrom(rest))
    ensures CountFrom(Entries(a) + rest) == if CountFrom(rest) < 0 then -1 else |a| + CountFrom(rest)
    decreases |a|
  {
    hide HeadOf, Entry, PairOf, From;
    if a == [] {
      assert Entries(a) + rest == rest;
    } else {
      var more := Entries(a[1..]) + rest;
      assert Entries(a) + rest == Entry(a[0]) + more;
      ReadsEntry(a[0], more);
      CreatesBehind(a[1..], rest);
      CountsEntry(a[0], more);
      assert PairsOf(a) == [PairOf(a[0])] + PairsOf(a[1..]);
      JoinedTwice([PairOf(a[0])], PairsOf(a[1..]), CreateFrom(rest));
    }
  }

  lemma JoinedTwice(xs: seq<Pair>, ys: seq<Pair>, d: Decoded)
    ensures Joined(xs, Joined(ys, d)) == Joined(xs + ys, d)
  {
    assert d.Pairs? ==> xs + (ys + d.pairs) == xs + ys + d.pairs;
  }

  lemma CountsEntry(t: Item, rest: seq<byte>)
    requires Valid(t)
    ensures CountFrom(Entry(t) + rest) == if CountFrom(rest) < 0 then -1 else 1 + CountFrom(rest)
  {
    CountsOne(Content(t), rest);
  }

  /**
   An entry that begins with '=' does not disturb the items around it: they are read as they are, and
   it is left out.
   */
  lemma {:induction false} NamelessIsLeftOut(a: seq<Item>, part: seq<byte>, b: seq<Item>)
    requires part != [] && part[0] == 61 && |part| <= 255
    requires AllValid(a) && AllValid(b) && ValuesBeforeLast(b) && forall i | 0 <= i < |a| :: a[i].value.HasValue?
    ensures Decode(Entries(a) + ([|part|] + part + Entries(b))) == PairsOf(a) + PairsOf(b)
  {
    hide CreateFrom, CountFrom, Entries;
    ReadsBack(b);
    CountsEntries(b);
    NamelessIsSkipped(part, Entries(b));
    CreatesBehind(a, [|part|] + part + Entries(b));
  }
}
