/**
 URI escaping and unescaping: the table-driven writer and the three-state reader, as methods
 over buffers, and the laws that connect them.
 */
module UriCodec {
  import opened Bytes

  const PERCENT: byte := 37
  const QUESTION: byte := 63

  // ----- the escape tables -----

  const URI: seq<nat> := [0xffffffff, 0xd000002d, 0x50000000, 0xb8000001, 0xffffffff, 0xffffffff, 0xffffffff,
                          0xffffffff]
  const ARGS: seq<nat> := [0xffffffff, 0xd800086d, 0x50000000, 0xb8000001, 0xffffffff, 0xffffffff, 0xffffffff,
                           0xffffffff]
  const COMPONENT: seq<nat> := [0xffffffff, 0xfc009fff, 0x78000001, 0xb8000001, 0xffffffff, 0xffffffff, 0xffffffff,
                                0xffffffff]
  const HTML: seq<nat> := [0xffffffff, 0x500000ad, 0x50000000, 0xb8000001, 0xffffffff, 0xffffffff, 0xffffffff,
                           0xffffffff]
  const REFRESH: seq<nat> := [0xffffffff, 0x50000085, 0x50000000, 0xd8000001, 0xffffffff, 0xffffffff, 0xffffffff,
                              0xffffffff]
  const MEMCACHED: seq<nat> := [0xffffffff, 0x00000021, 0, 0, 0, 0, 0, 0]

  /** The table of an escape type; mail_auth uses the memcached table. */
  function Table(kind: nat): (t: seq<nat>)
    requires kind < 7
    ensures |t| == 8
  {
    [URI, ARGS, COMPONENT, HTML, REFRESH, MEMCACHED, MEMCACHED][kind]
  }

  function Pow2(n: nat): (r: nat)
    ensures r > 0
  {
    if n == 0 then 1 else 2 * Pow2(n - 1)
  }

  /** The table's bit for a byte: word c / 32, bit c % 32. */
  predicate Escapes(kind: nat, c: byte)
    requires kind < 7
  {
    Table(kind)[c / 32] / Pow2(c % 32) % 2 == 1
  }

  // ----- escaping -----

  function Hex(v: nat): byte
    requires v < 16
  {
    if v < 10 then 48 + v else 55 + v
  }

  function EscapeByte(kind: nat, c: byte): seq<byte>
    requires kind < 7
  {
    if Escapes(kind, c) then [PERCENT, Hex(c / 16), Hex(c % 16)] else [c]
  }

  function Escape(kind: nat, s: seq<byte>): seq<byte>
    requires kind < 7
  {
    if s == [] then [] else EscapeByte(kind, s[0]) + Escape(kind, s[1..])
  }

  function Count(kind: nat, s: seq<byte>): nat
    requires kind < 7
  {
    if s == [] then 0 else (if Escapes(kind, s[0]) then 1 else 0) + Count(kind, s[1..])
  }

  /** The length law that lets callers size the buffer: two extra bytes for each escaped one. */
  lemma {:induction false} EscapeLength(kind: nat, s: seq<byte>)
    requires kind < 7
    ensures |Escape(kind, s)| == |s| + 2 * Count(kind, s)
    decreases |s|
  {
    if s != [] {
      EscapeLength(kind, s[1..]);
    }
  }

  /** The pass without a destination: count the bytes to be escaped. */
  method CountEscapes(src: array<byte>, size: nat, kind: nat) returns (n: nat)
    requires kind < 7 && size <= src.Length
    ensures n == Count(kind, src[..size])
  {
    hide Escapes;
    n := 0;
    ghost var s := src[..size];
    var i := 0;
    while i < size
      invariant i <= size && n + Count(kind, s[i..]) == Count(kind, s)
    {
      assert s[i..][1..] == s[i + 1..] && s[i..][0] == src[i];
      if Escapes(kind, src[i]) {
        n := n + 1;
      }
      i := i + 1;
    }
  }

  /** One byte of the writing pass. */
  method PutEscaped(dst: array<byte>, n: nat, c: byte, kind: nat) returns (n': nat)
    requires kind < 7 && n + |EscapeByte(kind, c)| <= dst.Length
    modifies dst
    ensures n' == n + |EscapeByte(kind, c)|
    ensures dst[..n'] == old(dst[..n]) + EscapeByte(kind, c) && dst[n'..] == old(dst[n'..])
  {
    hide Escapes;
    if Escapes(kind, c) {
      dst[n], dst[n + 1], dst[n + 2] := PERCENT, Hex(c / 16), Hex(c % 16);
      n' := n + 3;
    } else {
      dst[n] := c;
      n' := n + 1;
    }
  }

  /** The writing pass: the escaped bytes, the number written, and nothing behind them touched. */
  method EscapeUri(dst: array<byte>, src: array<byte>, size: nat, kind: nat) returns (n: nat)
    requires kind < 7 && size <= src.Length && dst != src
    requires |Escape(kind, src[..size])| <= dst.Length
    modifies dst
    ensures n == |Escape(kind, src[..size])| && dst[..n] == Escape(kind, src[..size]) && dst[n..] == old(dst[n..])
  {
    hide EscapeByte;
    n := 0;
    ghost var s := src[..size];
    var i := 0;
    while i < size
      invariant i <= size && n <= dst.Length && src[..size] == s
      invariant dst[..n] + Escape(kind, s[i..]) == Escape(kind, s)
      invariant forall j | n <= j < dst.Length :: dst[j] == old(dst[j])
    {
      ghost var before := dst[..n];
      assert s[i..][1..] == s[i + 1..] && s[i..][0] == src[i];
      assert |before + Escape(kind, s[i..])| == |Escape(kind, s)|;
      ghost var n0 := n;
      n := PutEscaped(dst, n, src[i], kind);
      assert before + (EscapeByte(kind, s[i]) + Escape(kind, s[i + 1..])) == dst[..n] + Escape(kind, s[i + 1..]);
      i := i + 1;
    }
    assert s[size..] == [];
  }

  // ----- unescaping -----

  datatype Mode = Usual | Quoted | Second(decoded: nat, first: byte)

  datatype Out = Out(mode: Mode, bytes: seq<byte>, stop: bool)

  predicate UriFlag(flags: nat) { flags % 2 == 1 }

  predicate RedirectFlag(flags: nat) { flags / 2 % 2 == 1 }

  /** The value of a hexadecimal digit in either case, 16 for any other byte. */
  function Digit(ch: byte): (v: nat)
    ensures v <= 16
  {
    if 48 <= ch <= 57 then ch - 48
    else if 97 <= ch <= 102 then ch - 87
    else if 65 <= ch <= 70 then ch - 55
    else 16
  }

  /** One turn of the reader. */
  function Turn(flags: nat, mode: Mode, ch: byte): Out
    requires mode.Second? ==> mode.decoded < 16
  {
    match mode
    case Usual =>
      if ch == QUESTION && (UriFlag(flags) || RedirectFlag(flags)) then Out(Usual, [ch], true)
      else if ch == PERCENT then Out(Quoted, [], false)
      else Out(Usual, [ch], false)
    case Quoted =>
      if Digit(ch) < 16 then Out(Second(Digit(ch), ch), [], false) else Out(Usual, [ch], false)
    case Second(decoded, first) =>
      var v := decoded * 16 + Digit(ch);
      var kept := if PERCENT < v < 127 then [v] else [PERCENT, first, ch];
      if 48 <= ch <= 57 then Out(Usual, if RedirectFlag(flags) then kept else [v], false)
      else if Digit(ch) < 16 then
        if UriFlag(flags) then Out(Usual, [v], v == QUESTION)
        else if RedirectFlag(flags) then
          if v == QUESTION then Out(Usual, [v], true) else Out(Usual, kept, false)
        else Out(Usual, [v], false)
      else Out(Usual, [], false)
  }

  /** What the reader makes of the bytes that remain, in a given mode. */
  function Unescape(flags: nat, mode: Mode, s: seq<byte>): seq<byte>
    requires mode.Second? ==> mode.decoded < 16
    decreases |s|
  {
    if s == [] then []
    else
      var t := Turn(flags, mode, s[0]);
      t.bytes + if t.stop then [] else Unescape(flags, t.mode, s[1..])
  }

  /** How many bytes it reads before it stops. */
  function Consumed(flags: nat, mode: Mode, s: seq<byte>): (n: nat)
    requires mode.Second? ==> mode.decoded < 16
    ensures n <= |s|
    decreases |s|
  {
    if s == [] then 0
    else
      var t := Turn(flags, mode, s[0]);
      if t.stop then 1 else 1 + Consumed(flags, t.mode, s[1..])
  }

  /** Bytes read whose value is still pending. */
  function Held(mode: Mode): nat {
    match mode
    case Usual => 0
    case Quoted => 1
    case Second(_, _) => 2
  }

  /** A turn never writes more than what was held and read. */
  lemma TurnFits(flags: nat, mode: Mode, ch: byte)
    requires mode.Second? ==> mode.decoded < 16
    ensures var t := Turn(flags, mode, ch);
            && |t.bytes| + Held(t.mode) <= Held(mode) + 1
            && (t.mode.Second? ==> t.mode.decoded < 16 && t.mode.first == ch)
  {
  }

  /** One turn at position i of s, seen from the output written so far and from the bytes read so far. */
  lemma TurnAt(flags: nat, mode: Mode, s: seq<byte>, i: nat, out: seq<byte>)
    requires i < |s| && (mode.Second? ==> mode.decoded < 16)
    ensures var t := Turn(flags, mode, s[i]);
            && (t.mode.Second? ==> t.mode.decoded < 16)
            && out + Unescape(flags, mode, s[i..])
               == out + t.bytes + (if t.stop then [] else Unescape(flags, t.mode, s[i + 1..]))
            && i + Consumed(flags, mode, s[i..]) == i + 1 + (if t.stop then 0 else Consumed(flags, t.mode, s[i + 1..]))
  {
    hide Turn;
    TurnFits(flags, mode, s[i]);
    assert s[i..][0] == s[i] && s[i..][1..] == s[i + 1..];
  }

  method PutBytes(dst: array<byte>, d: nat, bytes: seq<byte>)
    requires d + |bytes| <= dst.Length
    modifies dst
    ensures dst[..d + |bytes|] == old(dst[..d]) + bytes
    ensures forall j | d + |bytes| <= j < dst.Length :: dst[j] == old(dst[j])
  {
    forall k | 0 <= k < |bytes| {
      dst[d + k] := bytes[k];
    }
  }

  /** One turn over buffers. The write position stays behind the bytes that are still to be read. */
  method TakeTurn(dst: array<byte>, d: nat, src: array<byte>, i: nat, flags: nat, mode: Mode, ghost s: seq<byte>)
    returns (t: Out)
    requires |s| <= src.Length && |s| <= dst.Length && d + Held(mode) <= i < |s| && (mode.Second? ==> mode.decoded < 16)
    requires forall j | i - Held(mode) <= j < |s| :: src[j] == s[j]
    modifies dst
    ensures t == Turn(flags, mode, s[i]) && d + |t.bytes| + Held(t.mode) <= i + 1
    ensures t.mode.Second? ==> t.mode.decoded < 16 && t.mode.first == s[i]
    ensures dst[..d + |t.bytes|] == old(dst[..d]) + t.bytes
    ensures forall j | d + |t.bytes| <= j < dst.Length :: dst[j] == old(dst[j])
    ensures forall j | i + 1 - Held(t.mode) <= j < |s| :: src[j] == s[j]
  {
    hide Turn;
    t := Turn(flags, mode, src[i]);
    TurnFits(flags, mode, src[i]);
    PutBytes(dst, d, t.bytes);
  }

  /**
   The reader over buffers. The destination may be the source itself: the write position never
   passes the read position, so decoding in place gives what decoding into another buffer gives.
   */
  method UnescapeUri(dst: array<byte>, src: array<byte>, size: nat, flags: nat) returns (d: nat, i: nat)
    requires size <= src.Length && size <= dst.Length
    modifies dst
    ensures d <= i <= size
    ensures dst[..d] == Unescape(flags, Usual, old(src[..size])) && i == Consumed(flags, Usual, old(src[..size]))
    ensures forall j | d <= j < dst.Length :: dst[j] == old(dst[j])
  {
    hide Turn, Unescape, Consumed;
    ghost var s := src[..size];
    var mode := Usual;
    d, i := 0, 0;
    assert s[0..] == s;
    while i < size
      invariant d + Held(mode) <= i <= size && (mode.Second? ==> mode.decoded < 16)
      invariant forall j | i - Held(mode) <= j < size :: src[j] == s[j]
      invariant mode.Second? ==> mode.first == s[i - 1]
      invariant forall j | d <= j < dst.Length :: dst[j] == old(dst[j])
      invariant dst[..d] + Unescape(flags, mode, s[i..]) == Unescape(flags, Usual, s)
      invariant i + Consumed(flags, mode, s[i..]) == Consumed(flags, Usual, s)
    {
      // the digit in front, which the reader fetches from the source again, is still there
      assert mode.Second? ==> src[i - 1] == mode.first;
      TurnAt(flags, mode, s, i, dst[..d]);
      var t := TakeTurn(dst, d, src, i, flags, mode, s);
      d, i := d + |t.bytes|, i + 1;
      if t.stop {
        assert dst[..d] + [] == dst[..d];
        return;
      }
      mode := t.mode;
    }
    NothingLeft(flags, mode);
    assert s[size..] == [];
    assert dst[..d] + [] == dst[..d];
  }

  lemma NothingLeft(flags: nat, mode: Mode)
    requires mode.Second? ==> mode.decoded < 16
    ensures Unescape(flags, mode, []) == [] && Consumed(flags, mode, []) == 0
  {
  }

  // ----- the laws -----

  lemma HexDigits(c: byte)
    ensures Digit(Hex(c / 16)) == c / 16 && Digit(Hex(c % 16)) == c % 16 && c / 16 * 16 + c % 16 == c
  {
  }

  /** Reading back one escaped byte gives the byte, and stops exactly if it is a '?' and the URI flag is set. */
  lemma ReadsEscaped(flags: nat, c: byte, rest: seq<byte>)
    requires !RedirectFlag(flags)
    ensures Unescape(flags, Usual, [PERCENT, Hex(c / 16), Hex(c % 16)] + rest)
         == [c] + if UriFlag(flags) && c == QUESTION then [] else Unescape(flags, Usual, rest)
  {
    HexDigits(c);
    var h, l := Hex(c / 16), Hex(c % 16);
    var s := [PERCENT, h, l] + rest;
    TurnAt(flags, Usual, s, 0, []);
    TurnAt(flags, Quoted, s, 1, []);
    TurnAt(flags, Second(c / 16, h), s, 2, []);
    assert s[0..] == s && s[3..] == rest;
    assert Turn(flags, Second(c / 16, h), l) == Out(Usual, [c], UriFlag(flags) && c == QUESTION);
  }

  /** The string up to and including its first '?', all of it if there is none. */
  function UpToQuestion(s: seq<byte>): seq<byte> {
    if s == [] then [] else if s[0] == QUESTION then [QUESTION] else [s[0]] + UpToQuestion(s[1..])
  }

  /**
   For every table that escapes '%', reading with the URI flag gives the string up to its first '?',
   and without flags all of it.
   */
  lemma {:induction false} RoundTrip(kind: nat, flags: nat, s: seq<byte>)
    requires kind < 7 && !RedirectFlag(flags) && Escapes(kind, PERCENT)
    ensures Unescape(flags, Usual, Escape(kind, s)) == if UriFlag(flags) then UpToQuestion(s) else s
    decreases |s|
  {
    hide Escapes;
    if s != [] {
      RoundTrip(kind, flags, s[1..]);
      var rest := Escape(kind, s[1..]);
      if Escapes(kind, s[0]) {
        ReadsEscaped(flags, s[0], rest);
      } else {
        assert ([s[0]] + rest)[1..] == rest;
        assert Turn(flags, Usual, s[0]).bytes == [s[0]];
      }
    }
  }

  /**
   Unescaping is a left inverse of escaping on every string exactly for the tables that escape
   '%'. For the others "%%" comes back as "%".
   */
  lemma {:induction false} InverseIffPercentEscaped(kind: nat)
    requires kind < 7
    ensures (forall s: seq<byte> :: Unescape(0, Usual, Escape(kind, s)) == s) <==> Escapes(kind, PERCENT)
  {
    if Escapes(kind, PERCENT) {
      forall s: seq<byte>
        ensures Unescape(0, Usual, Escape(kind, s)) == s
      {
        RoundTrip(kind, 0, s);
      }
    } else {
      var s := [PERCENT, PERCENT];
      assert s[1..] == [PERCENT];
      assert Escape(kind, [PERCENT]) == [PERCENT];
      assert Escape(kind, s) == s;
      assert Unescape(0, Quoted, [PERCENT]) == [PERCENT];
      assert Unescape(0, Usual, s) == [PERCENT];
    }
  }

  /** Every table but the one for refresh headers escapes '%'. */
  lemma OnlyRefreshKeepsPercent(kind: nat)
    requires kind < 7
    ensures Escapes(kind, PERCENT) <==> kind != 4
  {
    assert Pow2(2) == 4;
    assert Pow2(5) == 8 * Pow2(2);
  }

  /** The two library calls: what example_uri_decode makes of the output of example_uri_encode. */
  lemma {:induction false} EncodeThenDecode(s: seq<byte>)
    ensures Unescape(1, Usual, Escape(2, s)) == UpToQuestion(s)
  {
    OnlyRefreshKeepsPercent(2);
    RoundTrip(2, 1, s);
  }

  // ----- which bytes are escaped, and how -----

  /** A bit of a word, the lowest first. */
  function Bit(w: nat, k: nat): bool {
    if k == 0 then w % 2 == 1 else Bit(w / 2, k - 1)
  }

  lemma {:induction false} BitIsShifted(w: nat, k: nat)
    ensures Bit(w, k) <==> w / Pow2(k) % 2 == 1
    decreases k
  {
    if k > 0 {
      BitIsShifted(w / 2, k - 1);
      HalfFirst(w, Pow2(k - 1));
    }
  }

  lemma HalfFirst(w: nat, m: nat)
    requires m > 0
    ensures w / (2 * m) == w / 2 / m
  {
    var h, q := w / 2, w / 2 / m;
    var r := 2 * (h - q * m) + w % 2;
    assert h == q * m + h % m;
    assert w == q * (2 * m) + r by { assert q * (2 * m) == 2 * (q * m); }
    QuotientIs(w, 2 * m, q, r);
  }

  lemma QuotientIs(w: nat, d: nat, q: nat, r: nat)
    requires r < d && w == q * d + r
    ensures w / d == q
  {
    var p := w / d;
    assert w == p * d + w % d;
    if p < q {
      Grows(p + 1, q, d);
    } else if q < p {
      Grows(q + 1, p, d);
    }
  }

  lemma Grows(a: nat, b: nat, d: nat)
    requires a <= b
    ensures a * d <= b * d
  {
  }

  /** A word that ends in n equal bits. */
  lemma {:induction false} EndsInRun(w: nat, n: nat, rest: nat, one: bool)
    requires w == rest * Pow2(n) + if one then Pow2(n) - 1 else 0
    ensures forall k: nat | k < n :: Bit(w, k) == one
    ensures forall k: nat | k >= n :: Bit(w, k) == Bit(rest, k - n)
    decreases n
  {
    if n > 0 {
      var p := Pow2(n - 1);
      var half := rest * p + if one then p - 1 else 0;
      assert w == 2 * half + if one then 1 else 0;
      EndsInRun(half, n - 1, rest, one);
      forall k: nat | k > 0
        ensures Bit(w, k) == Bit(half, k - 1)
      {
      }
    }
  }

  lemma Powers()
    ensures Pow2(1) == 2 && Pow2(2) == 4 && Pow2(3) == 8 && Pow2(4) == 16 && Pow2(6) == 64 && Pow2(10) == 1024
    ensures Pow2(13) == 8192 && Pow2(15) == 32768 && Pow2(20) == 1048576 && Pow2(22) == 4194304
    ensures Pow2(26) == 67108864 && Pow2(28) == 268435456 && Pow2(32) == 4294967296
  {
    assert Pow2(5) == 32 && Pow2(8) == 256 && Pow2(11) == 2048;
    assert Pow2(16) == 65536 by { assert Pow2(14) == 16384; }
    assert Pow2(20) == 1048576 by { assert Pow2(18) == 262144; }
    assert Pow2(24) == 16777216 by { assert Pow2(22) == 4194304; }
    assert Pow2(28) == 268435456;
    assert Pow2(30) == 1073741824;
  }

  lemma ComponentDigits(k: nat)
    requires k < 32
    ensures Bit(0xfc009fff, k) <==> k < 13 || k == 15 || k > 25
  {
    hide Pow2;
    Powers();
    EndsInRun(0xfc009fff, 13, 0x7e004, true);
    EndsInRun(0x7e004, 2, 0x1f801, false);
    EndsInRun(0x1f801, 1, 0xfc00, true);
    EndsInRun(0xfc00, 10, 0x3f, false);
    EndsInRun(0x3f, 6, 0, true);
  }

  lemma ComponentUpper(k: nat)
    requires k < 32
    ensures Bit(0x78000001, k) <==> k == 0 || 27 <= k <= 30
  {
    hide Pow2;
    Powers();
    EndsInRun(0x78000001, 1, 0x3c000000, true);
    EndsInRun(0x3c000000, 26, 0xf, false);
    EndsInRun(0xf, 4, 0, true);
  }

  lemma ComponentLower(k: nat)
    requires k < 32
    ensures Bit(0xb8000001, k) <==> k == 0 || 27 <= k <= 29 || k == 31
  {
    hide Pow2;
    Powers();
    EndsInRun(0xb8000001, 1, 0x5c000000, true);
    EndsInRun(0x5c000000, 26, 0x17, false);
    EndsInRun(0x17, 3, 2, true);
    EndsInRun(2, 1, 1, false);
    EndsInRun(1, 1, 0, true);
  }

  lemma AllOnes(k: nat)
    requires k < 32
    ensures Bit(0xffffffff, k)
  {
    hide Pow2;
    Powers();
    EndsInRun(0xffffffff, 32, 0, true);
  }

  /**
   The table that the library's encoder uses: it spares exactly letters, digits, and the four marks - . _ ~,
   the unreserved characters of section 2.3 of RFC 3986.
   */
  lemma {:induction false} ComponentSparesUnreserved(c: byte)
    ensures Escapes(2, c) <==>
              !(48 <= c <= 57 || 65 <= c <= 90 || 97 <= c <= 122 || c == 45 || c == 46 || c == 95 || c == 126)
  {
    hide Bit;
    var k := c % 32;
    BitIsShifted(COMPONENT[c / 32], k);
    AllOnes(k);
    ComponentDigits(k);
    ComponentUpper(k);
    ComponentLower(k);
    assert c == c / 32 * 32 + k;
  }

  lemma {:induction false} NoBits()
    ensures forall k: nat :: !Bit(0, k)
  {
    forall k: nat
      ensures !Bit(0, k)
    {
      NoBit(k);
    }
  }

  lemma {:induction false} NoBit(k: nat)
    ensures !Bit(0, k)
  {
    if k > 0 {
      NoBit(k - 1);
    }
  }

  lemma UriPunctuation(k: nat)
    requires k < 32
    ensures Bit(0xd000002d, k) <==> k in {0, 2, 3, 5, 28, 30, 31}
  {
    hide Pow2;
    Powers();
    EndsInRun(0xd000002d, 1, 0x68000016, true);
    EndsInRun(0x68000016, 1, 0x3400000b, false);
    EndsInRun(0x3400000b, 2, 0xd000002, true);
    EndsInRun(0xd000002, 1, 0x6800001, false);
    EndsInRun(0x6800001, 1, 0x3400000, true);
    EndsInRun(0x3400000, 22, 0xd, false);
    EndsInRun(0xd, 1, 6, true);
    EndsInRun(0x6, 1, 3, false);
    EndsInRun(0x3, 2, 0, true);
  }

  lemma ArgsPunctuation(k: nat)
    requires k < 32
    ensures Bit(0xd800086d, k) <==> k in {0, 2, 3, 5, 6, 11, 27, 28, 30, 31}
  {
    hide Pow2;
    Powers();
    EndsInRun(0xd800086d, 1, 0x6c000436, true);
    EndsInRun(0x6c000436, 1, 0x3600021b, false);
    EndsInRun(0x3600021b, 2, 0xd800086, true);
    EndsInRun(0xd800086, 1, 0x6c00043, false);
    EndsInRun(0x6c00043, 2, 0x1b00010, true);
    EndsInRun(0x1b00010, 4, 0x1b0001, false);
    EndsInRun(0x1b0001, 1, 0xd8000, true);
    EndsInRun(0xd8000, 15, 0x1b, false);
    EndsInRun(0x1b, 2, 6, true);
    EndsInRun(0x6, 1, 3, false);
    EndsInRun(0x3, 2, 0, true);
  }

  lemma HtmlPunctuation(k: nat)
    requires k < 32
    ensures Bit(0x500000ad, k) <==> k in {0, 2, 3, 5, 7, 28, 30}
  {
    hide Pow2;
    Powers();
    EndsInRun(0x500000ad, 1, 0x28000056, true);
    EndsInRun(0x28000056, 1, 0x1400002b, false);
    EndsInRun(0x1400002b, 2, 0x500000a, true);
    EndsInRun(0x500000a, 1, 0x2800005, false);
    EndsInRun(0x2800005, 1, 0x1400002, true);
    EndsInRun(0x1400002, 1, 0xa00001, false);
    EndsInRun(0xa00001, 1, 0x500000, true);
    EndsInRun(0x500000, 20, 5, false);
    EndsInRun(0x5, 1, 2, true);
    EndsInRun(0x2, 1, 1, false);
    EndsInRun(0x1, 1, 0, true);
    NoBits();
  }

  lemma RefreshPunctuation(k: nat)
    requires k < 32
    ensures Bit(0x50000085, k) <==> k in {0, 2, 7, 28, 30}
  {
    hide Pow2;
    Powers();
    EndsInRun(0x50000085, 1, 0x28000042, true);
    EndsInRun(0x28000042, 1, 0x14000021, false);
    EndsInRun(0x14000021, 1, 0xa000010, true);
    EndsInRun(0xa000010, 4, 0xa00001, false);
    EndsInRun(0xa00001, 1, 0x500000, true);
    EndsInRun(0x500000, 20, 5, false);
    EndsInRun(0x5, 1, 2, true);
    EndsInRun(0x2, 1, 1, false);
    EndsInRun(0x1, 1, 0, true);
    NoBits();
  }

  lemma SpaceAndPercent(k: nat)
    requires k < 32
    ensures Bit(0x21, k) <==> k in {0, 5}
  {
    hide Pow2;
    Powers();
    EndsInRun(0x21, 1, 0x10, true);
    EndsInRun(0x10, 4, 1, false);
    EndsInRun(0x1, 1, 0, true);
    NoBits();
  }

  lemma SlashAndCaret(k: nat)
    requires k < 32
    ensures Bit(0x50000000, k) <==> k in {28, 30}
  {
    hide Pow2;
    Powers();
    EndsInRun(0x50000000, 28, 5, false);
    EndsInRun(0x5, 1, 2, true);
    EndsInRun(0x2, 1, 1, false);
    EndsInRun(0x1, 1, 0, true);
    NoBits();
  }

  lemma RefreshLower(k: nat)
    requires k < 32
    ensures Bit(0xd8000001, k) <==> k in {0, 27, 28, 30, 31}
  {
    hide Pow2;
    Powers();
    EndsInRun(0xd8000001, 1, 0x6c000000, true);
    EndsInRun(0x6c000000, 26, 0x1b, false);
    EndsInRun(0x1b, 2, 6, true);
    EndsInRun(0x6, 1, 3, false);
    EndsInRun(0x3, 2, 0, true);
  }

  /**
   The other tables. Control characters and bytes above '~' are escaped by all but the memcached one, and besides
   them space " # % < > ? \ ^ ` { | } in a URI, also & + ; in arguments, ' and no ? for HTML, and for refresh
   headers neither % nor # nor ? nor } but ' and ~.
   */
  lemma {:induction false} TablesEscape(c: byte)
    ensures Escapes(0, c) <==> c < 32 || c > 126 || c in {32, 34, 35, 37, 60, 62, 63, 92, 94, 96, 123, 124, 125}
    ensures Escapes(1, c) <==>
              c < 32 || c > 126 || c in {32, 34, 35, 37, 38, 43, 59, 60, 62, 63, 92, 94, 96, 123, 124, 125}
    ensures Escapes(3, c) <==> c < 32 || c > 126 || c in {32, 34, 35, 37, 39, 60, 62, 92, 94, 96, 123, 124, 125}
    ensures Escapes(4, c) <==> c < 32 || c > 126 || c in {32, 34, 39, 60, 62, 92, 94, 96, 123, 124, 126}
    ensures Escapes(5, c) <==> c <= 32 || c == 37
    ensures Escapes(6, c) <==> c <= 32 || c == 37
  {
    hide Bit, Pow2;
    var k := c % 32;
    forall kind | 0 <= kind < 7
      ensures Escapes(kind, c) <==> Bit(Table(kind)[c / 32], k)
    {
      BitIsShifted(Table(kind)[c / 32], k);
    }
    AllOnes(k);
    NoBits();
    ComponentLower(k);
    UriPunctuation(k);
    ArgsPunctuation(k);
    HtmlPunctuation(k);
    RefreshPunctuation(k);
    SpaceAndPercent(k);
    SlashAndCaret(k);
    RefreshLower(k);
    assert c == c / 32 * 32 + k;
  }

  /** The digits of an escape. */
  const UPPER: seq<byte> := [48, 49, 50, 51, 52, 53, 54, 55, 56, 57, 65, 66, 67, 68, 69, 70]

  /** An escaped byte is a percent sign and its two digits, in upper case. */
  lemma EscapesInUpperCase(kind: nat, c: byte)
    requires kind < 7
    ensures EscapeByte(kind, c) == if Escapes(kind, c) then [37, UPPER[c / 16], UPPER[c % 16]] else [c]
  {
    hide Escapes;
  }

  /** The value of a digit of either case. */
  predicate IsHex(ch: byte, v: nat) {
    (48 <= ch <= 57 && v == ch - 48) || (65 <= ch <= 70 && v == ch - 55) || (97 <= ch <= 102 && v == ch - 87)
  }

  /**
   What becomes of a percent sign without the redirect flag: with two digits of either case behind it the
   byte they stand for, and the end with the URI flag if that is '?'; before any other byte it is left out,
   and with one digit and no second one all three are.
   */
  lemma {:induction false} ReadsAnyEscape(flags: nat, h: byte, l: byte, v: nat, w: nat, rest: seq<byte>)
    requires !RedirectFlag(flags)
    ensures IsHex(h, v) && IsHex(l, w) ==>
              Unescape(flags, Usual, [37, h, l] + rest)
              == [v * 16 + w] + if UriFlag(flags) && v * 16 + w == 63 then [] else Unescape(flags, Usual, rest)
    ensures IsHex(h, v) && Digit(l) == 16 ==> Unescape(flags, Usual, [37, h, l] + rest) == Unescape(flags, Usual, rest)
    ensures Digit(h) == 16 ==> Unescape(flags, Usual, [37, h] + rest) == [h] + Unescape(flags, Usual, rest)
    ensures Digit(h) == 16 <==> !(48 <= h <= 57 || 65 <= h <= 70 || 97 <= h <= 102)
  {
    hide Unescape, Turn, IsHex;
    StepsOver(flags, Usual, 37, [h, l] + rest);
    StepsOver(flags, Quoted, h, [l] + rest);
    StepsOver(flags, Usual, 37, [h] + rest);
    StepsOver(flags, Quoted, h, rest);
    PercentTurns(flags, h, l, v, w);
    assert [37] + ([h, l] + rest) == [37, h, l] + rest && [h] + ([l] + rest) == [h, l] + rest;
    assert [37] + ([h] + rest) == [37, h] + rest;
    if Digit(h) < 16 {
      StepsOver(flags, Second(Digit(h), h), l, rest);
      assert [] + Unescape(flags, Usual, rest) == Unescape(flags, Usual, rest);
    }
  }

  lemma PercentTurns(flags: nat, h: byte, l: byte, v: nat, w: nat)
    requires !RedirectFlag(flags)
    ensures Turn(flags, Usual, 37) == Out(Quoted, [], false)
    ensures Turn(flags, Quoted, h) == if Digit(h) < 16 then Out(Second(Digit(h), h), [], false)
            else Out(Usual, [h], false)
    ensures IsHex(h, v) ==> Digit(h) == v < 16
    ensures Digit(h) == 16 <==> !(48 <= h <= 57 || 65 <= h <= 70 || 97 <= h <= 102)
    ensures Digit(h) < 16 && Digit(l) == 16 ==> Turn(flags, Second(Digit(h), h), l) == Out(Usual, [], false)
    ensures IsHex(h, v) && IsHex(l, w) ==>
              var c := v * 16 + w; c < 256 && Turn(flags, Second(v, h), l) == Out(Usual, [c], UriFlag(flags) && c == 63)
  {
  }

  lemma StepsOver(flags: nat, mode: Mode, c: byte, rest: seq<byte>)
    requires mode.Second? ==> mode.decoded < 16
    ensures var t := Turn(flags, mode, c);
            && (t.mode.Second? ==> t.mode.decoded < 16)
            && Unescape(flags, mode, [c] + rest) == t.bytes + if t.stop then [] else Unescape(flags, t.mode, rest)
  {
    hide Turn;
    TurnFits(flags, mode, c);
    assert ([c] + rest)[1..] == rest;
  }

  /** A byte that is neither '%' nor '?' is read as it is, a plus sign included. */
  lemma ReadsOthers(flags: nat, c: byte, rest: seq<byte>)
    requires c != 37 && c != 63
    ensures Unescape(flags, Usual, [c] + rest) == [c] + Unescape(flags, Usual, rest)
  {
    assert ([c] + rest)[1..] == rest;
  }

  /** A '?' ends the string with either flag, and without both it is read like any other byte. */
  lemma EndsAtQuestion(flags: nat, rest: seq<byte>)
    ensures Unescape(flags, Usual, [63] + rest)
         == [63] + if flags % 2 == 1 || flags / 2 % 2 == 1 then [] else Unescape(flags, Usual, rest)
  {
    assert ([63] + rest)[1..] == rest;
  }

  /**
   How far a string without a percent sign is read: to its end, or with a flag as far as its first '?', that byte
   included.
   */
  lemma {:induction false} ReadAsFarAs(flags: nat, s: seq<byte>, k: nat)
    requires 37 !in s && k <= |s| && (forall j | 0 <= j < k :: s[j] != 63) && (k < |s| ==> s[k] == 63)
    ensures Consumed(flags, Usual, s)
         == if k < |s| && (flags % 2 == 1 || flags / 2 % 2 == 1) then k + 1 else |s|
    decreases |s|
  {
    if s != [] {
      assert forall x | x in s[1..] :: x in s;
      if k > 0 {
        ReadAsFarAs(flags, s[1..], k - 1);
      } else if flags % 2 != 1 && flags / 2 % 2 != 1 {
        ReadsToTheEnd(flags, s[1..]);
      }
    }
  }

  lemma {:induction false} ReadsToTheEnd(flags: nat, s: seq<byte>)
    requires 37 !in s && flags % 2 != 1 && flags / 2 % 2 != 1
    ensures Consumed(flags, Usual, s) == |s|
    decreases |s|
  {
    if s != [] {
      assert forall x | x in s[1..] :: x in s;
      ReadsToTheEnd(flags, s[1..]);
    }
  }

  /**
   With the redirect flag an escape stays as it is, unless it stands for a byte between '%' and DEL; a '?' ends the
   string.
   */
  lemma {:induction false} RedirectReads(flags: nat, h: byte, l: byte, v: nat, w: nat, rest: seq<byte>)
    requires RedirectFlag(flags) && !UriFlag(flags) && IsHex(h, v) && IsHex(l, w)
    ensures var c := v * 16 + w;
            Unescape(flags, Usual, [37, h, l] + rest)
            == (if 37 < c < 127 then [c] else [37, h, l]) + if c == 63 then [] else Unescape(flags, Usual, rest)
  {
    hide Unescape, Turn, IsHex, RedirectFlag, UriFlag;
    StepsOver(flags, Usual, 37, [h, l] + rest);
    StepsOver(flags, Quoted, h, [l] + rest);
    RedirectTurns(flags, h, l, v, w);
    StepsOver(flags, Second(Digit(h), h), l, rest);
    assert [37] + ([h, l] + rest) == [37, h, l] + rest && [h] + ([l] + rest) == [h, l] + rest;
  }

  lemma RedirectTurns(flags: nat, h: byte, l: byte, v: nat, w: nat)
    requires RedirectFlag(flags) && !UriFlag(flags) && IsHex(h, v) && IsHex(l, w)
    ensures Digit(h) == v < 16 && Turn(flags, Usual, 37) == Out(Quoted, [], false)
    ensures Turn(flags, Quoted, h) == Out(Second(v, h), [], false)
    ensures var c := v * 16 + w;
            Turn(flags, Second(v, h), l) == Out(Usual, if 37 < c < 127 then [c] else [37, h, l], c == 63)
  {
  }
}
