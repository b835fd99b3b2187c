/**
 The name reader of the mDNS responder, and the meaning of a compressed name.

 `Read` is what the reader computes: a lossy view of a name in at most four slots.
 `Labels` is what section 4.1.4 of RFC 1035 says the same bytes mean: the full label sequence.
 */
module FqdnReader {
  import opened Bytes

  /** Size of one slot of the name structure: 64 characters and a terminator. */
  const NAME_BUF_LEN: nat := 65
  const MAX_LABEL: nat := 63
  const REF: nat := 0xC0

  /** The name structure: the slots filled so far, in the order host, service, proto, domain. */
  datatype Name = Name(slots: seq<text>, sub: bool, invalid: bool)

  const EMPTY_NAME := Name([], false, false)

  datatype Read = Failed | Parsed(end: nat, name: Name)

  /** The second label is glued onto the host unless it is one of these. */
  predicate EndsHost(reverse: bool, c: text) {
    || (c != [] && c[0] == UNDERSCORE)
    || SameText(c, LOCAL)
    || SameText(c, ARPA)
    || (!reverse && (SameText(c, IP6) || SameText(c, IN_ADDR)))
  }

  /** An invalid mark is only ever put on a structure whose slots are full. */
  predicate Sane(n: Name) {
    |n.slots| <= 4 && (n.invalid ==> |n.slots| == 4)
  }

  /** Every turn of the reader's loop starts by noticing that the slots are full. */
  function Mark(n: Name): (r: Name)
    requires Sane(n)
    ensures Sane(r) && r.slots == n.slots && (|r.slots| == 4 <==> r.invalid)
  {
    if |n.slots| == 4 then n.(invalid := true) else n
  }

  /** What one label does to the name structure. */
  function Store(reverse: bool, n: Name, lab: text): (r: Name)
    requires Sane(n) && (|n.slots| == 4 ==> n.invalid)
    ensures Sane(r)
  {
    var c := CString(lab);
    if |n.slots| == 1 && !EndsHost(reverse, c) then
      n.(slots := [Strlcat(Strlcat(n.slots[0], DOT, NAME_BUF_LEN), c, NAME_BUF_LEN)])
    else if SameText(c, SUB) then n.(sub := true)
    else if !n.invalid then n.(slots := n.slots + [c])
    else n
  }

  function PointerTarget(hi: byte, lo: byte): nat {
    (hi % 0x40) * 256 + lo
  }

  /**
   The reader on bytes b of which the first `limit` are the packet; `frag` is where the
   current fragment starts and `pos` is where the loop stands.
   */
  function ReadFrom(reverse: bool, b: seq<byte>, limit: nat, frag: nat, pos: nat, n: Name): (r: Read)
    requires limit < |b|
    requires Sane(n)
    decreases frag, |b| - pos
    ensures r.Parsed? ==> r.end > pos && Sane(r.name)
  {
    if pos >= limit || b[pos] == 0 then Parsed(pos + 1, n)
    else
      var m := Mark(n);
      var len := b[pos];
      if len < REF then
        if len > MAX_LABEL || pos + 1 + len > limit then Failed
        else ReadFrom(reverse, b, limit, frag, pos + 1 + len, Store(reverse, m, b[pos + 1..pos + 1 + len]))
      else
        var target := PointerTarget(len, b[pos + 1]);
        if target >= frag then Failed
        else
          match ReadFrom(reverse, b, limit, target, target, m)
          case Failed => Failed
          case Parsed(_, name) => Parsed(pos + 2, name)
  }

  /** One turn of the loop that reads a label. */
  lemma ReadsLabel(reverse: bool, b: seq<byte>, limit: nat, frag: nat, pos: nat, n: Name, next: nat)
    requires limit < |b| && Sane(n) && pos < limit
    requires 0 < b[pos] <= MAX_LABEL && next == pos + 1 + b[pos] <= limit
    ensures ReadFrom(reverse, b, limit, frag, pos, n)
         == ReadFrom(reverse, b, limit, frag, next, Store(reverse, Mark(n), b[pos + 1..next]))
  {
  }

  /** The reader's loop, recursive only through back-pointers. */
  method ReadFqdn(reverse: bool, packet: array<byte>, limit: nat, start: nat, n0: Name) returns (r: Read)
    requires limit < packet.Length
    requires Sane(n0)
    ensures r == ReadFrom(reverse, packet[..], limit, start, start, n0)
    decreases start
  {
    ghost var b := packet[..];
    ghost var goal := ReadFrom(reverse, b, limit, start, start, n0);
    var pos, n := start, n0;
    while pos < limit && packet[pos] != 0
      invariant Sane(n)
      invariant ReadFrom(reverse, b, limit, start, pos, n) == goal
      decreases packet.Length - pos
    {
      var len := packet[pos];
      if len < REF {
        if len > MAX_LABEL || pos + 1 + len > limit {
          return Failed;
        }
        var next := pos + 1 + len;
        ReadsLabel(reverse, b, limit, start, pos, n, next);
        n := Store(reverse, Mark(n), packet[pos + 1..next]);
        pos := next;
      } else {
        var target := PointerTarget(len, packet[pos + 1]);
        if target >= start {
          return Failed;
        }
        var inner := ReadFqdn(reverse, packet, limit, target, Mark(n));
        return if inner.Failed? then Failed else Parsed(pos + 2, inner.name);
      }
    }
    r := Parsed(pos + 1, n);
  }

  // ----- the meaning of a name -----

  /**
   The labels of a name, where the name's own bytes end, and whether every pointer on the way
   refers to at least one label.
   */
  datatype Decoded = Garbage | Decoded(labels: seq<text>, end: nat, tight: bool)

  predicate Owned(own: set<nat>, lo: nat, hi: nat) {
    forall j | lo <= j < hi :: j in own
  }

  /**
   The labels that the bytes at pos stand for, reading only positions in `own`. A pointer must
   refer to a prior occurrence, that is, to an offset before the fragment it ends.
   */
  ghost function Labels(b: seq<byte>, own: set<nat>, frag: nat, pos: nat): (d: Decoded)
    decreases frag, |b| - pos
    ensures d.Decoded? ==> d.end > pos && pos in own
  {
    if pos >= |b| || pos !in own then Garbage
    else if b[pos] == 0 then Decoded([], pos + 1, true)
    else if b[pos] <= MAX_LABEL then
      var next := pos + 1 + b[pos];
      if next > |b| || !Owned(own, pos, next) then Garbage
      else
        var rest := Labels(b, own, frag, next);
        if rest.Garbage? then Garbage else Decoded([b[pos + 1..next]] + rest.labels, rest.end, rest.tight)
    else if b[pos] < REF || pos + 1 >= |b| || pos + 1 !in own then Garbage
    else
      var target := PointerTarget(b[pos], b[pos + 1]);
      if target >= frag then Garbage
      else
        var rest := Labels(b, own, target, target);
        if rest.Garbage? then Garbage else Decoded(rest.labels, pos + 2, rest.tight && rest.labels != [])
  }

  predicate SameLabels(xs: seq<text>, ys: seq<text>) {
    |xs| == |ys| && forall i | 0 <= i < |xs| :: SameText(xs[i], ys[i])
  }

  /** Labels that the reader can show without loss: at most four, none "_sub", none with a NUL. */
  ghost predicate NoSub(ls: seq<text>) {
    forall i | 0 <= i < |ls| :: !SameText(ls[i], SUB)
  }

  ghost predicate AllNulFree(ls: seq<text>) {
    forall i | 0 <= i < |ls| :: NulFree(ls[i])
  }

  ghost predicate Faithful(ls: seq<text>) {
    |ls| <= 4 && NoSub(ls) && AllNulFree(ls)
  }

  /** What the reader's view of a label sequence is. */
  function View(reverse: bool, n: Name, ls: seq<text>): (r: Name)
    requires Sane(n)
    ensures Sane(r)
    decreases |ls|
  {
    if ls == [] then n else View(reverse, Store(reverse, Mark(n), ls[0]), ls[1..])
  }

  /** A later write outside `own`, and a larger `own`, leave a decoded name as it was. */
  lemma {:induction false} LabelsStable(b: seq<byte>, own: set<nat>, b': seq<byte>, own': set<nat>, frag: nat,
                                        frag': nat, pos: nat)
    requires own <= own' && frag <= frag'
    requires |b| <= |b'| && forall j | j in own && j < |b| :: b'[j] == b[j]
    requires Labels(b, own, frag, pos).Decoded?
    ensures Labels(b', own', frag', pos) == Labels(b, own, frag, pos)
    decreases frag, |b| - pos
  {
    if b[pos] == 0 {
    } else if b[pos] <= MAX_LABEL {
      var next := pos + 1 + b[pos];
      LabelsStable(b, own, b', own', frag, frag', next);
      assert b'[pos + 1..next] == b[pos + 1..next];
    } else {
      var target := PointerTarget(b[pos], b[pos + 1]);
      LabelsStable(b, own, b', own', target, target, target);
    }
  }

  /** Every decoded label has 1 to 63 bytes. */
  lemma {:induction false} LabelSizes(b: seq<byte>, own: set<nat>, frag: nat, pos: nat)
    requires Labels(b, own, frag, pos).Decoded?
    ensures forall k | 0 <= k < |Labels(b, own, frag, pos).labels| ::
            1 <= |Labels(b, own, frag, pos).labels[k]| <= MAX_LABEL
    decreases frag, |b| - pos
  {
    if b[pos] == 0 {
    } else if b[pos] <= MAX_LABEL {
      LabelSizes(b, own, frag, pos + 1 + b[pos]);
    } else {
      var target := PointerTarget(b[pos], b[pos + 1]);
      LabelSizes(b, own, target, target);
    }
  }

  function Unmarked(n: Name): Name { n.(invalid := false) }

  lemma {:induction false} ViewUnmarked(reverse: bool, n: Name, ls: seq<text>)
    requires Sane(n)
    ensures Unmarked(View(reverse, Mark(n), ls)) == Unmarked(View(reverse, n, ls))
  {
  }

  /**
   On bytes that mean a label sequence the reader succeeds, stops where the name stops, and
   shows the view of that sequence; only the invalid mark may be set early, by a pointer met
   with all four slots full.
   */
  lemma {:induction false} ReaderSeesLabels(reverse: bool, b: seq<byte>, own: set<nat>, limit: nat, frag: nat,
                                            pos: nat, n: Name)
    requires limit < |b| && Sane(n)
    requires forall j | j in own :: j < limit
    requires Labels(b, own, frag, pos).Decoded?
    ensures var d := Labels(b, own, frag, pos);
            var r := ReadFrom(reverse, b, limit, frag, pos, n);
            r.Parsed? && r.end == d.end && Unmarked(r.name) == Unmarked(View(reverse, n, d.labels))
    decreases frag, |b| - pos
  {
    if b[pos] == 0 {
    } else if b[pos] <= MAX_LABEL {
      var next := pos + 1 + b[pos];
      assert next - 1 in own;
      ReaderSeesLabels(reverse, b, own, limit, frag, next, Store(reverse, Mark(n), b[pos + 1..next]));
    } else {
      var target := PointerTarget(b[pos], b[pos + 1]);
      ReaderSeesLabels(reverse, b, own, limit, target, target, Mark(n));
      ViewUnmarked(reverse, n, Labels(b, own, frag, pos).labels);
    }
  }

  /** The invalid mark stays off while the labels fit the slots and no pointer is void. */
  lemma {:induction false} ReaderStaysValid(reverse: bool, b: seq<byte>, own: set<nat>, limit: nat, frag: nat,
                                            pos: nat, n: Name)
    requires limit < |b| && Sane(n) && !n.invalid
    requires forall j | j in own :: j < limit
    requires var d := Labels(b, own, frag, pos); d.Decoded? && d.tight && |n.slots| + |d.labels| <= 4
    ensures var r := ReadFrom(reverse, b, limit, frag, pos, n); r.Parsed? && !r.name.invalid
    decreases frag, |b| - pos
  {
    if b[pos] == 0 {
    } else if b[pos] <= MAX_LABEL {
      var next := pos + 1 + b[pos];
      assert next - 1 in own;
      ReaderStaysValid(reverse, b, own, limit, frag, next, Store(reverse, Mark(n), b[pos + 1..next]));
    } else {
      var target := PointerTarget(b[pos], b[pos + 1]);
      ReaderStaysValid(reverse, b, own, limit, target, target, n);
    }
  }

  // ----- when the lossy view identifies a label sequence -----

  /** The host slot never shrinks, and each "_sub" label costs a slot. */
  lemma {:induction false} ViewGrows(reverse: bool, n: Name, ls: seq<text>)
    requires Sane(n)
    ensures var v := View(reverse, n, ls);
            && (n.slots != [] ==> v.slots != [] && |v.slots[0]| >= |n.slots[0]|)
            && |v.slots| <= |n.slots| + |ls|
            && (AllNulFree(ls) && !NoSub(ls) ==> |v.slots| < |n.slots| + |ls|)
    decreases |ls|
  {
    if ls != [] {
      var m := Store(reverse, Mark(n), ls[0]);
      ViewGrows(reverse, m, ls[1..]);
      if AllNulFree(ls) && !NoSub(ls) && !SameText(ls[0], SUB) {
        var i :| 0 <= i < |ls| && SameText(ls[i], SUB);
        assert ls[1..][i - 1] == ls[i];
      }
    }
  }

  /** If the host slot kept its length, nothing was glued onto it and every label took its own slot. */
  lemma {:induction false} ViewPlain(reverse: bool, n: Name, ls: seq<text>)
    requires Sane(n) && n.slots != [] && |n.slots| + |ls| <= 4 && |n.slots[0]| <= MAX_LABEL
    requires NoSub(ls) && AllNulFree(ls)
    requires var v := View(reverse, n, ls); v.slots != [] && |v.slots[0]| == |n.slots[0]|
    ensures View(reverse, n, ls).slots == n.slots + ls
    decreases |ls|
  {
    if ls != [] {
      var m := Store(reverse, Mark(n), ls[0]);
      ViewGrows(reverse, m, ls[1..]);
      assert m.slots == n.slots + [ls[0]];
      ViewPlain(reverse, m, ls[1..]);
      assert n.slots + ls == m.slots + ls[1..];
    }
  }

  /**
   The match test of the name writer compares the first label byte for byte and the slots by
   letter. For any label sequence that passes it, the labels really are the wanted ones if and
   only if there are at most four of them and none is "_sub".
   */
  lemma MatchTestIsExact(reverse: bool, ls: seq<text>, strings: seq<text>)
    requires ls != [] && strings != [] && ls[0] == strings[0] && |ls[0]| <= MAX_LABEL
    requires AllNulFree(ls)
    requires SameLabels(strings, View(reverse, EMPTY_NAME, ls).slots)
    ensures SameLabels(ls, strings) <==> |ls| <= 4 && NoSub(ls)
  {
    ViewGrows(reverse, EMPTY_NAME, ls);
    if |ls| <= 4 && NoSub(ls) {
      var m := Store(reverse, EMPTY_NAME, ls[0]);
      assert m.slots == [ls[0]];
      assert View(reverse, EMPTY_NAME, ls) == View(reverse, m, ls[1..]);
      ViewPlain(reverse, m, ls[1..]);
      assert [ls[0]] + ls[1..] == ls;
    }
  }

  // ----- a host of several labels -----

  /** The labels with byte 46 between them. */
  function Dotted(hs: seq<text>): text
    requires hs != []
  {
    if |hs| == 1 then hs[0] else Dotted(hs[..|hs| - 1]) + [46] + hs[|hs| - 1]
  }

  /** As much as a slot of 64 characters takes. */
  function Cut(s: text): text { if |s| <= 64 then s else s[..64] }

  /**
   A label that goes on with the host: it does not begin with an underscore, and is neither "local" nor
   "arpa", nor, unless reverse queries are answered, "ip6" or "in-addr".
   */
  predicate GoesOn(reverse: bool, c: text) {
    && c != [] && c[0] != 95 && !SameText(c, LOCAL) && !SameText(c, ARPA)
    && (reverse || (!SameText(c, IP6) && !SameText(c, IN_ADDR)))
  }

  /** A label that goes on is joined to the host with a dot, as far as there is room. */
  lemma StoreJoins(reverse: bool, n: Name, c: text)
    requires |n.slots| == 1 && !n.invalid && |n.slots[0]| <= 64 && NulFree(c) && GoesOn(reverse, c)
    ensures Store(reverse, Mark(n), c) == n.(slots := [Cut(n.slots[0] + [46] + c)])
  {
    var t := n.slots[0];
    var u, w := Strlcat(t, DOT, NAME_BUF_LEN), t + [46] + c;
    if |t| == 64 {
      assert w[..64] == t;
    } else {
      assert u == t + [46];
      assert |w| > 64 ==> w[..64] == u + c[..64 - |u|];
    }
  }

  lemma CutOnce(s: text, t: text)
    ensures Cut(Cut(s) + t) == Cut(s + t)
  {
    if |s| > 64 {
      assert (s + t)[..64] == s[..64];
    }
  }

  lemma {:induction false} ViewJoins(reverse: bool, hs: seq<text>, k: nat, rest: seq<text>)
    requires 0 < k <= |hs| && AllNulFree(hs) && |hs[0]| <= MAX_LABEL
    requires forall i | 0 < i < |hs| :: GoesOn(reverse, hs[i])
    ensures View(reverse, Name([Cut(Dotted(hs[..k]))], false, false), hs[k..] + rest)
         == View(reverse, Name([Cut(Dotted(hs))], false, false), rest)
    decreases |hs| - k
  {
    hide Store, GoesOn;
    if k == |hs| {
      assert hs[..k] == hs && hs[k..] + rest == rest;
    } else {
      var n := Name([Cut(Dotted(hs[..k]))], false, false);
      StoreJoins(reverse, n, hs[k]);
      assert hs[..k + 1][..k] == hs[..k] && hs[..k + 1][k] == hs[k];
      assert Dotted(hs[..k + 1]) == Dotted(hs[..k]) + ([46] + hs[k]);
      assert Cut(Dotted(hs[..k])) + [46] + hs[k] == Cut(Dotted(hs[..k])) + ([46] + hs[k]);
      CutOnce(Dotted(hs[..k]), [46] + hs[k]);
      assert (hs[k..] + rest)[0] == hs[k] && (hs[k..] + rest)[1..] == hs[k + 1..] + rest;
      ViewJoins(reverse, hs, k + 1, rest);
    }
  }

  /** Labels behind the host take a slot each. */
  lemma {:induction false} ViewTakesEach(reverse: bool, n: Name, ls: seq<text>)
    requires !n.invalid && |n.slots| > 0 && |n.slots| + |ls| <= 4
    requires AllNulFree(ls) && NoSub(ls) && (|n.slots| == 1 && ls != [] ==> ls[0] != [] && !GoesOn(reverse, ls[0]))
    ensures View(reverse, n, ls) == n.(slots := n.slots + ls)
    decreases |ls|
  {
    if ls == [] {
      assert n.slots + ls == n.slots;
    } else {
      var m := n.(slots := n.slots + [ls[0]]);
      assert Store(reverse, Mark(n), ls[0]) == m;
      ViewTakesEach(reverse, m, ls[1..]);
      assert n.slots + [ls[0]] + ls[1..] == n.slots + ls;
    }
  }

  /**
   A host of several labels, and up to three labels behind it of which the first does not go on with
   the host: the reader's first slot holds the labels of the host joined by dots, cut at 64
   characters, and the labels behind it stand in the next slots.
   */
  lemma {:induction false} HostIsJoined(reverse: bool, b: seq<byte>, own: set<nat>, limit: nat, pos: nat,
                                        hs: seq<text>, rest: seq<text>)
    requires limit < |b| && (forall j | j in own :: j < limit)
    requires var d := Labels(b, own, pos, pos); d.Decoded? && d.labels == hs + rest
    requires hs != [] && AllNulFree(hs + rest) && !SameText(hs[0], SUB) && NoSub(rest) && |rest| <= 3
    requires (forall i | 0 < i < |hs| :: GoesOn(reverse, hs[i])) && (rest != [] ==> !GoesOn(reverse, rest[0]))
    ensures var r := ReadFrom(reverse, b, limit, pos, pos, EMPTY_NAME);
            r.Parsed? && r.name.slots == [Cut(Dotted(hs))] + rest && !r.name.sub
  {
    hide ReadFrom, Labels, GoesOn, Store, Cut;
    LabelSizes(b, own, pos, pos);
    ReaderSeesLabels(reverse, b, own, limit, pos, pos, EMPTY_NAME);
    var ls := hs + rest;
    assert AllNulFree(hs) by { assert forall i | 0 <= i < |hs| :: ls[i] == hs[i]; }
    assert AllNulFree(rest) by { assert forall i | 0 <= i < |rest| :: ls[|hs| + i] == rest[i]; }
    assert ls[0] == hs[0] && |hs[0]| <= MAX_LABEL;
    assert rest != [] ==> ls[|hs|] == rest[0] != [];
    FirstTakesSlot(reverse, hs[0]);
    assert ls[1..] == hs[1..] + rest;
    assert hs[..1] == [hs[0]] && Dotted(hs[..1]) == hs[0];
    ShortIsWhole(hs[0]);
    ViewJoins(reverse, hs, 1, rest);
    ViewTakesEach(reverse, Name([Cut(Dotted(hs))], false, false), rest);
  }

  lemma FirstTakesSlot(reverse: bool, c: text)
    requires NulFree(c) && !SameText(c, SUB)
    ensures Store(reverse, Mark(EMPTY_NAME), c) == Name([c], false, false)
  {
  }

  lemma ShortIsWhole(c: text)
    requires |c| <= 64
    ensures Cut(c) == c
  {
  }

  // ----- what the reader accepts -----

  /**
   With a zero byte behind the packet, the reader accepts exactly what decodes inside the packet, where
   that byte may serve as the root.
   */
  lemma {:induction false} ReaderAccepts(reverse: bool, b: seq<byte>, limit: nat, own: set<nat>, frag: nat, pos: nat,
                                         n: Name)
    requires limit < |b| && b[limit] == 0 && pos <= limit && frag <= limit && Sane(n)
    requires forall j: nat :: j in own <==> j <= limit
    ensures ReadFrom(reverse, b, limit, frag, pos, n).Parsed? <==> Labels(b, own, frag, pos).Decoded?
    decreases frag, |b| - pos
  {
    hide Store;
    if pos < limit && b[pos] != 0 {
      var len := b[pos];
      if len <= MAX_LABEL {
        var next := pos + 1 + len;
        if next <= limit {
          ReaderAccepts(reverse, b, limit, own, frag, next, Store(reverse, Mark(n), b[pos + 1..next]));
        }
      } else if len >= REF {
        var target := PointerTarget(len, b[pos + 1]);
        if target < frag {
          ReaderAccepts(reverse, b, limit, own, target, target, Mark(n));
        }
      }
    }
  }
}
