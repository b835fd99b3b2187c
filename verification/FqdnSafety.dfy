/**
 When compression is safe, from what a caller knows before the call: which labels it passes, which
 names the packet holds, and which bytes stand outside them.
 */
module FqdnSafety {
  import opened Bytes
  import opened FqdnReader
  import opened FqdnWriter
  import opened FqdnCompression
  import opened FqdnHistory

  /** The offset lies inside the bytes of a recorded name, and not on its last byte. */
  ghost predicate Inside(p: Packet, at: nat) {
    exists s :: s in p.names && Labels(p.b, p.own, s, s).Decoded? && s <= at < Labels(p.b, p.own, s, s).end - 1
  }

  /** A whole label with its length byte. */
  predicate Stands(b: seq<byte>, at: nat, s: text) {
    at + 1 + |s| <= |b| && b[at] == |s| && b[at + 1..at + 1 + |s|] == s
  }

  /** The bytes of labels without compression. */
  function Spelled(strings: seq<text>): seq<byte> {
    if strings == [] then [] else [LenByte(strings[0])] + strings[0] + Spelled(strings[1..])
  }

  /** The buffer with the first k labels of a name written out. */
  function Begun(p: Packet, strings: seq<text>, k: nat): (b: seq<byte>)
    requires k <= |strings| && p.index + |Spelled(strings[..k])| <= |p.b|
    ensures |b| == |p.b|
  {
    Put(p.b, p.index, Spelled(strings[..k]))
  }

  /**
   Wherever in front of the call one of its labels stands when the writer looks for it, it stands
   inside a recorded name.
   */
  ghost predicate Quiet(p: Packet, strings: seq<text>) {
    forall at, k | 0 <= at < p.index && 0 <= k < |strings| && p.index + |Spelled(strings[..k])| <= |p.b| ::
      Stands(Begun(p, strings, k), at, strings[k]) ==> Inside(p, at)
  }

  /** No byte of the labels is the length of one of the strings. */
  ghost predicate Apart(ls: seq<text>, strings: seq<text>) {
    forall k | 0 <= k < |strings| && |strings[k]| < 256 :: Lacks(ls, |strings[k]|)
  }

  /** Labels none of whose bytes can be taken for the length of one of them. */
  ghost predicate Tame(strings: seq<text>) {
    Writable(strings) && Apart(strings, strings)
  }

  ghost predicate TameNames(p: Packet, strings: seq<text>) {
    forall s | s in p.names :: Apart(p.names[s], strings)
  }

  predicate AllDifferent(strings: seq<text>) {
    forall i, j | 0 <= i < j < |strings| :: strings[i] != strings[j]
  }

  /** Everything that makes the writer's search find labels of recorded names only. */
  ghost predicate Findable(p: Packet, strings: seq<text>) {
    Tame(strings) && AllDifferent(strings) && TameNames(p, strings) && Quiet(p, strings)
  }

  /** Everything a caller has to see to before it appends a name. */
  ghost predicate SafeName(cap: nat, p: Packet, strings: seq<text>) {
    Plain(strings) && Findable(p, strings) && p.index + WireLength(strings) <= cap
  }

  // ----- what the call has written so far -----

  lemma {:induction false} SpelledJoin(xs: seq<text>, ys: seq<text>)
    ensures Spelled(xs + ys) == Spelled(xs) + Spelled(ys)
    decreases |xs|
  {
    if xs == [] {
      assert xs + ys == ys;
    } else {
      assert (xs + ys)[1..] == xs[1..] + ys;
      SpelledJoin(xs[1..], ys);
    }
  }

  lemma SpelledOne(s: text)
    ensures Spelled([s]) == [LenByte(s)] + s
  {
    assert [s][1..] == [];
    assert [LenByte(s)] + s + [] == [LenByte(s)] + s;
  }

  lemma SpelledNext(strings: seq<text>, k: nat)
    requires k < |strings|
    ensures Spelled(strings[..k + 1]) == Spelled(strings[..k]) + ([LenByte(strings[k])] + strings[k])
  {
    assert strings[..k + 1] == strings[..k] + [strings[k]];
    SpelledJoin(strings[..k], [strings[k]]);
    SpelledOne(strings[k]);
  }

  /** A byte that no label has is a length byte, where a whole label stands. */
  lemma {:induction false} LengthBytesOfCall(strings: seq<text>, at: nat) returns (i: nat)
    requires Writable(strings) && at < |Spelled(strings)| && Lacks(strings, Spelled(strings)[at])
    ensures i < |strings| && Stands(Spelled(strings), at, strings[i])
    decreases |strings|
  {
    var s, rest := strings[0], strings[1..];
    var x := [LenByte(s)] + s;
    assert Spelled(strings) == x + Spelled(rest);
    if at == 0 {
      i := 0;
      assert Spelled(strings)[1..1 + |s|] == s;
    } else {
      if at < |x| {
        SpelledFirst(strings, at);
        assert false;
      }
      var j := at - |x|;
      assert Spelled(strings)[at] == Spelled(rest)[j];
      assert forall n | 0 <= n < |rest| :: rest[n] == strings[n + 1];
      i := LengthBytesOfCall(rest, j);
      StandsBehind(x, Spelled(rest), j, rest[i]);
      i := i + 1;
    }
  }

  lemma SpelledFirst(strings: seq<text>, at: nat)
    requires strings != [] && 0 < at <= |strings[0]|
    ensures at < |Spelled(strings)| && Spelled(strings)[at] == strings[0][at - 1]
  {
  }

  lemma StandsBehind(x: seq<byte>, y: seq<byte>, at: nat, s: text)
    requires Stands(y, at, s)
    ensures Stands(x + y, |x| + at, s)
  {
    assert (x + y)[|x| + at + 1..|x| + at + 1 + |s|] == y[at + 1..at + 1 + |s|];
  }

  lemma StandsTwice(b: seq<byte>, at: nat, s: text, t: text)
    requires Stands(b, at, s) && Stands(b, at, t)
    ensures s == t
  {
  }

  lemma StandsIn(b: seq<byte>, at: nat, x: seq<byte>, j: nat, s: text)
    requires at + |x| <= |b| && Stands(x, j, s)
    ensures Stands(Put(b, at, x), at + j, s)
  {
    assert Put(b, at, x)[at + j + 1..at + j + 1 + |s|] == x[j + 1..j + 1 + |s|];
  }

  /** Labels that all differ do not match among themselves. */
  lemma NoMatchAmongOwn(p: Packet, strings: seq<text>, k: nat, at: nat)
    requires Tame(strings) && AllDifferent(strings) && k < |strings| && p.index + |Spelled(strings[..k])| <= |p.b|
    requires at < p.index + |Spelled(strings[..k])| && Stands(Begun(p, strings, k), at, strings[k])
    ensures at < p.index
  {
    hide Spelled, Stands, Put;
    if at >= p.index {
      var b, own := Begun(p, strings, k), Spelled(strings[..k]);
      assert b[at] == |strings[k]| == own[at - p.index] by { FirstByte(b, at, strings[k]); }
      assert Lacks(strings[..k], |strings[k]|);
      var i := LengthBytesOfCall(strings[..k], at - p.index);
      StandsIn(p.b, p.index, own, at - p.index, strings[i]);
      StandsTwice(b, at, strings[i], strings[k]);
    }
  }

  lemma StandsSame(b: seq<byte>, b1: seq<byte>, at: nat, s: text, hi: nat)
    requires AgreeBelow(b, b1, hi) && at + 1 + |s| <= hi
    ensures Stands(b, at, s) <==> Stands(b1, at, s)
  {
    if at + 1 + |s| <= |b| {
      assert b[at + 1..at + 1 + |s|] == b1[at + 1..at + 1 + |s|];
    }
  }

  lemma StandsOver(b: seq<byte>, at: nat, s: text, mid: nat)
    requires Stands(b, at, s) && at < mid < at + 1 + |s|
    ensures b[mid] == s[mid - at - 1]
  {
    assert b[mid] == b[at + 1..at + 1 + |s|][mid - at - 1];
  }

  lemma QuietThere(p: Packet, strings: seq<text>, k: nat, at: nat)
    requires Quiet(p, strings) && at < p.index && k < |strings| && p.index + |Spelled(strings[..k])| <= |p.b|
    requires Stands(Begun(p, strings, k), at, strings[k])
    ensures Inside(p, at)
  {
  }

  lemma StandsInRaw(b: seq<byte>, lo: nat, x: seq<byte>, at: nat, s: text)
    requires Stands(b, at, s) && lo <= at && at + 1 + |s| <= lo + |x| <= |b| && b[lo..lo + |x|] == x
    ensures Stands(x, at - lo, s)
  {
    var i := at - lo;
    assert x[i] == b[at];
    forall j | 0 <= j < |s|
      ensures x[i + 1..i + 1 + |s|][j] == s[j]
    {
      assert x[i + 1 + j] == b[at + 1 + j] == b[at + 1..at + 1 + |s|][j];
    }
  }

  lemma FirstByte(b: seq<byte>, at: nat, s: text)
    requires Stands(b, at, s)
    ensures at < |b| && b[at] == |s|
  {
  }

  lemma MatchStands(reverse: bool, b: seq<byte>, cap: nat, at: nat, strings: seq<text>)
    requires cap + SLACK <= |b| && at < cap && strings != [] && 1 <= |strings[0]| < 256
    requires Matches(reverse, b, cap, at, strings)
    ensures Stands(b, at, strings[0])
  {
    assert strings[0][..|strings[0]|] == strings[0];
  }

  /** The next label is written behind the others. */
  lemma BegunMore(p: Packet, strings: seq<text>, k: nat, b1: seq<byte>)
    requires k < |strings| && |strings[k]| < 256 && p.index + |Spelled(strings[..k])| + 1 + |strings[k]| <= |p.b|
    requires var b, index := Begun(p, strings, k), p.index + |Spelled(strings[..k])|;
             var next := index + 1 + |strings[k]|;
             && |b1| == |b| && b1[index..next] == [|strings[k]|] + strings[k]
             && forall j | 0 <= j < |b| && !(index <= j < next) :: b1[j] == b[j]
    ensures p.index + |Spelled(strings[..k + 1])| == p.index + |Spelled(strings[..k])| + 1 + |strings[k]|
    ensures Begun(p, strings, k + 1) == b1
  {
    hide Spelled;
    SpelledNext(strings, k);
    var x, y := Spelled(strings[..k]), [LenByte(strings[k])] + strings[k];
    var b, index := Begun(p, strings, k), p.index + |x|;
    assert b1 == Put(b, index, y) by {
      forall j | 0 <= j < |b|
        ensures b1[j] == Put(b, index, y)[j]
      {
        assert index <= j < index + |y| ==> b1[j] == b1[index..index + |y|][j - index];
      }
    }
    PutBehind(p.b, p.index, x, y);
  }

  lemma PutBehind(b: seq<byte>, at: nat, x: seq<byte>, y: seq<byte>)
    requires at + |x| + |y| <= |b|
    ensures Put(Put(b, at, x), at + |x|, y) == Put(b, at, x + y)
  {
  }

  /**
   From any suffix on, a back-pointer that the call writes refers to a place in front of the name
   where a label stands.
   */
  lemma {:induction false} TargetStands(reverse: bool, cap: nat, p: Packet, strings: seq<text>, k: nat)
    returns (m: nat)
    requires Tame(strings) && AllDifferent(strings) && k <= |strings| && p.index + |Spelled(strings[..k])| <= cap
    requires cap + SLACK <= |p.b|
    requires !Append(reverse, Begun(p, strings, k), p.index + |Spelled(strings[..k])|, cap, strings[k..]).stop.Full?
    ensures var o := Append(reverse, Begun(p, strings, k), p.index + |Spelled(strings[..k])|, cap, strings[k..]);
            o.stop.Ref? ==> && o.stop.at < p.index && k <= m < |strings| && p.index + |Spelled(strings[..m])| <= |p.b|
                            && Stands(Begun(p, strings, m), o.stop.at, strings[m])
                            && p.b[o.stop.at] == |strings[m]|
    decreases |strings| - k
  {
    hide ReadFrom, Matches, Search, Append, Spelled, Begun, Stands, AllDifferent;
    var b, index := Begun(p, strings, k), p.index + |Spelled(strings[..k])|;
    var rest := strings[k..];
    m := k;
    if rest == [] {
      NoNameNoPointer(reverse, b, index, cap);
    } else if Search(reverse, b, index, cap, rest, 0).At? {
      AppendPointer(reverse, b, index, cap, rest);
      var at := Search(reverse, b, index, cap, rest, 0).at;
      MatchStands(reverse, b, cap, at, rest);
      NoMatchAmongOwn(p, strings, k, at);
      FirstByte(b, at, strings[k]);
      BegunFront(p, strings, k, at);
    } else {
      var b1 := AppendLiteral(reverse, b, index, cap, rest);
      BegunMore(p, strings, k, b1);
      assert rest[1..] == strings[k + 1..];
      m := TargetStands(reverse, cap, p, strings, k + 1);
    }
  }

  lemma BegunFront(p: Packet, strings: seq<text>, k: nat, at: nat)
    requires k <= |strings| && p.index + |Spelled(strings[..k])| <= |p.b| && at < p.index
    ensures Begun(p, strings, k)[at] == p.b[at]
  {
  }

  lemma NothingBegun(p: Packet, strings: seq<text>)
    requires p.index <= |p.b|
    ensures |Spelled(strings[..0])| == 0 && Begun(p, strings, 0) == p.b && strings[0..] == strings
  {
  }

  lemma NoNameNoPointer(reverse: bool, b: seq<byte>, index: nat, cap: nat)
    requires cap + SLACK <= |b| && index <= cap
    ensures !Append(reverse, b, index, cap, []).stop.Ref?
  {
  }

  /** Inside a recorded name, a byte that is the length of a label and occurs in no label starts a good target. */
  lemma InsideIsGood(p: Packet, cap: nat, at: nat, strings: seq<text>, i: nat)
    requires Inv(p, cap) && Writable(strings) && TameNames(p, strings) && Inside(p, at)
    requires i < |strings| && at < |p.b| && p.b[at] == |strings[i]|
    ensures GoodTarget(p.b, p.own, at) && Tight(p.b, p.own, at, at)
  {
    hide Labels, Faithful, Tight;
    var s :| s in p.names && Labels(p.b, p.own, s, s).Decoded? && s <= at < Labels(p.b, p.own, s, s).end - 1;
    assert NameHolds(p, s);
    var d := Labels(p.b, p.own, s, s);
    assert Lacks(p.names[s], |strings[i]|);
    LacksUpToCase(d.labels, p.names[s], p.b[at]);
    NameEnds(p, cap, s);
    LengthBytesOfName(p.b, p.own, s, s, at);
    BoundaryMatchIsRecordable(p, cap, Out(p.b, p.index, 0, Ref(at)), s);
  }

  lemma NameEnds(p: Packet, cap: nat, s: nat)
    requires Inv(p, cap) && s in p.names
    ensures Labels(p.b, p.own, s, s).Decoded? && Labels(p.b, p.own, s, s).end <= p.index <= |p.b|
  {
    hide Labels;
    assert NameHolds(p, s);
    OwnEnds(p.b, p.own, s, s);
  }

  lemma {:induction false} OwnEnds(b: seq<byte>, own: set<nat>, frag: nat, pos: nat)
    requires Labels(b, own, frag, pos).Decoded?
    ensures Labels(b, own, frag, pos).end - 1 in own
    decreases |b| - pos
  {
    if 1 <= b[pos] <= MAX_LABEL {
      OwnEnds(b, own, frag, pos + 1 + b[pos]);
    }
  }

  /** Labels that can only be found in recorded names, any number of them: the call is sound. */
  lemma FindableIsSound(reverse: bool, cap: nat, p: Packet, strings: seq<text>)
    requires Inv(p, cap) && Findable(p, strings) && p.index + WireLength(strings) <= cap
    ensures Recordable(p, Append(reverse, p.b, p.index, cap, strings))
  {
    hide Append, Labels, Inside, GoodTarget, Tight, Spelled, Begun, Stands;
    HasRoom(reverse, cap, p.b, p.index, strings);
    NothingBegun(p, strings);
    var m := TargetStands(reverse, cap, p, strings, 0);
    var o := Append(reverse, p.b, p.index, cap, strings);
    if o.stop.Ref? {
      InsideIsGood(p, cap, o.stop.at, strings, m);
    }
  }

  /**
   Every call whose labels all differ, in a packet where those labels stand inside recorded names
   only and no byte of a label can be taken for the length of one of them, is recordable: it has
   room, and what it points to, if anything, is a good target.
   */
  lemma {:induction false} SafeCallIsRecordable(reverse: bool, cap: nat, p: Packet, strings: seq<text>)
    requires Inv(p, cap) && SafeName(cap, p, strings)
    ensures Recordable(p, Append(reverse, p.b, p.index, cap, strings))
  {
    hide Append, Findable, Recordable, Plain;
    FindableIsSound(reverse, cap, p, strings);
  }

  /** Labels shorter than 32 bytes without control bytes are tame, whatever else the packet holds of that kind. */
  lemma ShortIsTame(p: Packet, strings: seq<text>)
    requires Writable(strings) && forall k | 0 <= k < |strings| :: |strings[k]| < 32
    requires NoControl(strings) && forall s | s in p.names :: NoControl(p.names[s])
    ensures Tame(strings) && TameNames(p, strings)
  {
  }

  ghost predicate NoControl(ls: seq<text>) {
    forall i, j | 0 <= i < |ls| && 0 <= j < |ls[i]| :: ls[i][j] >= 32
  }

  // ----- whole packets -----

  /** A run whose every name is safe when it is written, and whose length fields stay off the names. */
  ghost predicate SafeRun(reverse: bool, cap: nat, p: Packet, ops: seq<Op>)
    requires cap + SLACK <= |p.b| && p.index <= cap
    decreases |ops|
  {
    ops == [] ||
    (&& Allowed(p, ops[0]) && (ops[0].WriteName? ==> SafeName(cap, p, ops[0].strings))
     && SafeRun(reverse, cap, Step(reverse, cap, p, ops[0]), ops[1..]))
  }

  lemma {:induction false} SafeRunIsGood(reverse: bool, cap: nat, p: Packet, ops: seq<Op>)
    requires Inv(p, cap) && SafeRun(reverse, cap, p, ops)
    ensures GoodRun(reverse, cap, p, ops)
    decreases |ops|
  {
    hide Append, Recordable, Step, SafeName, Allowed, NameHolds;
    if ops != [] {
      if ops[0].WriteName? {
        assert Plain(ops[0].strings) by { SafeIsPlain(cap, p, ops[0].strings); }
        SafeCallIsRecordable(reverse, cap, p, ops[0].strings);
      }
      StepKeeps(reverse, cap, p, ops[0]);
      SafeRunIsGood(reverse, cap, Step(reverse, cap, p, ops[0]), ops[1..]);
    }
  }

  lemma SafeIsPlain(cap: nat, p: Packet, strings: seq<text>)
    requires SafeName(cap, p, strings)
    ensures Plain(strings)
  {
  }

  /** In a packet written safely every name decodes to the labels given for it. */
  lemma {:induction false} SafeNamesKeepTheirMeaning(reverse: bool, cap: nat, p: Packet, ops: seq<Op>, k: nat)
    requires Inv(p, cap) && SafeRun(reverse, cap, p, ops)
    requires k < |ops| && ops[k].WriteName?
    ensures var r := Run(reverse, cap, p, ops);
            var start := Run(reverse, cap, p, ops[..k]).index;
            && start in r.names && r.names[start] == ops[k].strings
            && var d := Labels(r.b, r.own, start, start);
               d.Decoded? && SameLabels(d.labels, ops[k].strings)
  {
    hide Inv, Append, Labels, Step, Run, GoodRun, SafeRun;
    SafeRunIsGood(reverse, cap, p, ops);
    EveryNameKeepsItsMeaning(reverse, cap, p, ops, k);
  }

  // ----- a host called like the domain -----

  lemma {:induction false} SearchReaches(reverse: bool, b: seq<byte>, index: nat, cap: nat, strings: seq<text>,
                                         from: nat, to: nat)
    requires cap + SLACK <= |b| && index <= cap && strings != []
    requires from <= to < index && Matches(reverse, b, cap, to, strings)
    requires forall j | from <= j < to :: !Matches(reverse, b, cap, j, strings)
    ensures Search(reverse, b, index, cap, strings, from) == At(to)
    decreases index - from
  {
    hide Matches;
    if from < to {
      SearchReaches(reverse, b, index, cap, strings, from + 1, to);
    }
  }

  lemma {:induction false} SearchMisses(reverse: bool, b: seq<byte>, index: nat, cap: nat, strings: seq<text>,
                                        from: nat, at: nat)
    requires cap + SLACK <= |b| && index <= cap && strings != []
    requires Search(reverse, b, index, cap, strings, from).Nowhere? && from <= at < index
    ensures !Matches(reverse, b, cap, at, strings)
    decreases index - from
  {
    hide Matches;
    if from < at {
      SearchMisses(reverse, b, index, cap, strings, from + 1, at);
    }
  }

  /** A match inside a settled name is one in every buffer that holds the name. */
  lemma MatchMoves(reverse: bool, cap: nat, own: set<nat>, b: seq<byte>, c: seq<byte>, at: nat, strings: seq<text>)
    requires cap + SLACK <= |b| == |c| && at < cap && (forall j | j in own :: j < cap && c[j] == b[j])
    requires strings != [] && 1 <= |strings[0]| <= MAX_LABEL && GoodTarget(b, own, at)
    requires Matches(reverse, b, cap, at, strings)
    ensures Matches(reverse, c, cap, at, strings)
  {
    hide ReadFrom, View, Faithful;
    LabelsStable(b, own, c, own, at, at, at);
    ReaderSeesLabels(reverse, b, own, cap, at, at, EMPTY_NAME);
    ReaderSeesLabels(reverse, c, own, cap, at, at, EMPTY_NAME);
    var next := at + 1 + |strings[0]|;
    assert next - 1 in own;
    assert b[at + 1..next] == c[at + 1..next];
  }

  /** A match inside a settled name does not depend on what stands behind the names. */
  lemma InsideMatchKept(reverse: bool, cap: nat, p: Packet, b: seq<byte>, strings: seq<text>, at: nat)
    requires Inv(p, cap) && |b| == |p.b| && (forall j | 0 <= j < p.index :: b[j] == p.b[j])
    requires strings != [] && 1 <= |strings[0]| <= MAX_LABEL && at < p.index
    requires GoodTarget(p.b, p.own, at) && Matches(reverse, b, cap, at, strings)
    ensures Matches(reverse, p.b, cap, at, strings)
  {
    hide Labels, Faithful, Matches, NameHolds;
    LabelsStable(p.b, p.own, b, p.own, at, at, at);
    MatchMoves(reverse, cap, p.own, b, p.b, at, strings);
  }

  /** One label, and a zero byte behind it. */
  lemma LabelMatches(reverse: bool, b: seq<byte>, cap: nat, at: nat, s: text)
    requires cap + SLACK <= |b| && at + 1 + |s| < cap
    requires 1 <= |s| <= MAX_LABEL && NulFree(s) && !SameText(s, SUB) && Stands(b, at, s) && b[at + 1 + |s|] == 0
    ensures Matches(reverse, b, cap, at, [s])
  {
    ReadsLabel(reverse, b, cap, at, at, EMPTY_NAME, at + 1 + |s|);
    assert Store(reverse, EMPTY_NAME, s).slots == [s];
    assert s[..|s|] == s;
  }

  /** The bytes of a name under construction mean nothing yet. */
  lemma UnsettledIsBad(p: Packet, cap: nat, o: Out)
    requires Inv(p, cap) && o.stop.Ref? && o.stop.at >= p.index
    ensures !Recordable(p, o)
  {
  }

  /**
   A host name in a packet that holds neither it nor the domain yet, with a zero byte behind where
   its first label will stand: for every such packet the call is recordable if and only if the host
   is not called exactly like the domain. If it is, the name points to itself.
   */
  lemma {:induction false} HostNameExact(reverse: bool, cap: nat, p: Packet, host: text)
    requires Inv(p, cap) && Plain([host, LOCAL]) && Tame([host, LOCAL]) && TameNames(p, [host, LOCAL])
             && Quiet(p, [host, LOCAL])
    requires p.index + WireLength([host, LOCAL]) <= cap && p.b[p.index + 1 + |host|] == 0
    requires Search(reverse, p.b, p.index, cap, [host, LOCAL], 0).Nowhere?
    requires Search(reverse, p.b, p.index, cap, [LOCAL], 0).Nowhere?
    ensures var o := Append(reverse, p.b, p.index, cap, [host, LOCAL]);
            && (Recordable(p, o) <==> host != LOCAL)
            && (host == LOCAL ==> o.stop == Ref(p.index))
  {
    hide Append, Matches, Search, Recordable, Quiet;
    if host != LOCAL {
      SafeCallIsRecordable(reverse, cap, p, [host, LOCAL]);
    } else {
      LocalPointsToItself(reverse, cap, p);
      UnsettledIsBad(p, cap, Append(reverse, p.b, p.index, cap, [LOCAL, LOCAL]));
    }
  }

  /** The first label of a name that is found nowhere stands where the name begins. */
  lemma FirstIsWritten(reverse: bool, cap: nat, p: Packet, strings: seq<text>) returns (b1: seq<byte>)
    requires cap + SLACK <= |p.b| && strings != [] && Writable(strings) && p.index + WireLength(strings) <= cap
    requires Search(reverse, p.b, p.index, cap, strings, 0).Nowhere?
    ensures var next := p.index + 1 + |strings[0]|;
            && |b1| == |p.b| && next + WireLength(strings[1..]) <= cap
            && Stands(b1, p.index, strings[0])
            && (forall j | 0 <= j < |b1| && !(p.index <= j < next) :: b1[j] == p.b[j])
            && next == p.index + |Spelled(strings[..1])| && b1 == Begun(p, strings, 1)
            && Append(reverse, p.b, p.index, cap, strings).stop == Append(reverse, b1, next, cap, strings[1..]).stop
            && Append(reverse, p.b, p.index, cap, strings).index == Append(reverse, b1, next, cap, strings[1..]).index
            && Append(reverse, p.b, p.index, cap, strings).b == Append(reverse, b1, next, cap, strings[1..]).b
  {
    hide ReadFrom, Append, Matches, Search, Spelled, Stands, Begun, NulFree;
    HasRoom(reverse, cap, p.b, p.index, strings);
    b1 := AppendLiteral(reverse, p.b, p.index, cap, strings);
    NothingBegun(p, strings);
    BegunMore(p, strings, 0, b1);
    LabelStandsThere(b1, p.index, strings[0]);
  }

  lemma LocalPointsToItself(reverse: bool, cap: nat, p: Packet)
    requires Inv(p, cap) && Tame([LOCAL, LOCAL]) && TameNames(p, [LOCAL, LOCAL]) && Quiet(p, [LOCAL, LOCAL])
    requires p.index + WireLength([LOCAL, LOCAL]) <= cap && p.b[p.index + 6] == 0
    requires Search(reverse, p.b, p.index, cap, [LOCAL, LOCAL], 0).Nowhere?
    requires Search(reverse, p.b, p.index, cap, [LOCAL], 0).Nowhere?
    ensures Append(reverse, p.b, p.index, cap, [LOCAL, LOCAL]).stop == Ref(p.index)
  {
    hide ReadFrom, Append, Matches, Search, Inside, Labels, GoodTarget, Tight, Spelled, Stands, Begun;
    var strings := [LOCAL, LOCAL];
    assert strings[1..] == [LOCAL] && strings[1] == LOCAL;
    var b1 := FirstIsWritten(reverse, cap, p, strings);
    var next := p.index + 6;
    LabelMatches(reverse, b1, cap, p.index, LOCAL);
    assert TameNames(p, [LOCAL]) by { TameTail(p, strings); }
    forall at | 0 <= at < p.index
      ensures !Matches(reverse, b1, cap, at, [LOCAL])
    {
      assert Stands(Begun(p, strings, 1), at, strings[1]) ==> Inside(p, at);
      NoEarlierMatch(reverse, cap, p, b1, [LOCAL], at);
    }
    SearchReaches(reverse, b1, next, cap, [LOCAL], 0, p.index);
    HasRoom(reverse, cap, b1, next, [LOCAL]);
    AppendPointer(reverse, b1, next, cap, [LOCAL]);
  }

  lemma TameTail(p: Packet, strings: seq<text>)
    requires strings != [] && TameNames(p, strings)
    ensures TameNames(p, strings[1..])
  {
    assert forall k | 0 <= k < |strings[1..]| :: strings[1..][k] == strings[k + 1];
  }

  /** What the packet did not hold when the name began, it does not hold in front of the name. */
  lemma NoEarlierMatch(reverse: bool, cap: nat, p: Packet, b1: seq<byte>, strings: seq<text>, at: nat)
    requires Inv(p, cap) && strings != [] && Writable(strings) && TameNames(p, strings)
    requires |b1| == |p.b| && (forall j | 0 <= j < p.index :: b1[j] == p.b[j]) && at < p.index
    requires Stands(b1, at, strings[0]) ==> Inside(p, at)
    requires Search(reverse, p.b, p.index, cap, strings, 0).Nowhere?
    ensures !Matches(reverse, b1, cap, at, strings)
  {
    hide Matches, Search, Inside, GoodTarget, Tight, TameNames, Stands;
    if Matches(reverse, b1, cap, at, strings) {
      MatchStands(reverse, b1, cap, at, strings);
      FirstByte(b1, at, strings[0]);
      InsideIsGood(p, cap, at, strings, 0);
      InsideMatchKept(reverse, cap, p, b1, strings, at);
      SearchMisses(reverse, p.b, p.index, cap, strings, 0, at);
    }
  }

  lemma LabelStandsThere(b: seq<byte>, at: nat, s: text)
    requires |s| < 256 && at + 1 + |s| <= |b| && b[at..at + 1 + |s|] == [|s|] + s
    ensures Stands(b, at, s)
  {
    var x := b[at..at + 1 + |s|];
    assert b[at] == x[0] && b[at + 1..at + 1 + |s|] == x[1..] == s;
  }
}
