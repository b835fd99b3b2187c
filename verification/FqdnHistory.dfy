/**
 Whole packets: any sequence of names, raw record bytes and patched length fields written to
 one buffer. Every name keeps its meaning to the end.
 */
module FqdnHistory {
  import opened Bytes
  import opened FqdnReader
  import opened FqdnWriter
  import opened FqdnCompression

  /**
   The buffer and the write position, and two things the proof tracks: the positions that hold
   the bytes of completed names, and the labels given for the name that starts at an offset.
   */
  datatype Packet = Packet(b: seq<byte>, index: nat, own: set<nat>, names: map<nat, seq<text>>)

  datatype Op = WriteName(strings: seq<text>) | WriteRaw(bytes: seq<byte>) | SetU16(at: nat, value: nat)

  /** One to four labels of 1 to 63 bytes, none "_sub". */
  ghost predicate Plain(strings: seq<text>) {
    Writable(strings) && 1 <= |strings| <= 4 && NoSub(strings)
  }

  ghost predicate Inv(p: Packet, cap: nat) {
    && cap + SLACK <= |p.b| && p.index <= cap <= POINTER_SPACE
    && (forall j | j in p.own :: j < p.index)
    && (forall s | s in p.names :: NameHolds(p, s))
  }

  /** The name recorded at an offset decodes to the labels given for it. */
  ghost predicate NameHolds(p: Packet, s: nat)
    requires s in p.names
  {
    var d := Labels(p.b, p.own, s, s);
    Plain(p.names[s]) && d.Decoded? && d.tight && SameLabels(d.labels, p.names[s])
  }

  /**
   The call has room, and the back-pointer it writes, if any, refers to settled name bytes that the
   reader shows without loss.
   */
  ghost predicate Recordable(p: Packet, o: Out) {
    SoundCall(p.b, p.own, o) && (o.stop.Ref? ==> Tight(p.b, p.own, o.stop.at, o.stop.at))
  }

  ghost function Step(reverse: bool, cap: nat, p: Packet, op: Op): (r: Packet)
    requires cap + SLACK <= |p.b| && p.index <= cap
    ensures |r.b| == |p.b| && r.index <= cap
  {
    match op
    case WriteName(strings) =>
      var o := Append(reverse, p.b, p.index, cap, strings);
      if Plain(strings) && Recordable(p, o) then
        Packet(o.b, o.index, p.own + Span(p.index, o.index), p.names[p.index := strings])
      else Packet(o.b, o.index, p.own, p.names)
    case WriteRaw(bytes) =>
      if p.index + |bytes| <= cap then p.(b := Put(p.b, p.index, bytes), index := p.index + |bytes|) else p
    case SetU16(at, value) =>
      if at + 1 >= cap then p else p.(b := Put(p.b, at, U16Bytes(value)))
  }

  /** A length field is patched in place, outside the bytes of names. */
  ghost predicate Allowed(p: Packet, op: Op) {
    op.SetU16? ==> op.at !in p.own && op.at + 1 !in p.own
  }

  /** Same bytes of names, same meaning. */
  lemma NamesSurvive(p: Packet, p': Packet)
    requires p.own <= p'.own && |p.b| == |p'.b|
    requires forall j | j in p.own && j < |p.b| :: p'.b[j] == p.b[j]
    requires forall s | s in p.names :: NameHolds(p, s) && s in p'.names && p'.names[s] == p.names[s]
    ensures forall s | s in p.names :: NameHolds(p', s) && Labels(p'.b, p'.own, s, s) == Labels(p.b, p.own, s, s)
  {
    hide Labels;
    forall s | s in p.names
      ensures NameHolds(p', s) && Labels(p'.b, p'.own, s, s) == Labels(p.b, p.own, s, s)
    {
      assert NameHolds(p, s);
      LabelsStable(p.b, p.own, p'.b, p'.own, s, s, s);
    }
  }

  /** What every step keeps, and what it leaves unchanged. */
  ghost predicate Extends(p: Packet, p': Packet) {
    && |p'.b| == |p.b| && p.index <= p'.index && p.own <= p'.own
    && forall s | s in p.names ::
         s in p'.names && p'.names[s] == p.names[s] && Labels(p'.b, p'.own, s, s) == Labels(p.b, p.own, s, s)
  }

  lemma StartIsFree(p: Packet, cap: nat)
    requires Inv(p, cap)
    ensures p.index !in p.names
  {
    assert p.index in p.names ==> NameHolds(p, p.index);
  }

  lemma WriteNameKeeps(reverse: bool, cap: nat, p: Packet, strings: seq<text>)
    requires Inv(p, cap)
    ensures var p' := Step(reverse, cap, p, WriteName(strings)); Inv(p', cap) && Extends(p, p')
    ensures var p' := Step(reverse, cap, p, WriteName(strings));
            Plain(strings) && Recordable(p, Append(reverse, p.b, p.index, cap, strings))
            ==> p.index in p'.names && p'.names[p.index] == strings
  {
    hide Labels, Append, Tight;
    var o := Append(reverse, p.b, p.index, cap, strings);
    var p' := Step(reverse, cap, p, WriteName(strings));
    AppendFrame(reverse, p.b, p.index, cap, strings);
    StartIsFree(p, cap);
    NamesSurvive(p, p');
    if Plain(strings) && Recordable(p, o) {
      NewNameHolds(reverse, cap, p, strings);
    }
  }

  lemma NewNameHolds(reverse: bool, cap: nat, p: Packet, strings: seq<text>)
    requires Inv(p, cap) && Plain(strings)
    requires Recordable(p, Append(reverse, p.b, p.index, cap, strings))
    ensures NameHolds(Step(reverse, cap, p, WriteName(strings)), p.index)
  {
    hide Labels, Append;
    var o := Append(reverse, p.b, p.index, cap, strings);
    AppendDecodes(reverse, p.b, p.own, p.own + Span(p.index, o.index), p.index, p.index, cap, strings, o);
  }

  lemma StepKeeps(reverse: bool, cap: nat, p: Packet, op: Op)
    requires Inv(p, cap) && Allowed(p, op)
    ensures var p' := Step(reverse, cap, p, op); Inv(p', cap) && Extends(p, p')
  {
    hide Labels, Append, Recordable;
    if op.WriteName? {
      WriteNameKeeps(reverse, cap, p, op.strings);
    } else {
      NamesSurvive(p, Step(reverse, cap, p, op));
    }
  }

  ghost function Run(reverse: bool, cap: nat, p: Packet, ops: seq<Op>): (r: Packet)
    requires cap + SLACK <= |p.b| && p.index <= cap
    ensures |r.b| == |p.b| && r.index <= cap
    decreases |ops|
  {
    if ops == [] then p else Run(reverse, cap, Step(reverse, cap, p, ops[0]), ops[1..])
  }

  /** A run whose length fields stay off the names, and whose name calls are all recordable. */
  ghost predicate GoodRun(reverse: bool, cap: nat, p: Packet, ops: seq<Op>)
    requires cap + SLACK <= |p.b| && p.index <= cap
    decreases |ops|
  {
    ops == [] ||
    (&& Allowed(p, ops[0])
     && (ops[0].WriteName? ==>
          Plain(ops[0].strings) && Recordable(p, Append(reverse, p.b, p.index, cap, ops[0].strings)))
     && GoodRun(reverse, cap, Step(reverse, cap, p, ops[0]), ops[1..]))
  }

  lemma {:induction false} RunKeeps(reverse: bool, cap: nat, p: Packet, ops: seq<Op>)
    requires Inv(p, cap) && GoodRun(reverse, cap, p, ops)
    ensures var r := Run(reverse, cap, p, ops); Inv(r, cap) && Extends(p, r)
    decreases |ops|
  {
    hide Labels, Append, Recordable, Step, NameHolds;
    if ops != [] {
      StepKeeps(reverse, cap, p, ops[0]);
      RunKeeps(reverse, cap, Step(reverse, cap, p, ops[0]), ops[1..]);
    }
  }

  /**
   Compression preserves meaning over a whole packet: in the finished packet the k-th operation's
   name, if it wrote one, still stands where it was written and decodes to the labels given.
   */
  lemma {:induction false} EveryNameKeepsItsMeaning(reverse: bool, cap: nat, p: Packet, ops: seq<Op>, k: nat)
    requires Inv(p, cap) && GoodRun(reverse, cap, p, ops)
    requires k < |ops| && ops[k].WriteName?
    ensures var r := Run(reverse, cap, p, ops);
            var start := Run(reverse, cap, p, ops[..k]).index;
            && start in r.names && r.names[start] == ops[k].strings
            && var d := Labels(r.b, r.own, start, start);
               d.Decoded? && SameLabels(d.labels, ops[k].strings)
    decreases |ops|
  {
    hide Labels, Append, Recordable, Step;
    var p1 := Step(reverse, cap, p, ops[0]);
    StepKeeps(reverse, cap, p, ops[0]);
    RunKeeps(reverse, cap, p1, ops[1..]);
    if k == 0 {
      WriteNameKeeps(reverse, cap, p, ops[0].strings);
      assert ops[..0] == [];
      assert NameHolds(Run(reverse, cap, p, ops), p.index);
    } else {
      EveryNameKeepsItsMeaning(reverse, cap, p1, ops[1..], k - 1);
      assert ops[..k][1..] == ops[1..][..k - 1];
    }
  }

  // ----- matches at label boundaries are recordable -----

  /** o is the length byte of a literal label of the name whose bytes start at pos. */
  predicate LabelStart(b: seq<byte>, pos: nat, o: nat)
    decreases |b| - pos
  {
    pos < |b| && 1 <= b[pos] <= MAX_LABEL && (pos == o || LabelStart(b, pos + 1 + b[pos], o))
  }

  lemma {:induction false} BoundaryDecodes(b: seq<byte>, own: set<nat>, frag: nat, pos: nat, o: nat)
    requires frag <= pos && Labels(b, own, frag, pos).Decoded? && LabelStart(b, pos, o)
    requires Faithful(Labels(b, own, frag, pos).labels) && Labels(b, own, frag, pos).tight
    ensures GoodTarget(b, own, o) && Tight(b, own, o, o)
    decreases |b| - pos
  {
    var ls := Labels(b, own, frag, pos).labels;
    if pos == o {
      LabelsStable(b, own, b, own, frag, pos, pos);
    } else {
      var next := pos + 1 + b[pos];
      assert Labels(b, own, frag, next).labels == ls[1..];
      BoundaryDecodes(b, own, frag, next, o);
    }
  }

  /** A match accepted at a label boundary of a name completed earlier in the packet is recordable. */
  lemma BoundaryMatchIsRecordable(p: Packet, cap: nat, o: Out, s: nat)
    requires Inv(p, cap) && o.stop.Ref?
    requires s in p.names && LabelStart(p.b, s, o.stop.at)
    ensures Recordable(p, o)
  {
    assert NameHolds(p, s);
    var ls := Labels(p.b, p.own, s, s).labels;
    SameLabelsNulFree(ls, p.names[s]);
    forall i | 0 <= i < |ls|
      ensures !SameText(ls[i], SUB)
    {
      assert SameText(ls[i], p.names[s][i]);
    }
    BoundaryDecodes(p.b, p.own, s, s, o.stop.at);
  }

  // ----- the length bytes of a name -----

  /** No byte of the labels has the given value. */
  ghost predicate Lacks(ls: seq<text>, c: byte) {
    forall i, j | 0 <= i < |ls| && 0 <= j < |ls[i]| :: ls[i][j] != c
  }

  lemma LacksUpToCase(ls: seq<text>, strings: seq<text>, c: byte)
    requires SameLabels(ls, strings) && Lacks(strings, c) && c <= MAX_LABEL
    ensures Lacks(ls, c)
  {
    forall i, j | 0 <= i < |ls| && 0 <= j < |ls[i]|
      ensures ls[i][j] != c
    {
      assert SameText(ls[i], strings[i]);
      assert Lower(ls[i][j]) == Lower(strings[i][j]);
    }
  }

  lemma LabelBytes(b: seq<byte>, own: set<nat>, frag: nat, pos: nat, at: nat, c: byte)
    requires var d := Labels(b, own, frag, pos); d.Decoded? && Lacks(d.labels, c) && 1 <= b[pos] <= MAX_LABEL
    ensures pos < at < pos + 1 + b[pos] ==> b[at] != c
  {
    if pos < at < pos + 1 + b[pos] {
      assert Labels(b, own, frag, pos).labels[0][at - pos - 1] == b[at];
    }
  }

  /** A byte that no label of a name has is a length byte of the name, or the low byte of the pointer that ends it. */
  lemma {:induction false} LengthBytesOfName(b: seq<byte>, own: set<nat>, frag: nat, pos: nat, at: nat)
    requires var d := Labels(b, own, frag, pos); d.Decoded? && pos <= at < d.end <= |b| && Lacks(d.labels, b[at])
    requires 1 <= b[at] <= MAX_LABEL
    ensures LabelStart(b, pos, at) || at == Labels(b, own, frag, pos).end - 1
    decreases |b| - pos
  {
    if 1 <= b[pos] <= MAX_LABEL && at > pos {
      var next := pos + 1 + b[pos];
      var ls := Labels(b, own, frag, pos).labels;
      LabelBytes(b, own, frag, pos, at, b[at]);
      if at >= next {
        var rest := Labels(b, own, frag, next);
        assert forall i | 0 <= i < |rest.labels| :: rest.labels[i] == ls[i + 1];
        LengthBytesOfName(b, own, frag, next, at);
      }
    }
  }
}
