/** Exactly when compression goes wrong, and labels that it cannot write. */
module FqdnExactness {
  import opened Bytes
  import opened FqdnReader
  import opened FqdnWriter
  import opened FqdnCompression

  /** The target name was complete before this name began. */
  ghost predicate Settled(b: seq<byte>, own: set<nat>, at: nat) {
    Labels(b, own, at, at).Decoded?
  }

  /** A back-pointer into the name itself, or to an unfaithful target, never means the given labels. */
  lemma {:induction false} BadTargetMisleads(reverse: bool, b: seq<byte>, own: set<nat>, own': set<nat>, start: nat,
                                             index: nat, cap: nat,
                                             strings: seq<text>, o: Out)
    requires cap + SLACK <= |b| && start <= index <= cap <= POINTER_SPACE
    requires o == Append(reverse, b, index, cap, strings)
    requires forall j | j in own :: j < start
    requires own <= own' && Owned(own', index, o.index)
    requires Writable(strings) && o.stop.Ref?
    requires o.stop.at >= start || (Settled(b, own, o.stop.at) && !GoodTarget(b, own, o.stop.at))
    ensures !Conveys(o.b, own', start, index, o.index, strings)
    decreases |strings|
  {
    hide ReadFrom, Matches, Search, Labels, Put, Append;
    if strings == [] {
      EmptyIsRoot(reverse, b, index, cap);
    } else if Search(reverse, b, index, cap, strings, 0).At? {
      AppendPointer(reverse, b, index, cap, strings);
      BadPointer(reverse, b, own, own', start, index, cap, strings);
    } else {
      var next := index + 1 + |strings[0]|;
      var b1 := AppendLiteral(reverse, b, index, cap, strings);
      if o.stop.at < start {
        LabelsStable(b, own, b1, own, o.stop.at, o.stop.at, o.stop.at);
      }
      BadTargetMisleads(reverse, b1, own, own', start, next, cap, strings[1..],
                        Append(reverse, b1, next, cap, strings[1..]));
      AppendFrame(reverse, b1, next, cap, strings[1..]);
      LiteralStep(b1, o.b, own', start, index, o.index, strings);
    }
  }

  lemma EmptyIsRoot(reverse: bool, b: seq<byte>, index: nat, cap: nat)
    requires cap + SLACK <= |b| && index <= cap
    ensures !Append(reverse, b, index, cap, []).stop.Ref?
  {
  }

  lemma BadPointer(reverse: bool, b: seq<byte>, own: set<nat>, own': set<nat>, start: nat, index: nat, cap: nat,
                   strings: seq<text>)
    requires cap + SLACK <= |b| && start <= index && index + 1 < cap <= POINTER_SPACE
    requires forall j | j in own :: j < start
    requires own <= own' && Owned(own', index, index + 2)
    requires strings != [] && Writable(strings)
    requires var f := Search(reverse, b, index, cap, strings, 0);
             f.At? && (f.at >= start || (Settled(b, own, f.at) && !GoodTarget(b, own, f.at)))
    ensures var b' := Put(b, index, RefBytes(Search(reverse, b, index, cap, strings, 0).at));
            !Conveys(b', own', start, index, index + 2, strings)
  {
    hide ReadFrom, Matches, Labels;
    var at := Search(reverse, b, index, cap, strings, 0).at;
    var b' := Put(b, index, RefBytes(at));
    assert b'[index..index + 2] == RefBytes(at);
    if at >= start {
      SelfPointer(b', own', start, index, at);
    } else {
      MatchedTarget(reverse, b, own, cap, at, strings);
      LabelsStable(b, own, b', own', at, at, at);
      PointerDecodes(b', own', start, index, at);
    }
  }

  lemma SelfPointer(b: seq<byte>, own: set<nat>, frag: nat, pos: nat, at: nat)
    requires pos + 2 <= |b| && frag <= at < POINTER_SPACE
    requires b[pos..pos + 2] == RefBytes(at)
    ensures Labels(b, own, frag, pos).Garbage?
  {
    RefBytesPointBack(at);
    assert b[pos] == b[pos..pos + 2][0] && b[pos + 1] == b[pos..pos + 2][1];
  }

  /**
   For every call that did not run out of room and whose back-pointer, if any, refers to a name
   that was complete before this one began or into this name itself: the emitted bytes mean the
   given labels if and only if the target lies before this name and its labels are at most four,
   NUL-free, and none of them "_sub".
   */
  lemma AppendExact(reverse: bool, b: seq<byte>, own: set<nat>, own': set<nat>, index: nat, cap: nat,
                    strings: seq<text>, o: Out)
    requires cap + SLACK <= |b| && index <= cap <= POINTER_SPACE
    requires o == Append(reverse, b, index, cap, strings)
    requires forall j | j in own :: j < index
    requires own <= own' && Owned(own', index, o.index)
    requires Writable(strings) && !o.stop.Full?
    requires o.stop.Ref? && o.stop.at < index ==> Settled(b, own, o.stop.at)
    ensures Conveys(o.b, own', index, index, o.index, strings)
       <==> (o.stop.Ref? ==> o.stop.at < index && Faithful(Labels(b, own, o.stop.at, o.stop.at).labels))
  {
    hide ReadFrom, Matches, Search, Labels, Put, Append;
    if SoundCall(b, own, o) && (o.stop.Ref? ==> o.stop.at < index) {
      AppendDecodes(reverse, b, own, own', index, index, cap, strings, o);
    } else {
      BadTargetMisleads(reverse, b, own, own', index, index, cap, strings, o);
    }
  }

  // ----- labels of 64 bytes and more -----

  /** Every slot but the first holds one label, of at most 63 bytes. */
  ghost predicate ShortSlots(n: Name) {
    forall i | 1 <= i < |n.slots| :: |n.slots[i]| <= MAX_LABEL
  }

  lemma {:induction false} ReadKeepsSlots(reverse: bool, b: seq<byte>, limit: nat, frag: nat, pos: nat, n: Name)
    requires limit < |b| && Sane(n) && ShortSlots(n)
    ensures var r := ReadFrom(reverse, b, limit, frag, pos, n); r.Parsed? ==> ShortSlots(r.name)
    decreases frag, |b| - pos
  {
    if pos < limit && b[pos] != 0 {
      var len := b[pos];
      if len <= MAX_LABEL && pos + 1 + len <= limit {
        var next := pos + 1 + len;
        ReadKeepsSlots(reverse, b, limit, frag, next, Store(reverse, Mark(n), b[pos + 1..next]));
      } else if len >= REF && PointerTarget(len, b[pos + 1]) < frag {
        var target := PointerTarget(len, b[pos + 1]);
        ReadKeepsSlots(reverse, b, limit, target, target, Mark(n));
      }
    }
  }

  /** Labels of 1 to 191 bytes: longer than RFC 1035 allows, but not yet taken for pointers. */
  predicate Emittable(strings: seq<text>) {
    forall i | 0 <= i < |strings| :: 1 <= |strings[i]| < REF && NulFree(strings[i])
  }

  /** At most 63 bytes in every label (section 2.3.4 of RFC 1035). */
  predicate AllShort(strings: seq<text>) {
    forall i | 0 <= i < |strings| :: |strings[i]| <= 63
  }

  /**
   A suffix with a longer label matches nowhere: the reader rejects such a label, or shows at most 63
   bytes in its slot.
   */
  lemma {:induction false} LongNeverMatches(reverse: bool, b: seq<byte>, index: nat, cap: nat, strings: seq<text>,
                                            from: nat)
    requires cap + SLACK <= |b| && index <= cap && strings != [] && Emittable(strings) && !AllShort(strings)
    ensures Search(reverse, b, index, cap, strings, from).Nowhere?
    decreases index - from
  {
    hide ReadFrom;
    if from < index {
      if Matches(reverse, b, cap, from, strings) {
        var r := ReadFrom(reverse, b, cap, from, from, EMPTY_NAME);
        ReadKeepsSlots(reverse, b, cap, from, from, EMPTY_NAME);
        var j :| 0 <= j < |strings| && |strings[j]| > MAX_LABEL;
        assert SameText(strings[j], r.name.slots[j]);
        assert j == 0;
        LongIsRejected(reverse, b, cap, from, from, EMPTY_NAME);
      }
      LongNeverMatches(reverse, b, index, cap, strings, from + 1);
    }
  }

  lemma LongIsRejected(reverse: bool, b: seq<byte>, limit: nat, frag: nat, pos: nat, n: Name)
    requires pos < limit < |b| && Sane(n) && MAX_LABEL < b[pos] < REF
    ensures ReadFrom(reverse, b, limit, frag, pos, n).Failed?
    ensures forall own :: Labels(b, own, frag, pos).Garbage?
  {
  }

  /** A name with a longer label in it, wherever it stands, decodes to nothing and is rejected by the reader. */
  lemma {:induction false} LongGarbles(reverse: bool, b: seq<byte>, own: set<nat>, start: nat, index: nat, cap: nat,
                                       strings: seq<text>, n: Name)
    requires cap + SLACK <= |b| && start <= index <= cap && Emittable(strings) && !AllShort(strings) && Sane(n)
    requires !Append(reverse, b, index, cap, strings).stop.Full?
    ensures var o := Append(reverse, b, index, cap, strings);
            && Labels(o.b, own, start, index).Garbage?
            && ReadFrom(reverse, o.b, cap, start, index, n).Failed?
    decreases |strings|
  {
    hide ReadFrom, Matches, Search, Append, Labels;
    LongNeverMatches(reverse, b, index, cap, strings, 0);
    var s := strings[0];
    var next := index + 1 + |s|;
    var b1 := AppendLiteral(reverse, b, index, cap, strings);
    AppendFrame(reverse, b1, next, cap, strings[1..]);
    var o := Append(reverse, b1, next, cap, strings[1..]);
    assert o.b[index] == b1[index] == b1[index..next][0];
    if |s| > MAX_LABEL {
      LongIsRejected(reverse, o.b, cap, start, index, n);
    } else {
      var j :| 0 <= j < |strings| && |strings[j]| > MAX_LABEL;
      assert strings[1..][j - 1] == strings[j];
      LongGarbles(reverse, b1, own, start, next, cap, strings[1..], Store(reverse, Mark(n), o.b[index + 1..next]));
      ReadsLabel(reverse, o.b, cap, start, index, n, next);
      LabelThenGarbage(o.b, own, start, index);
    }
  }

  lemma LabelThenGarbage(b: seq<byte>, own: set<nat>, frag: nat, pos: nat)
    requires pos < |b| && 1 <= b[pos] <= MAX_LABEL && pos + 1 + b[pos] <= |b|
    requires Labels(b, own, frag, pos + 1 + b[pos]).Garbage?
    ensures Labels(b, own, frag, pos).Garbage?
  {
  }

  /**
   For labels of 1 to 191 bytes, with room and a good target: the bytes decode, and then to the
   labels given, if and only if every label has at most 63 bytes; else the reader rejects them.
   */
  lemma {:induction false} LongLabelsExact(reverse: bool, b: seq<byte>, own: set<nat>, own': set<nat>, index: nat,
                                           cap: nat, strings: seq<text>, o: Out)
    requires cap + SLACK <= |b| && index <= cap <= POINTER_SPACE && Emittable(strings)
    requires o == Append(reverse, b, index, cap, strings) && SoundCall(b, own, o)
    requires (forall j | j in own :: j < index) && own <= own' && Owned(own', index, o.index)
    ensures Labels(o.b, own', index, index).Decoded? <==> AllShort(strings)
    ensures AllShort(strings) ==> Conveys(o.b, own', index, index, o.index, strings)
    ensures !AllShort(strings) ==> ReadFrom(reverse, o.b, cap, index, index, EMPTY_NAME).Failed?
  {
    hide Append, Labels, ReadFrom, GoodTarget;
    if AllShort(strings) {
      AppendDecodes(reverse, b, own, own', index, index, cap, strings, o);
    } else {
      LongGarbles(reverse, b, own', index, index, cap, strings, EMPTY_NAME);
    }
  }

  // ----- views -----

  /** One label of a view, when the label takes a slot of its own. */
  lemma ViewTakes(reverse: bool, n: Name, l: text, ls: seq<text>)
    requires |n.slots| < 4 && !n.invalid && NulFree(l) && !SameText(l, SUB)
    requires |n.slots| == 1 ==> l != [] && l[0] == UNDERSCORE
    ensures View(reverse, n, [l] + ls) == View(reverse, n.(slots := n.slots + [l]), ls)
  {
    assert ([l] + ls)[1..] == ls;
  }

  lemma ViewNil(reverse: bool, n: Name)
    requires Sane(n)
    ensures View(reverse, n, []) == n
  {
  }
}
