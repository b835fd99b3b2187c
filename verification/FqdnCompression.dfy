/** Compression preserves meaning: what the writer emits decodes to the labels it was given. */
module FqdnCompression {
  import opened Bytes
  import opened FqdnReader
  import opened FqdnWriter

  /** Labels that section 2.3.4 of RFC 1035 allows, as C strings. */
  predicate Writable(strings: seq<text>) {
    forall i | 0 <= i < |strings| :: 1 <= |strings[i]| <= MAX_LABEL && NulFree(strings[i])
  }

  ghost function Span(lo: nat, hi: nat): (r: set<nat>)
    ensures forall j: nat :: j in r <==> lo <= j < hi
    decreases hi - lo
  {
    if lo >= hi then {} else {lo} + Span(lo + 1, hi)
  }

  lemma RefBytesPointBack(at: nat)
    requires at < POINTER_SPACE
    ensures RefBytes(at)[0] >= REF && PointerTarget(RefBytes(at)[0], RefBytes(at)[1]) == at
  {
    var h := at / 256;
    assert h < 64;
    assert (REF + h) % 0x40 == h;
  }

  /** A back-pointer target whose labels the reader shows without loss, read from settled bytes only. */
  ghost predicate GoodTarget(b: seq<byte>, own: set<nat>, at: nat) {
    var d := Labels(b, own, at, at);
    d.Decoded? && Faithful(d.labels)
  }

  /** The call did not run out of room, and the back-pointer it wrote, if any, has a good target. */
  ghost predicate SoundCall(b: seq<byte>, own: set<nat>, o: Out) {
    !o.stop.Full? && (o.stop.Ref? ==> GoodTarget(b, own, o.stop.at))
  }

  /** The bytes from pos to end mean the given labels, up to letter case. */
  ghost predicate Conveys(b: seq<byte>, own: set<nat>, frag: nat, pos: nat, end: nat, strings: seq<text>) {
    var d := Labels(b, own, frag, pos);
    d.Decoded? && d.end == end && SameLabels(d.labels, strings)
  }

  /** No pointer of the name at pos refers to an empty name. */
  ghost predicate Tight(b: seq<byte>, own: set<nat>, frag: nat, pos: nat) {
    var d := Labels(b, own, frag, pos);
    d.Decoded? ==> d.tight
  }

  lemma SameLabelsNulFree(ls: seq<text>, strings: seq<text>)
    requires SameLabels(ls, strings) && AllNulFree(strings)
    ensures AllNulFree(ls)
  {
    forall i | 0 <= i < |ls|
      ensures NulFree(ls[i])
    {
      assert SameText(ls[i], strings[i]);
    }
  }

  lemma FirstLabel(b: seq<byte>, own: set<nat>, frag: nat, pos: nat)
    requires Labels(b, own, frag, pos).Decoded? && 1 <= b[pos] <= MAX_LABEL
    ensures var ls := Labels(b, own, frag, pos).labels;
            pos + 1 + b[pos] <= |b| && ls != [] && ls[0] == b[pos + 1..pos + 1 + b[pos]]
  {
  }

  /**
   A target that passed the match test and means anything at all means the wanted labels exactly when
   it is faithful.
   */
  lemma MatchedTarget(reverse: bool, b: seq<byte>, own: set<nat>, cap: nat, at: nat, strings: seq<text>)
    requires cap + SLACK <= |b| && at < cap && strings != [] && Writable(strings)
    requires Matches(reverse, b, cap, at, strings)
    requires forall j | j in own :: j < cap
    requires Labels(b, own, at, at).Decoded?
    ensures var ls := Labels(b, own, at, at).labels;
            ls != [] && (SameLabels(ls, strings) <==> Faithful(ls))
  {
    hide ReadFrom, Labels, View;
    var ls := Labels(b, own, at, at).labels;
    ReaderSeesLabels(reverse, b, own, cap, at, at, EMPTY_NAME);
    FirstLabel(b, own, at, at);
    assert strings[0][..|strings[0]|] == strings[0];
    if SameLabels(ls, strings) {
      SameLabelsNulFree(ls, strings);
    }
    if AllNulFree(ls) {
      MatchTestIsExact(reverse, ls, strings);
    }
  }

  lemma PointerDecodes(b: seq<byte>, own: set<nat>, frag: nat, pos: nat, at: nat)
    requires pos + 2 <= |b| && at < POINTER_SPACE && at < frag
    requires b[pos..pos + 2] == RefBytes(at) && Owned(own, pos, pos + 2)
    requires Labels(b, own, at, at).Decoded?
    ensures var d := Labels(b, own, at, at);
            Labels(b, own, frag, pos) == Decoded(d.labels, pos + 2, d.tight && d.labels != [])
  {
    RefBytesPointBack(at);
    assert b[pos] == b[pos..pos + 2][0] && b[pos + 1] == b[pos..pos + 2][1];
  }

  lemma LiteralDecodes(b: seq<byte>, own: set<nat>, frag: nat, pos: nat, s: text)
    requires 1 <= |s| <= MAX_LABEL && pos + 1 + |s| <= |b|
    requires b[pos..pos + 1 + |s|] == [|s|] + s && Owned(own, pos, pos + 1 + |s|)
    ensures var d := Labels(b, own, frag, pos + 1 + |s|);
            Labels(b, own, frag, pos) == if d.Garbage? then Garbage else Decoded([s] + d.labels, d.end, d.tight)
  {
    assert b[pos] == (b[pos..pos + 1 + |s|])[0];
    assert b[pos + 1..pos + 1 + |s|] == (b[pos..pos + 1 + |s|])[1..] == s;
  }

  /**
   One call of the writer, continuing a name that started at `start`. If it did not run out of
   room and the target it accepted is good, the bytes mean the labels that were given.
   */
  lemma {:induction false} AppendDecodes(reverse: bool, b: seq<byte>, own: set<nat>, own': set<nat>, start: nat,
                                         index: nat, cap: nat,
                                         strings: seq<text>, o: Out)
    requires cap + SLACK <= |b| && start <= index <= cap <= POINTER_SPACE
    requires o == Append(reverse, b, index, cap, strings)
    requires forall j | j in own :: j < start
    requires own <= own' && Owned(own', index, o.index)
    requires Writable(strings) && SoundCall(b, own, o)
    ensures o.added == o.index - index > 0
    ensures Conveys(o.b, own', start, index, o.index, strings)
    ensures (o.stop.Ref? ==> Tight(b, own, o.stop.at, o.stop.at)) ==> Tight(o.b, own', start, index)
    decreases |strings|
  {
    hide ReadFrom, Matches, Search, Labels, Append, Put;
    if strings == [] {
      AppendRoot(reverse, b, index, cap);
      RootDecodes(o.b, own', start, index);
    } else if Search(reverse, b, index, cap, strings, 0).At? {
      AppendPointer(reverse, b, index, cap, strings);
      PointerCase(reverse, b, own, own', start, index, cap, strings);
    } else {
      var next := index + 1 + |strings[0]|;
      var b1 := AppendLiteral(reverse, b, index, cap, strings);
      TargetKept(b, b1, own, o);
      AppendDecodes(reverse, b1, own, own', start, next, cap, strings[1..],
                    Append(reverse, b1, next, cap, strings[1..]));
      AppendFrame(reverse, b1, next, cap, strings[1..]);
      LiteralStep(b1, o.b, own', start, index, o.index, strings);
    }
  }

  lemma AppendRoot(reverse: bool, b: seq<byte>, index: nat, cap: nat)
    requires cap + SLACK <= |b| && index <= cap
    requires !Append(reverse, b, index, cap, []).stop.Full?
    ensures var o := Append(reverse, b, index, cap, []);
            o.index == index + 1 && o.added == 1 && o.stop == Root && o.b[index] == 0
  {
  }

  lemma AppendPointer(reverse: bool, b: seq<byte>, index: nat, cap: nat, strings: seq<text>)
    requires cap + SLACK <= |b| && index <= cap && strings != []
    requires Search(reverse, b, index, cap, strings, 0).At?
    requires !Append(reverse, b, index, cap, strings).stop.Full?
    ensures var at := Search(reverse, b, index, cap, strings, 0).at;
            index + 1 < cap && Append(reverse, b, index, cap, strings)
                == Out(Put(b, index, RefBytes(at)), index + 2, 2, Ref(at))
  {
    hide Search, Matches, ReadFrom, Put;
  }

  lemma AppendLiteral(reverse: bool, b: seq<byte>, index: nat, cap: nat, strings: seq<text>) returns (b1: seq<byte>)
    requires cap + SLACK <= |b| && index <= cap && strings != [] && |strings[0]| < 255
    requires Search(reverse, b, index, cap, strings, 0).Nowhere?
    requires !Append(reverse, b, index, cap, strings).stop.Full?
    ensures var next := index + 1 + |strings[0]|;
            && next < cap && |b1| == |b|
            && b1[index..next] == [|strings[0]|] + strings[0]
            && (forall j | 0 <= j < |b| && !(index <= j < next) :: b1[j] == b[j])
            && var o := Append(reverse, b1, next, cap, strings[1..]);
               Append(reverse, b, index, cap, strings) == Out(o.b, o.index, 1 + |strings[0]| + o.added, o.stop)
  {
    hide Search, Matches, ReadFrom, Append;
    var s := strings[0];
    assert s[..|s|] == s;
    b1 := Put(b, index, [|s|] + s);
    assert b1[index..index + 1 + |s|] == [|s|] + s;
    LiteralHasRoom(reverse, b, index, cap, strings);
    AppendUnfolds(reverse, b, index, cap, strings, b1, index + 1 + |s|);
  }

  lemma LiteralHasRoom(reverse: bool, b: seq<byte>, index: nat, cap: nat, strings: seq<text>)
    requires cap + SLACK <= |b| && index <= cap && strings != [] && |strings[0]| < 255
    requires Search(reverse, b, index, cap, strings, 0).Nowhere?
    requires !Append(reverse, b, index, cap, strings).stop.Full?
    ensures index + 1 + |strings[0]| < cap
  {
    hide Search, Matches, ReadFrom, Put;
  }

  /** A write behind the settled bytes keeps a good target good. */
  lemma TargetKept(b: seq<byte>, b': seq<byte>, own: set<nat>, o: Out)
    requires |b'| == |b| && forall j | j in own && j < |b| :: b'[j] == b[j]
    requires SoundCall(b, own, o)
    ensures SoundCall(b', own, o)
    ensures o.stop.Ref? ==> Tight(b', own, o.stop.at, o.stop.at) == Tight(b, own, o.stop.at, o.stop.at)
  {
    hide Labels;
    if o.stop.Ref? {
      LabelsStable(b, own, b', own, o.stop.at, o.stop.at, o.stop.at);
    }
  }

  /** Bytes that start with the first label convey the whole name exactly if the bytes behind it convey the rest. */
  lemma LiteralStep(b: seq<byte>, b': seq<byte>, own: set<nat>, frag: nat, pos: nat, end: nat, strings: seq<text>)
    requires strings != [] && 1 <= |strings[0]| <= MAX_LABEL
    requires var next := pos + 1 + |strings[0]|;
             && next <= |b| == |b'|
             && b[pos..next] == [|strings[0]|] + strings[0]
             && (forall j | 0 <= j < next :: b'[j] == b[j])
             && Owned(own, pos, next)
    ensures Conveys(b', own, frag, pos, end, strings)
            == Conveys(b', own, frag, pos + 1 + |strings[0]|, end, strings[1..])
    ensures Tight(b', own, frag, pos + 1 + |strings[0]|) ==> Tight(b', own, frag, pos)
  {
    hide Labels;
    var next := pos + 1 + |strings[0]|;
    assert b'[pos..next] == b[pos..next];
    LiteralDecodes(b', own, frag, pos, strings[0]);
  }

  lemma RootDecodes(b: seq<byte>, own: set<nat>, frag: nat, pos: nat)
    requires pos < |b| && b[pos] == 0 && pos in own
    ensures Labels(b, own, frag, pos) == Decoded([], pos + 1, true)
  {
  }

  lemma PointerCase(reverse: bool, b: seq<byte>, own: set<nat>, own': set<nat>, start: nat, index: nat, cap: nat,
                    strings: seq<text>)
    requires cap + SLACK <= |b| && start <= index && index + 1 < cap <= POINTER_SPACE
    requires forall j | j in own :: j < start
    requires own <= own' && Owned(own', index, index + 2)
    requires strings != [] && Writable(strings)
    requires var f := Search(reverse, b, index, cap, strings, 0);
             f.At? && GoodTarget(b, own, f.at)
    ensures var at := Search(reverse, b, index, cap, strings, 0).at;
            var b' := Put(b, index, RefBytes(at));
            && Conveys(b', own', start, index, index + 2, strings)
            && (Tight(b, own, at, at) ==> Tight(b', own', start, index))
  {
    hide ReadFrom, Matches;
    var at := Search(reverse, b, index, cap, strings, 0).at;
    var b' := Put(b, index, RefBytes(at));
    MatchedTarget(reverse, b, own, cap, at, strings);
    LabelsStable(b, own, b', own', at, at, at);
    assert b'[index..index + 2] == RefBytes(at);
    PointerDecodes(b', own', start, index, at);
  }

  // ----- lengths -----

  /** The length of a name without compression, counted as in section 3.1 of RFC 1035. */
  function WireLength(strings: seq<text>): nat {
    if strings == [] then 1 else 1 + |strings[0]| + WireLength(strings[1..])
  }

  /** A name takes at most its length without compression, and exactly that if no back-pointer was written. */
  lemma {:induction false} NameLength(reverse: bool, cap: nat, b: seq<byte>, index: nat, strings: seq<text>)
    requires cap + SLACK <= |b| && index <= cap && Writable(strings)
    requires !Append(reverse, b, index, cap, strings).stop.Full?
    ensures var o := Append(reverse, b, index, cap, strings);
            o.added <= WireLength(strings) && (o.stop.Root? ==> o.added == WireLength(strings))
    decreases |strings|
  {
    hide ReadFrom, Matches, Search, Append;
    if strings == [] {
      AppendRoot(reverse, b, index, cap);
    } else if Search(reverse, b, index, cap, strings, 0).At? {
      AppendPointer(reverse, b, index, cap, strings);
    } else {
      var b1 := AppendLiteral(reverse, b, index, cap, strings);
      NameLength(reverse, cap, b1, index + 1 + |strings[0]|, strings[1..]);
    }
  }

  /** Room for the name without compression is room enough. */
  lemma {:induction false} HasRoom(reverse: bool, cap: nat, b: seq<byte>, index: nat, strings: seq<text>)
    requires cap + SLACK <= |b| && index + WireLength(strings) <= cap
    requires forall i | 0 <= i < |strings| :: 1 <= |strings[i]| < 255
    ensures !Append(reverse, b, index, cap, strings).stop.Full?
    decreases |strings|
  {
    hide ReadFrom, Matches, Search, Put;
    if strings != [] && Search(reverse, b, index, cap, strings, 0).Nowhere? {
      var b1 := Put(b, index, [LenByte(strings[0])] + strings[0][..LenByte(strings[0])]);
      var next := index + 1 + |strings[0]|;
      WireIsPositive(strings[1..]);
      HasRoom(reverse, cap, b1, next, strings[1..]);
      AppendUnfolds(reverse, b, index, cap, strings, b1, next);
    } else if strings != [] {
      WireIsPositive(strings[1..]);
    }
  }

  lemma WireIsPositive(strings: seq<text>)
    ensures WireLength(strings) >= 1
  {
  }
}
