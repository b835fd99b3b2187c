/**
 The records of a service's subtypes (section 7.1 of RFC 6763), behind the PTR record of the service as
 the responder writes them, and exactly when they spoil a later name.
 */
module Subtypes {
  import opened Bytes
  import opened FqdnReader
  import opened FqdnWriter
  import opened FqdnCompression
  import opened FqdnExactness
  import opened FqdnHistory
  import opened FqdnSafety
  import opened FqdnSlots
  import opened Records
  import opened RecordBuilders
  import opened Messages
  import opened Dispatch
  import opened SafeMessages

  // ----- what the reader shows of a subtype name -----

  lemma UnderscoreUpToCase(s: text)
    requires SameText(s, SUB)
    ensures s != [] && s[0] == UNDERSCORE
  {
    assert Lower(s[0]) == Lower(SUB[0]);
  }

  lemma ViewDropsAnySub(reverse: bool, n: Name, sub: text, ls: seq<text>)
    requires |n.slots| < 4 && !n.invalid && SameText(sub, SUB) && NulFree(sub)
    ensures View(reverse, n, [sub] + ls) == View(reverse, n.(sub := true), ls)
  {
    assert ([sub] + ls)[1..] == ls;
    UnderscoreUpToCase(sub);
    assert EndsHost(reverse, CString(sub));
  }

  /** The labels of a subtype name, up to case, are shown without "_sub". */
  lemma SubtypeIsShown(reverse: bool, ls: seq<text>, x: text, service: text, proto: text)
    requires SameLabels(ls, SubtypeNames(x, service, proto)) && AllNulFree(ls)
    requires NoSub([x, service, proto, LOCAL]) && service != [] && service[0] == UNDERSCORE
    ensures View(reverse, EMPTY_NAME, ls) == Name([ls[0], ls[2], ls[3], ls[4]], true, false)
  {
    hide View;
    var names := SubtypeNames(x, service, proto);
    assert SameText(ls[0], x) && SameText(ls[1], SUB) && SameText(ls[2], service) && SameText(ls[3], proto)
           && SameText(ls[4], LOCAL) by {
      assert names[0] == x && names[1] == SUB && names[2] == service && names[3] == proto && names[4] == LOCAL;
    }
    NoneIsSub([x, service, proto, LOCAL], [ls[0], ls[2], ls[3], ls[4]]);
    assert Lower(ls[2][0]) == Lower(service[0]);
    var rest := [ls[2]] + ([ls[3]] + ([ls[4]] + []));
    assert ls == [ls[0]] + ([ls[1]] + rest);
    ViewTakes(reverse, EMPTY_NAME, ls[0], [ls[1]] + rest);
    assert [] + [ls[0]] == [ls[0]];
    ViewDropsAnySub(reverse, Name([ls[0]], false, false), ls[1], rest);
    ViewTakes(reverse, Name([ls[0]], true, false), ls[2], [ls[3]] + ([ls[4]] + []));
    assert [ls[0]] + [ls[2]] == [ls[0], ls[2]];
    ViewTakes(reverse, Name([ls[0], ls[2]], true, false), ls[3], [ls[4]] + []);
    assert [ls[0], ls[2]] + [ls[3]] == [ls[0], ls[2], ls[3]];
    ViewTakes(reverse, Name([ls[0], ls[2], ls[3]], true, false), ls[4], []);
    assert [ls[0], ls[2], ls[3]] + [ls[4]] == [ls[0], ls[2], ls[3], ls[4]];
    ViewNil(reverse, Name([ls[0], ls[2], ls[3], ls[4]], true, false));
  }

  lemma NoneIsSub(xs: seq<text>, ys: seq<text>)
    requires |xs| == |ys| == 4 && NoSub(xs) && SameText(ys[0], xs[0]) && SameText(ys[1], xs[1])
    requires SameText(ys[2], xs[2]) && SameText(ys[3], xs[3])
    ensures !SameText(ys[0], SUB) && !SameText(ys[1], SUB) && !SameText(ys[2], SUB) && !SameText(ys[3], SUB)
  {
    assert !SameText(xs[0], SUB) && !SameText(xs[1], SUB) && !SameText(xs[2], SUB) && !SameText(xs[3], SUB);
  }

  /** Where a subtype name stands, the match test takes it for the instance name that begins with the same label. */
  lemma SubtypeMatches(reverse: bool, b: seq<byte>, own: set<nat>, cap: nat, at: nat, x: text, service: text,
                       proto: text)
    requires cap + SLACK <= |b| && at < cap && (forall j | j in own :: j < cap)
    requires Writable(SubtypeNames(x, service, proto)) && NoSub([x, service, proto, LOCAL])
    requires service != [] && service[0] == UNDERSCORE && Stands(b, at, x)
    requires var d := Labels(b, own, at, at); d.Decoded? && SameLabels(d.labels, SubtypeNames(x, service, proto))
    ensures Matches(reverse, b, cap, at, InstanceNames(x, service, proto))
    ensures !Faithful(Labels(b, own, at, at).labels)
  {
    hide ReadFrom, Labels, View;
    var ls, names := Labels(b, own, at, at).labels, SubtypeNames(x, service, proto);
    assert |x| <= MAX_LABEL by { assert names[0] == x; }
    SameLabelsNulFree(ls, names);
    assert service != [] by { assert names[2] == service; }
    ReaderSeesLabels(reverse, b, own, cap, at, at, EMPTY_NAME);
    SubtypeIsShown(reverse, ls, x, service, proto);
    assert x[..|x|] == x;
    ShownSame(ls, x, service, proto);
  }

  lemma ShownSame(ls: seq<text>, x: text, service: text, proto: text)
    requires SameLabels(ls, SubtypeNames(x, service, proto))
    ensures SameLabels(InstanceNames(x, service, proto), [ls[0], ls[2], ls[3], ls[4]])
  {
    var names := SubtypeNames(x, service, proto);
    assert SameText(ls[0], names[0]) && SameText(ls[2], names[2]) && SameText(ls[3], names[3])
           && SameText(ls[4], names[4]);
  }

  // ----- "_sub" is found nowhere -----

  /** The first slot does not hold "_sub". */
  predicate HostIsNotSub(n: Name) {
    n.slots == [] || !SameText(n.slots[0], SUB)
  }

  lemma StoreKeepsHost(reverse: bool, n: Name, lab: text)
    requires Sane(n) && (|n.slots| == 4 ==> n.invalid) && HostIsNotSub(n)
    ensures HostIsNotSub(Store(reverse, n, lab))
  {
    if |n.slots| == 1 && !EndsHost(reverse, CString(lab)) {
      var host := Strlcat(n.slots[0], DOT, NAME_BUF_LEN);
      if |n.slots[0]| < 4 {
        assert host[|n.slots[0]|] == DOT[0] && Lower(DOT[0]) != Lower(SUB[|n.slots[0]|]);
      }
    }
  }

  lemma {:induction false} ReadKeepsHost(reverse: bool, b: seq<byte>, limit: nat, frag: nat, pos: nat, n: Name)
    requires limit < |b| && Sane(n) && HostIsNotSub(n)
    ensures var r := ReadFrom(reverse, b, limit, frag, pos, n); r.Parsed? ==> HostIsNotSub(r.name)
    decreases frag, |b| - pos
  {
    hide HostIsNotSub, Store;
    assert HostIsNotSub(Mark(n)) by { MarkKeepsHost(n); }
    if pos < limit && b[pos] != 0 {
      var len := b[pos];
      if len <= MAX_LABEL && pos + 1 + len <= limit {
        var next := pos + 1 + len;
        StoreKeepsHost(reverse, Mark(n), b[pos + 1..next]);
        ReadKeepsHost(reverse, b, limit, frag, next, Store(reverse, Mark(n), b[pos + 1..next]));
      } else if len >= REF && PointerTarget(len, b[pos + 1]) < frag {
        var target := PointerTarget(len, b[pos + 1]);
        ReadKeepsHost(reverse, b, limit, target, target, Mark(n));
      }
    }
  }

  lemma MarkKeepsHost(n: Name)
    requires Sane(n) && HostIsNotSub(n)
    ensures HostIsNotSub(Mark(n))
  {
  }

  /** The reader never shows "_sub" in the first slot, so no suffix that begins with it is found. */
  lemma {:induction false} SubMatchesNothing(reverse: bool, b: seq<byte>, index: nat, cap: nat, strings: seq<text>,
                                             from: nat)
    requires cap + SLACK <= |b| && index <= cap && strings != [] && strings[0] == SUB
    ensures Search(reverse, b, index, cap, strings, from).Nowhere?
    decreases index - from
  {
    hide ReadFrom;
    if from < index {
      ReadKeepsHost(reverse, b, cap, from, from, EMPTY_NAME);
      var r := ReadFrom(reverse, b, cap, from, from, EMPTY_NAME);
      assert r.Parsed? && SameLabels(strings, r.name.slots) ==> SameText(strings[0], r.name.slots[0]);
      SubMatchesNothing(reverse, b, index, cap, strings, from + 1);
    }
  }

  /** Five labels match nothing: the reader shows four at most. */
  lemma {:induction false} FiveMatchNothing(reverse: bool, b: seq<byte>, index: nat, cap: nat, strings: seq<text>,
                                            from: nat)
    requires cap + SLACK <= |b| && index <= cap && |strings| == 5
    ensures Search(reverse, b, index, cap, strings, from).Nowhere?
    decreases index - from
  {
    if from < index {
      FiveMatchNothing(reverse, b, index, cap, strings, from + 1);
    }
  }

  // ----- names that the packet holds -----

  /** The search finds the name at an offset, or in front of it. */
  ghost predicate Held(reverse: bool, cap: nat, p: Packet, strings: seq<text>, f: nat)
    requires Fit(cap, p) && strings != []
  {
    && f < cap && Matches(reverse, p.b, cap, f, strings) && GoodTarget(p.b, p.own, f)
    && f + 1 + |strings[0]| <= p.index
  }

  lemma {:induction false} FoundNoLater(reverse: bool, b: seq<byte>, index: nat, cap: nat, strings: seq<text>,
                                        from: nat, f: nat)
    requires cap + SLACK <= |b| && index <= cap && strings != []
    requires from <= f < index && Matches(reverse, b, cap, f, strings)
    ensures Search(reverse, b, index, cap, strings, from).At? && Search(reverse, b, index, cap, strings, from).at <= f
    decreases index - from
  {
    hide Matches;
    if !Matches(reverse, b, cap, from, strings) {
      FoundNoLater(reverse, b, index, cap, strings, from + 1, f);
    }
  }

  lemma OwnBelow(p: Packet, cap: nat)
    requires Inv(p, cap)
    ensures forall j | j in p.own :: j < p.index <= cap && j < |p.b|
  {
    hide NameHolds;
  }

  lemma NamesHold(p: Packet, cap: nat, n: nat)
    requires Inv(p, cap) && n in p.names
    ensures NameHolds(p, n)
  {
  }

  lemma RecordedIsFaithful(p: Packet, n: nat)
    requires n in p.names && NameHolds(p, n)
    ensures GoodTarget(p.b, p.own, n) && SameLabels(Labels(p.b, p.own, n, n).labels, p.names[n])
    ensures |Labels(p.b, p.own, n, n).labels| <= 4
  {
    hide Labels;
    var ls := Labels(p.b, p.own, n, n).labels;
    SameLabelsNulFree(ls, p.names[n]);
    forall i | 0 <= i < |ls|
      ensures !SameText(ls[i], SUB)
    {
      assert SameText(ls[i], p.names[n][i]);
    }
  }

  /** The first label of a settled name lies in settled bytes. */
  lemma LabelIsOwned(b: seq<byte>, own: set<nat>, hi: nat, at: nat, s: text)
    requires Labels(b, own, at, at).Decoded? && at < |b| && 1 <= b[at] == |s| <= MAX_LABEL
    requires forall j | j in own :: j < hi
    ensures at + 1 + |s| <= hi
  {
    assert at + |s| in own;
  }

  /** A recorded name is held from then on. */
  lemma WrittenIsHeld(reverse: bool, cap: nat, p: Packet, strings: seq<text>) returns (f: nat)
    requires Inv(p, cap) && NameShape(strings) && GoodName(reverse, cap, p, strings)
    ensures Fit(cap, p)
    ensures strings != [] && Held(reverse, cap, Step(reverse, cap, p, WriteName(strings)), strings, f)
  {
    hide Append, Labels, NameHolds, Tight, Search, Matches, Inv, NameShape;
    RoomBehind(p, cap);
    ShapeIsShort(strings);
    var q := Step(reverse, cap, p, WriteName(strings));
    var o := Append(reverse, p.b, p.index, cap, strings);
    NameAdds(reverse, cap, p, strings);
    WriteNameKeeps(reverse, cap, p, strings);
    AppendFrame(reverse, p.b, p.index, cap, strings);
    OwnBelow(p, cap);
    OwnBelow(q, cap);
    if Search(reverse, p.b, p.index, cap, strings, 0).At? {
      AppendPointer(reverse, p.b, p.index, cap, strings);
      f := o.stop.at;
      MatchMoves(reverse, cap, p.own, p.b, q.b, f, strings);
      LabelsStable(p.b, p.own, q.b, q.own, f, f, f);
      MatchStands(reverse, p.b, cap, f, strings);
      FirstByte(p.b, f, strings[0]);
      LabelIsOwned(p.b, p.own, p.index, f, strings[0]);
    } else {
      f := p.index;
      assert Writable(strings);
      var b1 := AppendLiteral(reverse, p.b, p.index, cap, strings);
      var next := p.index + 1 + |strings[0]|;
      LabelStandsThere(b1, f, strings[0]);
      AppendFrame(reverse, b1, next, cap, strings[1..]);
      StandsSame(b1, q.b, f, strings[0], next);
      assert NameHolds(q, f) by { NamesHold(q, cap, f); }
      RecordedIsFaithful(q, f);
      MeantIsFound(reverse, q.b, q.own, cap, f, strings);
    }
  }

  /** A later buffer that agrees with the packet still holds the name, and the search finds it inside a recorded one. */
  lemma HeldTarget(reverse: bool, cap: nat, words: set<text>, b0: seq<byte>, p: Packet, tail: Tail, c: seq<byte>,
                   own: set<nat>, index: nat, strings: seq<text>, f: nat)
    requires State(cap, words, b0, p, tail) && From(strings, words) && strings != []
    requires Fit(cap, p) && Held(reverse, cap, p, strings, f)
    requires AgreeBelow(p.b, c, p.index) && p.own <= own && p.index <= index <= cap
    ensures var s := Search(reverse, c, index, cap, strings, 0);
            && s.At? && HEAD_LEN <= s.at < p.index && GoodTarget(c, own, s.at) && Tight(c, own, s.at, s.at)
  {
    hide Labels, NameHolds, Stands, Inside, Matches, Search, Tame, TameNames, Faithful, EndsWith, Stale, NamesLack;
    OwnBelow(p, cap);
    WordsAreTame(words, strings);
    NamesAreTame(p, words, strings);
    TameIsWritable(strings);
    MatchMoves(reverse, cap, p.own, p.b, c, f, strings);
    FoundNoLater(reverse, c, index, cap, strings, 0, f);
    var at := Search(reverse, c, index, cap, strings, 0).at;
    MatchStands(reverse, c, cap, at, strings);
    StandsSame(p.b, c, at, strings[0], p.index);
    FirstByte(p.b, at, strings[0]);
    InsideIsGood(p, cap, at, strings, 0);
    LabelsStable(p.b, p.own, c, own, at, at, at);
  }

  // ----- the owner of a subtype record -----

  /** The labels of a type, as DNS-SD writes them. */
  ghost predicate GoodType(words: set<text>, service: text, proto: text) {
    && GoodWords(words, TypeNames(service, proto)) && service != [] && proto != []
    && service[0] == UNDERSCORE && proto[0] == UNDERSCORE
  }

  /**
   Offset of the name in the record data behind the owner of a subtype record: a label, "_sub", a
   pointer, a header.
   */
  function SubtypeData(x: text): nat { |x| + 8 + DATA_OFFSET }

  lemma StateWords(cap: nat, words: set<text>, b0: seq<byte>, p: Packet, tail: Tail)
    requires State(cap, words, b0, p, tail)
    ensures Inv(p, cap) && TameWords(words) && NamesLack(p, words) && HEAD_LEN <= p.index
    ensures forall j | j in p.own :: HEAD_LEN <= j < p.index
  {
    hide NameHolds, TameWords, NamesLack, Calm, EndsWith, Stale;
  }

  lemma OwnerIsWritable(words: set<text>, x: text, service: text, proto: text)
    requires TameWords(words) && x in words && GoodType(words, service, proto)
    ensures Writable(SubtypeNames(x, service, proto)) && 1 <= |x| <= MAX_LABEL
  {
    var names := TypeNames(service, proto);
    assert names[0] == service && names[1] == proto;
  }

  lemma TypeIsFrom(words: set<text>, service: text, proto: text)
    requires GoodType(words, service, proto)
    ensures From(TypeNames(service, proto), words)
  {
  }

  lemma OwnerLength(x: text, service: text, proto: text)
    ensures WireLength(SubtypeNames(x, service, proto)) == 1 + |x| + 5 + WireLength(TypeNames(service, proto))
    ensures WireLength(TypeNames(service, proto)) >= 3
  {
    var names := TypeNames(service, proto);
    assert SubtypeNames(x, service, proto)[1..][1..] == names;
    assert names[1..] == [proto, LOCAL] && names[1..][1..] == [LOCAL];
    assert WireLength([proto, LOCAL]) == 1 + |proto| + WireLength([LOCAL]);
  }

  /**
   The responder is at the subtypes of a service: the packet p in front of them holds the type and the
   instance name, r is what has been written since, and the words that are left stand inside recorded
   names only.
   */
  ghost predicate Answering(reverse: bool, cap: nat, words: set<text>, left: set<text>, b0: seq<byte>, p: Packet,
                            r: Packet, a: text, service: text, proto: text, f: nat, g: nat)
  {
    && State(cap, words, b0, p, NameTail) && State(cap, left, b0, r, NameTail) && left <= words
    && GoodType(words, service, proto) && GoodWords(words, InstanceNames(a, service, proto))
    && Fit(cap, p) && Held(reverse, cap, p, TypeNames(service, proto), f)
    && Held(reverse, cap, p, InstanceNames(a, service, proto), g)
    && AgreeBelow(p.b, r.b, p.index) && p.own <= r.own && p.index <= r.index && NamesLack(r, words)
  }

  /** The owner takes its first label, "_sub", and a pointer to the type that the packet holds. */
  lemma OwnerIsWritten(reverse: bool, cap: nat, words: set<text>, left: set<text>, b0: seq<byte>, p: Packet, r: Packet,
                       x: text, a: text, service: text, proto: text, f: nat, g: nat)
    requires Answering(reverse, cap, words, left, b0, p, r, a, service, proto, f, g) && x in words
    requires r.index + WireLength(SubtypeNames(x, service, proto)) <= cap && Fit(cap, r)
    ensures var o, end := Append(reverse, r.b, r.index, cap, SubtypeNames(x, service, proto)), r.index + |x| + 8;
            && o.index == end && o.stop.Ref? && HEAD_LEN <= o.stop.at < p.index
            && SoundCall(r.b, r.own, o) && Tight(r.b, r.own, o.stop.at, o.stop.at)
            && Stands(o.b, r.index, x) && Stands(o.b, r.index + 1 + |x|, SUB)
            && o.b[end - 2] >= REF && o.b[end - 1] == o.stop.at % 256
  {
    hide Labels, NameHolds, Stands, Inside, Matches, Search, State, GoodWords, Append, TameWords, WireLength, Faithful,
         Held, Spelled, Begun;
    StateWords(cap, words, b0, p, NameTail);
    StateWords(cap, left, b0, r, NameTail);
    StateRoom(cap, left, b0, r, NameTail);
    var owner := SubtypeNames(x, service, proto);
    OwnerIsWritable(words, x, service, proto);
    FiveMatchNothing(reverse, r.b, r.index, cap, owner, 0);
    var b1 := FirstIsWritten(reverse, cap, r, owner);
    var next := r.index + 1 + |x|;
    var rest := owner[1..];
    SubMatchesNothing(reverse, b1, next, cap, rest, 0);
    var b2 := FirstIsWritten(reverse, cap, Packet(b1, next, r.own, r.names), rest);
    var last := next + 5;
    assert rest[1..] == TypeNames(service, proto);
    assert AgreeBelow(p.b, b2, p.index);
    TypeIsFrom(words, service, proto);
    HeldTarget(reverse, cap, words, b0, p, NameTail, b2, r.own, last, TypeNames(service, proto), f);
    OwnerLength(x, service, proto);
    HasRoom(reverse, cap, b2, last, TypeNames(service, proto));
    AppendPointer(reverse, b2, last, cap, TypeNames(service, proto));
    var o := Append(reverse, r.b, r.index, cap, owner);
    var at := o.stop.at;
    assert o.b == Put(b2, last, RefBytes(at));
    RefBytesPointBack(at);
    PutAgrees(b2, last, RefBytes(at), last);
    StandsSame(b1, b2, r.index, x, next);
    StandsSame(b2, o.b, r.index, x, last);
    StandsSame(b2, o.b, next, SUB, last);
    LabelsStable(b2, r.own, r.b, r.own, at, at, at);
  }

  /** What the owner leaves: its own label stands elsewhere now, the others do not. */
  lemma OwnerState(reverse: bool, cap: nat, words: set<text>, left: set<text>, b0: seq<byte>, p: Packet, r: Packet,
                   x: text, a: text, service: text, proto: text, f: nat, g: nat)
    requires Answering(reverse, cap, words, left, b0, p, r, a, service, proto, f, g) && x in left
    requires r.index + WireLength(SubtypeNames(x, service, proto)) <= cap && Fit(cap, r)
    ensures var named := Step(reverse, cap, r, WriteName(SubtypeNames(x, service, proto)));
            State(cap, left - {x}, b0, named, NameTail)
  {
    hide Labels, NameHolds, Stands, Inside, GoodWords, Append, TameWords, WireLength, Held, Answering, AgreeBelow,
         Hangs,
         Calm, EndsWith, NamesLack;
    assert State(cap, left, b0, r, NameTail)
           && x in words by { AnsweringState(reverse, cap, words, left, b0, p, r, a, service, proto, f, g); }
    StateRoom(cap, left, b0, r, NameTail);
    OwnerIsWritten(reverse, cap, words, left, b0, p, r, x, a, service, proto, f, g);
    var owner := SubtypeNames(x, service, proto);
    var named := Step(reverse, cap, r, WriteName(owner));
    var o := Append(reverse, r.b, r.index, cap, owner);
    assert named == Packet(o.b, o.index, r.own, r.names);
    StepKeeps(reverse, cap, r, WriteName(owner));
    AppendFrame(reverse, r.b, r.index, cap, owner);
    AppendAgrees(reverse, r.b, r.index, cap, owner);
    OwnerCalm(cap, left, b0, r, named, x);
    OwnerEnd(cap, left, b0, r, named, x, o.stop.at);
    FewerWords(left, left - {x}, r, named);
  }

  lemma AnsweringState(reverse: bool, cap: nat, words: set<text>, left: set<text>, b0: seq<byte>, p: Packet, r: Packet,
                       a: text, service: text, proto: text, f: nat, g: nat)
    requires Answering(reverse, cap, words, left, b0, p, r, a, service, proto, f, g)
    ensures State(cap, words, b0, p, NameTail) && State(cap, left, b0, r, NameTail) && left <= words
  {
  }

  lemma FewerWords(words: set<text>, fewer: set<text>, p: Packet, q: Packet)
    requires fewer <= words && TameWords(words) && NamesLack(p, words) && q.names == p.names
    ensures TameWords(fewer) && NamesLack(q, fewer)
  {
  }

  lemma OwnerCalm(cap: nat, left: set<text>, b0: seq<byte>, r: Packet, named: Packet, x: text)
    requires State(cap, left, b0, r, NameTail) && x in left
    requires r.index + |x| + 8 == named.index <= |named.b| && AgreeBelow(r.b, named.b, r.index)
    requires named.own == r.own && named.names == r.names && Extends(r, named)
    requires Stands(named.b, r.index, x) && Stands(named.b, r.index + 1 + |x|, SUB) && named.b[named.index - 2] >= REF
    ensures Calm(named, left - {x})
  {
    hide Labels, NameHolds, Stands, Inside, TameWords, NamesLack, EndsWith, Stale, Extends, AgreeBelow;
    forall at: nat, s | s in left - {x} && at + 1 + |s| <= named.index && Stands(named.b, at, s)
      ensures Inside(named, at)
    {
      WordIsLong(left, s);
      FirstByte(named.b, at, s);
      if at + 1 + |s| <= r.index {
        StandsSame(r.b, named.b, at, s, r.index);
        StaysInside(r, named, at);
      } else if at < r.index {
        FirstByte(named.b, r.index, x);
        StandsOver(named.b, at, s, r.index);
        EdgeIsNoChar(left, s, r.index - at - 1, x, named.b[r.index]);
      } else {
        NotInOwner(left, named.b, r.index, at, x, s);
      }
    }
  }

  /** No word but the subtype's own stands in the owner. */
  lemma NotInOwner(left: set<text>, b: seq<byte>, lo: nat, at: nat, x: text, s: text)
    requires TameWords(left) && x in left && s in left && s != x && lo <= at && at + 1 + |s| <= lo + |x| + 8 <= |b|
    requires Stands(b, lo, x) && Stands(b, lo + 1 + |x|, SUB) && b[lo + |x| + 6] >= REF
    ensures !Stands(b, at, s)
  {
    hide Stands;
    WordIsLong(left, s);
    FirstByte(b, lo, x);
    FirstByte(b, lo + 1 + |x|, SUB);
    if Stands(b, at, s) {
      FirstByte(b, at, s);
      SameItself(s);
      if at == lo {
        StandsTwice(b, at, s, x);
      } else if at <= lo + |x| {
        StandsOver(b, lo, x, at);
        EdgeIsNoChar(left, x, at - lo - 1, s, b[at]);
      } else if at == lo + 1 + |x| {
        StandsTwice(b, at, s, SUB);
        NotSub(left, s);
      } else if at <= lo + |x| + 5 {
        StandsOver(b, lo + 1 + |x|, SUB, at);
      }
    }
  }

  lemma NotSub(words: set<text>, s: text)
    requires TameWords(words) && s in words
    ensures !SameText(s, SUB)
  {
  }

  lemma OwnerEnd(cap: nat, left: set<text>, b0: seq<byte>, r: Packet, named: Packet, x: text, at: nat)
    requires State(cap, left, b0, r, NameTail) && x in left
    requires r.index + |x| + 8 == named.index <= |named.b|
    requires named.b[named.index - 2] >= REF && HEAD_LEN <= at < named.index && named.b[named.index - 1] == at % 256
    ensures EndsWith(named, left - {x}, NameTail)
  {
    hide NameHolds, TameWords, NamesLack, Calm, EndsWith, Stale, Hangs;
    var words := left - {x};
    forall o: nat, s | s in words && Hangs(named.b, o, s, named.index)
      ensures o == named.index - 1 && IsLowByte(|s|, named.index)
    {
      WordIsLong(left, s);
      HangsBounds(named.b, o, s, named.index);
      LowByteOfOffset(at, named.index);
      if o < named.index - 2 {
        HangsOver(named.b, o, s, named.index - 2, named.index);
        EdgeIsNoChar(left, s, named.index - 2 - o - 1, x, named.b[named.index - 2]);
      }
    }
    EndsInName(named, words);
  }

  lemma EndsInName(p: Packet, words: set<text>)
    requires forall o: nat, s | s in words && Hangs(p.b, o, s, p.index) :: o == p.index - 1 && IsLowByte(|s|, p.index)
    ensures EndsWith(p, words, NameTail)
  {
  }

  // ----- the record -----

  /** The size of a subtype record without compression. */
  function SubtypeSize(x: text, a: text, service: text, proto: text): nat {
    WireLength(SubtypeNames(x, service, proto)) + DATA_OFFSET + WireLength(InstanceNames(a, service, proto))
  }

  lemma SubtypeSizes(x: text, a: text, service: text, proto: text)
    ensures SubtypeSize(x, a, service, proto) >= WireLength(SubtypeNames(x, service, proto)) + DATA_OFFSET + 2
    ensures SubtypeSize(x, a, service, proto) >= SubtypeData(x) + 2
  {
    OwnerLength(x, service, proto);
    assert InstanceNames(a, service, proto)[1..] == TypeNames(service, proto);
  }

  /** The bytes at an offset mean the labels. */
  ghost predicate Means(p: Packet, at: nat, strings: seq<text>) {
    var d := Labels(p.b, p.own, at, at);
    d.Decoded? && SameLabels(d.labels, strings)
  }

  /**
   What a subtype record leaves at an offset: owner and instance name convey their labels, and in front of
   it the subtype's label stands inside recorded names only.
   */
  ghost predicate SubtypeStands(s: Packet, t: nat, x: text, a: text, service: text, proto: text) {
    var end, data := t + |x| + 8, t + SubtypeData(x);
    && HEAD_LEN <= t && data < s.index && Stands(s.b, t, x)
    && Conveys(s.b, s.own + Span(t, end), t, t, end, SubtypeNames(x, service, proto))
    && data in s.names && Means(s, data, InstanceNames(a, service, proto))
    && forall at | HEAD_LEN <= at < t && Stands(s.b, at, x) :: Inside(s, at)
  }

  lemma RecordedConveys(p: Packet, cap: nat, n: nat)
    requires Inv(p, cap) && n in p.names
    ensures Means(p, n, p.names[n])
  {
    hide Labels, SameLabels;
    NamesHold(p, cap, n);
  }

  /** The instance name in the record is a pointer to where the packet holds it. */
  lemma InstanceIsPointer(reverse: bool, cap: nat, words: set<text>, left: set<text>, b0: seq<byte>, p: Packet,
                          r: Packet,
                          h: Packet, x: text, a: text, service: text, proto: text, f: nat, g: nat)
    requires Answering(reverse, cap, words, left, b0, p, r, a, service, proto, f, g)
    requires AgreeBelow(p.b, h.b, p.index) && p.own <= h.own && p.index <= h.index && h.index + 2 < cap
    ensures Fit(cap, h) && GoodName(reverse, cap, h, InstanceNames(a, service, proto))
    ensures var o := Append(reverse, h.b, h.index, cap, InstanceNames(a, service, proto));
            o.index == h.index + 2 && o.added == 2 && o.b[h.index] >= REF
  {
    hide Labels, NameHolds, Stands, Inside, Matches, Search, State, Append, TameWords, Held, Faithful, InDomain,
         AllDifferent,
         From;
    var names := InstanceNames(a, service, proto);
    HeldTarget(reverse, cap, words, b0, p, NameTail, h.b, h.own, h.index, names, g);
    StateWords(cap, words, b0, p, NameTail);
    StateRoom(cap, words, b0, p, NameTail);
    WordsAreTame(words, names);
    TameIsWritable(names);
    PointerHasRoom(reverse, h.b, h.index, cap, names);
    AppendPointer(reverse, h.b, h.index, cap, names);
    RefBytesPointBack(Search(reverse, h.b, h.index, cap, names, 0).at);
  }

  lemma PointerHasRoom(reverse: bool, b: seq<byte>, index: nat, cap: nat, strings: seq<text>)
    requires cap + SLACK <= |b| && index + 1 < cap && strings != [] && Search(reverse, b, index, cap, strings, 0).At?
    ensures !Append(reverse, b, index, cap, strings).stop.Full?
  {
    hide Search, Put, Matches;
  }

  /** The packet behind the owner and the header of a subtype record, and behind its instance name. */
  ghost function SubtypeHeaded(reverse: bool, cap: nat, r: Packet, x: text, service: text, proto: text,
                               ttl: nat): (h: Packet)
    requires Fit(cap, r)
    ensures Fit(cap, h)
  {
    Headed(reverse, cap, r, SubtypeNames(x, service, proto), Header(TYPE_PTR, false, ttl))
  }

  lemma SubtypeSteps(reverse: bool, cap: nat, words: set<text>, left: set<text>, b0: seq<byte>, p: Packet, r: Packet,
                     x: text, a: text, service: text, proto: text, ttl: nat, f: nat, g: nat)
    requires Answering(reverse, cap, words, left, b0, p, r, a, service, proto, f, g) && x in left
    requires RawCalm(Header(TYPE_PTR, false, ttl), words)
    requires r.index + WireLength(SubtypeNames(x, service, proto)) + DATA_OFFSET < cap && Fit(cap, r)
    ensures var h := SubtypeHeaded(reverse, cap, r, x, service, proto, ttl);
            && State(cap, left - {x}, b0, h, RawTail(Header(TYPE_PTR, false, ttl)))
            && h.index == r.index + SubtypeData(x) && h.own == r.own && h.names == r.names
            && Extends(r, h) && AgreeBelow(r.b, h.b, r.index) && Stands(h.b, r.index, x)
            && Conveys(h.b, r.own + Span(r.index, h.index - DATA_OFFSET), r.index, r.index, h.index - DATA_OFFSET,
                       SubtypeNames(x, service, proto))
            && HeadFits(reverse, cap, r, SubtypeNames(x, service, proto))
  {
    hide Labels, NameHolds, Stands, Append, TameWords, WireLength, Answering, AgreeBelow, State, RawCalm, Extends,
         SoundCall, Tight, Header, Inv;
    AnsweringState(reverse, cap, words, left, b0, p, r, a, service, proto, f, g);
    StateRoom(cap, left, b0, r, NameTail);
    StateWords(cap, left, b0, r, NameTail);
    OwnerLength(x, service, proto);
    OwnerIsWritten(reverse, cap, words, left, b0, p, r, x, a, service, proto, f, g);
    OwnerState(reverse, cap, words, left, b0, p, r, x, a, service, proto, f, g);
    var owner, header := SubtypeNames(x, service, proto), Header(TYPE_PTR, false, ttl);
    var named := Step(reverse, cap, r, WriteName(owner));
    var o := Append(reverse, r.b, r.index, cap, owner);
    assert named == Packet(o.b, o.index, r.own, r.names) by { FiveAreNotRecorded(reverse, cap, r, owner); }
    StepKeeps(reverse, cap, r, WriteName(owner));
    AppendAgrees(reverse, r.b, r.index, cap, owner);
    OwnerIsPlain(reverse, cap, words, left, b0, p, r, x, a, service, proto, f, g);
    AppendDecodes(reverse, r.b, r.own, r.own + Span(r.index, o.index), r.index, r.index, cap, owner, o);
    assert RawCalm(header, left - {x}) by { FewerAreCalm(header, words, left - {x}); }
    assert header[0] == 0 by { PtrHeader(ttl); }
    RawState(reverse, cap, left - {x}, b0, named, header);
    var h := Step(reverse, cap, named, WriteRaw(header));
    StateWords(cap, left - {x}, b0, named, NameTail);
    RawAdds(reverse, cap, named, header);
    StepKeeps(reverse, cap, named, WriteRaw(header));
    ExtendsTwice(r, named, h);
    StepAgrees(reverse, cap, named, WriteRaw(header));
    AgreeTwice(r.b, named.b, h.b, r.index, named.index, r.index);
    StandsSame(named.b, h.b, r.index, x, named.index);
    assert AgreeBelow(named.b, h.b, named.index);
    assert owner[0] == x && o.added == |x| + 8 < 256;
    ConveysStays(named.b, h.b, named.index, r.own + Span(r.index, o.index), r.index, o.index, owner);
  }

  lemma FiveAreNotRecorded(reverse: bool, cap: nat, r: Packet, owner: seq<text>)
    requires Fit(cap, r) && |owner| == 5
    ensures var o := Append(reverse, r.b, r.index, cap, owner);
            Step(reverse, cap, r, WriteName(owner)) == Packet(o.b, o.index, r.own, r.names)
  {
    hide Append, Recordable;
  }

  lemma FewerAreCalm(x: seq<byte>, words: set<text>, fewer: set<text>)
    requires RawCalm(x, words) && fewer <= words
    ensures RawCalm(x, fewer)
  {
    hide Stands;
  }

  lemma PtrHeader(ttl: nat)
    ensures Header(TYPE_PTR, false, ttl)[0] == 0
  {
    assert U16Bytes(TYPE_PTR)[0] == 0;
  }

  lemma OwnerIsPlain(reverse: bool, cap: nat, words: set<text>, left: set<text>, b0: seq<byte>, p: Packet, r: Packet,
                     x: text, a: text, service: text, proto: text, f: nat, g: nat)
    requires Answering(reverse, cap, words, left, b0, p, r, a, service, proto, f, g) && x in words
    ensures Writable(SubtypeNames(x, service, proto)) && cap <= POINTER_SPACE && forall j | j in r.own :: j < r.index
  {
    hide GoodType, TameWords, Held;
    StateWords(cap, words, b0, p, NameTail);
    StateWords(cap, left, b0, r, NameTail);
    OwnerIsWritable(words, x, service, proto);
  }

  lemma ConveysStays(b: seq<byte>, c: seq<byte>, hi: nat, own: set<nat>, at: nat, end: nat, strings: seq<text>)
    requires AgreeBelow(b, c, hi) && (forall j | j in own :: j < hi) && Conveys(b, own, at, at, end, strings)
    ensures Conveys(c, own, at, at, end, strings)
  {
    hide Labels;
    LabelsStable(b, own, c, own, at, at, at);
  }

  /** The instance name behind the header, and the length. */
  lemma SubtypeEnds(reverse: bool, cap: nat, words: set<text>, left: set<text>, b0: seq<byte>, p: Packet, r: Packet,
                    x: text, a: text, service: text, proto: text, ttl: nat, f: nat, g: nat)
    requires Answering(reverse, cap, words, left, b0, p, r, a, service, proto, f, g) && x in left
    requires RawCalm(Header(TYPE_PTR, false, ttl), words)
    requires r.index + SubtypeSize(x, a, service, proto) < cap && Fit(cap, r)
    ensures var h := SubtypeHeaded(reverse, cap, r, x, service, proto, ttl);
            var d := Step(reverse, cap, h, WriteName(InstanceNames(a, service, proto)));
            var s := PutRecord(reverse, cap, r, SubtypeRecord(a, x, service, proto, ttl));
            && s == Step(reverse, cap, d, SetU16(h.index - 2, 2)) && h.index >= 2
            && State(cap, left - {x}, b0, s, NameTail)
            && Extends(h, d) && Extends(d, s) && d.own == h.own + Span(h.index, d.index) && s.own == d.own
            && AgreeBelow(h.b, d.b, h.index) && s.index == d.index == h.index + 2
            && (forall j | 0 <= j < |d.b| && j != h.index - 2 && j != h.index - 1 :: s.b[j] == d.b[j])
            && s.names == h.names[h.index := InstanceNames(a, service, proto)] && NamesLack(s, words)
            && Counted(reverse, cap, h, InstanceNames(a, service, proto))
  {
    hide Labels, NameHolds, Stands, Append, TameWords, WireLength, AgreeBelow, State, RawCalm, Extends, Tight, Header,
         Inv,
         Held, GoodName, Step, NoChar, Conveys, Run, RdLength, SubtypeHeaded, Answering, U16At, Span, InstanceNames,
         SubtypeNames, TypeNames, SubtypeRecord, PutRecord, SubtypeSize, GoodWords;
    var names := InstanceNames(a, service, proto);
    SubtypeSizes(x, a, service, proto);
    SubtypeSteps(reverse, cap, words, left, b0, p, r, x, a, service, proto, ttl, f, g);
    var h, rest := SubtypeHeaded(reverse, cap, r, x, service, proto, ttl), left - {x};
    AnsweringWords(reverse, cap, words, left, b0, p, r, a, service, proto, f, g);
    StateWords(cap, left, b0, r, NameTail);
    StateWords(cap, rest, b0, h, RawTail(Header(TYPE_PTR, false, ttl)));
    AgreeTwice(p.b, r.b, h.b, p.index, r.index, p.index);
    InstanceIsPointer(reverse, cap, words, left, b0, p, r, h, x, a, service, proto, f, g);
    NameStateAmong(reverse, cap, rest, words, b0, h, RawTail(Header(TYPE_PTR, false, ttl)), names);
    var d := Step(reverse, cap, h, WriteName(names));
    NameAdds(reverse, cap, h, names);
    WriteNameKeeps(reverse, cap, h, names);
    StepAgrees(reverse, cap, h, WriteName(names));
    SubtypePut(reverse, cap, r, x, a, service, proto, ttl);
    assert NoChar(rest, d.b[h.index]) by { MarkIsNoChar(words, rest, d.b[h.index]); }
    StateWords(cap, rest, b0, d, NameTail);
    PatchState(reverse, cap, rest, b0, d, NameTail, h.index - 2, 2, h.index);
    Patched(reverse, cap, d, h.index - 2, 2);
    PatchKeepsNames(reverse, cap, d, h.index - 2, 2);
    WordsAdded(words, r, Step(reverse, cap, d, SetU16(h.index - 2, 2)), h.index, names);
  }

  lemma AnsweringWords(reverse: bool, cap: nat, words: set<text>, left: set<text>, b0: seq<byte>, p: Packet, r: Packet,
                       a: text, service: text, proto: text, f: nat, g: nat)
    requires Answering(reverse, cap, words, left, b0, p, r, a, service, proto, f, g)
    ensures State(cap, left, b0, r, NameTail) && left <= words && TameWords(words)
    ensures GoodWords(words, InstanceNames(a, service, proto)) && NamesLack(r, words)
    ensures AgreeBelow(p.b, r.b, p.index) && p.own <= r.own && p.index <= r.index
  {
    hide TameWords, Held, GoodType, GoodWords, AgreeBelow, Calm, NamesLack, EndsWith, Stale, NameHolds;
  }

  lemma WordsAdded(words: set<text>, r: Packet, s: Packet, at: nat, names: seq<text>)
    requires TameWords(words) && GoodWords(words, names) && NamesLack(r, words) && s.names == r.names[at := names]
    ensures NamesLack(s, words)
  {
    hide TameWords, NamesLack;
    NewNameLacks(r, s, at, words, words, names);
  }

  lemma SubtypePut(reverse: bool, cap: nat, r: Packet, x: text, a: text, service: text, proto: text, ttl: nat)
    requires Fit(cap, r)
    requires var h, names := SubtypeHeaded(reverse, cap, r, x, service, proto, ttl), InstanceNames(a, service, proto);
             h.index >= 2 && Append(reverse, h.b, h.index, cap, names).added == 2
    ensures var h := SubtypeHeaded(reverse, cap, r, x, service, proto, ttl);
            var d := Step(reverse, cap, h, WriteName(InstanceNames(a, service, proto)));
            PutRecord(reverse, cap, r, SubtypeRecord(a, x, service, proto, ttl))
            == Step(reverse, cap, d, SetU16(h.index - 2, 2))
  {
    hide Append, Step, Run, RdLength, Header;
    var h := SubtypeHeaded(reverse, cap, r, x, service, proto, ttl);
    OneName(reverse, cap, h, InstanceNames(a, service, proto));
  }

  lemma SubtypeFits(reverse: bool, cap: nat, r: Packet, x: text, a: text, service: text, proto: text, ttl: nat)
    requires Fit(cap, r) && HeadFits(reverse, cap, r, SubtypeNames(x, service, proto))
    requires Counted(reverse, cap, SubtypeHeaded(reverse, cap, r, x, service, proto, ttl),
                     InstanceNames(a, service, proto))
    ensures PointerFits(reverse, cap, r, SubtypeRecord(a, x, service, proto, ttl), InstanceNames(a, service, proto))
  {
    hide Append, Headed, HeadFits;
  }

  /** The names that were not there before are among the given ones. */
  ghost predicate OnlyAdds(p: Packet, q: Packet, added: set<seq<text>>) {
    forall n | n in q.names :: (n in p.names && q.names[n] == p.names[n]) || q.names[n] in added
  }

  lemma AddsTwice(p: Packet, q: Packet, r: Packet, added: set<seq<text>>)
    requires OnlyAdds(p, q, added) && OnlyAdds(q, r, added)
    ensures OnlyAdds(p, r, added)
  {
  }

  /** Behind a subtype record the responder is where it was, with one word less, and the record stands. */
  lemma SubtypeState(reverse: bool, cap: nat, words: set<text>, left: set<text>, b0: seq<byte>, p: Packet, r: Packet,
                     x: text, a: text, service: text, proto: text, ttl: nat, f: nat, g: nat)
    requires Answering(reverse, cap, words, left, b0, p, r, a, service, proto, f, g) && x in left
    requires RawCalm(Header(TYPE_PTR, false, ttl), words)
    requires r.index + SubtypeSize(x, a, service, proto) < cap && Fit(cap, r)
    ensures var s := PutRecord(reverse, cap, r, SubtypeRecord(a, x, service, proto, ttl));
            && Answering(reverse, cap, words, left - {x}, b0, p, s, a, service, proto, f, g)
            && After(r, s) && r.index < s.index <= r.index + SubtypeSize(x, a, service, proto)
            && AgreeBelow(r.b, s.b, r.index) && SubtypeStands(s, r.index, x, a, service, proto)
            && OnlyAdds(r, s, {InstanceNames(a, service, proto)})
            && PointerFits(reverse, cap, r, SubtypeRecord(a, x, service, proto, ttl), InstanceNames(a, service, proto))
  {
    hide Labels, NameHolds, Stands, TameWords, WireLength, AgreeBelow, State, RawCalm, Extends, Header, Inside,
         SubtypeSize,
         Means,
         Held, Step, Conveys, Kept, PutRecord, SubtypeHeaded, GoodWords, GoodType, Append, Tight, Run, RdLength, Inv,
             From,
         InDomain, AllDifferent, Recordable, Plain, Span, InstanceNames, SubtypeNames, TypeNames, SubtypeRecord;
    SubtypeSizes(x, a, service, proto);
    assert r.index + WireLength(SubtypeNames(x, service, proto)) + DATA_OFFSET < cap;
    SubtypeSteps(reverse, cap, words, left, b0, p, r, x, a, service, proto, ttl, f, g);
    SubtypeEnds(reverse, cap, words, left, b0, p, r, x, a, service, proto, ttl, f, g);
    SubtypeFits(reverse, cap, r, x, a, service, proto, ttl);
    var h := SubtypeHeaded(reverse, cap, r, x, service, proto, ttl);
    var d := Step(reverse, cap, h, WriteName(InstanceNames(a, service, proto)));
    var s := PutRecord(reverse, cap, r, SubtypeRecord(a, x, service, proto, ttl));
    StateWords(cap, left, b0, r, NameTail);
    SubtypeIsLater(r, h, d, s, x);
    AgreeTwice(p.b, r.b, s.b, p.index, r.index, p.index);
    var end := r.index + |x| + 8;
    StandsSame(h.b, s.b, r.index, x, end);
    ConveysStays(h.b, s.b, end, r.own + Span(r.index, end), r.index, end, SubtypeNames(x, service, proto));
    ConveysMore(s.b, r.own + Span(r.index, end), s.own + Span(r.index, end), r.index, end,
                SubtypeNames(x, service, proto));
    InFront(cap, left, b0, r, s, x);
    StateWords(cap, left - {x}, b0, s, NameTail);
    RecordedConveys(s, cap, h.index);
  }

  lemma MarkIsNoChar(words: set<text>, fewer: set<text>, c: byte)
    requires TameWords(words) && fewer <= words && c >= REF
    ensures NoChar(fewer, c)
  {
  }

  lemma ConveysMore(b: seq<byte>, own: set<nat>, own': set<nat>, at: nat, end: nat, strings: seq<text>)
    requires own <= own' && Conveys(b, own, at, at, end, strings)
    ensures Conveys(b, own', at, at, end, strings)
  {
    hide Labels;
    LabelsStable(b, own, b, own', at, at, at);
  }

  /** In front of the record its label stands inside recorded names only. */
  lemma InFront(cap: nat, left: set<text>, b0: seq<byte>, r: Packet, s: Packet, x: text)
    requires State(cap, left, b0, r, NameTail) && x in left && r.index < |s.b|
    requires Extends(r, s) && AgreeBelow(r.b, s.b, r.index) && Stands(s.b, r.index, x)
    ensures forall at | HEAD_LEN <= at < r.index && Stands(s.b, at, x) :: Inside(s, at)
  {
    hide Labels, NameHolds, Stands, Inside, TameWords, NamesLack, EndsWith, Stale, Extends, AgreeBelow;
    FirstByte(s.b, r.index, x);
    forall at | HEAD_LEN <= at < r.index && Stands(s.b, at, x)
      ensures Inside(s, at)
    {
      if at + 1 + |x| <= r.index {
        StandsSame(r.b, s.b, at, x, r.index);
        StaysInside(r, s, at);
      } else {
        StandsOver(s.b, at, x, r.index);
        EdgeIsNoChar(left, x, r.index - at - 1, x, s.b[r.index]);
      }
    }
  }

  /** Header, name and length come behind what was there. */
  lemma SubtypeIsLater(r: Packet, h: Packet, d: Packet, s: Packet, x: text)
    requires Extends(r, h) && Extends(h, d) && Extends(d, s) && AgreeBelow(r.b, h.b, r.index) && h.own == r.own
    requires h.index == r.index + SubtypeData(x) && d.own == h.own + Span(h.index, d.index) && s.own == d.own
    requires AgreeBelow(h.b, d.b, h.index) && s.index == d.index == h.index + 2
    requires forall j | 0 <= j < |d.b| && j != h.index - 2 && j != h.index - 1 :: s.b[j] == d.b[j]
    requires (forall j | j in r.own :: j < r.index)
    ensures Extends(r, s) && Kept(HEAD_LEN, r, s) && AgreeBelow(r.b, s.b, r.index) 
    ensures AgreeBelow(h.b, s.b, h.index - 2) && AgreeBelow(h.b, s.b, h.index - DATA_OFFSET) && r.own <= s.own
  {
    ExtendsTwice(r, h, d);
    ExtendsTwice(r, d, s);
    hide Labels;
  }

  // ----- a service and its subtypes -----

  /** The records of the subtypes, one behind the other. */
  ghost function PutSubtypes(reverse: bool, cap: nat, r: Packet, a: text, service: text, proto: text, xs: seq<text>,
                             ttl: nat): (s: Packet)
    requires Fit(cap, r)
    ensures |s.b| == |r.b| && Fit(cap, s)
    decreases |xs|
  {
    if xs == [] then r
    else
      PutSubtypes(reverse, cap, PutRecord(reverse, cap, r, SubtypeRecord(a, xs[0], service, proto, ttl)), a, service,
                  proto, xs[1..], ttl)
  }

  /** Where they begin. */
  ghost function SubtypeStarts(reverse: bool, cap: nat, r: Packet, a: text, service: text, proto: text, xs: seq<text>,
                               ttl: nat): (ts: seq<nat>)
    requires Fit(cap, r)
    ensures |ts| == |xs|
    decreases |xs|
  {
    if xs == [] then []
    else
      [r.index]
      + SubtypeStarts(reverse, cap, PutRecord(reverse, cap, r, SubtypeRecord(a, xs[0], service, proto, ttl)), a,
                      service, proto, xs[1..], ttl)
  }

  /** What the builder leaves for them, and how many of them it counts, for every shortage of room. */
  ghost function SubtypesLeft(reverse: bool, cap: nat, r: Packet, a: text, service: text, proto: text, xs: seq<text>,
                              ttl: nat): (s: Packet)
    requires Fit(cap, r)
    ensures |s.b| == |r.b| && Fit(cap, s)
    decreases |xs|
  {
    if xs == [] then r
    else
      var r1 := PointerLeft(reverse, cap, r, SubtypeRecord(a, xs[0], service, proto, ttl),
                            InstanceNames(a, service, proto));
      SubtypesLeft(reverse, cap, r1, a, service, proto, xs[1..], ttl)
  }

  ghost function SubtypesCounted(reverse: bool, cap: nat, r: Packet, a: text, service: text, proto: text,
                                 xs: seq<text>, ttl: nat): (n: nat)
    requires Fit(cap, r)
    ensures n <= |xs|
    decreases |xs|
  {
    if xs == [] then 0
    else
      var rec, names := SubtypeRecord(a, xs[0], service, proto, ttl), InstanceNames(a, service, proto);
      (if PointerFits(reverse, cap, r, rec, names) then 1 else 0)
      + SubtypesCounted(reverse, cap, PointerLeft(reverse, cap, r, rec, names), a, service, proto, xs[1..], ttl)
  }

  /** What the builder of a service's PTR records leaves: nothing for the subtypes if the first record fails. */
  ghost function ServiceLeft(reverse: bool, cap: nat, q: Packet, a: text, service: text, proto: text, xs: seq<text>,
                             ttl: nat): (s: Packet)
    requires Fit(cap, q)
    ensures |s.b| == |q.b| && Fit(cap, s)
  {
    var rec, names := PtrRecord(a, service, proto, ttl), InstanceNames(a, service, proto);
    var p := PointerLeft(reverse, cap, q, rec, names);
    if PointerFits(reverse, cap, q, rec, names) then SubtypesLeft(reverse, cap, p, a, service, proto, xs, ttl) else p
  }

  ghost function ServiceCounted(reverse: bool, cap: nat, q: Packet, a: text, service: text, proto: text,
                                xs: seq<text>, ttl: nat): (n: nat)
    requires Fit(cap, q)
  {
    var rec, names := PtrRecord(a, service, proto, ttl), InstanceNames(a, service, proto);
    var p := PointerLeft(reverse, cap, q, rec, names);
    if PointerFits(reverse, cap, q, rec, names) then
      1 + SubtypesCounted(reverse, cap, p, a, service, proto, xs, ttl)
    else 0
  }

  /** If the PTR record of the service is not written whole, nothing is counted and no subtype is written. */
  lemma NoSubtypesWithoutPtr(reverse: bool, cap: nat, q: Packet, a: text, service: text, proto: text, xs: seq<text>,
                             ys: seq<text>, ttl: nat)
    requires Fit(cap, q)
    requires !PointerFits(reverse, cap, q, PtrRecord(a, service, proto, ttl), InstanceNames(a, service, proto))
    ensures ServiceCounted(reverse, cap, q, a, service, proto, xs, ttl) == 0
    ensures ServiceLeft(reverse, cap, q, a, service, proto, xs, ttl)
         == ServiceLeft(reverse, cap, q, a, service, proto, ys, ttl)
  {
    hide PointerFits, PointerLeft;
  }

  lemma SubtypesNext(reverse: bool, cap: nat, r: Packet, a: text, service: text, proto: text, xs: seq<text>, k: nat,
                     ttl: nat)
    requires Fit(cap, r) && k < |xs|
    ensures var rec, names := SubtypeRecord(a, xs[k], service, proto, ttl), InstanceNames(a, service, proto);
            var r1 := PointerLeft(reverse, cap, r, rec, names);
            && SubtypesLeft(reverse, cap, r, a, service, proto, xs[k..], ttl)
               == SubtypesLeft(reverse, cap, r1, a, service, proto, xs[k + 1..], ttl)
            && SubtypesCounted(reverse, cap, r, a, service, proto, xs[k..], ttl)
               == (if PointerFits(reverse, cap, r, rec, names) then 1 else 0)
                  + SubtypesCounted(reverse, cap, r1, a, service, proto, xs[k + 1..], ttl)
  {
    hide PointerLeft, PointerFits;
    assert xs[k..][1..] == xs[k + 1..] && xs[k..][0] == xs[k];
  }

  lemma SubtypesEnd(reverse: bool, cap: nat, r: Packet, a: text, service: text, proto: text, ttl: nat)
    requires Fit(cap, r)
    ensures SubtypesLeft(reverse, cap, r, a, service, proto, [], ttl) == r
    ensures SubtypesCounted(reverse, cap, r, a, service, proto, [], ttl) == 0
  {
  }

  lemma ReportedSome(reverse: bool, cap: nat, p: Packet, rec: Rec)
    requires Fit(cap, p)
    ensures Reported(reverse, cap, p, rec) > 0
  {
    hide Append, RdLength, Headed;
  }

  /** The PTR record of a service, the records of its subtypes, and their number as a uint8_t. */
  method AppendServicePtrAnswers(reverse: bool, packet: array<byte>, index: nat, cap: nat, instance: text,
                                 service: text, proto: text, subtypes: seq<text>, ttl: nat, ghost q: Packet)
    returns (index': nat, answers: nat)
    requires cap + SLACK <= packet.Length && index <= cap && Leaves(q, packet[..], index)
    modifies packet
    ensures Leaves(ServiceLeft(reverse, cap, q, instance, service, proto, subtypes, ttl), packet[..], index')
    ensures answers == ServiceCounted(reverse, cap, q, instance, service, proto, subtypes, ttl) % 256
  {
    hide PointerLeft, PointerFits, SubtypesLeft, SubtypesCounted, Header, Reported, SubtypeRecord, PtrRecord,
         InstanceNames;
    var added;
    index', added := AppendPtrRecord(reverse, packet, index, cap, instance, service, proto, ttl, q);
    ReportedSome(reverse, cap, q, PtrRecord(instance, service, proto, ttl));
    if added == 0 {
      return index', 0;
    }
    answers := 1;
    ghost var p := PointerLeft(reverse, cap, q, PtrRecord(instance, service, proto, ttl),
                               InstanceNames(instance, service, proto));
    ghost var cur := p;
    var k: nat := 0;
    assert subtypes[0..] == subtypes;
    while k < |subtypes|
      invariant k <= |subtypes| && answers < 256 && Fit(cap, cur) && Leaves(cur, packet[..], index')
      invariant SubtypesLeft(reverse, cap, p, instance, service, proto, subtypes, ttl)
             == SubtypesLeft(reverse, cap, cur, instance, service, proto, subtypes[k..], ttl)
      invariant (1 + SubtypesCounted(reverse, cap, p, instance, service, proto, subtypes, ttl)) % 256
             == (answers + SubtypesCounted(reverse, cap, cur, instance, service, proto, subtypes[k..], ttl)) % 256
    {
      SubtypesNext(reverse, cap, cur, instance, service, proto, subtypes, k, ttl);
      ReportedSome(reverse, cap, cur, SubtypeRecord(instance, subtypes[k], service, proto, ttl));
      index', added := AppendSubtypePtrRecord(reverse, packet, index', cap, instance, subtypes[k], service, proto, ttl,
                                              cur);
      cur := PointerLeft(reverse, cap, cur, SubtypeRecord(instance, subtypes[k], service, proto, ttl),
                         InstanceNames(instance, service, proto));
      if added > 0 {
        AddModulo(answers + 1,
                  SubtypesCounted(reverse, cap, cur, instance, service, proto, subtypes[k + 1..], ttl));
        answers := (answers + 1) % 256;
      }
      k := k + 1;
    }
    assert subtypes[k..] == [];
    SubtypesEnd(reverse, cap, cur, instance, service, proto, ttl);
  }

  function SubtypesSize(xs: seq<text>, a: text, service: text, proto: text): nat {
    if xs == [] then 0 else SubtypeSize(xs[0], a, service, proto) + SubtypesSize(xs[1..], a, service, proto)
  }

  ghost predicate SubtypesStand(s: Packet, ts: seq<nat>, xs: seq<text>, a: text, service: text, proto: text) {
    |ts| == |xs| && forall i | 0 <= i < |xs| :: SubtypeStands(s, ts[i], xs[i], a, service, proto)
  }

  function SetOf(xs: seq<text>): set<text> { set x | x in xs }

  /** A record that stands goes on standing. */
  lemma SubtypeStays(cap: nat, s: Packet, s': Packet, t: nat, x: text, a: text, service: text, proto: text)
    requires After(s, s') && (forall j | j in s.own :: HEAD_LEN <= j < s.index) && s.index <= |s.b|
    requires SubtypeStands(s, t, x, a, service, proto)
    ensures SubtypeStands(s', t, x, a, service, proto)
  {
    hide Labels, Stands, Inside, SameLabels;
    var end := t + |x| + 8;
    StandsUnmoved(s.b, s'.b, t, x);
    LabelsStable(s.b, s.own + Span(t, end), s'.b, s'.own + Span(t, end), t, t, t);
    forall at | HEAD_LEN <= at < t && Stands(s'.b, at, x)
      ensures Inside(s', at)
    {
      StandsUnmoved(s.b, s'.b, at, x);
      StaysInside(s, s', at);
    }
  }

  lemma {:induction false} SubtypesState(reverse: bool, cap: nat, words: set<text>, left: set<text>, b0: seq<byte>,
                                         p: Packet, r: Packet, a: text, service: text, proto: text, xs: seq<text>,
                                         ttl: nat, f: nat, g: nat)
    requires Answering(reverse, cap, words, left, b0, p, r, a, service, proto, f, g) && Fit(cap, r)
    requires AllDifferent(xs) && SetOf(xs) <= left && RawCalm(Header(TYPE_PTR, false, ttl), words)
    requires r.index + SubtypesSize(xs, a, service, proto) < cap
    ensures var s := PutSubtypes(reverse, cap, r, a, service, proto, xs, ttl);
            && Answering(reverse, cap, words, left - SetOf(xs), b0, p, s, a, service, proto, f, g)
            && After(r, s) && AgreeBelow(r.b, s.b, r.index)
            && r.index <= s.index <= r.index + SubtypesSize(xs, a, service, proto)
            && OnlyAdds(r, s, {InstanceNames(a, service, proto)})
            && SubtypesLeft(reverse, cap, r, a, service, proto, xs, ttl) == s
            && SubtypesCounted(reverse, cap, r, a, service, proto, xs, ttl) == |xs|
            && SubtypesStand(s, SubtypeStarts(reverse, cap, r, a, service, proto, xs, ttl), xs, a, service, proto)
    decreases |xs|
  {
    hide Answering, After, AgreeBelow, SubtypeStands, PutRecord, RawCalm, Header, SubtypeSize, AllDifferent, Span;
    if xs == [] {
      AfterTwice(r, r, r);
      AgreesWithItself(r.b, r.index);
      assert left - SetOf(xs) == left;
    } else {
      assert xs[0] in SetOf(xs);
      SubtypeState(reverse, cap, words, left, b0, p, r, xs[0], a, service, proto, ttl, f, g);
      var r1 := PutRecord(reverse, cap, r, SubtypeRecord(a, xs[0], service, proto, ttl));
      RestDiffers(xs, left);
      SubtypesState(reverse, cap, words, left - {xs[0]}, b0, p, r1, a, service, proto, xs[1..], ttl, f, g);
      var s := PutSubtypes(reverse, cap, r1, a, service, proto, xs[1..], ttl);
      AfterTwice(r, r1, s);
      AddsTwice(r, r1, s, {InstanceNames(a, service, proto)});
      AgreeTwice(r.b, r1.b, s.b, r.index, r1.index, r.index);
      assert (forall j | j in r1.own :: HEAD_LEN <= j < r1.index) && r1.index <= |r1.b| by {
        AnsweringWords(reverse, cap, words, left - {xs[0]}, b0, p, r1, a, service, proto, f, g);
        StateWords(cap, left - {xs[0]}, b0, r1, NameTail);
      }
      SubtypeStays(cap, r1, s, r.index, xs[0], a, service, proto);
    }
  }

  lemma RestDiffers(xs: seq<text>, left: set<text>)
    requires xs != [] && AllDifferent(xs) && SetOf(xs) <= left
    ensures AllDifferent(xs[1..]) && SetOf(xs[1..]) <= left - {xs[0]}
    ensures left - {xs[0]} - SetOf(xs[1..]) == left - SetOf(xs)
  {
    assert forall x :: x in xs <==> x == xs[0] || x in xs[1..];
    forall x | x in xs[1..]
      ensures x != xs[0]
    {
      var i :| 0 <= i < |xs[1..]| && xs[1..][i] == x;
      assert xs[i + 1] == x;
    }
  }

  /** What a later packet keeps of an earlier one for the search. */
  ghost predicate Carries(p: Packet, p': Packet) {
    |p'.b| == |p.b| && p.own <= p'.own && p.index <= p'.index && forall j | j in p.own && j < |p.b| :: p'.b[j] == p.b[j]
  }

  lemma StepCarries(reverse: bool, cap: nat, p: Packet, op: Op)
    requires Inv(p, cap) && Allowed(p, op)
    ensures Carries(p, Step(reverse, cap, p, op))
  {
    hide Append, Labels, Recordable, NameHolds;
    if op.WriteName? {
      AppendFrame(reverse, p.b, p.index, cap, op.strings);
    }
  }

  lemma HeldStays(reverse: bool, cap: nat, p: Packet, p': Packet, strings: seq<text>, f: nat)
    requires Inv(p, cap) && Fit(cap, p') && Carries(p, p') && strings != [] && 1 <= |strings[0]| <= MAX_LABEL
    requires Fit(cap, p) && Held(reverse, cap, p, strings, f)
    ensures Held(reverse, cap, p', strings, f)
  {
    hide Labels, Matches, NameHolds, Faithful;
    OwnBelow(p, cap);
    MatchMoves(reverse, cap, p.own, p.b, p'.b, f, strings);
    LabelsStable(p.b, p.own, p'.b, p'.own, f, f, f);
  }

  /** The size of the PTR record of a service without compression. */
  function PtrSize(a: text, service: text, proto: text): nat {
    WireLength(TypeNames(service, proto)) + DATA_OFFSET + WireLength(InstanceNames(a, service, proto))
  }

  /** The PTR record of a service is safe, with labels as DNS-SD writes them. */
  ghost predicate SafePtr(reverse: bool, cap: nat, words: set<text>, b0: seq<byte>, marks: set<nat>, q: Packet,
                          tail: Tail, a: text, service: text, proto: text, ttl: nat)
    requires Fit(cap, q)
  {
    var rec := PtrRecord(a, service, proto, ttl);
    && State(cap, words, b0, q, tail) && GoodType(words, service, proto)
    && SafeRecord(words, b0, marks, tail, rec) && q.index + PtrSize(a, service, proto) <= cap
    && Seats(reverse, cap, q, rec) <= marks
  }

  lemma PtrSucceeds(reverse: bool, cap: nat, q: Packet, a: text, service: text, proto: text, ttl: nat)
    requires Inv(q, cap) && GoodRecord(reverse, cap, q, PtrRecord(a, service, proto, ttl))
    ensures PutRecord(reverse, cap, q, PtrRecord(a, service, proto, ttl)).index < cap ==>
              PointerFits(reverse, cap, q, PtrRecord(a, service, proto, ttl), InstanceNames(a, service, proto))
  {
    hide GoodRecord, PutRecord, NameHolds, HeadFits, Counted, Header;
    if PutRecord(reverse, cap, q, PtrRecord(a, service, proto, ttl)).index < cap {
      GoodAnswerSucceeds(reverse, cap, q, PtrAnswer(a, service, proto, ttl));
    }
  }

  lemma PtrIsShaped(a: text, service: text, proto: text, ttl: nat)
    ensures var rec := PtrRecord(a, service, proto, ttl); Shaped(rec) && RecordSize(rec) == PtrSize(a, service, proto)
  {
    hide WireLength;
    PtrHeader(ttl);
  }

  lemma PtrShapes(words: set<text>, a: text, service: text, proto: text)
    requires TameWords(words) && GoodType(words, service, proto) && GoodWords(words, InstanceNames(a, service, proto))
    ensures NameShape(TypeNames(service, proto)) && NameShape(InstanceNames(a, service, proto))
  {
    hide TameWords;
    WordsAreTame(words, TypeNames(service, proto));
    WordsAreTame(words, InstanceNames(a, service, proto));
  }

  /** Behind the PTR record of a service the packet holds its type and its instance name. */
  lemma PtrIsHeld(reverse: bool, cap: nat, words: set<text>, b0: seq<byte>, marks: set<nat>, q: Packet, tail: Tail,
                  a: text, service: text, proto: text, ttl: nat) returns (f: nat, g: nat)
    requires Fit(cap, q) && SafePtr(reverse, cap, words, b0, marks, q, tail, a, service, proto, ttl)
    ensures var p := PutRecord(reverse, cap, q, PtrRecord(a, service, proto, ttl));
            && Answering(reverse, cap, words, words, b0, p, p, a, service, proto, f, g)
            && After(q, p) && AgreeBelow(q.b, p.b, q.index)
            && q.index < p.index <= q.index + PtrSize(a, service, proto) && q.index in p.names
            && (q.index + PtrSize(a, service, proto) < cap ==>
                  PointerFits(reverse, cap, q, PtrRecord(a, service, proto, ttl), InstanceNames(a, service, proto)))
            && OnlyAdds(q, p, {TypeNames(service, proto), InstanceNames(a, service, proto)})
  {
    hide Labels, NameHolds, Append, TameWords, WireLength, AgreeBelow, State, RawCalm, Extends, Header, Inv, Held, Step,
         Carries, Seam, GoodWords, GoodName, Run, RdLength, Framed, ShortNames, Reported, PtrSize, NameShape,
             Recordable, Plain;
    var rec, kind, names := PtrRecord(a, service, proto, ttl), TypeNames(service, proto),
        InstanceNames(a, service, proto);
    PtrIsShaped(a, service, proto, ttl);
    RecordState(reverse, cap, words, b0, marks, q, tail, rec);
    StateWords(cap, words, b0, q, tail);
    RecordIsFramed(reverse, cap, q, rec);
    PtrShapes(words, a, service, proto);
    ShapeIsShort(kind);
    ShapeIsShort(names);
    f := WrittenIsHeld(reverse, cap, q, kind);
    var named := Step(reverse, cap, q, WriteName(kind));
    StepKeeps(reverse, cap, q, WriteName(kind));
    LeadHasRoom(reverse, cap, q, rec);
    LeadIsOnePiece(reverse, cap, q, rec);
    var lead := Step(reverse, cap, named, WriteRaw(RawBytes(rec)));
    StepKeeps(reverse, cap, named, WriteRaw(RawBytes(rec)));
    StepCarries(reverse, cap, named, WriteRaw(RawBytes(rec)));
    HeldStays(reverse, cap, named, lead, kind, f);
    g := WrittenIsHeld(reverse, cap, lead, names);
    var d := Step(reverse, cap, lead, WriteName(names));
    StepKeeps(reverse, cap, lead, WriteName(names));
    StepCarries(reverse, cap, lead, WriteName(names));
    HeldStays(reverse, cap, lead, d, kind, f);
    LengthOff(reverse, cap, q, rec);
    var h := Headed(reverse, cap, q, rec.owner, rec.header);
    var op := SetU16(h.index - 2, RdLength(reverse, cap, h, rec.rdata));
    StepCarries(reverse, cap, d, op);
    var p := Step(reverse, cap, d, op);
    HeldStays(reverse, cap, d, p, kind, f);
    HeldStays(reverse, cap, d, p, names, g);
    StateWords(cap, words, b0, p, NameTail);
    AgreesWithItself(p.b, p.index);
    NameAdds(reverse, cap, q, kind);
    RawAdds(reverse, cap, named, RawBytes(rec));
    NameAdds(reverse, cap, lead, names);
    PtrSucceeds(reverse, cap, q, a, service, proto, ttl);
    PatchKeepsNames(reverse, cap, d, h.index - 2, RdLength(reverse, cap, h, rec.rdata));
  }

  /** What is known where a later name is written: the words that subtypes were called stand in their records, too. */
  ghost predicate Behind(cap: nat, words: set<text>, b0: seq<byte>, r: Packet, tail: Tail, xs: seq<text>) {
    TameWords(words) && SetOf(xs) <= words && State(cap, words - SetOf(xs), b0, r, tail) && NamesLack(r, words)
  }

  lemma AnswersAreBehind(reverse: bool, cap: nat, words: set<text>, b0: seq<byte>, p: Packet, s: Packet, xs: seq<text>,
                         a: text, service: text, proto: text, f: nat, g: nat)
    requires Answering(reverse, cap, words, words - SetOf(xs), b0, p, s, a, service, proto, f, g)
    requires SetOf(xs) <= words
    ensures Behind(cap, words, b0, s, NameTail, xs)
  {
    hide Answering, State, TameWords, SetOf, NamesLack;
    AnsweringWords(reverse, cap, words, words - SetOf(xs), b0, p, s, a, service, proto, f, g);
  }

  /**
   The records of a service and all its subtypes, as the responder writes them: for every list of
   different subtypes, one of them called like the instance or not, every subtype name and the
   instance name behind it convey their labels, in the packet as it is at the end.
   */
  lemma {:induction false} SubtypesAreConveyed(reverse: bool, cap: nat, words: set<text>, b0: seq<byte>,
                                               marks: set<nat>, q: Packet, tail: Tail, a: text, service: text,
                                               proto: text, xs: seq<text>, ttl: nat)
    requires Fit(cap, q) && SafePtr(reverse, cap, words, b0, marks, q, tail, a, service, proto, ttl)
    requires AllDifferent(xs) && SetOf(xs) <= words
    requires q.index + PtrSize(a, service, proto) + SubtypesSize(xs, a, service, proto) < cap
    ensures var p := PutRecord(reverse, cap, q, PtrRecord(a, service, proto, ttl));
            var s, ts := PutSubtypes(reverse, cap, p, a, service, proto, xs, ttl),
                         SubtypeStarts(reverse, cap, p, a, service, proto, xs, ttl);
            && SubtypesStand(s, ts, xs, a, service, proto) && Behind(cap, words, b0, s, NameTail, xs)
            && ServiceLeft(reverse, cap, q, a, service, proto, xs, ttl) == s
            && ServiceCounted(reverse, cap, q, a, service, proto, xs, ttl) == 1 + |xs|
  {
    hide Labels, NameHolds, Answering, State, RawCalm, Header, Held, PutRecord, Conveys, Stands, After, AgreeBelow,
         PutSubtypes, SubtypeStarts, PtrSize, SubtypesSize, SetOf, Inside, SameLabels, SafeRecord, AllDifferent, Behind,
         SubtypesStand, OnlyAdds, GoodType, Seats, State;
    assert RawCalm(Header(TYPE_PTR, false, ttl), words)
           by { PtrIsCalm(words, b0, marks, tail, a, service, proto, ttl); }
    var p := PutRecord(reverse, cap, q, PtrRecord(a, service, proto, ttl));
    var f, g := PtrIsHeld(reverse, cap, words, b0, marks, q, tail, a, service, proto, ttl);
    SubtypesState(reverse, cap, words, words, b0, p, p, a, service, proto, xs, ttl, f, g);
    AnswersAreBehind(reverse, cap, words, b0, p, PutSubtypes(reverse, cap, p, a, service, proto, xs, ttl), xs, a,
                     service,
                     proto, f, g);
  }

  lemma PtrIsCalm(words: set<text>, b0: seq<byte>, marks: set<nat>, tail: Tail, a: text, service: text, proto: text,
                  ttl: nat)
    requires SafeRecord(words, b0, marks, tail, PtrRecord(a, service, proto, ttl))
    ensures RawCalm(Header(TYPE_PTR, false, ttl), words)
  {
    hide RawCalm, GoodWords, Seam, Header;
  }

  // ----- a later name -----

  /** No recorded name is the given one, up to case. */
  ghost predicate Unheld(p: Packet, strings: seq<text>) {
    forall n | n in p.names :: !SameLabels(p.names[n], strings)
  }

  /** What a label start of a decoded name decodes to. */
  lemma {:induction false} SuffixAt(b: seq<byte>, own: set<nat>, frag: nat, pos: nat, o: nat) returns (i: nat)
    requires frag <= pos && Labels(b, own, frag, pos).Decoded? && LabelStart(b, pos, o)
    ensures var ls := Labels(b, own, frag, pos).labels;
            && i < |ls| && (i == 0 ==> o == pos) && Stands(b, o, ls[i])
            && Labels(b, own, o, o).Decoded? && Labels(b, own, o, o).labels == ls[i..]
    decreases |b| - pos
  {
    var ls := Labels(b, own, frag, pos).labels;
    if pos == o {
      i := 0;
      LabelsStable(b, own, b, own, frag, pos, pos);
    } else {
      var next := pos + 1 + b[pos];
      assert Labels(b, own, frag, next).labels == ls[1..];
      i := SuffixAt(b, own, frag, next, o);
      assert ls[1..][i..] == ls[i + 1..];
      i := i + 1;
    }
  }

  /** Inside recorded names, none of which it is, a name of four labels matches nowhere. */
  lemma UnheldMatchesNot(reverse: bool, cap: nat, p: Packet, strings: seq<text>, at: nat)
    requires Inv(p, cap) && Writable(strings) && |strings| == 4 && TameNames(p, strings) && Unheld(p, strings)
    requires Inside(p, at) && at < cap && Fit(cap, p) && Stands(p.b, at, strings[0])
    ensures !Matches(reverse, p.b, cap, at, strings)
  {
    hide Labels, Matches, Stands, Faithful, Tight, NameHolds;
    if Matches(reverse, p.b, cap, at, strings) {
      FirstByte(p.b, at, strings[0]);
      InsideIsGood(p, cap, at, strings, 0);
      OwnBelow(p, cap);
      MatchedTarget(reverse, p.b, p.own, cap, at, strings);
      var n :| n in p.names && Labels(p.b, p.own, n, n).Decoded? && n <= at < Labels(p.b, p.own, n, n).end - 1;
      var d := Labels(p.b, p.own, n, n);
      NamesHold(p, cap, n);
      RecordedIsFaithful(p, n);
      assert Lacks(p.names[n], |strings[0]|);
      LacksUpToCase(d.labels, p.names[n], p.b[at]);
      NameEnds(p, cap, n);
      LengthBytesOfName(p.b, p.own, n, n, at);
      var i := SuffixAt(p.b, p.own, n, n, at);
      assert i == 0 && d.labels[0..] == d.labels;
      SameBack(d.labels, p.names[n]);
      SameTwice(p.names[n], d.labels, strings);
    }
  }

  lemma SameTwice(xs: seq<text>, ys: seq<text>, zs: seq<text>)
    requires SameLabels(xs, ys) && SameLabels(ys, zs)
    ensures SameLabels(xs, zs)
  {
    forall i | 0 <= i < |xs|
      ensures SameText(xs[i], zs[i])
    {
      assert SameText(xs[i], ys[i]) && SameText(ys[i], zs[i]);
    }
  }

  /** A name that begins like the k-th subtype of its type is looked for, and the record of the subtype is found. */
  lemma SubtypeIsFound(reverse: bool, cap: nat, words: set<text>, b0: seq<byte>, r: Packet, tail: Tail, xs: seq<text>,
                       t: nat, x: text, a: text, service: text, proto: text)
    requires Behind(cap, words, b0, r, tail, xs) && SubtypeStands(r, t, x, a, service, proto) && Fit(cap, r)
    requires GoodWords(words, InstanceNames(x, service, proto)) && service != [] && service[0] == UNDERSCORE
    requires Unheld(r, InstanceNames(x, service, proto)) && forall at | 0 <= at < HEAD_LEN :: !Stands(r.b, at, x)
    ensures Search(reverse, r.b, r.index, cap, InstanceNames(x, service, proto), 0) == At(t)
    ensures Labels(r.b, r.own + Span(t, t + |x| + 8), t, t).Decoded?
    ensures !Faithful(Labels(r.b, r.own + Span(t, t + |x| + 8), t, t).labels)
  {
    hide Labels, Matches, Stands, Faithful, NameHolds, Inside, Search, TameNames, Tame, TameWords, State, GoodWords,
         Unheld, SameLabels, NamesLack;
    var names, own := InstanceNames(x, service, proto), r.own + Span(t, t + |x| + 8);
    assert From(names, words) by { LaterWords(words, names); }
    StateWords(cap, words - SetOf(xs), b0, r, tail);
    WordsAreTame(words, names);
    NamesAreTame(r, words, names);
    TameIsWritable(names);
    LaterIsPlain(words, x, service, proto);
    SubtypeMatches(reverse, r.b, own, cap, t, x, service, proto);
    forall at | 0 <= at < t
      ensures !Matches(reverse, r.b, cap, at, names)
    {
      if Stands(r.b, at, x) {
        UnheldMatchesNot(reverse, cap, r, names, at);
      } else if Matches(reverse, r.b, cap, at, names) {
        MatchStands(reverse, r.b, cap, at, names);
      }
    }
    SearchReaches(reverse, r.b, r.index, cap, names, 0, t);
  }

  lemma LaterWords(words: set<text>, names: seq<text>)
    requires GoodWords(words, names)
    ensures From(names, words)
  {
  }

  lemma LaterIsPlain(words: set<text>, x: text, service: text, proto: text)
    requires TameWords(words) && GoodWords(words, InstanceNames(x, service, proto))
    ensures Writable(SubtypeNames(x, service, proto)) && NoSub([x, service, proto, LOCAL])
  {
    var names := InstanceNames(x, service, proto);
    assert names[0] == x && names[1] == service && names[2] == proto && names[3] == LOCAL;
  }

  /**
   An instance name of a type whose subtypes the packet holds, and that the packet does not hold itself
   yet, wherever it is written behind them: it conveys its labels if and only if the instance is not
   called like one of the subtypes. If it is, it becomes a pointer to that subtype's name.
   */
  lemma {:induction false} LaterInstanceExact(reverse: bool, cap: nat, words: set<text>, b0: seq<byte>,
                                              marks: set<nat>, r: Packet, tail: Tail, xs: seq<text>, ts: seq<nat>,
                                              a: text, y: text, service: text, proto: text)
    requires Behind(cap, words, b0, r, tail, xs) && SubtypesStand(r, ts, xs, a, service, proto)
    requires GoodWords(words, InstanceNames(y, service, proto)) && service != [] && service[0] == UNDERSCORE
    requires service !in xs && proto !in xs && LOCAL !in xs
    requires Unheld(r, InstanceNames(y, service, proto)) && forall at | 0 <= at < HEAD_LEN :: !Stands(r.b, at, y)
    requires y !in xs ==> Seam(b0, marks, tail, y) && r.index in marks
    requires r.index + WireLength(InstanceNames(y, service, proto)) <= cap
    ensures Fit(cap, r)
    ensures var names := InstanceNames(y, service, proto);
            var o := Append(reverse, r.b, r.index, cap, names);
            && (Conveys(o.b, Span(0, o.index), r.index, r.index, o.index, names) <==> y !in xs)
            && forall i | 0 <= i < |xs| && xs[i] == y :: o.stop == Ref(ts[i])
  {
    hide Labels, Matches, Stands, Faithful, NameHolds, Inside, Search, TameNames, Tame, TameWords, State, GoodWords,
         Append,
         Unheld, SameLabels, NamesLack, WireLength, Span, Seam, Conveys, Tight;
    var names := InstanceNames(y, service, proto);
    var rest := words - SetOf(xs);
    StateRoom(cap, rest, b0, r, tail);
    StateWords(cap, rest, b0, r, tail);
    LaterIsBounded(words, names);
    HasRoom(reverse, cap, r.b, r.index, names);
    var o := Append(reverse, r.b, r.index, cap, names);
    AppendAgrees(reverse, r.b, r.index, cap, names);
    if y in xs {
      forall i | 0 <= i < |xs| && xs[i] == y
        ensures o.stop == Ref(ts[i]) && !Conveys(o.b, Span(0, o.index), r.index, r.index, o.index, names)
      {
        assert SubtypeStands(r, ts[i], y, a, service, proto);
        SubtypeIsFound(reverse, cap, words, b0, r, tail, xs, ts[i], y, a, service, proto);
        AppendPointer(reverse, r.b, r.index, cap, names);
        BadTargetMisleads(reverse, r.b, r.own + Span(ts[i], ts[i] + |y| + 8), Span(0, o.index), r.index, r.index, cap,
                          names, o);
      }
    } else {
      assert GoodWords(rest, names) by { LaterIsGood(words, xs, y, service, proto); }
      NextIsRecorded(reverse, cap, rest, b0, marks, r, tail, names);
      AppendDecodes(reverse, r.b, r.own, Span(0, o.index), r.index, r.index, cap, names, o);
    }
  }

  lemma LaterIsBounded(words: set<text>, names: seq<text>)
    requires TameWords(words) && GoodWords(words, names)
    ensures Writable(names) && forall i | 0 <= i < |names| :: 1 <= |names[i]| < 255
  {
  }

  lemma LaterIsGood(words: set<text>, xs: seq<text>, y: text, service: text, proto: text)
    requires GoodWords(words, InstanceNames(y, service, proto))
    requires y !in xs && service !in xs && proto !in xs && LOCAL !in xs
    ensures GoodWords(words - SetOf(xs), InstanceNames(y, service, proto))
  {
  }

  /** The records of a service, its subtypes, and what is known behind them. */
  lemma ServiceIsWritten(reverse: bool, cap: nat, words: set<text>, b0: seq<byte>, marks: set<nat>, q: Packet,
                         tail: Tail, a: text, service: text, proto: text, xs: seq<text>, ttl: nat, y: text)
    returns (p: Packet, s: Packet, f: nat)
    requires Fit(cap, q) && SafePtr(reverse, cap, words, b0, marks, q, tail, a, service, proto, ttl)
    requires AllDifferent(xs) && SetOf(xs) <= words && y in words && !SameText(a, y)
    requires q.index + PtrSize(a, service, proto) + SubtypesSize(xs, a, service, proto) < cap
    requires Unheld(q, InstanceNames(y, service, proto))
    ensures p == PutRecord(reverse, cap, q, PtrRecord(a, service, proto, ttl))
    ensures s == PutSubtypes(reverse, cap, p, a, service, proto, xs, ttl)
    ensures s.index <= q.index + PtrSize(a, service, proto) + SubtypesSize(xs, a, service, proto)
    ensures q.index <= s.index
    ensures SubtypesStand(s, SubtypeStarts(reverse, cap, p, a, service, proto, xs, ttl), xs, a, service, proto)
    ensures Behind(cap, words, b0, s, NameTail, xs)
    ensures Unheld(s, InstanceNames(y, service, proto)) && forall at | 0 <= at < HEAD_LEN :: !Stands(s.b, at, y)
    ensures Fit(cap, p) && State(cap, words, b0, p, NameTail) && Held(reverse, cap, p, TypeNames(service, proto), f)
    ensures AgreeBelow(p.b, s.b, p.index) && p.own <= s.own && p.index <= s.index
  {
    hide Labels, NameHolds, State, RawCalm, Header, Held, PutRecord, Conveys, Stands, After, AgreeBelow, GoodType,
         PutSubtypes, SubtypeStarts, PtrSize, SubtypesSize, SetOf, Inside, SafeRecord, AllDifferent, GoodWords,
         InstanceNames, TypeNames, Unheld, OnlyAdds;
    assert RawCalm(Header(TYPE_PTR, false, ttl), words)
           by { PtrIsCalm(words, b0, marks, tail, a, service, proto, ttl); }
    p := PutRecord(reverse, cap, q, PtrRecord(a, service, proto, ttl));
    var g;
    f, g := PtrIsHeld(reverse, cap, words, b0, marks, q, tail, a, service, proto, ttl);
    SubtypesState(reverse, cap, words, words, b0, p, p, a, service, proto, xs, ttl, f, g);
    s := PutSubtypes(reverse, cap, p, a, service, proto, xs, ttl);
    StateWords(cap, words, b0, q, tail);
    StillUnheld(q, p, s, a, y, service, proto);
    NameBegins(cap, words, b0, p, NameTail, q.index);
    AgreeTwice(q.b, p.b, s.b, q.index, p.index, q.index);
    AgreeAt(p.b, s.b, p.index, q.index);
    HeaderIsCalm(cap, words, b0, q, tail, s.b, y);
  }

  lemma StillUnheld(q: Packet, p: Packet, s: Packet, a: text, y: text, service: text, proto: text)
    requires OnlyAdds(q, p, {TypeNames(service, proto), InstanceNames(a, service, proto)})
    requires OnlyAdds(p, s, {InstanceNames(a, service, proto)})
    requires Unheld(q, InstanceNames(y, service, proto)) && !SameText(a, y)
    ensures Unheld(s, InstanceNames(y, service, proto))
  {
    var names := InstanceNames(y, service, proto);
    assert InstanceNames(a, service, proto)[0] == a && names[0] == y;
    assert !SameLabels(InstanceNames(a, service, proto), names);
    assert !SameLabels(TypeNames(service, proto), names);
  }

  lemma AgreeAt(b: seq<byte>, c: seq<byte>, hi: nat, at: nat)
    requires AgreeBelow(b, c, hi) && at < hi && at < |b|
    ensures at < |c| && c[at] == b[at]
  {
  }

  /** No word stands in the header, when a name begins behind it. */
  lemma HeaderIsCalm(cap: nat, words: set<text>, b0: seq<byte>, q: Packet, tail: Tail, c: seq<byte>, y: text)
    requires State(cap, words, b0, q, tail) && y in words && AgreeBelow(q.b, c, q.index)
    requires q.index < |c| && NoChar(words, c[q.index])
    ensures forall at | 0 <= at < HEAD_LEN :: !Stands(c, at, y)
  {
    hide Labels, NameHolds, Stands, TameWords, NamesLack, EndsWith, Stale;
    forall at | 0 <= at < HEAD_LEN
      ensures !Stands(c, at, y)
    {
      if Stands(c, at, y) {
        if at + 1 + |y| <= q.index {
          StandsSame(q.b, c, at, y, q.index);
          InsideIsOwned(cap, words, b0, q, tail, at);
        } else {
          StandsOver(c, at, y, q.index);
        }
      }
    }
  }

  lemma InsideIsOwned(cap: nat, words: set<text>, b0: seq<byte>, q: Packet, tail: Tail, at: nat)
    requires State(cap, words, b0, q, tail) && Inside(q, at)
    ensures HEAD_LEN <= at
  {
    hide NameHolds, TameWords, NamesLack, EndsWith, Stale, Calm;
    var n :| n in q.names && Labels(q.b, q.own, n, n).Decoded? && n <= at < Labels(q.b, q.own, n, n).end - 1;
  }

  /** Owner and header of the PTR record of another service of the type, behind the subtypes. */
  lemma NextPtrIsHeaded(reverse: bool, cap: nat, words: set<text>, b0: seq<byte>, p: Packet, s: Packet, xs: seq<text>,
                        ts: seq<nat>, a: text, service: text, proto: text, ttl: nat, f: nat)
    requires Fit(cap, p) && Fit(cap, s) && State(cap, words, b0, p, NameTail) && Behind(cap, words, b0, s, NameTail, xs)
    requires Held(reverse, cap, p, TypeNames(service, proto), f) && GoodType(words, service, proto)
    requires AgreeBelow(p.b, s.b, p.index) && p.own <= s.own && p.index <= s.index
    requires SubtypesStand(s, ts, xs, a, service, proto) && service !in xs && proto !in xs && LOCAL !in xs
    requires RawCalm(Header(TYPE_PTR, false, ttl), words) && s.index + 2 + DATA_OFFSET < cap
    ensures var h := Headed(reverse, cap, s, TypeNames(service, proto), Header(TYPE_PTR, false, ttl));
            && Behind(cap, words, b0, h, RawTail(Header(TYPE_PTR, false, ttl)), xs)
            && SubtypesStand(h, ts, xs, a, service, proto) && AgreeBelow(s.b, h.b, s.index)
            && s.index < h.index == s.index + 2 + DATA_OFFSET && OnlyAdds(s, h, {TypeNames(service, proto)})
            && h.b[s.index] >= REF
  {
    hide Labels, NameHolds, State, RawCalm, Header, Held, Conveys, Stands, AgreeBelow, Append, GoodWords, SetOf, Inside,
         NamesLack, TameWords, SubtypeStands, Extends, Kept, Step, Span, Recordable, Plain;
    var names, rest, header := TypeNames(service, proto), words - SetOf(xs), Header(TYPE_PTR, false, ttl);
    TypeIsPointer(reverse, cap, words, b0, p, s, service, proto, f);
    assert GoodWords(rest, names) by { TypeIsLeft(words, xs, service, proto); }
    StateWords(cap, rest, b0, s, NameTail);
    NameState(reverse, cap, rest, b0, s, NameTail, names);
    var named := Step(reverse, cap, s, WriteName(names));
    NameAdds(reverse, cap, s, names);
    StepFront(reverse, cap, s, WriteName(names));
    WriteNameKeeps(reverse, cap, s, names);
    StepAgrees(reverse, cap, s, WriteName(names));
    assert RawCalm(header, rest) by { FewerAreCalm(header, words, rest); }
    assert header[0] == 0 by { PtrHeader(ttl); }
    RawState(reverse, cap, rest, b0, named, header);
    var h := Step(reverse, cap, named, WriteRaw(header));
    StateWords(cap, rest, b0, named, NameTail);
    RawAdds(reverse, cap, named, header);
    StepFront(reverse, cap, named, WriteRaw(header));
    StepKeeps(reverse, cap, named, WriteRaw(header));
    StepsAgree(reverse, cap, s, named, WriteRaw(header));
    StepAgrees(reverse, cap, named, WriteRaw(header));
    StepWrites(reverse, cap, s, WriteName(names));
    AgreeAt(named.b, h.b, named.index, s.index);
    assert NamesLack(h, words) by { WordsAdded(words, s, h, s.index, names); }
    ExtendsTwice(s, named, h);
    KeptTwice(0, s, named, h);
    assert After(s, h) by { KeptIsAfter(s, h); }
    forall i | 0 <= i < |xs|
      ensures SubtypeStands(h, ts[i], xs[i], a, service, proto)
    {
      SubtypeStays(cap, s, h, ts[i], xs[i], a, service, proto);
    }
  }

  lemma KeptIsAfter(p: Packet, q: Packet)
    requires Extends(p, q) && Kept(0, p, q)
    ensures After(p, q)
  {
    hide Extends;
  }

  lemma TypeIsLeft(words: set<text>, xs: seq<text>, service: text, proto: text)
    requires GoodType(words, service, proto) && service !in xs && proto !in xs && LOCAL !in xs
    ensures GoodWords(words - SetOf(xs), TypeNames(service, proto)) && GoodWords(words, TypeNames(service, proto))
  {
  }

  /** The type is a pointer to where the packet holds it. */
  lemma TypeIsPointer(reverse: bool, cap: nat, words: set<text>, b0: seq<byte>, p: Packet, s: Packet, service: text,
                      proto: text, f: nat)
    requires Fit(cap, p) && State(cap, words, b0, p, NameTail) && GoodType(words, service, proto)
    requires Held(reverse, cap, p, TypeNames(service, proto), f)
    requires AgreeBelow(p.b, s.b, p.index) && p.own <= s.own && p.index <= s.index && s.index + 2 < cap
    ensures Fit(cap, s) && GoodName(reverse, cap, s, TypeNames(service, proto))
    ensures var o := Append(reverse, s.b, s.index, cap, TypeNames(service, proto));
            o.index == s.index + 2 && o.b[s.index] >= REF
  {
    hide Labels, NameHolds, Stands, Inside, Matches, Search, State, Append, TameWords, Held, Faithful, InDomain,
         AllDifferent, From;
    var names := TypeNames(service, proto);
    TypeIsFrom(words, service, proto);
    HeldTarget(reverse, cap, words, b0, p, NameTail, s.b, s.own, s.index, names, f);
    StateWords(cap, words, b0, p, NameTail);
    StateRoom(cap, words, b0, p, NameTail);
    WordsAreTame(words, names);
    TameIsWritable(names);
    PointerHasRoom(reverse, s.b, s.index, cap, names);
    AppendPointer(reverse, s.b, s.index, cap, names);
    RefBytesPointBack(Search(reverse, s.b, s.index, cap, names, 0).at);
  }

  lemma LaterSizes(y: text, service: text, proto: text)
    ensures PtrSize(y, service, proto) >= 2 + DATA_OFFSET + WireLength(InstanceNames(y, service, proto))
    ensures WireLength(InstanceNames(y, service, proto)) >= 1
  {
    WireIsPositive(InstanceNames(y, service, proto));
    OwnerLength(y, service, proto);
  }

  lemma TypeIsNotInstance(s: Packet, h: Packet, y: text, service: text, proto: text)
    requires Unheld(s, InstanceNames(y, service, proto)) && OnlyAdds(s, h, {TypeNames(service, proto)})
    ensures Unheld(h, InstanceNames(y, service, proto))
  {
    assert !SameLabels(TypeNames(service, proto), InstanceNames(y, service, proto));
  }

  lemma HeaderStaysCalm(words: set<text>, s: Packet, h: Packet, y: text)
    requires TameWords(words) && y in words && AgreeBelow(s.b, h.b, s.index) && s.index < |h.b| && h.b[s.index] >= REF
    requires HEAD_LEN <= s.index && forall at | 0 <= at < HEAD_LEN :: !Stands(s.b, at, y)
    ensures forall at | 0 <= at < HEAD_LEN :: !Stands(h.b, at, y)
  {
    hide Stands;
    forall at | 0 <= at < HEAD_LEN
      ensures !Stands(h.b, at, y)
    {
      if at + 1 + |y| <= s.index {
        StandsSame(s.b, h.b, at, y, s.index);
      } else if Stands(h.b, at, y) {
        StandsOver(h.b, at, y, s.index);
      }
    }
  }

  lemma BehindWords(cap: nat, words: set<text>, b0: seq<byte>, r: Packet, tail: Tail, xs: seq<text>)
    requires Behind(cap, words, b0, r, tail, xs)
    ensures TameWords(words) && HEAD_LEN <= r.index <= cap && cap + SLACK <= |r.b|
  {
    hide TameWords, SetOf, NamesLack;
    StateRoom(cap, words - SetOf(xs), b0, r, tail);
    StateStart(cap, words - SetOf(xs), b0, r, tail);
  }

  /**
   Two services of one type in one packet: the first with its PTR record and all its subtypes, and then
   a name of the second, which the packet does not hold yet, either at once, as the owner of an SRV or
   TXT record, or as the data of its PTR record. It conveys its labels if and only if the second
   instance is not called like a subtype of the first.
   */
  lemma {:induction false} AnotherServiceExact(reverse: bool, cap: nat, words: set<text>, b0: seq<byte>,
                                               marks: set<nat>, q: Packet, tail: Tail, a: text, service: text,
                                               proto: text, xs: seq<text>, ttl: nat, y: text)
    requires Fit(cap, q) && SafePtr(reverse, cap, words, b0, marks, q, tail, a, service, proto, ttl)
    requires AllDifferent(xs) && SetOf(xs) <= words && service !in xs && proto !in xs && LOCAL !in xs
    requires var names := InstanceNames(y, service, proto);
             && GoodWords(words, names) && Unheld(q, names) && !SameText(a, y)
             && q.index + PtrSize(a, service, proto) + SubtypesSize(xs, a, service, proto) + PtrSize(y, service, proto)
                < cap
    requires y !in xs ==> Seam(b0, marks, NameTail, y) && Seam(b0, marks, RawTail(Header(TYPE_PTR, false, ttl)), y)
    requires Owned(marks, q.index, q.index + PtrSize(a, service, proto) + SubtypesSize(xs, a, service, proto)
                                   + PtrSize(y, service, proto))
    ensures var names := InstanceNames(y, service, proto);
            var p := PutRecord(reverse, cap, q, PtrRecord(a, service, proto, ttl));
            var s := PutSubtypes(reverse, cap, p, a, service, proto, xs, ttl);
            var h := Headed(reverse, cap, s, TypeNames(service, proto), Header(TYPE_PTR, false, ttl));
            var o, u := Append(reverse, s.b, s.index, cap, names), Append(reverse, h.b, h.index, cap, names);
            && (Conveys(o.b, Span(0, o.index), s.index, s.index, o.index, names) <==> y !in xs)
            && (Conveys(u.b, Span(0, u.index), h.index, h.index, u.index, names) <==> y !in xs)
  {
    hide Labels, NameHolds, State, RawCalm, Header, Held, PutRecord, Conveys, Stands, AgreeBelow, Append, Headed,
         PutSubtypes, SubtypeStarts, SubtypesSize, SetOf, Inside, SafeRecord, AllDifferent, GoodWords, WireLength,
         Unheld, OnlyAdds, Seats, SubtypesStand, Behind, Seam, Span;
    LaterSizes(y, service, proto);
    assert y in words by {
      LaterWords(words, InstanceNames(y, service, proto));
      assert InstanceNames(y, service, proto)[0] == y;
    }
    var p, s, f := ServiceIsWritten(reverse, cap, words, b0, marks, q, tail, a, service, proto, xs, ttl, y);
    var ts := SubtypeStarts(reverse, cap, p, a, service, proto, xs, ttl);
    LaterInstanceExact(reverse, cap, words, b0, marks, s, NameTail, xs, ts, a, y, service, proto);
    assert RawCalm(Header(TYPE_PTR, false, ttl), words)
           by { PtrIsCalm(words, b0, marks, tail, a, service, proto, ttl); }
    NextPtrIsHeaded(reverse, cap, words, b0, p, s, xs, ts, a, service, proto, ttl, f);
    var h := Headed(reverse, cap, s, TypeNames(service, proto), Header(TYPE_PTR, false, ttl));
    TypeIsNotInstance(s, h, y, service, proto);
    BehindWords(cap, words, b0, s, NameTail, xs);
    HeaderStaysCalm(words, s, h, y);
    LaterInstanceExact(reverse, cap, words, b0, marks, h, RawTail(Header(TYPE_PTR, false, ttl)), xs, ts, a, y, service,
                       proto);
  }

  /**
   An input, whatever the buffer holds: "lamp._b._udp.local" with the subtype "bulb" is announced
   together with "bulb._b._udp.local". The record of the second service does not name it.
   */
  lemma {:induction false} BulbIsMisled(reverse: bool, cap: nat, b: seq<byte>)
    requires 256 <= cap <= POINTER_SPACE && cap + SLACK <= |b|
    ensures var q := Patch(reverse, cap, Patch(reverse, cap, Cleared(b), FLAGS_AT, 0x8400), ID_AT, 0);
            var p := PutRecord(reverse, cap, q, PtrRecord(LAMP, LIGHT, UDP, 4500));
            var s := PutSubtypes(reverse, cap, p, LAMP, LIGHT, UDP, [BULB], 4500);
            var h := Headed(reverse, cap, s, TypeNames(LIGHT, UDP), Header(TYPE_PTR, false, 4500));
            var names := InstanceNames(BULB, LIGHT, UDP);
            var o := Append(reverse, h.b, h.index, cap, names);
            !Conveys(o.b, Span(0, o.index), h.index, h.index, o.index, names)
  {
    hide State, RawCalm, Header, PutRecord, Conveys, Append, Headed, PutSubtypes, WireLength, GoodWords, Seam, Span,
         U16Bytes,
         TameWords, Seats, SafeRecord, Stands, SetOf, Shaped, RecordSize, PtrSize, SubtypesSize, Cleared, Patch, Unheld,
         AllDifferent, LAMP_WORDS, SafePtr;
    ClearedSize(b);
    var q := Patch(reverse, cap, Patch(reverse, cap, Cleared(b), FLAGS_AT, 0x8400), ID_AT, 0);
    LampStarts(reverse, cap, b);
    BulbSizes();
    BulbWords();
    var marks := Span(HEAD_LEN, 256);
    LampPtrIsSafe(reverse, cap, b, q, marks);
    assert Unheld(q, InstanceNames(BULB, LIGHT, UDP)) by { NothingHeld(q, InstanceNames(BULB, LIGHT, UDP)); }
    AnotherServiceExact(reverse, cap, LAMP_WORDS, b, marks, q, RawTail([]), LAMP, LIGHT, UDP, [BULB], 4500, BULB);
  }

  lemma LampStarts(reverse: bool, cap: nat, b: seq<byte>)
    requires HEAD_LEN <= cap <= POINTER_SPACE && cap + SLACK <= |b|
    ensures var q := Patch(reverse, cap, Patch(reverse, cap, Cleared(b), FLAGS_AT, 0x8400), ID_AT, 0);
            && State(cap, LAMP_WORDS, b, q, RawTail([])) && q.index == HEAD_LEN && q.names == map[]
            && cap + SLACK <= |q.b|
  {
    hide State, RawCalm, U16Bytes, TameWords, LAMP_WORDS, Patch;
    LampWordsAreTame();
    LampBytes();
    LampHeaderIsCalm();
    StartState(reverse, cap, LAMP_WORDS, b, 0, 0x8400);
    PatchKeepsNames(reverse, cap, Cleared(b), FLAGS_AT, 0x8400);
    LampNamesStay(reverse, cap, b);
  }

  lemma LampNamesStay(reverse: bool, cap: nat, b: seq<byte>)
    requires HEAD_LEN <= cap && cap + SLACK <= |b|
    ensures Fit(cap, Cleared(b))
    ensures Patch(reverse, cap, Patch(reverse, cap, Cleared(b), FLAGS_AT, 0x8400), ID_AT, 0).names == map[]
  {
    PatchKeepsNames(reverse, cap, Cleared(b), FLAGS_AT, 0x8400);
    PatchKeepsNames(reverse, cap, Patch(reverse, cap, Cleared(b), FLAGS_AT, 0x8400), ID_AT, 0);
  }

  lemma NothingHeld(q: Packet, strings: seq<text>)
    requires q.names == map[]
    ensures Unheld(q, strings)
  {
  }

  lemma BulbSizes()
    ensures PtrSize(LAMP, LIGHT, UDP) == PtrSize(BULB, LIGHT, UDP) == 45
    ensures SubtypesSize([BULB], LAMP, LIGHT, UDP) == 55
  {
    WireOfFour(LAMP, LIGHT, UDP, LOCAL);
    WireOfFour(BULB, LIGHT, UDP, LOCAL);
    OwnerLength(BULB, LIGHT, UDP);
    assert [BULB][1..] == [];
  }

  lemma BulbWords()
    ensures GoodWords(LAMP_WORDS, InstanceNames(BULB, LIGHT, UDP)) && !SameText(LAMP, BULB)
    ensures AllDifferent([BULB]) && SetOf([BULB]) <= LAMP_WORDS && LIGHT !in [BULB] && UDP !in [BULB]
            && LOCAL !in [BULB]
  {
    SameItself(LOCAL);
    assert Lower(LAMP[0]) != Lower(BULB[0]);
  }

  lemma LampPtrIsSafe(reverse: bool, cap: nat, b: seq<byte>, q: Packet, marks: set<nat>)
    requires 256 <= cap && Fit(cap, q) && State(cap, LAMP_WORDS, b, q, RawTail([])) && q.index == HEAD_LEN
    requires marks == Span(HEAD_LEN, 256)
    ensures SafePtr(reverse, cap, LAMP_WORDS, b, marks, q, RawTail([]), LAMP, LIGHT, UDP, 4500)
  {
    hide State, RawCalm, Header, WireLength, GoodWords, Seam, U16Bytes, TameWords, Seats, SafeRecord, Span;
    LampWordsAreTame();
    LampBytes();
    LampHeaderIsCalm();
    LampNames();
    LampSeams(b, marks);
    BulbSizes();
    var rec := PtrRecord(LAMP, LIGHT, UDP, 4500);
    PointerIsSafe(LAMP_WORDS, b, marks, RawTail([]), TypeNames(LIGHT, UDP), InstanceNames(LAMP, LIGHT, UDP));
    SeatsAreMarked(reverse, cap, LAMP_WORDS, b, marks, q, RawTail([]), rec);
  }
}
