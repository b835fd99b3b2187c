/**
 When a whole message is written and parsed, from what is known before it is built: its labels, its
 raw bytes, its uncompressed size, and what the buffer held.
 */
module SafeMessages {
  import opened Bytes
  import opened FqdnReader
  import opened FqdnWriter
  import opened FqdnCompression
  import opened FqdnHistory
  import opened FqdnSafety
  import opened TxtCodec
  import opened Records
  import opened RecordBuilders
  import opened Messages
  import opened Dispatch

  // ----- the labels of a message -----

  /** No byte of a label is the length of a label, or the mark of a pointer. */
  ghost predicate TameWords(words: set<text>) {
    && (forall s | s in words :: 1 <= |s| <= MAX_LABEL && NulFree(s) && !SameText(s, SUB))
    && (forall s, t | s in words && t in words :: LacksLength(s, t))
    && forall s, j | s in words && 0 <= j < |s| :: s[j] < REF
  }

  predicate LacksLength(s: text, t: text) {
    forall j | 0 <= j < |s| :: s[j] != |t|
  }

  ghost predicate From(strings: seq<text>, words: set<text>) {
    forall i | 0 <= i < |strings| :: strings[i] in words
  }

  /** A name of one to four labels that all differ, in a domain. */
  ghost predicate GoodWords(words: set<text>, strings: seq<text>) {
    1 <= |strings| <= 4 && From(strings, words) && AllDifferent(strings) && InDomain(strings)
  }

  // ----- labels that stand where no name is -----

  /** A label begins in front of hi, as far as hi, and would go on behind it. */
  ghost predicate Hangs(b: seq<byte>, at: nat, s: text, hi: nat) {
    at < hi < at + 1 + |s| && hi <= |b| && b[at] == |s| && b[at + 1..hi] == s[..hi - at - 1]
  }

  /** No label stands in the raw bytes. */
  ghost predicate RawCalm(x: seq<byte>, words: set<text>) {
    forall at: nat, s | s in words :: !Stands(x, at, s)
  }

  predicate ReadsAt(b: seq<byte>, pos: nat, t: seq<byte>) {
    pos + |t| <= |b| && b[pos..pos + |t|] == t
  }

  /** The buffer holds the bytes at none of the offsets. */
  ghost predicate NoEcho(b0: seq<byte>, marks: set<nat>, t: seq<byte>) {
    forall pos | pos in marks :: !ReadsAt(b0, pos, t)
  }

  /** The low byte of an offset behind the header and in front of pos. */
  predicate IsLowByte(n: nat, pos: nat) {
    if n >= HEAD_LEN then n < pos else n + 256 < pos
  }

  lemma LowByteOfOffset(o: nat, pos: nat)
    requires HEAD_LEN <= o < pos
    ensures IsLowByte(o % 256, pos)
  {
  }

  /** What the packet ends with: a name, or raw bytes. */
  datatype Tail = NameTail | RawTail(x: seq<byte>)

  /**
   At none of the offsets where a name may begin do the old bytes of the buffer complete its first
   label. Only the last byte of a pointer can be taken for the label's length behind a name.
   */
  ghost predicate Seam(b0: seq<byte>, marks: set<nat>, tail: Tail, s: text) {
    match tail
    case NameTail => forall pos | pos in marks && IsLowByte(|s|, pos) :: !ReadsAt(b0, pos, s)
    case RawTail(x) => forall at: nat | Hangs(x, at, s, |x|) :: NoEcho(b0, marks, s[|x| - at - 1..])
  }

  // ----- the state of a packet under construction -----

  /** Wherever a label stands in the packet, it stands inside a recorded name. */
  ghost predicate Calm(p: Packet, words: set<text>) {
    forall at: nat, s | s in words && at + 1 + |s| <= p.index && Stands(p.b, at, s) :: Inside(p, at)
  }

  /** No byte of a recorded label is the length of a word, nor the other way round. */
  ghost predicate NamesLack(p: Packet, words: set<text>) {
    forall n, i, s | n in p.names && 0 <= i < |p.names[n]| && s in words ::
      LacksLength(p.names[n][i], s) && LacksLength(s, p.names[n][i])
  }

  /** A label that begins at the end of the packet begins in its tail. */
  ghost predicate EndsWith(p: Packet, words: set<text>, tail: Tail) {
    match tail
    case NameTail =>
      forall at: nat, s | s in words && Hangs(p.b, at, s, p.index) :: at == p.index - 1 && IsLowByte(|s|, p.index)
    case RawTail(x) =>
      && HEAD_LEN + |x| <= p.index <= |p.b| && p.b[p.index - |x|..p.index] == x
      && forall at: nat, s | s in words && Hangs(p.b, at, s, p.index) :: at >= p.index - |x|
  }

  /** Behind the write position the buffer is as it was. */
  ghost predicate Stale(p: Packet, b0: seq<byte>) {
    |p.b| == |b0| && forall j | p.index <= j < |b0| :: p.b[j] == b0[j]
  }

  ghost predicate State(cap: nat, words: set<text>, b0: seq<byte>, p: Packet, tail: Tail) {
    && Inv(p, cap) && p.index >= HEAD_LEN && TameWords(words) && (forall j | j in p.own :: j >= HEAD_LEN)
    && Calm(p, words) && NamesLack(p, words) && EndsWith(p, words, tail) && Stale(p, b0)
  }

  lemma StateRoom(cap: nat, words: set<text>, b0: seq<byte>, p: Packet, tail: Tail)
    requires State(cap, words, b0, p, tail)
    ensures Fit(cap, p) && Inv(p, cap) && p.index < |p.b|
  {
    hide Calm, NamesLack, EndsWith, Stale, NameHolds;
  }

  // ----- the next name -----

  lemma StandsCrossing(b: seq<byte>, at: nat, s: text, hi: nat)
    requires Stands(b, at, s) && at < hi < at + 1 + |s|
    ensures Hangs(b, at, s, hi) && b[hi] == s[hi - at - 1]
    ensures ReadsAt(b, hi, s[hi - at - 1..])
  {
    var w := b[at + 1..at + 1 + |s|];
    assert b[at + 1..hi] == w[..hi - at - 1];
    assert b[hi] == w[hi - at - 1];
    assert b[hi..at + 1 + |s|] == w[hi - at - 1..];
  }

  lemma HangsSame(b: seq<byte>, b1: seq<byte>, at: nat, s: text, hi: nat)
    requires AgreeBelow(b, b1, hi)
    ensures Hangs(b, at, s, hi) <==> Hangs(b1, at, s, hi)
  {
    if at < hi <= |b| {
      assert b[at + 1..hi] == b1[at + 1..hi];
    }
  }

  /** The old bytes do not complete the first label. */
  lemma SeamHolds(cap: nat, words: set<text>, b0: seq<byte>, marks: set<nat>, p: Packet, tail: Tail, s: text, at: nat)
    requires State(cap, words, b0, p, tail) && s in words && Seam(b0, marks, tail, s)
    requires at < p.index < at + 1 + |s| && p.index in marks
    ensures !Stands(p.b, at, s)
  {
    hide Calm, NamesLack, NameHolds, Hangs, Stands, ReadsAt, TameWords;
    assert s[0..] == s;
    if Stands(p.b, at, s) {
      StandsCrossing(p.b, at, s, p.index);
      var t := s[p.index - at - 1..];
      OldBytes(p, b0, t);
      if tail.RawTail? {
        HangsInTail(p.b, at, s, p.index, tail.x);
      }
    }
  }

  lemma OldBytes(p: Packet, b0: seq<byte>, t: seq<byte>)
    requires Stale(p, b0) && ReadsAt(p.b, p.index, t)
    ensures ReadsAt(b0, p.index, t)
  {
    assert b0[p.index..p.index + |t|] == p.b[p.index..p.index + |t|];
  }

  lemma HangsInTail(b: seq<byte>, at: nat, s: text, hi: nat, x: seq<byte>)
    requires Hangs(b, at, s, hi) && |x| <= hi && b[hi - |x|..hi] == x && at >= hi - |x|
    ensures Hangs(x, at - (hi - |x|), s, |x|)
  {
    var lo := hi - |x|;
    assert x[at - lo] == b[at];
    assert x[at - lo + 1..|x|] == b[at + 1..hi];
  }

  lemma WordsAreTame(words: set<text>, strings: seq<text>)
    requires TameWords(words) && From(strings, words)
    ensures Tame(strings) && NoSub(strings)
  {
    forall k, i, j | 0 <= k < |strings| && 0 <= i < |strings| && 0 <= j < |strings[i]|
      ensures strings[i][j] != |strings[k]|
    {
      assert LacksLength(strings[i], strings[k]);
    }
  }

  lemma NamesAreTame(p: Packet, words: set<text>, strings: seq<text>)
    requires TameWords(words) && NamesLack(p, words) && From(strings, words)
    ensures TameNames(p, strings)
  {
    forall n, k, i, j | n in p.names && 0 <= k < |strings| && 0 <= i < |p.names[n]| && 0 <= j < |p.names[n][i]|
      ensures p.names[n][i][j] != |strings[k]|
    {
      assert LacksLength(p.names[n][i], strings[k]);
    }
  }

  lemma SpelledBegins(strings: seq<text>, k: nat)
    requires 0 < k <= |strings|
    ensures Spelled(strings[..k]) != [] && Spelled(strings[..k])[0] == LenByte(strings[0])
  {
    assert strings[..k][0] == strings[0];
  }

  /** Where a label of the next name stands in front of it, behind labels of the name or not over its begin. */
  lemma StandsInNames(cap: nat, words: set<text>, b0: seq<byte>, p: Packet, tail: Tail, strings: seq<text>, k: nat,
                      at: nat)
    requires State(cap, words, b0, p, tail) && From(strings, words) && k < |strings| && at < p.index
    requires p.index + |Spelled(strings[..k])| <= |p.b| && Stands(Begun(p, strings, k), at, strings[k])
    requires k > 0 || at + 1 + |strings[k]| <= p.index
    ensures Inside(p, at)
  {
    hide Inside, Spelled, Stands, EndsWith, NamesLack, Stale, NameHolds;
    var s, bk := strings[k], Begun(p, strings, k);
    assert AgreeBelow(bk, p.b, p.index);
    if at + 1 + |s| <= p.index {
      StandsSame(bk, p.b, at, s, p.index);
    } else {
      StandsCrossing(bk, at, s, p.index);
      SpelledBegins(strings, k);
      EdgeIsNoChar(words, s, p.index - at - 1, strings[0], bk[p.index]);
    }
  }

  /** The labels of the next name stand inside recorded names only. */
  lemma WordsAreQuiet(cap: nat, words: set<text>, b0: seq<byte>, marks: set<nat>, p: Packet, tail: Tail,
                      strings: seq<text>)
    requires State(cap, words, b0, p, tail) && From(strings, words) && strings != []
             && Seam(b0, marks, tail, strings[0])
    requires p.index in marks
    ensures Quiet(p, strings)
  {
    hide Inside, Spelled, Stands, State, Seam;
    StateRoom(cap, words, b0, p, tail);
    forall at, k | 0 <= at < p.index && 0 <= k < |strings| && p.index + |Spelled(strings[..k])| <= |p.b|
                   && Stands(Begun(p, strings, k), at, strings[k])
      ensures Inside(p, at)
    {
      if k == 0 && at + 1 + |strings[k]| > p.index {
        NothingBegun(p, strings);
        SeamHolds(cap, words, b0, marks, p, tail, strings[k], at);
      } else {
        StandsInNames(cap, words, b0, p, tail, strings, k, at);
      }
    }
  }

  /** The next name of a safe message is safe. */
  lemma NextIsSafe(cap: nat, words: set<text>, b0: seq<byte>, marks: set<nat>, p: Packet, tail: Tail,
                   strings: seq<text>)
    requires State(cap, words, b0, p, tail) && GoodWords(words, strings) && Seam(b0, marks, tail, strings[0])
    requires p.index + WireLength(strings) <= cap && p.index in marks
    ensures SafeName(cap, p, strings)
  {
    hide Calm, NamesLack, EndsWith, Stale, NameHolds, Quiet, Tame, TameNames, WireLength, Seam, InDomain;
    WordsAreTame(words, strings);
    NamesAreTame(p, words, strings);
    WordsAreQuiet(cap, words, b0, marks, p, tail, strings);
    assert Writable(strings) by { TameIsWritable(strings); }
  }

  /** It is recorded. */
  lemma NextIsRecorded(reverse: bool, cap: nat, words: set<text>, b0: seq<byte>, marks: set<nat>, p: Packet, tail: Tail,
                       strings: seq<text>)
    requires State(cap, words, b0, p, tail) && GoodWords(words, strings) && Seam(b0, marks, tail, strings[0])
    requires p.index + WireLength(strings) <= cap && p.index in marks
    ensures Fit(cap, p) && GoodName(reverse, cap, p, strings)
    ensures Append(reverse, p.b, p.index, cap, strings).index <= p.index + WireLength(strings)
  {
    hide Append, State, Recordable, Findable, WireLength, Seam, GoodWords, NameHolds;
    StateRoom(cap, words, b0, p, tail);
    NextIsSafe(cap, words, b0, marks, p, tail, strings);
    SafeCallIsRecordable(reverse, cap, p, strings);
    OwnerAdds(reverse, cap, p, strings);
    NameAdds(reverse, cap, p, strings);
  }

  lemma TameIsWritable(strings: seq<text>)
    requires Tame(strings)
    ensures Writable(strings)
  {
  }

  // ----- what a name leaves -----

  /** How a name begins and ends: with a length or a pointer, and with the root or a pointer. */
  lemma {:induction false} NameEdges(reverse: bool, b: seq<byte>, index: nat, cap: nat, strings: seq<text>)
    requires cap + SLACK <= |b| && index <= cap <= POINTER_SPACE && !Append(reverse, b, index, cap, strings).stop.Full?
    requires forall i | 0 <= i < |strings| :: 1 <= |strings[i]| < 255
    ensures var o := Append(reverse, b, index, cap, strings);
            && o.index > index
            && (strings != [] ==> o.b[index] == |strings[0]| || o.b[index] >= REF)
            && (if o.stop.Ref? then
                  && o.index >= index + 2 && o.b[o.index - 2] >= REF
                  && o.stop.at < o.index - 1 && o.b[o.index - 1] == o.stop.at % 256
                else o.b[o.index - 1] == 0)
    decreases |strings|
  {
    hide ReadFrom, Matches, Search, Append;
    if strings == [] {
      AppendRoot(reverse, b, index, cap);
    } else if Search(reverse, b, index, cap, strings, 0).At? {
      AppendPointer(reverse, b, index, cap, strings);
      RefBytesPointBack(Search(reverse, b, index, cap, strings, 0).at);
    } else {
      var b1 := AppendLiteral(reverse, b, index, cap, strings);
      var next := index + 1 + |strings[0]|;
      assert b1[index] == b1[index..next][0];
      NameEdges(reverse, b1, next, cap, strings[1..]);
      AppendFrame(reverse, b1, next, cap, strings[1..]);
    }
  }

  /** A byte that is a length or a pointer mark is in no label. */
  lemma EdgeIsNoChar(words: set<text>, s: text, j: nat, t: text, c: byte)
    requires TameWords(words) && s in words && t in words && j < |s|
    requires c == |t| || c >= REF
    ensures s[j] != c
  {
    assert LacksLength(s, t);
  }

  lemma StaysInside(p: Packet, q: Packet, at: nat)
    requires Extends(p, q) && Inside(p, at)
    ensures Inside(q, at)
  {
    hide Labels;
  }

  /** Labels that hang over an edge would hold it. */
  lemma HangsOver(b: seq<byte>, at: nat, s: text, mid: nat, hi: nat)
    requires Hangs(b, at, s, hi) && at < mid < hi
    ensures mid - at - 1 < |s| && b[mid] == s[mid - at - 1]
  {
    assert b[mid] == b[at + 1..hi][mid - at - 1];
  }

  /** A recorded name keeps the state, with labels among words that may stand elsewhere. */
  lemma NameStateAmong(reverse: bool, cap: nat, words: set<text>, all: set<text>, b0: seq<byte>, p: Packet, tail: Tail,
                  strings: seq<text>)
    requires State(cap, words, b0, p, tail) && words <= all && TameWords(all) && GoodWords(all, strings)
    requires Fit(cap, p) && GoodName(reverse, cap, p, strings)
    ensures State(cap, words, b0, Step(reverse, cap, p, WriteName(strings)), NameTail)
  {
    hide Append, Labels, NameHolds, Recordable, Tight, Extends, AgreeBelow, Inv, Hangs, Stands, TameWords, Calm,
         EndsWith, Inside, InDomain;
    var op := WriteName(strings);
    var q := Step(reverse, cap, p, op);
    NameAdds(reverse, cap, p, strings);
    WriteNameKeeps(reverse, cap, p, strings);
    StepWrites(reverse, cap, p, op);
    StepAgrees(reverse, cap, p, op);
    NameStale(reverse, cap, p, strings);
    NewNameLacks(p, q, p.index, words, all, strings);
    NameCalm(reverse, cap, words, all, b0, p, tail, strings);
    NameEnd(reverse, cap, words, all, b0, p, tail, strings);
  }

  /** A recorded name keeps the state. */
  lemma NameState(reverse: bool, cap: nat, words: set<text>, b0: seq<byte>, p: Packet, tail: Tail, strings: seq<text>)
    requires State(cap, words, b0, p, tail) && GoodWords(words, strings)
    requires Fit(cap, p) && GoodName(reverse, cap, p, strings)
    ensures State(cap, words, b0, Step(reverse, cap, p, WriteName(strings)), NameTail)
  {
    hide GoodWords, GoodName, Step, Calm, NamesLack, EndsWith, Stale, NameHolds;
    NameStateAmong(reverse, cap, words, words, b0, p, tail, strings);
  }

  lemma NewNameLacks(p: Packet, q: Packet, at: nat, words: set<text>, all: set<text>, strings: seq<text>)
    requires words <= all && TameWords(all) && NamesLack(p, words) && From(strings, all)
    requires q.names == p.names[at := strings]
    ensures NamesLack(q, words)
  {
    forall n, i, s | n in q.names && 0 <= i < |q.names[n]| && s in words
      ensures LacksLength(q.names[n][i], s) && LacksLength(s, q.names[n][i])
    {
    }
  }

  lemma NameStale(reverse: bool, cap: nat, p: Packet, strings: seq<text>)
    requires Fit(cap, p)
    ensures var o := Append(reverse, p.b, p.index, cap, strings);
            forall j | o.index <= j < |p.b| :: o.b[j] == p.b[j]
  {
    AppendFrame(reverse, p.b, p.index, cap, strings);
  }

  lemma NameCalm(reverse: bool, cap: nat, words: set<text>, all: set<text>, b0: seq<byte>, p: Packet, tail: Tail,
                 strings: seq<text>)
    requires State(cap, words, b0, p, tail) && words <= all && TameWords(all) && GoodWords(all, strings)
    requires Fit(cap, p) && GoodName(reverse, cap, p, strings)
    ensures Calm(Step(reverse, cap, p, WriteName(strings)), words)
  {
    hide Append, Labels, NameHolds, Recordable, Tight, AgreeBelow, Inv, Stands, TameWords, EndsWith, Inside, InDomain,
         Stale, Step, Extends;
    var op := WriteName(strings);
    var o := Append(reverse, p.b, p.index, cap, strings);
    var q := Step(reverse, cap, p, op);
    StateRoom(cap, words, b0, p, tail);
    NameAdds(reverse, cap, p, strings);
    WriteNameKeeps(reverse, cap, p, strings);
    StepWrites(reverse, cap, p, op);
    StepAgrees(reverse, cap, p, op);
    NotFull(reverse, cap, p, strings);
    NameEdges(reverse, p.b, p.index, cap, strings);
    forall at: nat, s | s in words && at + 1 + |s| <= q.index && Stands(q.b, at, s)
      ensures Inside(q, at)
    {
      if at + 1 + |s| <= p.index {
        StandsSame(p.b, q.b, at, s, p.index);
        StaysInside(p, q, at);
      } else if at < p.index {
        StandsOver(q.b, at, s, p.index);
        EdgeIsNoChar(all, s, p.index - at - 1, strings[0], q.b[p.index]);
      } else {
        WordIsLong(words, s);
        InNewName(q, p.index, at);
      }
    }
  }

  lemma NotFull(reverse: bool, cap: nat, p: Packet, strings: seq<text>)
    requires Inv(p, cap) && GoodName(reverse, cap, p, strings)
    ensures !Append(reverse, p.b, p.index, cap, strings).stop.Full? && cap <= POINTER_SPACE
    ensures forall i | 0 <= i < |strings| :: 1 <= |strings[i]| < 255
  {
    hide Append, NameHolds;
  }

  lemma WordIsLong(words: set<text>, s: text)
    requires TameWords(words) && s in words
    ensures 1 <= |s| <= MAX_LABEL && NulFree(s)
  {
  }

  lemma InNewName(q: Packet, s: nat, at: nat)
    requires s in q.names && Labels(q.b, q.own, s, s).Decoded? && Labels(q.b, q.own, s, s).end == q.index
    requires s <= at < q.index - 1
    ensures Inside(q, at)
  {
    hide Labels;
  }

  lemma NameEnd(reverse: bool, cap: nat, words: set<text>, all: set<text>, b0: seq<byte>, p: Packet, tail: Tail,
                strings: seq<text>)
    requires State(cap, words, b0, p, tail) && words <= all && TameWords(all) && GoodWords(all, strings)
    requires Fit(cap, p) && GoodName(reverse, cap, p, strings)
    ensures EndsWith(Step(reverse, cap, p, WriteName(strings)), words, NameTail)
  {
    hide Append, Labels, NameHolds, Recordable, Tight, Inv, TameWords, Inside, InDomain, Stale, Step, Calm, Hangs;
    var op := WriteName(strings);
    var q := Step(reverse, cap, p, op);
    StateRoom(cap, words, b0, p, tail);
    NameAdds(reverse, cap, p, strings);
    StepWrites(reverse, cap, p, op);
    NotFull(reverse, cap, p, strings);
    NameEdges(reverse, p.b, p.index, cap, strings);
    var o := Append(reverse, p.b, p.index, cap, strings);
    forall at: nat, s | s in words && Hangs(q.b, at, s, q.index)
      ensures at == q.index - 1 && IsLowByte(|s|, q.index)
    {
      HangsBounds(q.b, at, s, q.index);
      WordIsLong(words, s);
      if at < p.index {
        HangsOver(q.b, at, s, p.index, q.index);
        EdgeIsNoChar(all, s, p.index - at - 1, strings[0], q.b[p.index]);
      } else if at < q.index - 1 {
        HangsOver(q.b, at, s, q.index - 1, q.index);
        if q.b[q.index - 1] != 0 && at < q.index - 2 {
          HangsOver(q.b, at, s, q.index - 2, q.index);
          EdgeIsNoChar(all, s, q.index - 2 - at - 1, strings[0], q.b[q.index - 2]);
        }
      } else {
        TargetBehindHeader(cap, words, b0, p, tail, o);
        LowByteOfOffset(o.stop.at, q.index);
      }
    }
  }

  lemma TargetBehindHeader(cap: nat, words: set<text>, b0: seq<byte>, p: Packet, tail: Tail, o: Out)
    requires State(cap, words, b0, p, tail) && Recordable(p, o) && o.stop.Ref?
    ensures o.stop.at >= HEAD_LEN
  {
    hide NameHolds, Calm, NamesLack, EndsWith, Stale, TameWords;
  }

  lemma HangsBounds(b: seq<byte>, at: nat, s: text, hi: nat)
    requires Hangs(b, at, s, hi)
    ensures at < hi <= |b| && b[at] == |s| && hi < at + 1 + |s|
  {
  }

  // ----- what raw bytes leave -----

  lemma PutReads(b: seq<byte>, at: nat, x: seq<byte>)
    requires at + |x| <= |b|
    ensures Put(b, at, x)[at..at + |x|] == x
  {
  }

  /** Raw bytes behind a name, the first of them zero. */
  lemma RawState(reverse: bool, cap: nat, words: set<text>, b0: seq<byte>, p: Packet, x: seq<byte>)
    requires State(cap, words, b0, p, NameTail) && x != [] && x[0] == 0 && RawCalm(x, words) && p.index + |x| <= cap
    ensures Fit(cap, p)
    ensures State(cap, words, b0, Step(reverse, cap, p, WriteRaw(x)), RawTail(x))
  {
    hide NameHolds, Inside, Stands, Hangs, TameWords, AgreeBelow, Labels, RawCalm, Put;
    StateRoom(cap, words, b0, p, NameTail);
    var q := Step(reverse, cap, p, WriteRaw(x));
    RawAdds(reverse, cap, p, x);
    StepKeeps(reverse, cap, p, WriteRaw(x));
    StepAgrees(reverse, cap, p, WriteRaw(x));
    PutReads(p.b, p.index, x);
    assert q.index - |x| == p.index >= HEAD_LEN;
    forall at: nat, s | s in words && at + 1 + |s| <= q.index && Stands(q.b, at, s)
      ensures Inside(q, at)
    {
      if at + 1 + |s| <= p.index {
        StandsSame(p.b, q.b, at, s, p.index);
        StaysInside(p, q, at);
      } else if at < p.index {
        StandsCrossing(q.b, at, s, p.index);
        NoneAcross(words, p, q, x, at, s);
      } else {
        StandsInRaw(q.b, p.index, x, at, s);
        CalmRaw(x, words, at - p.index, s);
      }
    }
    forall at: nat, s | s in words && Hangs(q.b, at, s, q.index)
      ensures at >= q.index - |x|
    {
      if at < p.index {
        HangsBounds(q.b, at, s, q.index);
        HangsShorter(q.b, at, s, p.index, q.index);
        NoneAcross(words, p, q, x, at, s);
      }
    }
  }

  lemma CalmRaw(x: seq<byte>, words: set<text>, at: nat, s: text)
    requires RawCalm(x, words) && s in words
    ensures !Stands(x, at, s)
  {
  }

  lemma HangsShorter(b: seq<byte>, at: nat, s: text, mid: nat, hi: nat)
    requires Hangs(b, at, s, hi) && at < mid < hi
    ensures Hangs(b, at, s, mid) && b[mid] == s[mid - at - 1]
  {
    var w := b[at + 1..hi];
    assert b[at + 1..mid] == w[..mid - at - 1];
    assert b[mid] == w[mid - at - 1];
  }

  /** A label that hangs at the end of a name does not go on with a zero. */
  lemma NoneAcross(words: set<text>, p: Packet, q: Packet, x: seq<byte>, at: nat, s: text)
    requires TameWords(words) && s in words && EndsWith(p, words, NameTail) && p.index < |p.b| == |q.b|
    requires AgreeBelow(p.b, q.b, p.index) && q.b[p.index] == 0
    requires Hangs(q.b, at, s, p.index)
    ensures p.index - at - 1 < |s| && q.b[p.index] != s[p.index - at - 1]
  {
    HangsBounds(q.b, at, s, p.index);
    WordIsLong(words, s);
  }

  // ----- what a patched field leaves -----

  /** The byte is in no label. */
  ghost predicate NoChar(words: set<text>, c: byte) {
    forall s, j | s in words && 0 <= j < |s| :: s[j] != c
  }

  lemma ZeroIsNoChar(words: set<text>)
    requires TameWords(words)
    ensures NoChar(words, 0)
  {
    forall s | s in words
      ensures NulFree(s)
    {
    }
  }

  /** A recorded name begins with a byte that no label has. */
  lemma NameBegins(cap: nat, words: set<text>, b: seq<byte>, p: Packet, tail: Tail, n: nat)
    requires State(cap, words, b, p, tail) && n in p.names
    ensures HEAD_LEN <= n < p.index <= |p.b| && NoChar(words, p.b[n])
  {
    hide Calm, EndsWith, Stale;
    assert NameHolds(p, n);
    var ls := Labels(p.b, p.own, n, n).labels;
    assert |ls| == |p.names[n]| > 0;
    assert SameText(ls[0], p.names[n][0]);
    forall s, j | s in words && 0 <= j < |s|
      ensures s[j] != p.b[n]
    {
      assert LacksLength(s, p.names[n][0]);
    }
  }

  lemma StandsUnmoved(b: seq<byte>, b1: seq<byte>, at: nat, s: text)
    requires |b| == |b1| && forall j | at <= j < at + 1 + |s| && j < |b| :: b1[j] == b[j]
    ensures Stands(b, at, s) <==> Stands(b1, at, s)
  {
    if at + 1 + |s| <= |b| {
      assert b[at + 1..at + 1 + |s|] == b1[at + 1..at + 1 + |s|];
    }
  }

  lemma HangsUnmoved(b: seq<byte>, b1: seq<byte>, at: nat, s: text, hi: nat)
    requires |b| == |b1| && forall j | at <= j < hi && j < |b| :: b1[j] == b[j]
    ensures Hangs(b, at, s, hi) <==> Hangs(b1, at, s, hi)
  {
    if at < hi <= |b| {
      assert b[at + 1..hi] == b1[at + 1..hi];
    }
  }

  /**
   A label does not stand over a patched field whose high byte is zero and behind which a byte
   follows that no label has.
   */
  lemma NotOverField(words: set<text>, b: seq<byte>, at: nat, value: nat, m: nat, a: nat, s: text)
    requires TameWords(words) && s in words && at + 1 < |b| && b[at] == 0 && b[at + 1] == value
    requires value > 0 ==> at + 1 < m < at + 2 + value && m < |b| && NoChar(words, b[m])
    requires Stands(b, a, s)
    ensures a > at + 1 || a + 1 + |s| <= at
  {
    WordIsLong(words, s);
    ZeroIsNoChar(words);
    FirstByte(b, a, s);
    if a < at < a + 1 + |s| {
      StandsOver(b, a, s, at);
    } else if a == at + 1 {
      StandsOver(b, a, s, m);
    }
  }

  lemma NotHangingOverField(words: set<text>, b: seq<byte>, at: nat, value: nat, m: nat, a: nat, s: text, hi: nat)
    requires TameWords(words) && s in words && at + 1 < hi <= |b| && b[at] == 0 && b[at + 1] == value
    requires value > 0 ==> at + 1 < m < hi && NoChar(words, b[m])
    requires Hangs(b, a, s, hi)
    ensures a > at + 1
  {
    WordIsLong(words, s);
    ZeroIsNoChar(words);
    HangsBounds(b, a, s, hi);
    if a < at {
      HangsOver(b, a, s, at, hi);
    } else if a == at + 1 {
      HangsOver(b, a, s, m, hi);
    }
  }

  /** A small field outside the names is patched, with a byte that no label has close behind it. */
  lemma PatchState(reverse: bool, cap: nat, words: set<text>, b0: seq<byte>, p: Packet, tail: Tail, at: nat,
                   value: nat, m: nat)
    requires State(cap, words, b0, p, tail) && at !in p.own && at + 1 !in p.own && value < 256
    requires at + 2 <= p.index && (tail.RawTail? ==> at + 2 <= p.index - |tail.x|)
    requires value > 0 ==> at + 1 < m < at + 2 + value && m < p.index && NoChar(words, p.b[m])
    ensures Fit(cap, p)
    ensures State(cap, words, b0, Step(reverse, cap, p, SetU16(at, value)), tail)
  {
    hide NameHolds, Inside, Stands, Hangs, TameWords, Labels, Append, NoChar, Put;
    StateRoom(cap, words, b0, p, tail);
    Patched(reverse, cap, p, at, value);
    var q := Step(reverse, cap, p, SetU16(at, value));
    assert q.b[at] == 0 && q.b[at + 1] == value by { SmallField(q.b, at, value); }
    forall a: nat, s | s in words && a + 1 + |s| <= q.index && Stands(q.b, a, s)
      ensures Inside(q, a)
    {
      NotOverField(words, q.b, at, value, m, a, s);
      StandsUnmoved(p.b, q.b, a, s);
      StaysInside(p, q, a);
    }
    forall a: nat, s | s in words && Hangs(q.b, a, s, q.index)
      ensures Hangs(p.b, a, s, p.index)
    {
      NotHangingOverField(words, q.b, at, value, m, a, s, q.index);
      HangsUnmoved(p.b, q.b, a, s, q.index);
    }
    if tail.RawTail? {
      assert q.b[q.index - |tail.x|..q.index] == p.b[p.index - |tail.x|..p.index];
    }
    PatchKeepsNames(reverse, cap, p, at, value);
  }

  lemma SmallField(b: seq<byte>, at: nat, value: nat)
    requires at + 2 <= |b| && U16At(b, at) == value < 256
    ensures b[at] == 0 && b[at + 1] == value
  {
  }

  lemma PatchKeepsNames(reverse: bool, cap: nat, p: Packet, at: nat, value: nat)
    requires Fit(cap, p)
    ensures Step(reverse, cap, p, SetU16(at, value)).names == p.names
  {
  }

  // ----- questions -----

  ghost predicate SafeQuestions(words: set<text>, b0: seq<byte>, marks: set<nat>, tail: Tail, qs: seq<Question>)
    decreases |qs|
  {
    qs == []
    || (&& |qs[0].fields| == 4 && qs[0].fields[0] == 0 && RawCalm(qs[0].fields, words)
        && GoodWords(words, qs[0].names) && Seam(b0, marks, tail, qs[0].names[0])
        && SafeQuestions(words, b0, marks, RawTail(qs[0].fields), qs[1..]))
  }

  function TailOfQuestions(tail: Tail, qs: seq<Question>): Tail {
    if qs == [] then tail else RawTail(qs[|qs| - 1].fields)
  }

  /** The size of the questions without compression. */
  function QuestionsSize(qs: seq<Question>): nat {
    if qs == [] then 0 else WireLength(qs[0].names) + 4 + QuestionsSize(qs[1..])
  }

  lemma QuestionState(reverse: bool, cap: nat, words: set<text>, b0: seq<byte>, marks: set<nat>, p: Packet,
                      tail: Tail, q: Question)
    requires State(cap, words, b0, p, tail) && SafeQuestions(words, b0, marks, tail, [q])
    requires p.index + WireLength(q.names) + 4 <= cap && p.index in marks
    ensures Fit(cap, p) && GoodQuestion(reverse, cap, p, q)
    ensures var h := Headed(reverse, cap, p, q.names, q.fields);
            && State(cap, words, b0, h, RawTail(q.fields))
            && p.index <= h.index <= p.index + WireLength(q.names) + 4 && AgreeBelow(p.b, h.b, p.index)
  {
    hide State, Step, GoodName, Seam, WireLength, RawCalm, AgreeBelow, InDomain, AllDifferent, From;
    assert [q][0] == q;
    StateRoom(cap, words, b0, p, tail);
    NextIsRecorded(reverse, cap, words, b0, marks, p, tail, q.names);
    NameState(reverse, cap, words, b0, p, tail, q.names);
    var named := Step(reverse, cap, p, WriteName(q.names));
    StepWrites(reverse, cap, p, WriteName(q.names));
    StepAgrees(reverse, cap, p, WriteName(q.names));
    RawState(reverse, cap, words, b0, named, q.fields);
    StepWrites(reverse, cap, named, WriteRaw(q.fields));
    StepsAgree(reverse, cap, p, named, WriteRaw(q.fields));
  }

  lemma {:induction false} QuestionsState(reverse: bool, cap: nat, words: set<text>, b0: seq<byte>, marks: set<nat>,
                                          p: Packet,
                                          tail: Tail, qs: seq<Question>)
    requires State(cap, words, b0, p, tail) && SafeQuestions(words, b0, marks, tail, qs)
    requires p.index + QuestionsSize(qs) <= cap && Owned(marks, p.index, p.index + QuestionsSize(qs))
    ensures Fit(cap, p) && GoodQuestions(reverse, cap, p, qs)
    ensures var r := PutQuestions(reverse, cap, p, qs);
            && State(cap, words, b0, r, TailOfQuestions(tail, qs))
            && p.index <= r.index <= p.index + QuestionsSize(qs) && AgreeBelow(p.b, r.b, p.index)
    decreases |qs|
  {
    hide State, Headed, GoodQuestion, Seam, WireLength, RawCalm, AgreeBelow, GoodWords;
    StateRoom(cap, words, b0, p, tail);
    if qs == [] {
      AgreesWithItself(p.b, p.index);
    } else {
      OneQuestion(words, b0, marks, tail, qs);
      QuestionState(reverse, cap, words, b0, marks, p, tail, qs[0]);
      var h := Headed(reverse, cap, p, qs[0].names, qs[0].fields);
      QuestionsState(reverse, cap, words, b0, marks, h, RawTail(qs[0].fields), qs[1..]);
      AgreeTwice(p.b, h.b, PutQuestions(reverse, cap, h, qs[1..]).b, p.index, h.index, p.index);
    }
  }

  lemma OneQuestion(words: set<text>, b0: seq<byte>, marks: set<nat>, tail: Tail, qs: seq<Question>)
    requires qs != [] && SafeQuestions(words, b0, marks, tail, qs)
    ensures SafeQuestions(words, b0, marks, tail, [qs[0]])
    ensures SafeQuestions(words, b0, marks, RawTail(qs[0].fields), qs[1..])
  {
    hide GoodWords, Seam, RawCalm;
    assert [qs[0]][1..] == [];
  }

  // ----- records -----

  /** Raw data, or a name, behind raw fields or not. */
  predicate Shaped(rec: Rec) {
    && |rec.header| == DATA_OFFSET && rec.header[0] == 0 && rec.header[8] == 0 && rec.header[9] == 0
    && (|| (|rec.rdata| == 1 && !rec.rdata[0].SetU16?)
        || (|rec.rdata| == 2 && rec.rdata[0].WriteRaw? && rec.rdata[1].WriteName? && |rec.rdata[0].bytes| <= 6))
  }

  predicate EndsRaw(rec: Rec) {
    |rec.rdata| == 1 && rec.rdata[0].WriteRaw?
  }

  /** Everything behind the owner up to the name that ends the record, or all of it, with its length. */
  function RawBytes(rec: Rec): (x: seq<byte>)
    requires Shaped(rec)
    ensures |x| >= DATA_OFFSET && x[0] == 0
  {
    if EndsRaw(rec) then rec.header[..8] + U16Bytes(|rec.rdata[0].bytes|) + rec.rdata[0].bytes
    else if |rec.rdata| == 1 then rec.header
    else rec.header + rec.rdata[0].bytes
  }

  function LastNames(rec: Rec): seq<text>
    requires Shaped(rec) && !EndsRaw(rec)
  {
    rec.rdata[|rec.rdata| - 1].strings
  }

  function TailOf(rec: Rec): Tail
    requires Shaped(rec)
  {
    if EndsRaw(rec) then RawTail(RawBytes(rec)) else NameTail
  }

  ghost predicate SafeRecord(words: set<text>, b0: seq<byte>, marks: set<nat>, tail: Tail, rec: Rec) {
    && Shaped(rec) && GoodWords(words, rec.owner) && Seam(b0, marks, tail, rec.owner[0])
       && RawCalm(RawBytes(rec), words)
    && (if EndsRaw(rec) then |rec.rdata[0].bytes| < 0x10000
        else GoodWords(words, LastNames(rec)) && Seam(b0, marks, RawTail(RawBytes(rec)), LastNames(rec)[0]))
  }

  function RecordSize(rec: Rec): nat
    requires Shaped(rec)
  {
    WireLength(rec.owner) + |RawBytes(rec)| + if EndsRaw(rec) then 0 else WireLength(LastNames(rec))
  }

  /** The offsets where the names of the record begin. */
  ghost function Seats(reverse: bool, cap: nat, p: Packet, rec: Rec): set<nat>
    requires Fit(cap, p) && Shaped(rec)
  {
    {p.index} + if EndsRaw(rec) then {}
                else {Append(reverse, p.b, p.index, cap, rec.owner).index + |RawBytes(rec)|}
  }

  /** Header, length and raw data are one piece. */
  lemma RawRecordIsOnePiece(reverse: bool, cap: nat, p: Packet, rec: Rec)
    requires Fit(cap, p) && Shaped(rec) && EndsRaw(rec)
    requires Step(reverse, cap, p, WriteName(rec.owner)).index + |RawBytes(rec)| <= cap
    ensures var named := Step(reverse, cap, p, WriteName(rec.owner));
            PutRecord(reverse, cap, p, rec) == Step(reverse, cap, named, WriteRaw(RawBytes(rec)))
  {
    hide Append, Plain, Recordable, U16Bytes;
    var named := Step(reverse, cap, p, WriteName(rec.owner));
    var data := rec.rdata[0].bytes;
    var h := Headed(reverse, cap, p, rec.owner, rec.header);
    OneRaw(reverse, cap, h, data);
    assert rec.rdata == [WriteRaw(data)];
    var x := rec.header[..8] + U16Bytes(|data|) + data;
    assert Put(Put(Put(named.b, named.index, rec.header), named.index + 10, data), named.index + 8, U16Bytes(|data|))
        == Put(named.b, named.index, x);
  }

  lemma RawRecordState(reverse: bool, cap: nat, words: set<text>, b0: seq<byte>, marks: set<nat>, p: Packet,
                       tail: Tail, rec: Rec)
    requires State(cap, words, b0, p, tail) && SafeRecord(words, b0, marks, tail, rec) && EndsRaw(rec)
    requires p.index + RecordSize(rec) <= cap && p.index in marks
    ensures Fit(cap, p) && GoodRecord(reverse, cap, p, rec)
    ensures var r := PutRecord(reverse, cap, p, rec);
            && State(cap, words, b0, r, TailOf(rec))
            && p.index <= r.index <= p.index + RecordSize(rec) && AgreeBelow(p.b, r.b, p.index)
  {
    hide State, Step, GoodName, Seam, WireLength, RawCalm, AgreeBelow, GoodWords, PutRecord, U16Bytes;
    StateRoom(cap, words, b0, p, tail);
    NextIsRecorded(reverse, cap, words, b0, marks, p, tail, rec.owner);
    NameState(reverse, cap, words, b0, p, tail, rec.owner);
    var named := Step(reverse, cap, p, WriteName(rec.owner));
    StepWrites(reverse, cap, p, WriteName(rec.owner));
    StepAgrees(reverse, cap, p, WriteName(rec.owner));
    RawRecordIsOnePiece(reverse, cap, p, rec);
    RawState(reverse, cap, words, b0, named, RawBytes(rec));
    StepWrites(reverse, cap, named, WriteRaw(RawBytes(rec)));
    StepWrites(reverse, cap, named, WriteRaw(rec.header));
    StepsAgree(reverse, cap, p, named, WriteRaw(RawBytes(rec)));
    RawIsGood(reverse, cap, Headed(reverse, cap, p, rec.owner, rec.header), rec.rdata);
  }

  lemma RawIsGood(reverse: bool, cap: nat, h: Packet, rdata: seq<Op>)
    requires Fit(cap, h) && |rdata| == 1 && rdata[0].WriteRaw? && h.index + |rdata[0].bytes| <= cap
    ensures GoodData(reverse, cap, h, rdata)
  {
    hide Step;
    assert rdata[1..] == [];
    assert GoodData(reverse, cap, Step(reverse, cap, h, rdata[0]), []);
  }

  lemma NameIsGood(reverse: bool, cap: nat, h: Packet, rdata: seq<Op>)
    requires Fit(cap, h) && |rdata| == 1 && rdata[0].WriteName? && GoodName(reverse, cap, h, rdata[0].strings)
    ensures GoodData(reverse, cap, h, rdata)
  {
    hide Step, GoodName;
    assert rdata[1..] == [];
    assert GoodData(reverse, cap, Step(reverse, cap, h, rdata[0]), []);
  }

  lemma FieldsAndNameAreGood(reverse: bool, cap: nat, h: Packet, rdata: seq<Op>)
    requires Fit(cap, h) && |rdata| == 2 && rdata[0].WriteRaw? && rdata[1].WriteName?
    requires h.index + |rdata[0].bytes| <= cap
             && GoodName(reverse, cap, Step(reverse, cap, h, rdata[0]), rdata[1].strings)
    ensures GoodData(reverse, cap, h, rdata)
  {
    hide Step, GoodName;
    assert rdata[1..][0] == rdata[1];
    NameIsGood(reverse, cap, Step(reverse, cap, h, rdata[0]), rdata[1..]);
  }

  /** Header and raw fields are one piece. */
  lemma LeadIsOnePiece(reverse: bool, cap: nat, p: Packet, rec: Rec)
    requires Fit(cap, p) && Shaped(rec) && !EndsRaw(rec)
    requires Step(reverse, cap, p, WriteName(rec.owner)).index + |RawBytes(rec)| <= cap
    ensures var named := Step(reverse, cap, p, WriteName(rec.owner));
            var h := Headed(reverse, cap, p, rec.owner, rec.header);
            var lead := Step(reverse, cap, named, WriteRaw(RawBytes(rec)));
            var d := Step(reverse, cap, lead, WriteName(LastNames(rec)));
            && h.index == named.index + DATA_OFFSET && lead.index == named.index + |RawBytes(rec)|
            && Run(reverse, cap, h, rec.rdata) == d
            && RdLength(reverse, cap, h, rec.rdata)
               == |RawBytes(rec)| - DATA_OFFSET + Append(reverse, lead.b, lead.index, cap, LastNames(rec)).added % 256
            && PutRecord(reverse, cap, p, rec)
               == Step(reverse, cap, d, SetU16(h.index - 2, RdLength(reverse, cap, h, rec.rdata)))
            && (|rec.rdata| == 2 ==> lead == Step(reverse, cap, h, rec.rdata[0]))
            && (|rec.rdata| == 1 ==> lead == h)
  {
    hide Append, Plain, Recordable, RdLength, Run;
    var named := Step(reverse, cap, p, WriteName(rec.owner));
    var h := Headed(reverse, cap, p, rec.owner, rec.header);
    if |rec.rdata| == 1 {
      assert rec.rdata == [WriteName(LastNames(rec))];
      OneName(reverse, cap, h, LastNames(rec));
    } else {
      var f := rec.rdata[0].bytes;
      assert rec.rdata == [WriteRaw(f), WriteName(LastNames(rec))];
      RawThenName(reverse, cap, h, f, LastNames(rec));
      PutPut(named.b, named.index, rec.header, f);
    }
  }

  /** Header and raw fields of a good record have room, and the name behind them is recorded. */
  lemma LeadHasRoom(reverse: bool, cap: nat, p: Packet, rec: Rec)
    requires Fit(cap, p) && Shaped(rec) && !EndsRaw(rec) && GoodRecord(reverse, cap, p, rec)
    ensures var named := Step(reverse, cap, p, WriteName(rec.owner));
            && named.index + |RawBytes(rec)| <= cap
            && GoodName(reverse, cap, Step(reverse, cap, named, WriteRaw(RawBytes(rec))), LastNames(rec))
  {
    hide Append, Plain, Recordable, GoodName, RdLength, Run;
    var named := Step(reverse, cap, p, WriteName(rec.owner));
    var h := Headed(reverse, cap, p, rec.owner, rec.header);
    RawAdds(reverse, cap, named, rec.header);
    if |rec.rdata| == 2 {
      assert GoodData(reverse, cap, Step(reverse, cap, h, rec.rdata[0]), rec.rdata[1..]);
      assert rec.rdata[1..][0] == rec.rdata[1];
      assert named.index + |RawBytes(rec)| <= cap;
      LeadIsOnePiece(reverse, cap, p, rec);
    }
  }

  lemma NameRecordState(reverse: bool, cap: nat, words: set<text>, b0: seq<byte>, marks: set<nat>, p: Packet,
                        tail: Tail, rec: Rec)
    requires State(cap, words, b0, p, tail) && SafeRecord(words, b0, marks, tail, rec) && !EndsRaw(rec)
    requires p.index + RecordSize(rec) <= cap && Fit(cap, p) && Seats(reverse, cap, p, rec) <= marks
    ensures Fit(cap, p) && GoodRecord(reverse, cap, p, rec)
    ensures var r := PutRecord(reverse, cap, p, rec);
            && State(cap, words, b0, r, TailOf(rec))
            && p.index <= r.index <= p.index + RecordSize(rec) && AgreeBelow(p.b, r.b, p.index)
  {
    hide State, Step, GoodName, Seam, WireLength, RawCalm, AgreeBelow, GoodWords, PutRecord, U16Bytes, RdLength, Run,
         Append, NoChar, Put;
    StateRoom(cap, words, b0, p, tail);
    NextIsRecorded(reverse, cap, words, b0, marks, p, tail, rec.owner);
    NameState(reverse, cap, words, b0, p, tail, rec.owner);
    var named := Step(reverse, cap, p, WriteName(rec.owner));
    StepWrites(reverse, cap, p, WriteName(rec.owner));
    StepAgrees(reverse, cap, p, WriteName(rec.owner));
    LeadIsOnePiece(reverse, cap, p, rec);
    RawState(reverse, cap, words, b0, named, RawBytes(rec));
    var lead := Step(reverse, cap, named, WriteRaw(RawBytes(rec)));
    StepsAgree(reverse, cap, p, named, WriteRaw(RawBytes(rec)));
    var names := LastNames(rec);
    NextIsRecorded(reverse, cap, words, b0, marks, lead, RawTail(RawBytes(rec)), names);
    NameState(reverse, cap, words, b0, lead, RawTail(RawBytes(rec)), names);
    var d := Step(reverse, cap, lead, WriteName(names));
    StepWrites(reverse, cap, lead, WriteName(names));
    StepsAgree(reverse, cap, p, lead, WriteName(names));
    var h := Headed(reverse, cap, p, rec.owner, rec.header);
    assert GoodData(reverse, cap, h, rec.rdata) by {
      if |rec.rdata| == 1 {
        NameIsGood(reverse, cap, h, rec.rdata);
      } else {
        FieldsAndNameAreGood(reverse, cap, h, rec.rdata);
      }
    }
    assert GoodRecord(reverse, cap, p, rec);
    LengthOff(reverse, cap, p, rec);
    LastNameEdge(reverse, cap, words, b0, lead, RawTail(RawBytes(rec)), names);
    PatchState(reverse, cap, words, b0, d, NameTail, h.index - 2, RdLength(reverse, cap, h, rec.rdata), lead.index);
    PatchAgrees(reverse, cap, p, d, h.index - 2, RdLength(reverse, cap, h, rec.rdata));
  }

  /** The length field lies outside the names. */
  lemma LengthOff(reverse: bool, cap: nat, p: Packet, rec: Rec)
    requires Inv(p, cap) && Fit(cap, p) && GoodRecord(reverse, cap, p, rec)
    ensures var h := Headed(reverse, cap, p, rec.owner, rec.header);
            var d := Run(reverse, cap, h, rec.rdata);
            && h.index >= 2 && h.index - 1 !in d.own && h.index - 2 !in d.own && h.index <= d.index
  {
    hide Append, Labels, NameHolds, Recordable, Plain, Step, Run, GoodData, RdLength, ShortNames;
    HeadedKeeps(reverse, cap, p, rec);
    DataLength(reverse, cap, Headed(reverse, cap, p, rec.owner, rec.header), rec.rdata);
  }

  /** The name that ends a record begins with a byte that no label has, and counts at least two bytes. */
  lemma LastNameEdge(reverse: bool, cap: nat, words: set<text>, b0: seq<byte>, p: Packet, tail: Tail, names: seq<text>)
    requires State(cap, words, b0, p, tail) && GoodWords(words, names) && Fit(cap, p)
             && GoodName(reverse, cap, p, names)
    ensures var o := Append(reverse, p.b, p.index, cap, names);
            var q := Step(reverse, cap, p, WriteName(names));
            && o.index == q.index >= p.index + 2 && o.added % 256 == o.added == o.index - p.index <= 199
            && NoChar(words, q.b[p.index])
  {
    hide Append, Labels, NameHolds, Recordable, Tight, Calm, NamesLack, EndsWith, Stale, Plain, InDomain, WireLength;
    NotFull(reverse, cap, p, names);
    NameAdds(reverse, cap, p, names);
    OwnerAdds(reverse, cap, p, names);
    DomainNameIsShort(names);
    NameEdges(reverse, p.b, p.index, cap, names);
    StepWrites(reverse, cap, p, WriteName(names));
    var q := Step(reverse, cap, p, WriteName(names));
    forall s, j | s in words && 0 <= j < |s|
      ensures s[j] != q.b[p.index]
    {
      EdgeIsNoChar(words, s, j, names[0], q.b[p.index]);
    }
  }

  lemma PatchAgrees(reverse: bool, cap: nat, a: Packet, p: Packet, at: nat, value: nat)
    requires Fit(cap, p) && a.index <= p.index && AgreeBelow(a.b, p.b, a.index) && a.index <= at < cap
    ensures var q := Step(reverse, cap, p, SetU16(at, value));
            q.index == p.index && AgreeBelow(a.b, q.b, a.index)
  {
    hide AgreeBelow, Put, U16Bytes;
    StepWrites(reverse, cap, p, SetU16(at, value));
    AgreesWithItself(p.b, a.index);
    if at + 1 < cap {
      PutAgrees(p.b, at, U16Bytes(value), a.index);
    }
    AgreeTwice(a.b, p.b, Step(reverse, cap, p, SetU16(at, value)).b, a.index, a.index, a.index);
  }

  // ----- lists of records -----

  ghost predicate SafeRecords(words: set<text>, b0: seq<byte>, marks: set<nat>, tail: Tail, recs: seq<Rec>)
    decreases |recs|
  {
    recs == []
    || (SafeRecord(words, b0, marks, tail, recs[0]) && SafeRecords(words, b0, marks, TailOf(recs[0]), recs[1..]))
  }

  function TailOfRecords(tail: Tail, recs: seq<Rec>): Tail {
    if recs == [] then tail else if Shaped(recs[|recs| - 1]) then TailOf(recs[|recs| - 1]) else NameTail
  }

  function RecordsSize(recs: seq<Rec>): nat {
    if recs == [] then 0 else (if Shaped(recs[0]) then RecordSize(recs[0]) else 0) + RecordsSize(recs[1..])
  }

  lemma IsShaped(words: set<text>, b: seq<byte>, marks: set<nat>, tail: Tail, rec: Rec)
    requires SafeRecord(words, b, marks, tail, rec)
    ensures Shaped(rec)
  {
  }

  lemma SafeInDomain(words: set<text>, b0: seq<byte>, marks: set<nat>, tail: Tail, rec: Rec)
    requires SafeRecord(words, b0, marks, tail, rec)
    ensures NamesInDomain(rec)
  {
    hide RawCalm, Seam, InDomain, From, AllDifferent, RawBytes;
  }

  lemma RecordState(reverse: bool, cap: nat, words: set<text>, b0: seq<byte>, marks: set<nat>, p: Packet, tail: Tail,
                    rec: Rec)
    requires State(cap, words, b0, p, tail) && SafeRecord(words, b0, marks, tail, rec)
    requires p.index + RecordSize(rec) <= cap && Fit(cap, p) && Seats(reverse, cap, p, rec) <= marks
    ensures Fit(cap, p) && GoodRecord(reverse, cap, p, rec) && NamesInDomain(rec)
    ensures var r := PutRecord(reverse, cap, p, rec);
            && State(cap, words, b0, r, TailOf(rec))
            && p.index <= r.index <= p.index + RecordSize(rec) && AgreeBelow(p.b, r.b, p.index)
  {
    hide State, PutRecord, GoodRecord, RecordSize, AgreeBelow, TailOf, SafeRecord, Shaped, NamesInDomain, Append,
         RawBytes;
    IsShaped(words, b0, marks, tail, rec);
    SafeInDomain(words, b0, marks, tail, rec);
    if EndsRaw(rec) {
      RawRecordState(reverse, cap, words, b0, marks, p, tail, rec);
    } else {
      NameRecordState(reverse, cap, words, b0, marks, p, tail, rec);
    }
  }

  /** With room for it without compression, the names of a record begin inside that room. */
  lemma SeatsAreMarked(reverse: bool, cap: nat, words: set<text>, b0: seq<byte>, marks: set<nat>, p: Packet,
                       tail: Tail, rec: Rec)
    requires State(cap, words, b0, p, tail) && SafeRecord(words, b0, marks, tail, rec)
    requires p.index + RecordSize(rec) <= cap && Owned(marks, p.index, p.index + RecordSize(rec))
    ensures Fit(cap, p) && Seats(reverse, cap, p, rec) <= marks
  {
    hide State, Seam, RawCalm, WireLength, GoodName, GoodWords, InDomain;
    StateRoom(cap, words, b0, p, tail);
    WireIsPositive(rec.owner);
    if !EndsRaw(rec) {
      WireIsPositive(LastNames(rec));
    }
    NextIsRecorded(reverse, cap, words, b0, marks, p, tail, rec.owner);
  }

  lemma {:induction false} RecordsState(reverse: bool, cap: nat, words: set<text>, b0: seq<byte>, marks: set<nat>,
                                        p: Packet,
                                        tail: Tail, recs: seq<Rec>)
    requires State(cap, words, b0, p, tail) && SafeRecords(words, b0, marks, tail, recs)
    requires p.index + RecordsSize(recs) <= cap && Owned(marks, p.index, p.index + RecordsSize(recs))
    ensures Fit(cap, p) && GoodRecords(reverse, cap, p, recs)
    ensures var r := PutAll(reverse, cap, p, recs);
            && State(cap, words, b0, r, TailOfRecords(tail, recs))
            && p.index <= r.index <= p.index + RecordsSize(recs) && AgreeBelow(p.b, r.b, p.index)
    decreases |recs|
  {
    hide State, PutRecord, GoodRecord, NamesInDomain, RecordSize, AgreeBelow, TailOf, SafeRecord, Seats, Shaped;
    StateRoom(cap, words, b0, p, tail);
    if recs == [] {
      AgreesWithItself(p.b, p.index);
    } else {
      IsShaped(words, b0, marks, tail, recs[0]);
      SeatsAreMarked(reverse, cap, words, b0, marks, p, tail, recs[0]);
      RecordState(reverse, cap, words, b0, marks, p, tail, recs[0]);
      var r := PutRecord(reverse, cap, p, recs[0]);
      RecordsState(reverse, cap, words, b0, marks, r, TailOf(recs[0]), recs[1..]);
      AgreeTwice(p.b, r.b, PutAll(reverse, cap, r, recs[1..]).b, p.index, r.index, p.index);
    }
  }

  // ----- the message -----

  /** The header fields from an offset on are still zero. */
  predicate ZerosFrom(b: seq<byte>, at: nat) {
    HEAD_LEN <= |b| && forall j | at <= j < HEAD_LEN :: b[j] == 0
  }

  lemma ZerosStay(b: seq<byte>, b1: seq<byte>, n: nat, at: nat)
    requires AgreeBelow(b, b1, n) && HEAD_LEN <= n && ZerosFrom(b, at)
    ensures ZerosFrom(b1, at)
  {
  }

  /** A count is filled in, with the fields behind it still zero. */
  lemma CountState(reverse: bool, cap: nat, words: set<text>, b0: seq<byte>, p: Packet, tail: Tail, at: nat, value: nat)
    requires State(cap, words, b0, p, tail) && at + 2 < HEAD_LEN && value < 256 && ZerosFrom(p.b, at)
    ensures Fit(cap, p)
    ensures var q := Patch(reverse, cap, p, at, value);
            State(cap, words, b0, q, tail) && q.index == p.index && ZerosFrom(q.b, at + 2)
  {
    hide NameHolds, Calm, NamesLack, Stale, Hangs, TameWords, Append, Recordable, Plain;
    StateRoom(cap, words, b0, p, tail);
    assert NoChar(words, 0) by { ZeroIsNoChar(words); }
    PatchState(reverse, cap, words, b0, p, tail, at, value, at + 2);
    hide State;
    StepWrites(reverse, cap, p, SetU16(at, value));
  }

  /**
   What is known before a message is built: tame labels that differ inside each name, no label in
   the raw bytes, no label that the old bytes of the buffer complete where a name may begin, and room for
   all of it without compression.
   */
  ghost predicate SafeMessage(words: set<text>, b: seq<byte>, cap: nat, m: Message) {
    && TameWords(words) && m.id < 0x10000 && m.flags < 0x10000
    && |m.questions| < 256 && |m.answers| < 256 && |m.servers| < 256 && |m.additional| < 256
    && RawCalm(U16Bytes(m.id) + U16Bytes(m.flags), words)
    && SafeParts(words, b, Span(HEAD_LEN, MessageSize(m)), m) && MessageSize(m) < cap
  }

  /** Questions and records are safe, with names that begin at the given offsets. */
  ghost predicate SafeParts(words: set<text>, b: seq<byte>, marks: set<nat>, m: Message) {
    var t1 := TailOfQuestions(RawTail([]), m.questions);
    var t2 := TailOfRecords(t1, m.answers);
    && SafeQuestions(words, b, marks, RawTail([]), m.questions)
    && SafeRecords(words, b, marks, t1, m.answers) && SafeRecords(words, b, marks, t2, m.servers)
    && SafeRecords(words, b, marks, TailOfRecords(t2, m.servers), m.additional)
  }

  function MessageSize(m: Message): nat {
    HEAD_LEN + QuestionsSize(m.questions) + RecordsSize(m.answers) + RecordsSize(m.servers) + RecordsSize(m.additional)
  }

  lemma ClearedSize(b: seq<byte>)
    requires HEAD_LEN <= |b|
    ensures |Cleared(b).b| == |b| && Cleared(b).index == HEAD_LEN
  {
  }

  /** No label stands in a header that is zero behind identity and flags, or hangs at its end. */
  lemma HeaderIsFree(words: set<text>, c: seq<byte>, x: seq<byte>)
    requires TameWords(words) && RawCalm(x, words) && |x| == 4 && HEAD_LEN <= |c|
    requires c[0..4] == x && forall j | 4 <= j < HEAD_LEN :: c[j] == 0
    ensures forall at: nat, s | s in words && at + 1 + |s| <= HEAD_LEN :: !Stands(c, at, s)
    ensures forall at: nat, s | s in words :: !Hangs(c, at, s, HEAD_LEN)
  {
    hide Stands, Hangs, TameWords, RawCalm;
    ZeroIsNoChar(words);
    forall at: nat, s | s in words && at + 1 + |s| <= HEAD_LEN
      ensures !Stands(c, at, s)
    {
      if Stands(c, at, s) {
        WordIsLong(words, s);
        FirstByte(c, at, s);
        if at + 1 + |s| <= 4 {
          StandsInRaw(c, 0, x, at, s);
          CalmRaw(x, words, at, s);
        } else {
          StandsOver(c, at, s, 4);
        }
      }
    }
    forall at: nat, s | s in words
      ensures !Hangs(c, at, s, HEAD_LEN)
    {
      if Hangs(c, at, s, HEAD_LEN) {
        WordIsLong(words, s);
        HangsBounds(c, at, s, HEAD_LEN);
        if at < 11 {
          HangsOver(c, at, s, 11, HEAD_LEN);
        }
      }
    }
  }

  /** The cleared header, with flags and identity. */
  lemma StartState(reverse: bool, cap: nat, words: set<text>, b: seq<byte>, id: nat, flags: nat)
    requires HEAD_LEN <= cap <= POINTER_SPACE && cap + SLACK <= |b| && id < 0x10000 && flags < 0x10000
    requires TameWords(words) && RawCalm(U16Bytes(id) + U16Bytes(flags), words)
    ensures Fit(cap, Cleared(b))
    ensures var p1 := Patch(reverse, cap, Patch(reverse, cap, Cleared(b), FLAGS_AT, flags), ID_AT, id);
            State(cap, words, b, p1, RawTail([])) && p1.index == HEAD_LEN && ZerosFrom(p1.b, 4)
  {
    hide Stands, Hangs, TameWords, Append, Recordable, Plain, RawCalm, U16Bytes;
    var p0 := Patch(reverse, cap, Cleared(b), FLAGS_AT, flags);
    var p1 := Patch(reverse, cap, p0, ID_AT, id);
    StepWrites(reverse, cap, Cleared(b), SetU16(FLAGS_AT, flags));
    StepWrites(reverse, cap, p0, SetU16(ID_AT, id));
    HeaderIsFree(words, p1.b, U16Bytes(id) + U16Bytes(flags));
  }

  /** One section of a safe message and its count, unless it is the last count. */
  lemma SectionState(reverse: bool, cap: nat, words: set<text>, b0: seq<byte>, marks: set<nat>, p: Packet, tail: Tail,
                     recs: seq<Rec>,
                     countAt: nat)
    requires State(cap, words, b0, p, tail) && SafeRecords(words, b0, marks, tail, recs) && |recs| < 256
    requires p.index + RecordsSize(recs) <= cap && countAt + 2 <= HEAD_LEN && ZerosFrom(p.b, countAt)
    requires Owned(marks, p.index, p.index + RecordsSize(recs))
    ensures Fit(cap, p) && GoodRecords(reverse, cap, p, recs)
    ensures var q := PutSection(reverse, cap, p, recs, countAt);
            && p.index <= q.index <= p.index + RecordsSize(recs)
            && (countAt + 2 < HEAD_LEN ==>
                  State(cap, words, b0, q, TailOfRecords(tail, recs)) && ZerosFrom(q.b, countAt + 2))
  {
    hide State, PutAll, GoodRecords, SafeRecords, AgreeBelow, RecordsSize, TailOfRecords, Step;
    assert p.index >= HEAD_LEN by { StateStart(cap, words, b0, p, tail); }
    RecordsState(reverse, cap, words, b0, marks, p, tail, recs);
    var r := PutAll(reverse, cap, p, recs);
    ZerosStay(p.b, r.b, p.index, countAt);
    StepWrites(reverse, cap, r, SetU16(countAt, |recs| % 256));
    if countAt + 2 < HEAD_LEN {
      CountState(reverse, cap, words, b0, r, TailOfRecords(tail, recs), countAt, |recs|);
    }
  }

  lemma StateStart(cap: nat, words: set<text>, b0: seq<byte>, p: Packet, tail: Tail)
    requires State(cap, words, b0, p, tail)
    ensures p.index >= HEAD_LEN
  {
    hide NameHolds, Calm, NamesLack, Stale, Hangs, TameWords;
  }

  /** Every name of a safe message is recorded, every append succeeds, and room is left behind its last byte. */
  lemma {:induction false} SafeMessageIsGood(reverse: bool, cap: nat, words: set<text>, b: seq<byte>, m: Message)
    requires HEAD_LEN <= cap <= POINTER_SPACE && cap + SLACK <= |b| && SafeMessage(words, b, cap, m)
    ensures Fit(cap, Cleared(b)) && GoodMessage(reverse, cap, Cleared(b), m)
    ensures PutMessage(reverse, cap, Cleared(b), m).index <= MessageSize(m)
  {
    hide State, SafeQuestions, SafeRecords, RawCalm, TameWords, GoodQuestions, GoodRecords, PutQuestions, PutSection,
         QuestionsSize, RecordsSize, TailOfQuestions, TailOfRecords, AgreeBelow, Patch, ZerosFrom, Cleared, U16Bytes;
    var p, marks := Cleared(b), Span(HEAD_LEN, MessageSize(m));
    StartState(reverse, cap, words, b, m.id, m.flags);
    var p1 := Patch(reverse, cap, Patch(reverse, cap, p, FLAGS_AT, m.flags), ID_AT, m.id);
    var t1 := TailOfQuestions(RawTail([]), m.questions);
    QuestionsState(reverse, cap, words, b, marks, p1, RawTail([]), m.questions);
    var r := PutQuestions(reverse, cap, p1, m.questions);
    ZerosStay(p1.b, r.b, p1.index, QUESTIONS_AT);
    CountState(reverse, cap, words, b, r, t1, QUESTIONS_AT, |m.questions|);
    var t2 := TailOfRecords(t1, m.answers);
    SectionState(reverse, cap, words, b, marks, Opened(reverse, cap, p, m), t1, m.answers, ANSWERS_AT);
    SectionState(reverse, cap, words, b, marks, WithAnswers(reverse, cap, p, m), t2, m.servers, SERVERS_AT);
    SectionState(reverse, cap, words, b, marks, WithServers(reverse, cap, p, m), TailOfRecords(t2, m.servers),
                 m.additional,
                 ADDITIONAL_AT);
  }

  /**
   From what is known before the packet is built to what the parser does: if the labels of the
   message are tame and differ inside each name, none stands in its raw bytes or is completed by
   old bytes of the buffer, and there is room for all of it without compression, then it is
   written whole, and the parser's walk over the same buffer visits exactly its records, in order, and
   comes to the end.
   */
  lemma {:induction false} SafeMessageIsParsed(reverse: bool, cap: nat, words: set<text>, b: seq<byte>, m: Outgoing)
    requires HEAD_LEN <= cap <= POINTER_SPACE && cap + SLACK <= |b| && SafeMessage(words, b, cap, MessageOf(m))
    ensures var p, q := Cleared(b), Sent(reverse, cap, Cleared(b), m);
            && q == PutMessage(reverse, cap, p, MessageOf(m)) && q.index < |q.b|
            && WalkMessage(reverse, q.b, q.index) == Walked(MessageStarts(reverse, cap, p, MessageOf(m)), true)
            && |MessageStarts(reverse, cap, p, MessageOf(m))| == |m.answers| + |m.servers| + |m.additional|
  {
    hide GoodMessage, PutMessage, MessageStarts, WalkMessage, Sent, Cleared, MessageOf, MessageSize, TameWords,
         SafeQuestions, SafeRecords, RawCalm;
    SafeMessageIsGood(reverse, cap, words, b, MessageOf(m));
    DispatchedIsParsed(reverse, cap, b, m);
  }

  // ----- an announcement that is safe -----

  const LAMP: text := [108, 97, 109, 112]
  const BULB: text := [98, 117, 108, 98]
  const LIGHT: text := [95, 98]
  const UDP: text := [95, 117, 100, 112]
  const LAMP_WORDS: set<text> := {DNS_SD[0], DNS_SD[1], UDP, LOCAL, LIGHT, LAMP, BULB}

  /** "lamp._b._udp.local" announced with its service type. */
  const LAMP_PACKET := Outgoing(0, 0x8400, [],
                                [SdPtrAnswer(LIGHT, UDP, false, 4500), PtrAnswer(LAMP, LIGHT, UDP, 4500)],
                                [], [])

  /** Bytes none of which is a label's length hold no label. */
  lemma NoLengthIsCalm(x: seq<byte>, words: set<text>)
    requires forall s, j | s in words && 0 <= j < |x| :: x[j] != |s|
    ensures RawCalm(x, words)
  {
  }

  lemma LampWordsAreTame()
    ensures TameWords(LAMP_WORDS)
    ensures forall s | s in LAMP_WORDS :: |s| == 9 || |s| == 7 || |s| == 4 || |s| == 5 || |s| == 2
  {
    hide LAMP_WORDS, SameText;
    forall s | s in LAMP_WORDS
      ensures !SameText(s, SUB) && forall j | 0 <= j < |s| :: 45 <= s[j] < REF
      ensures |s| == 9 || |s| == 7 || |s| == 4 || |s| == 5 || |s| == 2
    {
      LampWord(s);
    }
  }

  lemma LampWord(s: text)
    requires s in LAMP_WORDS
    ensures !SameText(s, SUB) && forall j | 0 <= j < |s| :: 45 <= s[j] < REF
    ensures |s| == 9 || |s| == 7 || |s| == 4 || |s| == 5 || |s| == 2
  {
    assert s == DNS_SD[0] || s == DNS_SD[1] || s == UDP || s == LOCAL || s == LIGHT || s == LAMP || s == BULB;
    assert Lower(UDP[1]) != Lower(SUB[1]) && Lower(LAMP[1]) != Lower(SUB[1]) && Lower(BULB[0]) != Lower(SUB[0]);
  }

  lemma LampBytes()
    ensures Header(TYPE_PTR, false, 4500) == [0, 12, 0, 1, 0, 0, 17, 148, 0, 0]
    ensures U16Bytes(0) + U16Bytes(0x8400) == [0, 0, 132, 0]
  {
    assert U16Bytes(12) == [0, 12] && U16Bytes(1) == [0, 1] && U16Bytes(0) == [0, 0];
    assert U16Bytes(4500) == [17, 148] && U16Bytes(0x8400) == [132, 0];
    assert 4500 / 0x10000 == 0 && 4500 % 0x10000 == 4500;
  }

  lemma LampHeaderIsCalm()
    ensures RawCalm([0, 12, 0, 1, 0, 0, 17, 148, 0, 0], LAMP_WORDS) && RawCalm([0, 0, 132, 0], LAMP_WORDS)
  {
    hide TameWords, LAMP_WORDS;
    LampWordsAreTame();
    NoLengthIsCalm([0, 12, 0, 1, 0, 0, 17, 148, 0, 0], LAMP_WORDS);
    NoLengthIsCalm([0, 0, 132, 0], LAMP_WORDS);
  }

  lemma WireOfFour(a: text, b: text, c: text, d: text)
    ensures WireLength([d]) == 2 + |d| && WireLength([c, d]) == 3 + |c| + |d|
    ensures WireLength([b, c, d]) == 4 + |b| + |c| + |d| && WireLength([a, b, c, d]) == 5 + |a| + |b| + |c| + |d|
  {
    assert [d][1..] == [] && [c, d][1..] == [d] && [b, c, d][1..] == [c, d] && [a, b, c, d][1..] == [b, c, d];
  }

  lemma LampNames()
    ensures GoodWords(LAMP_WORDS, DNS_SD) && GoodWords(LAMP_WORDS, TypeNames(LIGHT, UDP))
    ensures GoodWords(LAMP_WORDS, InstanceNames(LAMP, LIGHT, UDP))
    ensures WireLength(DNS_SD) == 30 && WireLength(TypeNames(LIGHT, UDP)) == 15
    ensures WireLength(InstanceNames(LAMP, LIGHT, UDP)) == 20
  {
    SameItself(LOCAL);
    assert DNS_SD == [DNS_SD[0], DNS_SD[1], UDP, LOCAL];
    WireOfFour(DNS_SD[0], DNS_SD[1], UDP, LOCAL);
    WireOfFour(LAMP, LIGHT, UDP, LOCAL);
  }

  /** A PTR record for the announcement. */
  lemma PointerIsSafe(words: set<text>, b: seq<byte>, marks: set<nat>, tail: Tail, owner: seq<text>, names: seq<text>)
    requires GoodWords(words, owner) && GoodWords(words, names) && Seam(b, marks, tail, owner[0])
    requires RawCalm(Header(TYPE_PTR, false, 4500), words)
    requires Seam(b, marks, RawTail(Header(TYPE_PTR, false, 4500)), names[0])
    ensures var rec := PointerRecord(owner, names, false, 4500);
            && SafeRecord(words, b, marks, tail, rec) && TailOf(rec) == NameTail
            && RecordSize(rec) == WireLength(owner) + DATA_OFFSET + WireLength(names)
  {
    hide Seam, RawCalm, WireLength, GoodWords, U16Bytes;
    LampBytes();
  }

  /** Two safe records and nothing else. */
  lemma TwoRecords(words: set<text>, b: seq<byte>, marks: set<nat>, tail: Tail, r1: Rec, r2: Rec)
    requires SafeRecord(words, b, marks, tail, r1) && SafeRecord(words, b, marks, TailOf(r1), r2)
    ensures SafeRecords(words, b, marks, tail, [r1, r2]) && RecordsSize([r1, r2]) == RecordSize(r1) + RecordSize(r2)
  {
    hide Seam, RawCalm, WireLength, GoodWords, RecordSize, TailOf, Shaped;
    assert [r1, r2][1..] == [r2] && [r2][1..] == [];
    assert SafeRecords(words, b, marks, TailOf(r2), []) && RecordsSize([]) == 0;
    assert SafeRecords(words, b, marks, TailOf(r1), [r2]) && RecordsSize([r2]) == RecordSize(r2);
  }

  lemma LampMessage()
    ensures MessageOf(LAMP_PACKET) == Message(0, 0x8400, [], [SdPtrRecord(LIGHT, UDP, false, 4500),
                                                              PtrRecord(LAMP, LIGHT, UDP, 4500)], [], [])
  {
    hide SdPtrRecord, PtrRecord;
  }

  /** The records of the announcement. */
  lemma LampRecords(b: seq<byte>, marks: set<nat>)
    requires forall pos | pos in marks :: pos <= 256
    ensures var recs := [SdPtrRecord(LIGHT, UDP, false, 4500), PtrRecord(LAMP, LIGHT, UDP, 4500)];
            && SafeRecords(LAMP_WORDS, b, marks, RawTail([]), recs) && RecordsSize(recs) == 100
            && RawCalm(Header(TYPE_PTR, false, 4500), LAMP_WORDS)
  {
    hide TameWords, RawCalm, WireLength, Header, Seam, GoodWords, U16Bytes, SafeRecord, Shaped, TailOf, RecordSize,
         SafeRecords, RecordsSize;
    LampBytes();
    LampHeaderIsCalm();
    LampNames();
    LampSeams(b, marks);
    var r1, r2 := SdPtrRecord(LIGHT, UDP, false, 4500), PtrRecord(LAMP, LIGHT, UDP, 4500);
    PointerIsSafe(LAMP_WORDS, b, marks, RawTail([]), DNS_SD, TypeNames(LIGHT, UDP));
    PointerIsSafe(LAMP_WORDS, b, marks, NameTail, TypeNames(LIGHT, UDP), InstanceNames(LAMP, LIGHT, UDP));
    TwoRecords(LAMP_WORDS, b, marks, RawTail([]), r1, r2);
  }

  /** The conditions are met by an announcement of a service with its type, whatever the buffer holds. */
  lemma {:induction false} LampIsSafe(b: seq<byte>)
    ensures SafeMessage(LAMP_WORDS, b, 512, MessageOf(LAMP_PACKET))
  {
    hide TameWords, RawCalm, Header, U16Bytes, SafeRecords, RecordsSize, Span, MessageOf, SdPtrRecord, PtrRecord,
         TailOfRecords, LAMP_WORDS, LAMP_PACKET;
    LampWordsAreTame();
    LampBytes();
    LampHeaderIsCalm();
    LampMessage();
    var m := MessageOf(LAMP_PACKET);
    var marks := Span(HEAD_LEN, 112);
    LampRecords(b, marks);
    NothingElse(LAMP_WORDS, b, marks, TailOfRecords(RawTail([]), m.answers));
    assert MessageSize(m) == 112;
  }

  lemma NothingElse(words: set<text>, b: seq<byte>, marks: set<nat>, tail: Tail)
    ensures SafeRecords(words, b, marks, tail, []) && RecordsSize([]) == 0 && TailOfRecords(tail, []) == tail
  {
  }

  /** Behind a name, a label shorter than the header meets no old bytes in a packet of at most 256 bytes. */
  lemma ShortSeam(b: seq<byte>, marks: set<nat>, s: text)
    requires |s| < HEAD_LEN && forall pos | pos in marks :: pos <= 256
    ensures Seam(b, marks, NameTail, s)
  {
  }

  /** Behind raw bytes none of which is its length it meets none either. */
  lemma SeamBehindRaw(b: seq<byte>, marks: set<nat>, x: seq<byte>, s: text)
    requires forall j | 0 <= j < |x| :: x[j] != |s|
    ensures Seam(b, marks, RawTail(x), s)
  {
  }

  lemma LampSeams(b: seq<byte>, marks: set<nat>)
    requires forall pos | pos in marks :: pos <= 256
    ensures forall s | s in LAMP_WORDS ::
              && Seam(b, marks, NameTail, s) && Seam(b, marks, RawTail([]), s)
              && Seam(b, marks, RawTail([0, 12, 0, 1, 0, 0, 17, 148, 0, 0]), s)
  {
    hide Seam, TameWords;
    LampWordsAreTame();
    forall s | s in LAMP_WORDS
      ensures Seam(b, marks, NameTail, s) && Seam(b, marks, RawTail([]), s)
      ensures Seam(b, marks, RawTail([0, 12, 0, 1, 0, 0, 17, 148, 0, 0]), s)
    {
      ShortSeam(b, marks, s);
      SeamBehindRaw(b, marks, [], s);
      SeamBehindRaw(b, marks, [0, 12, 0, 1, 0, 0, 17, 148, 0, 0], s);
    }
  }
}
