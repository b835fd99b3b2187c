/**
 What the buffer held before a message is written: a safe message comes out the same whatever it was,
 and comes out again over what it left; and the one way in which old bytes can spoil a name.
 */
module StaleBytes {
  import opened Bytes
  import opened FqdnReader
  import opened FqdnWriter
  import opened FqdnCompression
  import opened FqdnHistory
  import opened FqdnSafety
  import opened FqdnSlots
  import opened Records
  import opened RecordBuilders
  import opened Messages
  import opened Dispatch
  import opened SafeMessages

  /** The same packet so far, whatever lies behind it. */
  ghost predicate Twin(p: Packet, q: Packet) {
    q.index == p.index && q.own == p.own && q.names == p.names && AgreeBelow(p.b, q.b, p.index)
  }

  // ----- a name -----

  /** Behind the same packet a suffix of a findable name matches in both buffers or in none. */
  lemma SameMatch(reverse: bool, cap: nat, p: Packet, q: Packet, strings: seq<text>, k: nat, at: nat)
    requires Inv(p, cap) && Twin(p, q) && Findable(p, strings) && k < |strings|
    requires p.index + |Spelled(strings[..k])| <= cap && at < p.index + |Spelled(strings[..k])|
    requires Matches(reverse, Begun(p, strings, k), cap, at, strings[k..])
    ensures Matches(reverse, Begun(q, strings, k), cap, at, strings[k..])
  {
    hide Matches, Labels, Inside, GoodTarget, Tight, Spelled, Begun, Stands, NameHolds, Quiet, AllDifferent, Apart,
         NulFree;
    var b, c := Begun(p, strings, k), Begun(q, strings, k);
    MatchStands(reverse, b, cap, at, strings[k..]);
    NoMatchAmongOwn(p, strings, k, at);
    QuietThere(p, strings, k, at);
    FirstByte(b, at, strings[k]);
    BegunFront(p, strings, k, at);
    InsideIsGood(p, cap, at, strings, k);
    forall j | j in p.own
      ensures b[j] == p.b[j] && c[j] == p.b[j]
    {
      BegunFront(p, strings, k, j);
      BegunFront(q, strings, k, j);
    }
    GoodIn(p, b, at);
    MatchMoves(reverse, cap, p.own, b, c, at, strings[k..]);
  }

  lemma GoodIn(p: Packet, b: seq<byte>, at: nat)
    requires |b| == |p.b| && (forall j | j in p.own && j < |b| :: b[j] == p.b[j]) && GoodTarget(p.b, p.own, at)
    ensures GoodTarget(b, p.own, at)
  {
    hide Labels, Faithful;
    LabelsStable(p.b, p.own, b, p.own, at, at, at);
  }

  lemma {:induction false} SameSearch(reverse: bool, b: seq<byte>, c: seq<byte>, index: nat, cap: nat,
                                      strings: seq<text>, from: nat)
    requires cap + SLACK <= |b| && cap + SLACK <= |c| && index <= cap && strings != []
    requires forall at | 0 <= at < index ::
             Matches(reverse, b, cap, at, strings) == Matches(reverse, c, cap, at, strings)
    ensures Search(reverse, b, index, cap, strings, from) == Search(reverse, c, index, cap, strings, from)
    decreases index - from
  {
    hide Matches;
    if from < index && !Matches(reverse, b, cap, from, strings) {
      SameSearch(reverse, b, c, index, cap, strings, from + 1);
    }
  }

  /** From any suffix on, a findable name is written alike behind the same packet. */
  lemma {:induction false} SameAppend(reverse: bool, cap: nat, p: Packet, q: Packet, strings: seq<text>, k: nat)
    requires Inv(p, cap) && Inv(q, cap) && Twin(p, q) && Findable(p, strings) && Findable(q, strings)
    requires k <= |strings| && p.index + |Spelled(strings[..k])| + WireLength(strings[k..]) <= cap
    ensures var index := p.index + |Spelled(strings[..k])|;
            var o := Append(reverse, Begun(p, strings, k), index, cap, strings[k..]);
            var u := Append(reverse, Begun(q, strings, k), index, cap, strings[k..]);
            o.index == u.index && o.added == u.added && o.stop == u.stop && AgreeBelow(o.b, u.b, o.index)
    decreases |strings| - k
  {
    hide Inv, Findable, Matches, Search, Append, Spelled, Begun, WireLength;
    var rest, index := strings[k..], p.index + |Spelled(strings[..k])|;
    RoomBehind(p, cap);
    RoomBehind(q, cap);
    var b, c := Begun(p, strings, k), Begun(q, strings, k);
    BegunAlike(p, q, strings, k);
    FindableIsBounded(p, strings);
    CanAppend(reverse, cap, p, strings, k);
    CanAppend(reverse, cap, q, strings, k);
    if rest == [] {
      RootAlike(reverse, b, c, index, cap);
    } else {
      forall at | 0 <= at < index
        ensures Matches(reverse, b, cap, at, rest) == Matches(reverse, c, cap, at, rest)
      {
        if Matches(reverse, b, cap, at, rest) {
          SameMatch(reverse, cap, p, q, strings, k, at);
        }
        if Matches(reverse, c, cap, at, rest) {
          SameMatch(reverse, cap, q, p, strings, k, at);
        }
      }
      SameSearch(reverse, b, c, index, cap, rest, 0);
      if Search(reverse, b, index, cap, rest, 0).At? {
        AppendPointer(reverse, b, index, cap, rest);
        AppendPointer(reverse, c, index, cap, rest);
        PutAlike(b, c, index, RefBytes(Search(reverse, b, index, cap, rest, 0).at));
      } else {
        var b1 := AppendLiteral(reverse, b, index, cap, rest);
        var c1 := AppendLiteral(reverse, c, index, cap, rest);
        BegunMore(p, strings, k, b1);
        BegunMore(q, strings, k, c1);
        WireUnfolds(rest);
        assert rest[1..] == strings[k + 1..];
        SameAppend(reverse, cap, p, q, strings, k + 1);
      }
    }
  }

  lemma WireUnfolds(strings: seq<text>)
    requires strings != []
    ensures WireLength(strings) == 1 + |strings[0]| + WireLength(strings[1..])
  {
  }

  lemma BegunAlike(p: Packet, q: Packet, strings: seq<text>, k: nat)
    requires Twin(p, q) && k <= |strings| && p.index + |Spelled(strings[..k])| <= |p.b|
    ensures AgreeBelow(Begun(p, strings, k), Begun(q, strings, k), p.index + |Spelled(strings[..k])|)
  {
  }

  lemma FindableIsBounded(p: Packet, strings: seq<text>)
    requires Findable(p, strings)
    ensures forall i | 0 <= i < |strings| :: 1 <= |strings[i]| < 255
  {
  }

  lemma CanAppend(reverse: bool, cap: nat, p: Packet, strings: seq<text>, k: nat)
    requires Inv(p, cap) && k <= |strings| && p.index + |Spelled(strings[..k])| + WireLength(strings[k..]) <= cap
    requires forall i | 0 <= i < |strings| :: 1 <= |strings[i]| < 255
    ensures cap + SLACK <= |p.b|
    ensures !Append(reverse, Begun(p, strings, k), p.index + |Spelled(strings[..k])|, cap, strings[k..]).stop.Full?
  {
    hide Append, Spelled, WireLength, NameHolds, Begun;
    HasRoom(reverse, cap, Begun(p, strings, k), p.index + |Spelled(strings[..k])|, strings[k..]);
  }

  lemma RootAlike(reverse: bool, b: seq<byte>, c: seq<byte>, index: nat, cap: nat)
    requires cap + SLACK <= |b| && index <= cap && AgreeBelow(b, c, index)
    requires !Append(reverse, b, index, cap, []).stop.Full?
    ensures var o, u := Append(reverse, b, index, cap, []), Append(reverse, c, index, cap, []);
            o.index == u.index && o.added == u.added && o.stop == u.stop && AgreeBelow(o.b, u.b, o.index)
  {
  }

  lemma PutAlike(b: seq<byte>, c: seq<byte>, at: nat, bytes: seq<byte>)
    requires AgreeBelow(b, c, at) && at + |bytes| <= |b|
    ensures AgreeBelow(Put(b, at, bytes), Put(c, at, bytes), at + |bytes|)
  {
  }

  lemma NameAlike(reverse: bool, cap: nat, p: Packet, q: Packet, strings: seq<text>)
    requires Inv(p, cap) && Inv(q, cap) && Twin(p, q) && SafeName(cap, p, strings) && SafeName(cap, q, strings)
    ensures var a, u := Step(reverse, cap, p, WriteName(strings)), Step(reverse, cap, q, WriteName(strings));
            && Twin(a, u)
            && Append(reverse, p.b, p.index, cap, strings).index == Append(reverse, q.b, q.index, cap, strings).index
            && Append(reverse, p.b, p.index, cap, strings).added == Append(reverse, q.b, q.index, cap, strings).added
  {
    hide Append, Findable, Recordable, WireLength, AgreeBelow, NameHolds, Spelled, Begun;
    NothingBegun(p, strings);
    NothingBegun(q, strings);
    SameAppend(reverse, cap, p, q, strings, 0);
    SafeCallIsRecordable(reverse, cap, p, strings);
    SafeCallIsRecordable(reverse, cap, q, strings);
  }

  lemma RawAlike(reverse: bool, cap: nat, p: Packet, q: Packet, x: seq<byte>)
    requires Fit(cap, p) && Fit(cap, q) && Twin(p, q) && p.index + |x| <= cap
    ensures Twin(Step(reverse, cap, p, WriteRaw(x)), Step(reverse, cap, q, WriteRaw(x)))
  {
    hide Append;
  }

  lemma PatchAlike(reverse: bool, cap: nat, p: Packet, q: Packet, at: nat, value: nat)
    requires Fit(cap, p) && Fit(cap, q) && Twin(p, q)
    ensures Twin(Patch(reverse, cap, p, at, value), Patch(reverse, cap, q, at, value))
  {
    hide Append;
  }

  // ----- questions and records -----

  /** What the two packets of a message know of each other while it is written a second time. */
  ghost predicate Pair(cap: nat, words: set<text>, b: seq<byte>, c: seq<byte>, p: Packet, q: Packet, tail: Tail) {
    State(cap, words, b, p, tail) && State(cap, words, c, q, tail) && Twin(p, q)
  }

  lemma PairRoom(cap: nat, words: set<text>, b: seq<byte>, c: seq<byte>, p: Packet, q: Packet, tail: Tail)
    requires Pair(cap, words, b, c, p, q, tail)
    ensures Fit(cap, p) && Fit(cap, q) && Inv(p, cap) && Inv(q, cap) && p.index == q.index
  {
    hide State;
    StateRoom(cap, words, b, p, tail);
    StateRoom(cap, words, c, q, tail);
  }

  /** The next name of both packets. */
  lemma NextAlike(reverse: bool, cap: nat, words: set<text>, b: seq<byte>, c: seq<byte>, marks: set<nat>,
                  again: set<nat>, p: Packet, q: Packet, tail: Tail, strings: seq<text>)
    requires Pair(cap, words, b, c, p, q, tail) && GoodWords(words, strings) && p.index + WireLength(strings) <= cap
    requires Seam(b, marks, tail, strings[0]) && Seam(c, again, tail, strings[0])
    requires p.index in marks && p.index in again
    ensures Fit(cap, p) && Fit(cap, q)
    ensures var o, u := Append(reverse, p.b, p.index, cap, strings), Append(reverse, q.b, q.index, cap, strings);
            o.index == u.index && o.added == u.added
    ensures var r, t := Step(reverse, cap, p, WriteName(strings)), Step(reverse, cap, q, WriteName(strings));
            Pair(cap, words, b, c, r, t, NameTail) && r.index <= p.index + WireLength(strings)
  {
    hide State, SafeName, Step, Append, Seam, GoodWords, WireLength, Twin, GoodName;
    PairRoom(cap, words, b, c, p, q, tail);
    assert q.index == p.index by { PairRoom(cap, words, b, c, p, q, tail); }
    NextIsSafe(cap, words, b, marks, p, tail, strings);
    NextIsSafe(cap, words, c, again, q, tail, strings);
    NextIsRecorded(reverse, cap, words, b, marks, p, tail, strings);
    NextIsRecorded(reverse, cap, words, c, again, q, tail, strings);
    NameAlike(reverse, cap, p, q, strings);
    NameState(reverse, cap, words, b, p, tail, strings);
    NameState(reverse, cap, words, c, q, tail, strings);
    StepWrites(reverse, cap, p, WriteName(strings));
  }

  lemma RawPair(reverse: bool, cap: nat, words: set<text>, b: seq<byte>, c: seq<byte>, p: Packet, q: Packet,
                x: seq<byte>)
    requires Pair(cap, words, b, c, p, q, NameTail)
    requires x != [] && x[0] == 0 && RawCalm(x, words) && p.index + |x| <= cap
    ensures Fit(cap, p) && Fit(cap, q)
    ensures var r, t := Step(reverse, cap, p, WriteRaw(x)), Step(reverse, cap, q, WriteRaw(x));
            Pair(cap, words, b, c, r, t, RawTail(x)) && r.index == p.index + |x|
  {
    hide State, Step, RawCalm, Twin;
    PairRoom(cap, words, b, c, p, q, NameTail);
    RawState(reverse, cap, words, b, p, x);
    RawState(reverse, cap, words, c, q, x);
    RawAlike(reverse, cap, p, q, x);
    RawAdds(reverse, cap, p, x);
  }

  lemma QuestionAlike(reverse: bool, cap: nat, words: set<text>, b: seq<byte>, c: seq<byte>, marks: set<nat>,
                      again: set<nat>, p: Packet, q: Packet, tail: Tail, ask: Question)
    requires Pair(cap, words, b, c, p, q, tail)
    requires SafeQuestions(words, b, marks, tail, [ask]) && SafeQuestions(words, c, again, tail, [ask])
    requires p.index + WireLength(ask.names) + 4 <= cap && p.index in marks && p.index in again
    ensures Fit(cap, p) && Fit(cap, q)
    ensures var r, t := Headed(reverse, cap, p, ask.names, ask.fields), Headed(reverse, cap, q, ask.names, ask.fields);
            Pair(cap, words, b, c, r, t, RawTail(ask.fields)) && r.index <= p.index + WireLength(ask.names) + 4
  {
    hide Pair, Step, RawCalm, Seam, GoodWords, WireLength, Append;
    assert [ask][0] == ask;
    NextAlike(reverse, cap, words, b, c, marks, again, p, q, tail, ask.names);
    RawPair(reverse, cap, words, b, c, Step(reverse, cap, p, WriteName(ask.names)),
            Step(reverse, cap, q, WriteName(ask.names)), ask.fields);
  }

  /** A record, written into both packets alike. */
  lemma RecordAlike(reverse: bool, cap: nat, words: set<text>, b: seq<byte>, c: seq<byte>, marks: set<nat>,
                    again: set<nat>, p: Packet, q: Packet, tail: Tail, rec: Rec)
    requires Pair(cap, words, b, c, p, q, tail)
    requires SafeRecord(words, b, marks, tail, rec) && SafeRecord(words, c, again, tail, rec)
    requires p.index + RecordSize(rec) <= cap && Fit(cap, p) && Seats(reverse, cap, p, rec) <= marks * again
    ensures Fit(cap, q) && Seats(reverse, cap, q, rec) <= again
    ensures Twin(PutRecord(reverse, cap, p, rec), PutRecord(reverse, cap, q, rec))
  {
    hide Pair, Step, RawCalm, Seam, GoodWords, WireLength, Append, PutRecord, Twin, RdLength;
    PairRoom(cap, words, b, c, p, q, tail);
    NextAlike(reverse, cap, words, b, c, marks, again, p, q, tail, rec.owner);
    var x := RawBytes(rec);
    var named, named' := Step(reverse, cap, p, WriteName(rec.owner)), Step(reverse, cap, q, WriteName(rec.owner));
    StepWrites(reverse, cap, p, WriteName(rec.owner));
    PairRoom(cap, words, b, c, named, named', NameTail);
    RawPair(reverse, cap, words, b, c, named, named', x);
    if EndsRaw(rec) {
      RawRecordIsOnePiece(reverse, cap, p, rec);
      RawRecordIsOnePiece(reverse, cap, q, rec);
      PairIsTwin(cap, words, b, c, Step(reverse, cap, named, WriteRaw(x)), Step(reverse, cap, named', WriteRaw(x)),
                 RawTail(x));
    } else {
      LeadIsOnePiece(reverse, cap, p, rec);
      LeadIsOnePiece(reverse, cap, q, rec);
      var lead, lead' := Step(reverse, cap, named, WriteRaw(x)), Step(reverse, cap, named', WriteRaw(x));
      NextAlike(reverse, cap, words, b, c, marks, again, lead, lead', RawTail(x), LastNames(rec));
      var d, d' := Step(reverse, cap, lead, WriteName(LastNames(rec))),
                   Step(reverse, cap, lead', WriteName(LastNames(rec)));
      PairIsTwin(cap, words, b, c, d, d', NameTail);
      PatchAlike(reverse, cap, d, d', named.index + 8,
                 RdLength(reverse, cap, Headed(reverse, cap, p, rec.owner, rec.header), rec.rdata));
    }
  }

  lemma PairIsTwin(cap: nat, words: set<text>, b: seq<byte>, c: seq<byte>, p: Packet, q: Packet, tail: Tail)
    requires Pair(cap, words, b, c, p, q, tail)
    ensures Twin(p, q)
  {
    hide State;
  }

  /** The names of a record begin where names are recorded. */
  lemma SeatsAreNames(reverse: bool, cap: nat, p: Packet, rec: Rec)
    requires Inv(p, cap) && Shaped(rec) && GoodRecord(reverse, cap, p, rec)
    ensures Fit(cap, p) && Seats(reverse, cap, p, rec) <= PutRecord(reverse, cap, p, rec).names.Keys
  {
    hide Append, Inv, Run, RdLength, GoodName, GoodRecord, Step, Headed, RawBytes, Framed, ShortNames, Labels,
         PutRecord;
    RoomBehind(p, cap);
    var named := Step(reverse, cap, p, WriteName(rec.owner));
    RecordIsFramed(reverse, cap, p, rec);
    StepWrites(reverse, cap, p, WriteName(rec.owner));
    if !EndsRaw(rec) {
      LeadHasRoom(reverse, cap, p, rec);
      LeadIsOnePiece(reverse, cap, p, rec);
      var lead := Step(reverse, cap, named, WriteRaw(RawBytes(rec)));
      NameIsKeyed(reverse, cap, lead, LastNames(rec));
      var h := Headed(reverse, cap, p, rec.owner, rec.header);
      PatchKeepsNames(reverse, cap, Step(reverse, cap, lead, WriteName(LastNames(rec))), h.index - 2,
                      RdLength(reverse, cap, h, rec.rdata));
    }
  }

  lemma NameIsKeyed(reverse: bool, cap: nat, p: Packet, strings: seq<text>)
    requires Fit(cap, p) && GoodName(reverse, cap, p, strings)
    ensures p.index in Step(reverse, cap, p, WriteName(strings)).names
  {
    hide Append, Plain, Recordable;
  }

  lemma {:induction false} RecordsAlike(reverse: bool, cap: nat, words: set<text>, b: seq<byte>, c: seq<byte>,
                                        marks: set<nat>, again: set<nat>, p: Packet, q: Packet, tail: Tail,
                                        recs: seq<Rec>)
    requires Pair(cap, words, b, c, p, q, tail)
    requires SafeRecords(words, b, marks, tail, recs) && SafeRecords(words, c, again, tail, recs)
    requires p.index + RecordsSize(recs) <= cap && Owned(marks, p.index, p.index + RecordsSize(recs))
    requires Fit(cap, p) && PutAll(reverse, cap, p, recs).names.Keys <= again
    ensures Fit(cap, q) && GoodRecords(reverse, cap, q, recs)
    ensures Pair(cap, words, b, c, PutAll(reverse, cap, p, recs), PutAll(reverse, cap, q, recs),
                 TailOfRecords(tail, recs))
    ensures AgreeBelow(q.b, PutAll(reverse, cap, q, recs).b, q.index)
    ensures Starts(reverse, cap, q, recs) == Starts(reverse, cap, p, recs)
    decreases |recs|
  {
    hide AgreeBelow, State, PutRecord, GoodRecord, NamesInDomain, RecordSize, Twin, TailOf, Inv, Extends, Chain,
         SafeRecord, Seats,
         Shaped, Kept;
    PairRoom(cap, words, b, c, p, q, tail);
    if recs == [] {
      AgreesWithItself(q.b, q.index);
    } else {
      assert Shaped(recs[0]) by { IsShaped(words, b, marks, tail, recs[0]); }
      SeatsAreMarked(reverse, cap, words, b, marks, p, tail, recs[0]);
      RecordState(reverse, cap, words, b, marks, p, tail, recs[0]);
      var r := PutRecord(reverse, cap, p, recs[0]);
      RecordsState(reverse, cap, words, b, marks, r, TailOf(recs[0]), recs[1..]);
      StateRoom(cap, words, b, r, TailOf(recs[0]));
      RecordsStandInARow(reverse, cap, r, recs[1..]);
      NamesGrow(r, PutAll(reverse, cap, r, recs[1..]));
      SeatsAreNames(reverse, cap, p, recs[0]);
      RecordAlike(reverse, cap, words, b, c, marks, again, p, q, tail, recs[0]);
      RecordState(reverse, cap, words, c, again, q, tail, recs[0]);
      var t := PutRecord(reverse, cap, q, recs[0]);
      RecordsAlike(reverse, cap, words, b, c, marks, again, r, t, TailOf(recs[0]), recs[1..]);
      AgreeTwice(q.b, t.b, PutAll(reverse, cap, t, recs[1..]).b, q.index, t.index, q.index);
    }
  }

  lemma NamesGrow(p: Packet, q: Packet)
    requires Extends(p, q)
    ensures p.names.Keys <= q.names.Keys
  {
    hide Labels;
  }

  lemma {:induction false} QuestionsAlike(reverse: bool, cap: nat, words: set<text>, b: seq<byte>, c: seq<byte>,
                                          marks: set<nat>, again: set<nat>, p: Packet, q: Packet, tail: Tail,
                                          qs: seq<Question>)
    requires Pair(cap, words, b, c, p, q, tail)
    requires SafeQuestions(words, b, marks, tail, qs) && SafeQuestions(words, c, again, tail, qs)
    requires p.index + QuestionsSize(qs) <= cap && Owned(marks, p.index, p.index + QuestionsSize(qs))
    requires Fit(cap, p) && PutQuestions(reverse, cap, p, qs).names.Keys <= again
    ensures Fit(cap, q) && GoodQuestions(reverse, cap, q, qs)
    ensures Pair(cap, words, b, c, PutQuestions(reverse, cap, p, qs), PutQuestions(reverse, cap, q, qs),
                 TailOfQuestions(tail, qs))
    ensures AgreeBelow(q.b, PutQuestions(reverse, cap, q, qs).b, q.index)
    decreases |qs|
  {
    hide AgreeBelow, State, Headed, GoodQuestion, Twin, Inv, Extends, AskedInARow, WireLength, GoodWords, Seam,
         RawCalm, Kept;
    PairRoom(cap, words, b, c, p, q, tail);
    if qs == [] {
      AgreesWithItself(q.b, q.index);
    } else {
      WireIsPositive(qs[0].names);
      OneQuestion(words, b, marks, tail, qs);
      OneQuestion(words, c, again, tail, qs);
      QuestionState(reverse, cap, words, b, marks, p, tail, qs[0]);
      var r := Headed(reverse, cap, p, qs[0].names, qs[0].fields);
      QuestionsState(reverse, cap, words, b, marks, r, RawTail(qs[0].fields), qs[1..]);
      StateRoom(cap, words, b, r, RawTail(qs[0].fields));
      QuestionsStandInARow(reverse, cap, r, qs[1..]);
      NamesGrow(r, PutQuestions(reverse, cap, r, qs[1..]));
      QuestionIsKeyed(reverse, cap, p, qs[0]);
      QuestionAlike(reverse, cap, words, b, c, marks, again, p, q, tail, qs[0]);
      QuestionState(reverse, cap, words, c, again, q, tail, qs[0]);
      var t := Headed(reverse, cap, q, qs[0].names, qs[0].fields);
      QuestionsAlike(reverse, cap, words, b, c, marks, again, r, t, RawTail(qs[0].fields), qs[1..]);
      AgreeTwice(q.b, t.b, PutQuestions(reverse, cap, t, qs[1..]).b, q.index, t.index, q.index);
    }
  }

  lemma QuestionIsKeyed(reverse: bool, cap: nat, p: Packet, ask: Question)
    requires Fit(cap, p) && GoodQuestion(reverse, cap, p, ask)
    ensures p.index in Headed(reverse, cap, p, ask.names, ask.fields).names
  {
    hide Append, Plain, Recordable, GoodName;
    NameIsKeyed(reverse, cap, p, ask.names);
    RawAdds(reverse, cap, Step(reverse, cap, p, WriteName(ask.names)), ask.fields);
  }

  // ----- the whole message -----

  lemma SectionAlike(reverse: bool, cap: nat, words: set<text>, b: seq<byte>, c: seq<byte>, marks: set<nat>,
                     again: set<nat>, p: Packet, q: Packet, tail: Tail, recs: seq<Rec>, countAt: nat)
    requires Pair(cap, words, b, c, p, q, tail) && |recs| < 256 && countAt + 2 <= HEAD_LEN
    requires SafeRecords(words, b, marks, tail, recs) && SafeRecords(words, c, again, tail, recs)
    requires p.index + RecordsSize(recs) <= cap && Owned(marks, p.index, p.index + RecordsSize(recs))
    requires ZerosFrom(p.b, countAt) && ZerosFrom(q.b, countAt)
    requires Fit(cap, p) && PutSection(reverse, cap, p, recs, countAt).names.Keys <= again
    ensures Fit(cap, q) && GoodRecords(reverse, cap, q, recs)
    ensures Starts(reverse, cap, q, recs) == Starts(reverse, cap, p, recs)
    ensures var r, t := PutSection(reverse, cap, p, recs, countAt), PutSection(reverse, cap, q, recs, countAt);
            && Twin(r, t)
            && (countAt + 2 < HEAD_LEN ==> && Pair(cap, words, b, c, r, t, TailOfRecords(tail, recs))
                                           && ZerosFrom(r.b, countAt + 2) && ZerosFrom(t.b, countAt + 2))
  {
    hide State, PutAll, GoodRecords, SafeRecords, RecordsSize, TailOfRecords, Step, Twin, AgreeBelow;
    PairRoom(cap, words, b, c, p, q, tail);
    RecordsState(reverse, cap, words, b, marks, p, tail, recs);
    var r, value := PutAll(reverse, cap, p, recs), |recs| % 256;
    PatchKeepsNames(reverse, cap, r, countAt, value);
    RecordsAlike(reverse, cap, words, b, c, marks, again, p, q, tail, recs);
    var t := PutAll(reverse, cap, q, recs);
    assert p.index >= HEAD_LEN by { StateStart(cap, words, b, p, tail); }
    PairRoom(cap, words, b, c, r, t, TailOfRecords(tail, recs));
    ZerosStay(p.b, r.b, p.index, countAt);
    ZerosStay(q.b, t.b, p.index, countAt);
    PatchAlike(reverse, cap, r, t, countAt, value);
    if countAt + 2 < HEAD_LEN {
      CountState(reverse, cap, words, b, r, TailOfRecords(tail, recs), countAt, value);
      CountState(reverse, cap, words, c, t, TailOfRecords(tail, recs), countAt, value);
    }
  }

  /** A section keeps the names in front of it. */
  lemma SectionNames(reverse: bool, cap: nat, words: set<text>, b: seq<byte>, marks: set<nat>, p: Packet, tail: Tail,
                     recs: seq<Rec>, countAt: nat)
    requires State(cap, words, b, p, tail) && SafeRecords(words, b, marks, tail, recs)
    requires p.index + RecordsSize(recs) <= cap && Owned(marks, p.index, p.index + RecordsSize(recs))
    ensures Fit(cap, p) && p.names.Keys <= PutSection(reverse, cap, p, recs, countAt).names.Keys
  {
    hide State, PutAll, GoodRecords, SafeRecords, RecordsSize, TailOfRecords, Step, AgreeBelow, Inv, Extends, Chain,
         Kept;
    StateRoom(cap, words, b, p, tail);
    RecordsState(reverse, cap, words, b, marks, p, tail, recs);
    RecordsStandInARow(reverse, cap, p, recs);
    NamesGrow(p, PutAll(reverse, cap, p, recs));
    PatchKeepsNames(reverse, cap, PutAll(reverse, cap, p, recs), countAt, |recs| % 256);
  }

  /** Header and questions come out alike. */
  lemma OpenedAlike(reverse: bool, cap: nat, words: set<text>, b: seq<byte>, c: seq<byte>, again: set<nat>, m: Message)
    requires HEAD_LEN <= cap <= POINTER_SPACE && cap + SLACK <= |b| == |c|
    requires SafeMessage(words, b, cap, m) && SafeParts(words, c, again, m)
    requires Opened(reverse, cap, Cleared(b), m).names.Keys <= again
    ensures var p, q := Opened(reverse, cap, Cleared(b), m), Opened(reverse, cap, Cleared(c), m);
            && Pair(cap, words, b, c, p, q, TailOfQuestions(RawTail([]), m.questions))
            && ZerosFrom(p.b, ANSWERS_AT) && ZerosFrom(q.b, ANSWERS_AT)
            && HEAD_LEN <= p.index <= HEAD_LEN + QuestionsSize(m.questions)
    ensures var q := Patch(reverse, cap, Patch(reverse, cap, Cleared(c), FLAGS_AT, m.flags), ID_AT, m.id);
            GoodQuestions(reverse, cap, q, m.questions)
  {
    hide State, SafeQuestions, SafeRecords, RawCalm, TameWords, GoodQuestions, PutQuestions, QuestionsSize, RecordsSize,
         TailOfQuestions, TailOfRecords, AgreeBelow, Patch, ZerosFrom, U16Bytes, Twin, Span;
    var marks := Span(HEAD_LEN, MessageSize(m));
    assert Owned(marks, HEAD_LEN, HEAD_LEN + QuestionsSize(m.questions)) by { SpanOwns(HEAD_LEN, MessageSize(m)); }
    assert Twin(Cleared(b), Cleared(c)) by { ClearedAlike(b, c); }
    StartState(reverse, cap, words, b, m.id, m.flags);
    StartState(reverse, cap, words, c, m.id, m.flags);
    PatchAlike(reverse, cap, Cleared(b), Cleared(c), FLAGS_AT, m.flags);
    var p0, q0 := Patch(reverse, cap, Cleared(b), FLAGS_AT, m.flags),
        Patch(reverse, cap, Cleared(c), FLAGS_AT, m.flags);
    PatchAlike(reverse, cap, p0, q0, ID_AT, m.id);
    var p1, q1 := Patch(reverse, cap, p0, ID_AT, m.id), Patch(reverse, cap, q0, ID_AT, m.id);
    QuestionsState(reverse, cap, words, b, marks, p1, RawTail([]), m.questions);
    var r, t, value := PutQuestions(reverse, cap, p1, m.questions), PutQuestions(reverse, cap, q1, m.questions),
                       |m.questions|;
    PatchNames(reverse, cap, r, QUESTIONS_AT, value);
    QuestionsAlike(reverse, cap, words, b, c, marks, again, p1, q1, RawTail([]), m.questions);
    ZerosStay(p1.b, r.b, HEAD_LEN, QUESTIONS_AT);
    ZerosStay(q1.b, t.b, HEAD_LEN, QUESTIONS_AT);
    PairRoom(cap, words, b, c, r, t, TailOfQuestions(RawTail([]), m.questions));
    PatchAlike(reverse, cap, r, t, QUESTIONS_AT, value);
    CountState(reverse, cap, words, b, r, TailOfQuestions(RawTail([]), m.questions), QUESTIONS_AT, value);
    CountState(reverse, cap, words, c, t, TailOfQuestions(RawTail([]), m.questions), QUESTIONS_AT, value);
  }

  lemma PatchNames(reverse: bool, cap: nat, p: Packet, at: nat, value: nat)
    requires Fit(cap, p)
    ensures Patch(reverse, cap, p, at, value).names == p.names
  {
    PatchKeepsNames(reverse, cap, p, at, value);
  }

  lemma SpanOwns(lo: nat, hi: nat)
    ensures Owned(Span(lo, hi), lo, hi)
  {
  }

  lemma ClearedAlike(b: seq<byte>, c: seq<byte>)
    requires HEAD_LEN <= |b| == |c|
    ensures Twin(Cleared(b), Cleared(c))
  {
  }

  /** What the header and the questions leave. */
  lemma OpenedStates(reverse: bool, cap: nat, words: set<text>, b: seq<byte>, m: Message) returns (o: Packet)
    requires HEAD_LEN <= cap <= POINTER_SPACE && cap + SLACK <= |b| && SafeMessage(words, b, cap, m)
    ensures Fit(cap, Cleared(b)) && o == Opened(reverse, cap, Cleared(b), m)
    ensures State(cap, words, b, o, TailOfQuestions(RawTail([]), m.questions)) && ZerosFrom(o.b, ANSWERS_AT)
    ensures HEAD_LEN <= o.index <= HEAD_LEN + QuestionsSize(m.questions)
  {
    hide State, SafeQuestions, SafeRecords, RawCalm, TameWords, GoodQuestions, PutQuestions, QuestionsSize, RecordsSize,
         TailOfQuestions, TailOfRecords, AgreeBelow, Patch, ZerosFrom, U16Bytes, Span;
    var marks := Span(HEAD_LEN, MessageSize(m));
    SpanOwns(HEAD_LEN, MessageSize(m));
    StartState(reverse, cap, words, b, m.id, m.flags);
    var p1 := Patch(reverse, cap, Patch(reverse, cap, Cleared(b), FLAGS_AT, m.flags), ID_AT, m.id);
    QuestionsState(reverse, cap, words, b, marks, p1, RawTail([]), m.questions);
    var r := PutQuestions(reverse, cap, p1, m.questions);
    ZerosStay(p1.b, r.b, p1.index, QUESTIONS_AT);
    CountState(reverse, cap, words, b, r, TailOfQuestions(RawTail([]), m.questions), QUESTIONS_AT, |m.questions|);
    o := Opened(reverse, cap, Cleared(b), m);
  }

  /** Answers and authority records come out alike. */
  lemma ServersAlike(reverse: bool, cap: nat, words: set<text>, b: seq<byte>, c: seq<byte>, again: set<nat>, m: Message)
    requires HEAD_LEN <= cap <= POINTER_SPACE && cap + SLACK <= |b| == |c|
    requires SafeMessage(words, b, cap, m) && SafeParts(words, c, again, m)
    requires WithServers(reverse, cap, Cleared(b), m).names.Keys <= again
    ensures var p, q := WithServers(reverse, cap, Cleared(b), m), WithServers(reverse, cap, Cleared(c), m);
            var t2 := TailOfRecords(TailOfQuestions(RawTail([]), m.questions), m.answers);
            && Pair(cap, words, b, c, p, q, TailOfRecords(t2, m.servers))
            && ZerosFrom(p.b, ADDITIONAL_AT) && ZerosFrom(q.b, ADDITIONAL_AT)
            && HEAD_LEN <= p.index && p.index + RecordsSize(m.additional) <= MessageSize(m)
    ensures var o, q := Opened(reverse, cap, Cleared(b), m), Opened(reverse, cap, Cleared(c), m);
            && GoodRecords(reverse, cap, q, m.answers)
            && Starts(reverse, cap, q, m.answers) == Starts(reverse, cap, o, m.answers)
    ensures var o, q := WithAnswers(reverse, cap, Cleared(b), m), WithAnswers(reverse, cap, Cleared(c), m);
            && GoodRecords(reverse, cap, q, m.servers)
            && Starts(reverse, cap, q, m.servers) == Starts(reverse, cap, o, m.servers)
  {
    hide Pair, State, SafeQuestions, SafeRecords, RawCalm, TameWords, GoodRecords, PutSection, Opened, QuestionsSize,
         RecordsSize, TailOfQuestions, TailOfRecords, ZerosFrom, Cleared, U16Bytes, Twin, Span, Starts, GoodQuestions,
         PutQuestions, Patch;
    var marks := Span(HEAD_LEN, MessageSize(m));
    SpanOwns(HEAD_LEN, MessageSize(m));
    ClearedSize(b);
    ClearedSize(c);
    var t1 := TailOfQuestions(RawTail([]), m.questions);
    var t2 := TailOfRecords(t1, m.answers);
    var o := OpenedStates(reverse, cap, words, b, m);
    SectionState(reverse, cap, words, b, marks, o, t1, m.answers, ANSWERS_AT);
    SectionNames(reverse, cap, words, b, marks, o, t1, m.answers, ANSWERS_AT);
    var a := WithAnswers(reverse, cap, Cleared(b), m);
    SectionState(reverse, cap, words, b, marks, a, t2, m.servers, SERVERS_AT);
    SectionNames(reverse, cap, words, b, marks, a, t2, m.servers, SERVERS_AT);
    OpenedAlike(reverse, cap, words, b, c, again, m);
    SectionAlike(reverse, cap, words, b, c, marks, again, o, Opened(reverse, cap, Cleared(c), m), t1, m.answers,
                 ANSWERS_AT);
    SectionAlike(reverse, cap, words, b, c, marks, again, a, WithAnswers(reverse, cap, Cleared(c), m), t2, m.servers,
                 SERVERS_AT);
  }

  /** The names of the whole message include those in front of the additional records. */
  lemma ServersNames(reverse: bool, cap: nat, words: set<text>, b: seq<byte>, m: Message)
    requires HEAD_LEN <= cap <= POINTER_SPACE && cap + SLACK <= |b| && SafeMessage(words, b, cap, m)
    ensures Fit(cap, Cleared(b)) && Fit(cap, WithServers(reverse, cap, Cleared(b), m))
    ensures WithServers(reverse, cap, Cleared(b), m).names.Keys <= PutMessage(reverse, cap, Cleared(b), m).names.Keys
    ensures Opened(reverse, cap, Cleared(b), m).names.Keys <= WithServers(reverse, cap, Cleared(b), m).names.Keys
  {
    hide Pair, State, SafeQuestions, SafeRecords, RawCalm, TameWords, GoodRecords, PutSection, Opened, QuestionsSize,
         RecordsSize, TailOfQuestions, TailOfRecords, ZerosFrom, Cleared, U16Bytes, Twin, Span, Starts, GoodQuestions,
         PutQuestions, Patch;
    var marks := Span(HEAD_LEN, MessageSize(m));
    SpanOwns(HEAD_LEN, MessageSize(m));
    ClearedSize(b);
    var t1 := TailOfQuestions(RawTail([]), m.questions);
    var t2 := TailOfRecords(t1, m.answers);
    var o := OpenedStates(reverse, cap, words, b, m);
    SectionState(reverse, cap, words, b, marks, o, t1, m.answers, ANSWERS_AT);
    SectionNames(reverse, cap, words, b, marks, o, t1, m.answers, ANSWERS_AT);
    var a := WithAnswers(reverse, cap, Cleared(b), m);
    SectionState(reverse, cap, words, b, marks, a, t2, m.servers, SERVERS_AT);
    SectionNames(reverse, cap, words, b, marks, a, t2, m.servers, SERVERS_AT);
    var v := WithServers(reverse, cap, Cleared(b), m);
    SectionNames(reverse, cap, words, b, marks, v, TailOfRecords(t2, m.servers), m.additional, ADDITIONAL_AT);
  }

  /**
   A message that is safe over one buffer and whose parts are safe over another, with names that
   begin where the first ones do: every name is recorded there too, and the same bytes come out.
   */
  lemma {:induction false} MessageAlike(reverse: bool, cap: nat, words: set<text>, b: seq<byte>, c: seq<byte>,
                                        again: set<nat>, m: Message)
    requires HEAD_LEN <= cap <= POINTER_SPACE && cap + SLACK <= |b| == |c|
    requires SafeMessage(words, b, cap, m) && SafeParts(words, c, again, m)
    requires PutMessage(reverse, cap, Cleared(b), m).names.Keys <= again
    ensures GoodMessage(reverse, cap, Cleared(c), m)
    ensures Twin(PutMessage(reverse, cap, Cleared(b), m), PutMessage(reverse, cap, Cleared(c), m))
    ensures MessageStarts(reverse, cap, Cleared(c), m) == MessageStarts(reverse, cap, Cleared(b), m)
  {
    hide Pair, State, SafeQuestions, SafeRecords, RawCalm, TameWords, GoodQuestions, GoodRecords, PutSection, Opened,
         QuestionsSize, RecordsSize, TailOfQuestions, TailOfRecords, Patch, ZerosFrom, Cleared, U16Bytes, Twin, Span,
         Starts, WithAnswers, WithServers;
    var marks := Span(HEAD_LEN, MessageSize(m));
    SpanOwns(HEAD_LEN, MessageSize(m));
    ClearedSize(b);
    ClearedSize(c);
    var t2 := TailOfRecords(TailOfQuestions(RawTail([]), m.questions), m.answers);
    ServersNames(reverse, cap, words, b, m);
    OpenedAlike(reverse, cap, words, b, c, again, m);
    ServersAlike(reverse, cap, words, b, c, again, m);
    SectionAlike(reverse, cap, words, b, c, marks, again, WithServers(reverse, cap, Cleared(b), m),
                 WithServers(reverse, cap, Cleared(c), m), TailOfRecords(t2, m.servers), m.additional, ADDITIONAL_AT);
  }

  // ----- the same message again -----

  lemma ReadsFirst(b: seq<byte>, pos: nat, t: seq<byte>)
    requires ReadsAt(b, pos, t) && t != []
    ensures b[pos] == t[0]
  {
    assert b[pos] == b[pos..pos + |t|][0];
  }

  /** Where such bytes stand the buffer completes no label. */
  lemma NothingCompleted(words: set<text>, c: seq<byte>, again: set<nat>, tail: Tail, s: text)
    requires TameWords(words) && s in words && forall n | n in again :: n < |c| && NoChar(words, c[n])
    ensures Seam(c, again, tail, s)
  {
    forall n, j: nat | n in again && j < |s|
      ensures !ReadsAt(c, n, s[j..])
    {
      if ReadsAt(c, n, s[j..]) {
        ReadsFirst(c, n, s[j..]);
      }
    }
    assert s[0..] == s;
    WordIsLong(words, s);
  }

  lemma {:induction false} QuestionsAgain(words: set<text>, b: seq<byte>, marks: set<nat>, c: seq<byte>,
                                          again: set<nat>, tail: Tail, qs: seq<Question>)
    requires TameWords(words) && forall n | n in again :: n < |c| && NoChar(words, c[n])
    requires SafeQuestions(words, b, marks, tail, qs)
    ensures SafeQuestions(words, c, again, tail, qs)
    decreases |qs|
  {
    hide Seam, RawCalm, TameWords, NoChar;
    if qs != [] {
      NothingCompleted(words, c, again, tail, qs[0].names[0]);
      QuestionsAgain(words, b, marks, c, again, RawTail(qs[0].fields), qs[1..]);
    }
  }

  lemma {:induction false} RecordsAgain(words: set<text>, b: seq<byte>, marks: set<nat>, c: seq<byte>,
                                        again: set<nat>, tail: Tail, recs: seq<Rec>)
    requires TameWords(words) && forall n | n in again :: n < |c| && NoChar(words, c[n])
    requires SafeRecords(words, b, marks, tail, recs)
    ensures SafeRecords(words, c, again, tail, recs)
    decreases |recs|
  {
    hide Seam, RawCalm, TameWords, NoChar, RawBytes, Shaped, LastNames, EndsRaw, TailOf;
    if recs != [] {
      var rec := recs[0];
      NothingCompleted(words, c, again, tail, rec.owner[0]);
      if !EndsRaw(rec) {
        NothingCompleted(words, c, again, RawTail(RawBytes(rec)), LastNames(rec)[0]);
      }
      RecordsAgain(words, b, marks, c, again, TailOf(rec), recs[1..]);
    }
  }

  /** Over the bytes of the message itself its parts are safe, with names that begin where they did. */
  lemma {:induction false} SafeOverItself(reverse: bool, cap: nat, words: set<text>, b: seq<byte>, m: Message)
    requires HEAD_LEN <= cap <= POINTER_SPACE && cap + SLACK <= |b| && SafeMessage(words, b, cap, m)
    ensures Fit(cap, Cleared(b))
    ensures var q := PutMessage(reverse, cap, Cleared(b), m); SafeParts(words, q.b, q.names.Keys, m)
    ensures PutMessage(reverse, cap, Cleared(b), m).names.Keys <= Span(HEAD_LEN, MessageSize(m))
  {
    hide State, SafeQuestions, SafeRecords, RawCalm, TameWords, GoodRecords, Opened, Step, NoChar, AgreeBelow,
         QuestionsSize, RecordsSize, TailOfQuestions, TailOfRecords, ZerosFrom, Cleared, U16Bytes, Span, PutAll;
    var marks, size := Span(HEAD_LEN, MessageSize(m)), MessageSize(m);
    SpanOwns(HEAD_LEN, size);
    var t1 := TailOfQuestions(RawTail([]), m.questions);
    var t2 := TailOfRecords(t1, m.answers);
    var t3 := TailOfRecords(t2, m.servers);
    var o := OpenedStates(reverse, cap, words, b, m);
    var a := WithAnswers(reverse, cap, Cleared(b), m);
    SectionState(reverse, cap, words, b, marks, o, t1, m.answers, ANSWERS_AT);
    SectionState(reverse, cap, words, b, marks, a, t2, m.servers, SERVERS_AT);
    var v := WithServers(reverse, cap, Cleared(b), m);
    RecordsState(reverse, cap, words, b, marks, v, t3, m.additional);
    var r, q := PutAll(reverse, cap, v, m.additional), PutMessage(reverse, cap, Cleared(b), m);
    PatchNames(reverse, cap, r, ADDITIONAL_AT, |m.additional| % 256);
    StepWrites(reverse, cap, r, SetU16(ADDITIONAL_AT, |m.additional| % 256));
    forall n | n in q.names.Keys
      ensures n < |q.b| && NoChar(words, q.b[n]) && n in marks
    {
      NameBegins(cap, words, b, r, TailOfRecords(t3, m.additional), n);
    }
    QuestionsAgain(words, b, marks, q.b, q.names.Keys, RawTail([]), m.questions);
    RecordsAgain(words, b, marks, q.b, q.names.Keys, t1, m.answers);
    RecordsAgain(words, b, marks, q.b, q.names.Keys, t2, m.servers);
    RecordsAgain(words, b, marks, q.b, q.names.Keys, t3, m.additional);
  }

  lemma SafeHasRoom(words: set<text>, b: seq<byte>, cap: nat, m: Message)
    requires SafeMessage(words, b, cap, m)
    ensures MessageSize(m) < cap
  {
    hide SafeParts, TameWords, RawCalm;
  }

  /**
   A safe message that is sent again over the buffer that it left goes out with the same bytes, and
   the parser's walk visits the same records and comes to the end.
   */
  lemma {:induction false} SentAgainIsParsed(reverse: bool, cap: nat, words: set<text>, b: seq<byte>, m: Outgoing)
    requires HEAD_LEN <= cap <= POINTER_SPACE && cap + SLACK <= |b| && SafeMessage(words, b, cap, MessageOf(m))
    ensures Fit(cap, Cleared(b))
    ensures var q := Sent(reverse, cap, Cleared(b), m);
            && Fit(cap, Cleared(q.b))
            && var r := Sent(reverse, cap, Cleared(q.b), m);
               && r.index == q.index && r.names == q.names && r.b[..r.index] == q.b[..q.index]
               && WalkMessage(reverse, r.b, r.index) == WalkMessage(reverse, q.b, q.index)
               && WalkMessage(reverse, r.b, r.index)
                  == Walked(MessageStarts(reverse, cap, Cleared(b), MessageOf(m)), true)
  {
    hide GoodMessage, PutMessage, MessageStarts, WalkMessage, Sent, Cleared, MessageOf, MessageSize, SafeMessage,
         SafeParts;
    ClearedSize(b);
    SafeHasRoom(words, b, cap, MessageOf(m));
    SafeMessageIsParsed(reverse, cap, words, b, m);
    SafeMessageIsGood(reverse, cap, words, b, MessageOf(m));
    SafeOverItself(reverse, cap, words, b, MessageOf(m));
    var q := Sent(reverse, cap, Cleared(b), m);
    ClearedSize(q.b);
    MessageAlike(reverse, cap, words, b, q.b, q.names.Keys, MessageOf(m));
    DispatchedIsParsed(reverse, cap, q.b, m);
  }

  lemma SafeIsParts(words: set<text>, b: seq<byte>, cap: nat, m: Message)
    requires SafeMessage(words, b, cap, m)
    ensures SafeParts(words, b, Span(HEAD_LEN, MessageSize(m)), m)
  {
    hide SafeParts, TameWords, RawCalm;
  }

  lemma TwinBytes(p: Packet, q: Packet)
    requires Twin(p, q) && p.index <= |p.b|
    ensures q.index == p.index && q.names == p.names && |q.b| == |p.b| && q.b[..q.index] == p.b[..p.index]
  {
  }

  /** What goes out does not depend on what the buffer held, as long as the message is safe over it. */
  lemma {:induction false} SameFromEveryBuffer(reverse: bool, cap: nat, words: set<text>, b: seq<byte>, c: seq<byte>,
                                               m: Outgoing)
    requires HEAD_LEN <= cap <= POINTER_SPACE && cap + SLACK <= |b| == |c|
    requires SafeMessage(words, b, cap, MessageOf(m)) && SafeMessage(words, c, cap, MessageOf(m))
    ensures Fit(cap, Cleared(b)) && Fit(cap, Cleared(c))
    ensures var q, r := Sent(reverse, cap, Cleared(b), m), Sent(reverse, cap, Cleared(c), m);
            r.index == q.index && r.names == q.names && r.b[..r.index] == q.b[..q.index]
  {
    hide GoodMessage, PutMessage, WalkMessage, Sent, Cleared, MessageOf, MessageSize, SafeMessage, SafeParts, Span,
         Twin, MessageStarts;
    SafeIsParts(words, c, cap, MessageOf(m));
    ClearedSize(b);
    ClearedSize(c);
    SafeMessageIsParsed(reverse, cap, words, b, m);
    SafeMessageIsParsed(reverse, cap, words, c, m);
    SafeOverItself(reverse, cap, words, b, MessageOf(m));
    MessageAlike(reverse, cap, words, b, c, Span(HEAD_LEN, MessageSize(MessageOf(m))), MessageOf(m));
    TwinBytes(Sent(reverse, cap, Cleared(b), m), Sent(reverse, cap, Cleared(c), m));
  }

  // ----- a name behind another name, over any bytes -----

  /** A pointer to the byte in front of it never means a label that begins with an ordinary byte. */
  lemma PointsBeforeItself(b: seq<byte>, own: set<nat>, index: nat, end: nat, strings: seq<text>)
    requires 0 < index && index + 2 <= |b| && index - 1 < POINTER_SPACE && b[index..index + 2] == RefBytes(index - 1)
    requires 1 <= b[index - 1] <= MAX_LABEL && strings != [] && strings[0] != [] && strings[0][0] < REF
    ensures !Conveys(b, own, index, index, end, strings)
  {
    RefBytesPointBack(index - 1);
    assert b[index] == b[index..index + 2][0] && b[index + 1] == b[index..index + 2][1];
    var d := Labels(b, own, index - 1, index - 1);
    if d.Decoded? {
      FirstLabel(b, own, index - 1, index - 1);
      assert d.labels[0][0] == b[index] >= REF;
      assert SameText(d.labels[0], strings[0]) ==> Lower(d.labels[0][0]) == Lower(strings[0][0]);
    }
  }

  /** A match in front of the last byte of a name is inside a recorded name. */
  lemma SeamTarget(reverse: bool, cap: nat, words: set<text>, b0: seq<byte>, p: Packet, strings: seq<text>, at: nat)
    requires State(cap, words, b0, p, NameTail) && From(strings, words) && strings != [] && Fit(cap, p)
    requires at < p.index && at != p.index - 1 && at < cap && Matches(reverse, p.b, cap, at, strings)
    ensures GoodTarget(p.b, p.own, at) && Tight(p.b, p.own, at, at)
  {
    hide Labels, Inside, GoodTarget, Tight, Spelled, Begun, Stands, Matches, State, Hangs, TameNames, Tame;
    StateParts(cap, words, b0, p, NameTail);
    WordsAreTame(words, strings);
    NamesAreTame(p, words, strings);
    TameIsWritable(strings);
    NothingBegun(p, strings);
    MatchStands(reverse, p.b, cap, at, strings);
    FirstByte(p.b, at, strings[0]);
    if at + 1 + |strings[0]| > p.index {
      StandsCrossing(p.b, at, strings[0], p.index);
      HangsAtEnd(cap, words, b0, p, at, strings[0]);
    }
    StandsInNames(cap, words, b0, p, NameTail, strings, 0, at);
    InsideIsGood(p, cap, at, strings, 0);
  }

  /** A name that is found nowhere as a whole is recorded. */
  lemma SeamRest(reverse: bool, cap: nat, words: set<text>, b0: seq<byte>, p: Packet, strings: seq<text>)
    requires State(cap, words, b0, p, NameTail) && GoodWords(words, strings) && p.index + WireLength(strings) <= cap
    requires Fit(cap, p) && Search(reverse, p.b, p.index, cap, strings, 0).Nowhere?
    requires !Append(reverse, p.b, p.index, cap, strings).stop.Full?
    ensures Recordable(p, Append(reverse, p.b, p.index, cap, strings))
  {
    hide Append, Labels, Inside, GoodTarget, Tight, Spelled, Begun, Stands, Search, Matches, State, WireLength, Hangs,
         InDomain, TameNames, Tame;
    StateParts(cap, words, b0, p, NameTail);
    WordsAreTame(words, strings);
    NamesAreTame(p, words, strings);
    TameIsWritable(strings);
    var o := Append(reverse, p.b, p.index, cap, strings);
    var b1 := FirstIsWritten(reverse, cap, p, strings);
    var m := TargetStands(reverse, cap, p, strings, 1);
    if o.stop.Ref? {
      StandsInNames(cap, words, b0, p, NameTail, strings, m, o.stop.at);
      InsideIsGood(p, cap, o.stop.at, strings, m);
    }
  }

  /** Behind a name, the old bytes can only make the search stop at the last byte of that name. */
  lemma SeamIsSound(reverse: bool, cap: nat, words: set<text>, b0: seq<byte>, p: Packet, strings: seq<text>)
    requires State(cap, words, b0, p, NameTail) && GoodWords(words, strings) && p.index + WireLength(strings) <= cap
    requires Fit(cap, p) && Search(reverse, p.b, p.index, cap, strings, 0) != At(p.index - 1)
    ensures GoodName(reverse, cap, p, strings)
  {
    hide Append, GoodTarget, Tight, Search, Matches, State, WireLength, Tame;
    StateParts(cap, words, b0, p, NameTail);
    WordsAreTame(words, strings);
    TameIsWritable(strings);
    HasRoom(reverse, cap, p.b, p.index, strings);
    if Search(reverse, p.b, p.index, cap, strings, 0).At? {
      AppendPointer(reverse, p.b, p.index, cap, strings);
      SeamTarget(reverse, cap, words, b0, p, strings, Search(reverse, p.b, p.index, cap, strings, 0).at);
    } else {
      SeamRest(reverse, cap, words, b0, p, strings);
    }
  }

  lemma StateParts(cap: nat, words: set<text>, b0: seq<byte>, p: Packet, tail: Tail)
    requires State(cap, words, b0, p, tail)
    ensures Inv(p, cap) && TameWords(words) && NamesLack(p, words)
  {
  }

  lemma HangsAtEnd(cap: nat, words: set<text>, b0: seq<byte>, p: Packet, at: nat, s: text)
    requires State(cap, words, b0, p, NameTail) && s in words && Hangs(p.b, at, s, p.index)
    ensures at == p.index - 1 && IsLowByte(|s|, p.index)
  {
  }

  /**
   A name behind another name, whatever the buffer holds: it conveys its labels unless the search
   stops at the last byte in front of it. That byte is then the low byte of a pointer and the
   length of the first label, and the old bytes of the buffer spell the label behind it.
   */
  lemma {:induction false} SeamExact(reverse: bool, cap: nat, words: set<text>, b0: seq<byte>, p: Packet,
                                     strings: seq<text>)
    requires State(cap, words, b0, p, NameTail) && GoodWords(words, strings) && p.index + WireLength(strings) <= cap
    ensures Fit(cap, p)
    ensures var o := Append(reverse, p.b, p.index, cap, strings);
            (Conveys(o.b, p.own + Span(p.index, o.index), p.index, p.index, o.index, strings)
             <==> Search(reverse, p.b, p.index, cap, strings, 0) != At(p.index - 1))
    ensures Search(reverse, p.b, p.index, cap, strings, 0) == At(p.index - 1)
            ==> IsLowByte(|strings[0]|, p.index) && p.b[p.index - 1] == |strings[0]|
                && ReadsAt(b0, p.index, strings[0])
  {
    hide Append, Labels, GoodTarget, Tight, Stands, Search, Matches, State, WireLength, Hangs, InDomain, TameNames,
         Tame, NameHolds;
    StateRoom(cap, words, b0, p, NameTail);
    StateStart(cap, words, b0, p, NameTail);
    var o := Append(reverse, p.b, p.index, cap, strings);
    if Search(reverse, p.b, p.index, cap, strings, 0) == At(p.index - 1) {
      var s := strings[0];
      SeamWord(cap, words, b0, p, s);
      MatchStands(reverse, p.b, cap, p.index - 1, strings);
      FirstByte(p.b, p.index - 1, s);
      StandsCrossing(p.b, p.index - 1, s, p.index);
      HangsAtEnd(cap, words, b0, p, p.index - 1, s);
      assert s[0..] == s;
      SeamOld(cap, words, b0, p, s);
      SeamRoom(reverse, cap, words, b0, p, strings);
      AppendPointer(reverse, p.b, p.index, cap, strings);
      assert o.b[p.index..p.index + 2] == RefBytes(p.index - 1);
      PointsBeforeItself(o.b, p.own + Span(p.index, o.index), p.index, o.index, strings);
    } else {
      SeamIsSound(reverse, cap, words, b0, p, strings);
      AppendDecodes(reverse, p.b, p.own, p.own + Span(p.index, o.index), p.index, p.index, cap, strings, o);
    }
  }

  lemma SeamWord(cap: nat, words: set<text>, b0: seq<byte>, p: Packet, s: text)
    requires State(cap, words, b0, p, NameTail) && s in words
    ensures 1 <= |s| <= MAX_LABEL && s[0] < REF && HEAD_LEN <= p.index
  {
    hide Calm, NamesLack, EndsWith, Stale, NameHolds;
  }

  lemma SeamOld(cap: nat, words: set<text>, b0: seq<byte>, p: Packet, s: text)
    requires State(cap, words, b0, p, NameTail) && ReadsAt(p.b, p.index, s)
    ensures ReadsAt(b0, p.index, s)
  {
    hide Calm, NamesLack, EndsWith, NameHolds;
    OldBytes(p, b0, s);
  }

  lemma SeamRoom(reverse: bool, cap: nat, words: set<text>, b0: seq<byte>, p: Packet, strings: seq<text>)
    requires State(cap, words, b0, p, NameTail) && GoodWords(words, strings) && p.index + WireLength(strings) <= cap
    ensures Fit(cap, p) && !Append(reverse, p.b, p.index, cap, strings).stop.Full?
  {
    hide Append, State, InDomain, WireLength, AllDifferent;
    StateRoom(cap, words, b0, p, NameTail);
    StateParts(cap, words, b0, p, NameTail);
    HasRoom(reverse, cap, p.b, p.index, strings);
  }

  // ----- an input -----

  /** "_twelvebytes", a label of twelve bytes. */
  const TWELVE: text := [95, 116, 119, 101, 108, 118, 101, 98, 121, 116, 101, 115]

  /** Header and the label "_b"; and, behind the type, the rest of the PTR record of "lamp". */
  const RENAMED_HEAD: seq<byte> := [0, 0, 132, 0, 0, 0, 0, 0, 0, 0, 0, 0, 2, 95, 98]
  const RENAMED_TAIL: seq<byte> := [0, 0, 12, 0, 1, 0, 0, 17, 148, 0, 7, 4, 108, 97, 109, 112, 192, 12]

  /** Header and PTR record of "lamp._b._udp.local": the record ends with a pointer to offset 12. */
  const RENAMED: seq<byte> := RENAMED_HEAD + ([|UDP|] + UDP) + ([|LOCAL|] + LOCAL) + RENAMED_TAIL

  /**
   The service was called "lam" when the packet went out before, and "_twelvebytes._udp.local" stood
   behind its record: a label of twelve bytes, and a pointer to "_udp.local".
   */
  const STALE: seq<byte> := RENAMED + TWELVE + [192, 15]

  lemma RenamedLabels()
    ensures |RENAMED| == 44 && RENAMED[43] == 12 && RENAMED[26] == 0
    ensures RENAMED[15..20] == [|UDP|] + UDP && RENAMED[20..26] == [|LOCAL|] + LOCAL
  {
    assert |RENAMED_HEAD| == 15 && |[|UDP|] + UDP| == 5 && |[|LOCAL|] + LOCAL| == 6 && |RENAMED_TAIL| == 18;
  }

  lemma StaleBytesAre(b: seq<byte>)
    requires 58 <= |b| && b[..58] == STALE
    ensures b[..44] == RENAMED && b[44..56] == TWELVE && b[56] == 192 && b[57] == 15
  {
    assert |RENAMED| == 44 && |TWELVE| == 12;
    assert STALE[..44] == RENAMED && STALE[44..56] == TWELVE;
    assert b[..44] == b[..58][..44] && b[44..56] == b[..58][44..56];
    assert b[56] == STALE[56] && b[57] == STALE[57];
  }

  lemma StaleLabels(b: seq<byte>)
    requires 58 <= |b| && b[..58] == STALE
    ensures b[15..20] == [|UDP|] + UDP && b[20..26] == [|LOCAL|] + LOCAL && b[26] == 0
    ensures b[43..56] == [|TWELVE|] + TWELVE && b[56..58] == RefBytes(15)
  {
    hide RENAMED, STALE;
    StaleBytesAre(b);
    RenamedLabels();
    var front := b[..44];
    assert b[15..20] == front[15..20] && b[20..26] == front[20..26] && b[26] == front[26] && b[43] == front[43];
    assert b[43..56] == [b[43]] + b[44..56];
  }

  /** What the old bytes mean, read from the low byte of the pointer on. */
  lemma StaleBytesMean(b: seq<byte>)
    requires 58 <= |b| && b[..58] == STALE
    ensures Labels(b, Span(0, 58), 43, 43) == Decoded([TWELVE, UDP, LOCAL], 58, true)
    ensures Stands(b, 43, TWELVE)
  {
    hide Labels, Span, STALE, RENAMED, Stands, RefBytes;
    StaleLabels(b);
    var own := Span(0, 58);
    RootDecodes(b, own, 15, 26);
    LiteralDecodes(b, own, 15, 20, LOCAL);
    LiteralDecodes(b, own, 15, 15, UDP);
    assert [UDP] + ([LOCAL] + []) == [UDP, LOCAL];
    PointerDecodes(b, own, 43, 56, 15);
    LiteralDecodes(b, own, 43, 43, TWELVE);
    assert [TWELVE] + [UDP, LOCAL] == [TWELVE, UDP, LOCAL];
    LabelStandsThere(b, 43, TWELVE);
  }

  /**
   Behind the PTR record the name that stood there before, one byte earlier, is taken for its own
   predecessor: the writer points to the low byte of the pointer in front of it, and writes over what it
   points to. No reader gets the name back.
   */
  lemma {:induction false} RenamedIsMisled(reverse: bool, cap: nat, b: seq<byte>)
    requires 256 <= cap <= POINTER_SPACE && cap + SLACK <= |b| && b[..58] == STALE
    ensures var names := [TWELVE, UDP, LOCAL];
            var o := Append(reverse, b, 44, cap, names);
            && o.stop == Ref(43)
            && forall own, end :: !Conveys(o.b, own, 44, 44, end, names)
  {
    hide Labels, Span, Matches, Search, Append, Stands, Conveys, STALE;
    var names := [TWELVE, UDP, LOCAL];
    StaleBytesMean(b);
    SameItself(TWELVE);
    SameItself(UDP);
    SameItself(LOCAL);
    StaleShape();
    MeantIsFound(reverse, b, Span(0, 58), cap, 43, names);
    forall at | 0 <= at < 43
      ensures !Matches(reverse, b, cap, at, names)
    {
      if Matches(reverse, b, cap, at, names) {
        MatchStands(reverse, b, cap, at, names);
        NotEarlier(b, at);
      }
    }
    SearchReaches(reverse, b, 44, cap, names, 0, 43);
    HasRoom(reverse, cap, b, 44, names);
    AppendPointer(reverse, b, 44, cap, names);
    var c := Append(reverse, b, 44, cap, names).b;
    assert c[44..46] == RefBytes(43);
    FirstByte(b, 43, TWELVE);
    forall own, end
      ensures !Conveys(c, own, 44, 44, end, names)
    {
      PointsBeforeItself(c, own, 44, end, names);
    }
  }

  lemma NotEarlier(b: seq<byte>, at: nat)
    requires 58 <= |b| && b[..58] == STALE && at < 43
    ensures !Stands(b, at, TWELVE)
  {
    StaleBytesAre(b);
    if Stands(b, at, TWELVE) {
      var front := b[..44];
      assert b[at] == front[at] == 12 && front[at + 1] == b[at + 1] == b[at + 1..at + 13][0] == 95;
      OnlyTwelveIsAType(at);
    }
  }

  lemma OnlyTwelveIsAType(at: nat)
    requires at < 43 && RENAMED[at] == 12
    ensures RENAMED[at + 1] == 0
  {
  }

  lemma StaleShape()
    ensures NameShape([TWELVE, UDP, LOCAL]) && WireLength([TWELVE, UDP, LOCAL]) <= 100
  {
    assert [TWELVE, UDP, LOCAL][1..] == [UDP, LOCAL] && [UDP, LOCAL][1..] == [LOCAL] && [LOCAL][1..] == [];
    assert WireLength([UDP, LOCAL]) == 1 + |UDP| + WireLength([LOCAL]);
    assert Lower(UDP[1]) != Lower(SUB[1]);
  }
}
