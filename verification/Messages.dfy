/**
 Whole messages: the header with its four counts, questions and three sections of records, and
 the parser's walk over them. The walk over what was written finds exactly what was written.
 */
module Messages {
  import opened Bytes
  import opened FqdnReader
  import opened FqdnWriter
  import opened FqdnHistory
  import opened FqdnSlots
  import opened Records

  // Offsets in the header of a message (section 4.1.1 of RFC 1035).
  const HEAD_LEN: nat := 12
  const ID_AT: nat := 0
  const FLAGS_AT: nat := 2
  const QUESTIONS_AT: nat := 4
  const ANSWERS_AT: nat := 6
  const SERVERS_AT: nat := 8
  const ADDITIONAL_AT: nat := 10

  // ----- the parser's walk -----

  /** Where the records start that the parser's loop reaches, and whether it came to the end of the packet. */
  datatype Walked = Walked(starts: seq<nat>, complete: bool)

  /** The offset behind the record at pos; None if its name, its header or its data does not fit. */
  datatype Next = None | Behind(at: nat)

  function NextRecord(reverse: bool, b: seq<byte>, limit: nat, pos: nat): (n: Next)
    requires limit < |b|
    ensures n.Behind? ==> pos < n.at <= limit
  {
    match ReadFrom(reverse, b, limit, pos, pos, EMPTY_NAME)
    case Failed => None
    case Parsed(end, _) =>
      if end + LEN_OFFSET + 1 >= limit then None
      else
        var at := end + DATA_OFFSET + U16At(b, end + LEN_OFFSET);
        if at > limit then None else Behind(at)
  }

  function Walk(reverse: bool, b: seq<byte>, limit: nat, pos: nat): Walked
    requires limit < |b|
    decreases limit - pos
  {
    if pos >= limit then Walked([], true)
    else
      match NextRecord(reverse, b, limit, pos)
      case None => Walked([], false)
      case Behind(at) =>
        var rest := Walk(reverse, b, limit, at);
        Walked([pos] + rest.starts, rest.complete)
  }

  lemma WalkTurns(reverse: bool, b: seq<byte>, limit: nat, pos: nat)
    requires limit < |b| && pos < limit
    ensures Walk(reverse, b, limit, pos)
         == match NextRecord(reverse, b, limit, pos)
            case None => Walked([], false)
            case Behind(at) => Walked([pos] + Walk(reverse, b, limit, at).starts, Walk(reverse, b, limit, at).complete)
  {
    hide NextRecord;
  }

  /** Name, header and length of one record. */
  method StepRecord(reverse: bool, packet: array<byte>, limit: nat, pos: nat) returns (n: Next)
    requires limit < packet.Length
    ensures n == NextRecord(reverse, packet[..], limit, pos)
  {
    hide ReadFrom;
    var name := ParseFqdn(reverse, packet, limit, pos);
    if name.Rejected? || name.end + LEN_OFFSET + 1 >= limit {
      return None;
    }
    var hi: nat, lo: nat := packet[name.end + LEN_OFFSET], packet[name.end + LEN_OFFSET + 1];
    var at := name.end + DATA_OFFSET + (hi * 256 + lo);
    return if at > limit then None else Behind(at);
  }

  /** The parser's record loop, without what it does with each record. */
  method WalkRecords(reverse: bool, packet: array<byte>, limit: nat, start: nat) returns (w: Walked)
    requires limit < packet.Length
    ensures w == Walk(reverse, packet[..], limit, start)
  {
    hide NextRecord, Walk;
    ghost var b := packet[..];
    var content: nat, starts: seq<nat> := start, [];
    while content < limit
      invariant Walk(reverse, b, limit, start)
             == Walked(starts + Walk(reverse, b, limit, content).starts, Walk(reverse, b, limit, content).complete)
      decreases limit - content
    {
      WalkTurns(reverse, b, limit, content);
      var next := StepRecord(reverse, packet, limit, content);
      if next.None? {
        return Walked(starts, false);
      }
      starts := starts + [content];
      content := next.at;
    }
    WalkEnds(reverse, b, limit, content);
    return Walked(starts, true);
  }

  lemma WalkEnds(reverse: bool, b: seq<byte>, limit: nat, pos: nat)
    requires limit < |b| && pos >= limit
    ensures Walk(reverse, b, limit, pos) == Walked([], true)
  {
  }

  /** At a framed record the loop goes on exactly where the record ends. */
  lemma FramedIsStepped(reverse: bool, cap: nat, q: Packet, s: nat, e: nat)
    requires Inv(q, cap) && Framed(q, s, e)
    ensures NextRecord(reverse, q.b, q.index, s) == Behind(e)
  {
    hide ReadFrom, Labels, NameHolds, View;
    ReaderSeesLabels(reverse, q.b, q.own, q.index, s, s, EMPTY_NAME);
  }

  /** The offset behind the question at pos: a name and four bytes. */
  function NextQuestion(reverse: bool, b: seq<byte>, limit: nat, pos: nat): (n: Next)
    requires limit < |b|
    ensures n.Behind? ==> pos < n.at <= limit
  {
    match ReadFrom(reverse, b, limit, pos, pos, EMPTY_NAME)
    case Failed => None
    case Parsed(end, _) => if end + 3 >= limit then None else Behind(end + 4)
  }

  /** The offset behind n questions. */
  function SkipQuestions(reverse: bool, b: seq<byte>, limit: nat, pos: nat, n: nat): Next
    requires limit < |b|
    decreases n
  {
    if n == 0 then Behind(pos)
    else
      match NextQuestion(reverse, b, limit, pos)
      case None => None
      case Behind(at) => SkipQuestions(reverse, b, limit, at, n - 1)
  }

  datatype Section = AnswerSection | ServerSection | AdditionalSection

  /** What the parser takes a record for, by its number and the counts in the header. */
  function SectionOf(b: seq<byte>, k: nat): Section
    requires HEAD_LEN <= |b|
  {
    if k >= U16At(b, ANSWERS_AT) + U16At(b, SERVERS_AT) then AdditionalSection
    else if k >= U16At(b, ANSWERS_AT) then ServerSection
    else AnswerSection
  }

  predicate NoRecords(b: seq<byte>)
    requires HEAD_LEN <= |b|
  {
    U16At(b, ANSWERS_AT) == 0 && U16At(b, SERVERS_AT) == 0 && U16At(b, ADDITIONAL_AT) == 0
  }

  /** The whole walk: the counted questions, then, if any records are counted, every record up to the end. */
  function WalkMessage(reverse: bool, b: seq<byte>, limit: nat): Walked
    requires limit < |b|
  {
    if limit <= ADDITIONAL_AT then Walked([], false)
    else
      match SkipQuestions(reverse, b, limit, HEAD_LEN, U16At(b, QUESTIONS_AT) % 256)
      case None => Walked([], false)
      case Behind(at) => if NoRecords(b) then Walked([], true) else Walk(reverse, b, limit, at)
  }

  method StepQuestion(reverse: bool, packet: array<byte>, limit: nat, pos: nat) returns (n: Next)
    requires limit < packet.Length
    ensures n == NextQuestion(reverse, packet[..], limit, pos)
  {
    hide ReadFrom;
    var name := ParseFqdn(reverse, packet, limit, pos);
    if name.Rejected? || name.end + 3 >= limit {
      return None;
    }
    return Behind(name.end + 4);
  }

  method FieldAt(packet: array<byte>, at: nat) returns (v: nat)
    requires at + 2 <= packet.Length
    ensures v == U16At(packet[..], at)
  {
    var hi: nat, lo: nat := packet[at], packet[at + 1];
    v := hi * 256 + lo;
  }

  /** The parser's two loops, without what it does with each question and record. */
  method ParseMessage(reverse: bool, packet: array<byte>, limit: nat) returns (w: Walked)
    requires limit < packet.Length
    ensures w == WalkMessage(reverse, packet[..], limit)
  {
    hide NextQuestion, Walk, U16At;
    ghost var b := packet[..];
    if limit <= ADDITIONAL_AT {
      return Walked([], false);
    }
    var questions := FieldAt(packet, QUESTIONS_AT);
    var answers := FieldAt(packet, ANSWERS_AT);
    var servers := FieldAt(packet, SERVERS_AT);
    var additional := FieldAt(packet, ADDITIONAL_AT);
    var content, qs := HEAD_LEN, questions % 256;
    ghost var goal := SkipQuestions(reverse, b, limit, HEAD_LEN, qs);
    while qs > 0
      invariant SkipQuestions(reverse, b, limit, content, qs) == goal
    {
      qs := qs - 1;
      var next := StepQuestion(reverse, packet, limit, content);
      if next.None? {
        return Walked([], false);
      }
      content := next.at;
    }
    if answers == 0 && servers == 0 && additional == 0 {
      return Walked([], true);
    }
    w := WalkRecords(reverse, packet, limit, content);
  }

  /**
   The walk takes a record behind a name that decodes if and only if ten bytes and the data fit in front of the limit,
   and goes on behind the data; a record whose header or data reach past it ends the walk, incomplete.
   */
  lemma {:induction false} WalkStopsAtTruncated(reverse: bool, b: seq<byte>, own: set<nat>, limit: nat, pos: nat)
    requires limit < |b| && pos < limit && (forall j | j in own :: j < limit) && Labels(b, own, pos, pos).Decoded?
    ensures var end := Labels(b, own, pos, pos).end;
            var whole := end + 10 <= limit && end + 10 + U16At(b, end + 8) <= limit;
            && (whole ==> NextRecord(reverse, b, limit, pos) == Behind(end + 10 + U16At(b, end + 8)))
            && (!whole ==> Walk(reverse, b, limit, pos) == Walked([], false))
    ensures var end := Labels(b, own, pos, pos).end;
            NextQuestion(reverse, b, limit, pos) == if end + 4 <= limit then Behind(end + 4) else None
  {
    hide ReadFrom, Labels, View;
    ReaderSeesLabels(reverse, b, own, limit, pos, pos, EMPTY_NAME);
  }

  // ----- records in a row -----

  /** Framed records one behind the other, from s to e. */
  ghost predicate Chain(q: Packet, s: nat, starts: seq<nat>, e: nat)
    decreases |starts|
  {
    if starts == [] then s == e
    else
      var next := if |starts| > 1 then starts[1] else e;
      starts[0] == s && Framed(q, s, next) && Chain(q, next, starts[1..], e)
  }

  lemma FramedStays(lo: nat, p: Packet, q: Packet, s: nat, e: nat)
    requires lo <= s && Framed(p, s, e) && Extends(p, q) && Kept(lo, p, q)
    ensures Framed(q, s, e) && q.names[s] == p.names[s]
  {
    hide Labels;
  }

  lemma FramedGoesOn(q: Packet, s: nat, e: nat)
    requires Framed(q, s, e)
    ensures s < e <= q.index
  {
    hide Labels;
  }

  lemma {:induction false} ChainStays(lo: nat, p: Packet, q: Packet, s: nat, starts: seq<nat>, e: nat)
    requires lo <= s && Chain(p, s, starts, e) && Extends(p, q) && Kept(lo, p, q)
    ensures Chain(q, s, starts, e)
    decreases |starts|
  {
    hide Labels, Framed, Extends, Kept;
    if starts != [] {
      var next := if |starts| > 1 then starts[1] else e;
      FramedStays(lo, p, q, s, next);
      FramedGoesOn(p, s, next);
      ChainStays(lo, p, q, next, starts[1..], e);
    }
  }

  lemma {:induction false} ChainJoins(q: Packet, s: nat, xs: seq<nat>, m: nat, ys: seq<nat>, e: nat)
    requires Chain(q, s, xs, m) && Chain(q, m, ys, e)
    ensures Chain(q, s, xs + ys, e)
    decreases |xs|
  {
    hide Framed;
    if xs == [] {
      assert xs + ys == ys;
    } else {
      var next := if |xs| > 1 then xs[1] else m;
      ChainJoins(q, next, xs[1..], m, ys, e);
      assert (xs + ys)[1..] == xs[1..] + ys;
      assert |xs| == 1 && ys != [] ==> ys[0] == m;
      assert |xs| == 1 && ys == [] ==> m == e;
    }
  }

  lemma {:induction false} WalkAlongChain(reverse: bool, cap: nat, q: Packet, s: nat, starts: seq<nat>)
    requires Inv(q, cap) && Chain(q, s, starts, q.index)
    ensures Walk(reverse, q.b, q.index, s) == Walked(starts, true)
    decreases |starts|
  {
    hide Inv, Framed, NextRecord;
    assert q.index < |q.b| by { RoomBehind(q, cap); }
    if starts != [] {
      var next := if |starts| > 1 then starts[1] else q.index;
      FramedGoesOn(q, s, next);
      FramedIsStepped(reverse, cap, q, s, next);
      WalkAlongChain(reverse, cap, q, next, starts[1..]);
      assert [s] + starts[1..] == starts;
    }
  }

  lemma RoomBehind(q: Packet, cap: nat)
    requires Inv(q, cap)
    ensures q.index < |q.b| && q.index <= cap <= POINTER_SPACE && cap + SLACK <= |q.b|
  {
  }

  /** Records one behind the other. */
  ghost function PutAll(reverse: bool, cap: nat, p: Packet, recs: seq<Rec>): (r: Packet)
    requires cap + SLACK <= |p.b| && p.index <= cap
    ensures |r.b| == |p.b| && r.index <= cap
    decreases |recs|
  {
    if recs == [] then p else PutAll(reverse, cap, PutRecord(reverse, cap, p, recs[0]), recs[1..])
  }

  /** Every append succeeds, and every name ends in a domain. */
  ghost predicate GoodRecords(reverse: bool, cap: nat, p: Packet, recs: seq<Rec>)
    requires cap + SLACK <= |p.b| && p.index <= cap
    decreases |recs|
  {
    recs == [] ||
    (&& GoodRecord(reverse, cap, p, recs[0]) && NamesInDomain(recs[0])
     && GoodRecords(reverse, cap, PutRecord(reverse, cap, p, recs[0]), recs[1..]))
  }

  /** Where the records were written. */
  ghost function Starts(reverse: bool, cap: nat, p: Packet, recs: seq<Rec>): (ss: seq<nat>)
    requires cap + SLACK <= |p.b| && p.index <= cap
    ensures |ss| == |recs|
    decreases |recs|
  {
    if recs == [] then [] else [p.index] + Starts(reverse, cap, PutRecord(reverse, cap, p, recs[0]), recs[1..])
  }

  /**
   Good records keep what was there, and stand in a row; the k-th start is where the k-th record's
   owner is recorded.
   */
  lemma {:induction false} RecordsStandInARow(reverse: bool, cap: nat, p: Packet, recs: seq<Rec>)
    requires Inv(p, cap) && GoodRecords(reverse, cap, p, recs)
    ensures var r, ss := PutAll(reverse, cap, p, recs), Starts(reverse, cap, p, recs);
            && Inv(r, cap) && Extends(p, r) && Kept(0, p, r)
            && Chain(r, p.index, ss, r.index)
            && forall k | 0 <= k < |recs| :: ss[k] in r.names && r.names[ss[k]] == recs[k].owner
    decreases |recs|
  {
    hide Labels, PutRecord, GoodRecord, NamesInDomain, Framed, NameHolds, Kept, Plain;
    if recs == [] {
      ExtendsItself(p);
      KeptTwice(0, p, p, p);
    } else {
      var q := PutRecord(reverse, cap, p, recs[0]);
      DomainRecordIsExact(reverse, cap, p, recs[0]);
      RecordsStandInARow(reverse, cap, q, recs[1..]);
      var r := PutAll(reverse, cap, q, recs[1..]);
      ExtendsTwice(p, q, r);
      KeptTwice(0, p, q, r);
      FramedStays(0, q, r, p.index, q.index);
      NextStart(reverse, cap, q, recs[1..]);
    }
  }

  lemma NextStart(reverse: bool, cap: nat, p: Packet, recs: seq<Rec>)
    requires cap + SLACK <= |p.b| && p.index <= cap
    ensures recs != [] ==> Starts(reverse, cap, p, recs)[0] == p.index
    ensures recs == [] ==> PutAll(reverse, cap, p, recs).index == p.index
  {
  }

  // ----- questions in a row -----

  /** A name, and type and class. */
  datatype Question = Question(names: seq<text>, fields: seq<byte>)

  ghost function PutQuestions(reverse: bool, cap: nat, p: Packet, qs: seq<Question>): (r: Packet)
    requires cap + SLACK <= |p.b| && p.index <= cap
    ensures |r.b| == |p.b| && r.index <= cap
    decreases |qs|
  {
    if qs == [] then p else PutQuestions(reverse, cap, Headed(reverse, cap, p, qs[0].names, qs[0].fields), qs[1..])
  }

  ghost predicate GoodQuestion(reverse: bool, cap: nat, p: Packet, q: Question)
    requires cap + SLACK <= |p.b| && p.index <= cap
  {
    && |q.fields| == 4 && GoodName(reverse, cap, p, q.names) && InDomain(q.names)
    && Step(reverse, cap, p, WriteName(q.names)).index + 4 <= cap
  }

  ghost predicate GoodQuestions(reverse: bool, cap: nat, p: Packet, qs: seq<Question>)
    requires cap + SLACK <= |p.b| && p.index <= cap
    decreases |qs|
  {
    qs == [] ||
    (GoodQuestion(reverse, cap, p, qs[0])
     && GoodQuestions(reverse, cap, Headed(reverse, cap, p, qs[0].names, qs[0].fields), qs[1..]))
  }

  /** A question from s to e: its name is recorded, and its four bytes follow it. */
  ghost predicate Asked(p: Packet, s: nat, ask: Question, e: nat) {
    && s in p.names && p.names[s] == ask.names
    && Labels(p.b, p.own, s, s).Decoded? && Labels(p.b, p.own, s, s).end + 4 == e <= p.index <= |p.b|
    && p.b[e - 4..e] == ask.fields
  }

  /** The given questions one behind the other, from s to e. */
  ghost predicate AskedInARow(p: Packet, s: nat, qs: seq<Question>, e: nat)
    decreases |qs|
  {
    if qs == [] then s == e
    else exists m :: Asked(p, s, qs[0], m) && AskedInARow(p, m, qs[1..], e)
  }

  lemma AskedStays(lo: nat, p: Packet, q: Packet, s: nat, ask: Question, e: nat)
    requires lo <= s && Asked(p, s, ask, e) && Extends(p, q) && Kept(lo, p, q) && q.index <= |q.b|
    ensures Asked(q, s, ask, e) && s <= e
  {
    hide Labels;
    assert q.b[e - 4..e] == p.b[e - 4..e];
  }

  lemma {:induction false} AskedInARowStays(lo: nat, p: Packet, q: Packet, s: nat, qs: seq<Question>, e: nat)
    requires lo <= s && AskedInARow(p, s, qs, e) && Extends(p, q) && Kept(lo, p, q) && q.index <= |q.b|
    ensures AskedInARow(q, s, qs, e)
    decreases |qs|
  {
    hide Asked, Extends, Kept;
    if qs != [] {
      var m :| Asked(p, s, qs[0], m) && AskedInARow(p, m, qs[1..], e);
      AskedStays(lo, p, q, s, qs[0], m);
      AskedInARowStays(lo, p, q, m, qs[1..], e);
    }
  }

  lemma QuestionIsAsked(reverse: bool, cap: nat, p: Packet, q: Question)
    requires Inv(p, cap) && GoodQuestion(reverse, cap, p, q)
    ensures var h := Headed(reverse, cap, p, q.names, q.fields);
            Inv(h, cap) && Extends(p, h) && Kept(0, p, h) && Asked(h, p.index, q, h.index)
  {
    hide Append, Labels, Step, Recordable, Plain, NameHolds;
    var p1 := Step(reverse, cap, p, WriteName(q.names));
    NameAdds(reverse, cap, p, q.names);
    WriteNameKeeps(reverse, cap, p, q.names);
    StepFront(reverse, cap, p, WriteName(q.names));
    RawAdds(reverse, cap, p1, q.fields);
    StepKeeps(reverse, cap, p1, WriteRaw(q.fields));
    StepFront(reverse, cap, p1, WriteRaw(q.fields));
    var h := Step(reverse, cap, p1, WriteRaw(q.fields));
    assert h.b[h.index - 4..h.index] == q.fields;
  }

  lemma {:induction false} QuestionsStandInARow(reverse: bool, cap: nat, p: Packet, qs: seq<Question>)
    requires Inv(p, cap) && GoodQuestions(reverse, cap, p, qs)
    ensures var r := PutQuestions(reverse, cap, p, qs);
            Inv(r, cap) && Extends(p, r) && Kept(0, p, r) && AskedInARow(r, p.index, qs, r.index)
    decreases |qs|
  {
    hide Labels, Headed, GoodQuestion, Inv, Extends, Kept, Asked, NameHolds;
    RoomBehind(p, cap);
    if qs == [] {
      ExtendsItself(p);
      KeptTwice(0, p, p, p);
    } else {
      var h := Headed(reverse, cap, p, qs[0].names, qs[0].fields);
      QuestionIsAsked(reverse, cap, p, qs[0]);
      QuestionsStandInARow(reverse, cap, h, qs[1..]);
      var r := PutQuestions(reverse, cap, h, qs[1..]);
      ExtendsTwice(p, h, r);
      KeptTwice(0, p, h, r);
      RoomBehind(r, cap);
      AskedStays(0, h, r, p.index, qs[0], h.index);
    }
  }

  lemma AskedIsStepped(reverse: bool, cap: nat, q: Packet, s: nat, ask: Question, e: nat)
    requires Inv(q, cap) && Asked(q, s, ask, e)
    ensures NextQuestion(reverse, q.b, q.index, s) == Behind(e)
  {
    hide ReadFrom, Labels, NameHolds, View;
    ReaderSeesLabels(reverse, q.b, q.own, q.index, s, s, EMPTY_NAME);
  }

  lemma {:induction false} SkipsAsked(reverse: bool, cap: nat, q: Packet, s: nat, qs: seq<Question>, e: nat)
    requires Inv(q, cap) && AskedInARow(q, s, qs, e)
    ensures q.index < |q.b| && SkipQuestions(reverse, q.b, q.index, s, |qs|) == Behind(e)
    decreases |qs|
  {
    hide Inv, Asked, NextQuestion;
    RoomBehind(q, cap);
    if qs != [] {
      var m :| Asked(q, s, qs[0], m) && AskedInARow(q, m, qs[1..], e);
      AskedIsStepped(reverse, cap, q, s, qs[0], m);
      SkipsAsked(reverse, cap, q, m, qs[1..], e);
    }
  }

  // ----- the message -----

  datatype Message = Message(id: nat, flags: nat, questions: seq<Question>, answers: seq<Rec>, servers: seq<Rec>,
                             additional: seq<Rec>)

  /** A packet under construction: the header is not part of any name. */
  ghost predicate Sound(p: Packet, cap: nat) {
    Inv(p, cap) && p.index >= HEAD_LEN && forall j | j in p.own :: j >= HEAD_LEN
  }

  /** What a later packet keeps of an earlier one: every name, and everything behind the header. */
  ghost predicate After(p: Packet, q: Packet) {
    Extends(p, q) && Kept(HEAD_LEN, p, q)
  }

  ghost function Patch(reverse: bool, cap: nat, p: Packet, at: nat, value: nat): (r: Packet)
    requires cap + SLACK <= |p.b| && p.index <= cap
    ensures |r.b| == |p.b| && r.index <= cap
  {
    Step(reverse, cap, p, SetU16(at, value))
  }

  /** One section, and its count in the header, which is kept in a uint8_t. */
  ghost function PutSection(reverse: bool, cap: nat, p: Packet, recs: seq<Rec>, countAt: nat): (r: Packet)
    requires cap + SLACK <= |p.b| && p.index <= cap
    ensures |r.b| == |p.b| && r.index <= cap
  {
    Patch(reverse, cap, PutAll(reverse, cap, p, recs), countAt, |recs| % 256)
  }

  /** The header and the questions. */
  ghost function Opened(reverse: bool, cap: nat, p: Packet, m: Message): (r: Packet)
    requires cap + SLACK <= |p.b| && p.index <= cap
    ensures |r.b| == |p.b| && r.index <= cap
  {
    var p1 := Patch(reverse, cap, Patch(reverse, cap, p, FLAGS_AT, m.flags), ID_AT, m.id);
    Patch(reverse, cap, PutQuestions(reverse, cap, p1, m.questions), QUESTIONS_AT, |m.questions| % 256)
  }

  ghost function WithAnswers(reverse: bool, cap: nat, p: Packet, m: Message): (r: Packet)
    requires cap + SLACK <= |p.b| && p.index <= cap
    ensures |r.b| == |p.b| && r.index <= cap
  {
    PutSection(reverse, cap, Opened(reverse, cap, p, m), m.answers, ANSWERS_AT)
  }

  ghost function WithServers(reverse: bool, cap: nat, p: Packet, m: Message): (r: Packet)
    requires cap + SLACK <= |p.b| && p.index <= cap
    ensures |r.b| == |p.b| && r.index <= cap
  {
    PutSection(reverse, cap, WithAnswers(reverse, cap, p, m), m.servers, SERVERS_AT)
  }

  ghost function PutMessage(reverse: bool, cap: nat, p: Packet, m: Message): (r: Packet)
    requires cap + SLACK <= |p.b| && p.index <= cap
    ensures |r.b| == |p.b| && r.index <= cap
  {
    PutSection(reverse, cap, WithServers(reverse, cap, p, m), m.additional, ADDITIONAL_AT)
  }

  /** Every append succeeds, and every count is below 256. */
  ghost predicate GoodMessage(reverse: bool, cap: nat, p: Packet, m: Message)
    requires cap + SLACK <= |p.b| && p.index <= cap
  {
    var p1 := Patch(reverse, cap, Patch(reverse, cap, p, FLAGS_AT, m.flags), ID_AT, m.id);
    && m.id < 0x10000 && m.flags < 0x10000
    && |m.questions| < 256 && |m.answers| < 256 && |m.servers| < 256 && |m.additional| < 256
    && GoodQuestions(reverse, cap, p1, m.questions)
    && GoodRecords(reverse, cap, Opened(reverse, cap, p, m), m.answers)
    && GoodRecords(reverse, cap, WithAnswers(reverse, cap, p, m), m.servers)
    && GoodRecords(reverse, cap, WithServers(reverse, cap, p, m), m.additional)
  }

  ghost function MessageStarts(reverse: bool, cap: nat, p: Packet, m: Message): (ss: seq<nat>)
    requires cap + SLACK <= |p.b| && p.index <= cap
    ensures |ss| == |m.answers + m.servers + m.additional|
  {
    Starts(reverse, cap, Opened(reverse, cap, p, m), m.answers)
    + Starts(reverse, cap, WithAnswers(reverse, cap, p, m), m.servers)
    + Starts(reverse, cap, WithServers(reverse, cap, p, m), m.additional)
  }

  lemma AfterTwice(p: Packet, q: Packet, r: Packet)
    ensures After(p, p)
    ensures After(p, q) && After(q, r) ==> After(p, r)
  {
    hide Extends, Kept;
    ExtendsItself(p);
    KeptTwice(HEAD_LEN, p, q, r);
    if After(p, q) && After(q, r) {
      ExtendsTwice(p, q, r);
    }
  }

  /** A patched header field changes nothing else. */
  lemma PatchKeeps(reverse: bool, cap: nat, p: Packet, at: nat, value: nat)
    requires Sound(p, cap) && at + 2 <= HEAD_LEN && value < 0x10000
    ensures var q := Patch(reverse, cap, p, at, value);
            && Sound(q, cap) && After(p, q) && q.index == p.index && q.names == p.names
            && U16At(q.b, at) == value
            && forall f | 0 <= f < HEAD_LEN - 1 && (f + 2 <= at || at + 2 <= f) :: U16At(q.b, f) == U16At(p.b, f)
  {
    hide Labels, NameHolds;
    Patched(reverse, cap, p, at, value);
  }

  /** What was built in front of and behind the header keeps the packet sound. */
  lemma StaysSound(p: Packet, q: Packet, cap: nat)
    requires Sound(p, cap) && Inv(q, cap) && Extends(p, q) && Kept(0, p, q)
    ensures Sound(q, cap) && After(p, q)
    ensures forall f | 0 <= f < HEAD_LEN - 1 :: U16At(q.b, f) == U16At(p.b, f)
  {
    hide Labels, NameHolds, Extends;
  }

  /** One section keeps everything behind the header and every other field of it; its records stand in a row. */
  lemma {:induction false} SectionKeeps(reverse: bool, cap: nat, p: Packet, recs: seq<Rec>, countAt: nat)
    requires Sound(p, cap) && GoodRecords(reverse, cap, p, recs) && countAt + 2 <= HEAD_LEN && |recs| < 256
    ensures var q, ss := PutSection(reverse, cap, p, recs, countAt), Starts(reverse, cap, p, recs);
            && Sound(q, cap) && After(p, q) && Chain(q, p.index, ss, q.index)
            && U16At(q.b, countAt) == |recs|
            && (forall f | 0 <= f < HEAD_LEN - 1 && (f + 2 <= countAt || countAt + 2 <= f) ::
                U16At(q.b, f) == U16At(p.b, f))
            && forall k | 0 <= k < |recs| :: ss[k] in q.names && q.names[ss[k]] == recs[k].owner
  {
    hide Inv, Extends, Kept, Chain, Starts, PutAll, GoodRecords, Patch, U16At;
    RoomBehind(p, cap);
    RecordsStandInARow(reverse, cap, p, recs);
    var r := PutAll(reverse, cap, p, recs);
    StaysSound(p, r, cap);
    PatchKeeps(reverse, cap, r, countAt, |recs|);
    var q := Patch(reverse, cap, r, countAt, |recs|);
    AfterTwice(p, r, q);
    ChainStays(HEAD_LEN, r, q, p.index, Starts(reverse, cap, p, recs), r.index);
  }

  lemma {:induction false} OpenedKeeps(reverse: bool, cap: nat, p: Packet, m: Message)
    requires Sound(p, cap) && p.index == HEAD_LEN && GoodMessage(reverse, cap, p, m)
    ensures var q := Opened(reverse, cap, p, m);
            && Sound(q, cap) && AskedInARow(q, HEAD_LEN, m.questions, q.index)
            && U16At(q.b, ID_AT) == m.id && U16At(q.b, FLAGS_AT) == m.flags && U16At(q.b, QUESTIONS_AT) == |m.questions|
  {
    hide Inv, Extends, Kept, AskedInARow, PutQuestions, GoodQuestions, GoodRecords, Patch, WithAnswers, WithServers,
         U16At;
    RoomBehind(p, cap);
    PatchKeeps(reverse, cap, p, FLAGS_AT, m.flags);
    var a := Patch(reverse, cap, p, FLAGS_AT, m.flags);
    PatchKeeps(reverse, cap, a, ID_AT, m.id);
    var p1 := Patch(reverse, cap, a, ID_AT, m.id);
    QuestionsStandInARow(reverse, cap, p1, m.questions);
    var r := PutQuestions(reverse, cap, p1, m.questions);
    StaysSound(p1, r, cap);
    PatchKeeps(reverse, cap, r, QUESTIONS_AT, |m.questions|);
    RoomBehind(Patch(reverse, cap, r, QUESTIONS_AT, |m.questions|), cap);
    AskedInARowStays(HEAD_LEN, r, Patch(reverse, cap, r, QUESTIONS_AT, |m.questions|), HEAD_LEN, m.questions, r.index);
  }

  /** The three sections, seen from the finished message. */
  lemma {:induction false} SectionsKeep(reverse: bool, cap: nat, p: Packet, m: Message)
    requires Sound(p, cap) && p.index == HEAD_LEN && GoodMessage(reverse, cap, p, m)
    ensures var o, q := Opened(reverse, cap, p, m), PutMessage(reverse, cap, p, m);
            && Sound(q, cap) && After(o, q)
            && Chain(q, o.index, MessageStarts(reverse, cap, p, m), q.index)
            && (forall k | 0 <= k < |m.answers + m.servers + m.additional| ::
                  var s := MessageStarts(reverse, cap, p, m)[k];
                  s in q.names && q.names[s] == (m.answers + m.servers + m.additional)[k].owner)
            && U16At(q.b, ANSWERS_AT) == |m.answers| && U16At(q.b, SERVERS_AT) == |m.servers|
            && U16At(q.b, ADDITIONAL_AT) == |m.additional|
            && U16At(q.b, ID_AT) == U16At(o.b, ID_AT) && U16At(q.b, FLAGS_AT) == U16At(o.b, FLAGS_AT)
            && U16At(q.b, QUESTIONS_AT) == U16At(o.b, QUESTIONS_AT)
  {
    hide Inv, Extends, Kept, Chain, Opened, PutSection, GoodQuestions, GoodRecords, Starts, U16At;
    RoomBehind(p, cap);
    OpenedKeeps(reverse, cap, p, m);
    var o, a := Opened(reverse, cap, p, m), WithAnswers(reverse, cap, p, m);
    var v, q := WithServers(reverse, cap, p, m), PutMessage(reverse, cap, p, m);
    var xs, ys := Starts(reverse, cap, o, m.answers), Starts(reverse, cap, a, m.servers);
    var zs := Starts(reverse, cap, v, m.additional);
    SectionKeeps(reverse, cap, o, m.answers, ANSWERS_AT);
    SectionKeeps(reverse, cap, a, m.servers, SERVERS_AT);
    SectionKeeps(reverse, cap, v, m.additional, ADDITIONAL_AT);
    AfterTwice(a, v, q);
    AfterTwice(o, a, q);
    ChainStays(HEAD_LEN, a, q, o.index, xs, a.index);
    ChainStays(HEAD_LEN, v, q, a.index, ys, v.index);
    ChainJoins(q, o.index, xs, a.index, ys, v.index);
    ChainJoins(q, o.index, xs + ys, v.index, zs, q.index);
    OwnersStay(a, q, xs, m.answers);
    OwnersStay(v, q, ys, m.servers);
  }

  lemma OwnersStay(p: Packet, q: Packet, ss: seq<nat>, recs: seq<Rec>)
    requires After(p, q) && |ss| == |recs|
    requires forall k | 0 <= k < |recs| :: ss[k] in p.names && p.names[ss[k]] == recs[k].owner
    ensures forall k | 0 <= k < |recs| :: ss[k] in q.names && q.names[ss[k]] == recs[k].owner
  {
    hide Labels;
  }

  /**
   Message framing: in a finished message the header holds the identity, the flags and the counts;
   the parser's walk passes over every question, stops exactly at each record boundary, visits the
   records of all sections in the order they were written and nothing else, comes to the end, and
   takes each record for one of the section it was written in.
   */
  lemma {:induction false} WalkVisitsEveryRecord(reverse: bool, cap: nat, p: Packet, m: Message)
    requires Sound(p, cap) && p.index == HEAD_LEN && GoodMessage(reverse, cap, p, m)
    ensures var q := PutMessage(reverse, cap, p, m);
            && q.index < |q.b| && U16At(q.b, ID_AT) == m.id && U16At(q.b, FLAGS_AT) == m.flags
            && WalkMessage(reverse, q.b, q.index) == Walked(MessageStarts(reverse, cap, p, m), true)
            && forall k | 0 <= k < |m.answers + m.servers + m.additional| ::
                 SectionOf(q.b, k) == if k < |m.answers| then AnswerSection
                                      else if k < |m.answers + m.servers| then ServerSection
                                      else AdditionalSection
  {
    hide Inv, Extends, Kept, Chain, Opened, PutSection, PutMessage, GoodQuestions, GoodRecords, MessageStarts, U16At,
         Walk, SkipQuestions;
    RoomBehind(p, cap);
    OpenedKeeps(reverse, cap, p, m);
    SectionsKeep(reverse, cap, p, m);
    var o, q := Opened(reverse, cap, p, m), PutMessage(reverse, cap, p, m);
    RoomBehind(q, cap);
    AskedInARowStays(HEAD_LEN, o, q, HEAD_LEN, m.questions, o.index);
    SkipsAsked(reverse, cap, q, HEAD_LEN, m.questions, o.index);
    WalkAlongChain(reverse, cap, q, o.index, MessageStarts(reverse, cap, p, m));
  }

  /**
   At every record boundary of the finished message the parser finds the owner of the record written
   there, label by label in its slots.
   */
  lemma {:induction false} WalkReadsOwners(reverse: bool, cap: nat, p: Packet, m: Message, k: nat)
    requires Sound(p, cap) && p.index == HEAD_LEN && GoodMessage(reverse, cap, p, m)
    requires k < |m.answers + m.servers + m.additional| && NameShape((m.answers + m.servers + m.additional)[k].owner)
    ensures var q := PutMessage(reverse, cap, p, m);
            var s := MessageStarts(reverse, cap, p, m)[k];
            && q.index < |q.b|
            && var raw := ReadFrom(reverse, q.b, q.index, s, s, EMPTY_NAME);
               raw.Parsed? && InSlots(Arrange(raw.name), (m.answers + m.servers + m.additional)[k].owner)
  {
    hide Inv, Chain, Opened, PutMessage, GoodMessage, MessageStarts, U16At, ReadFrom, NameShape, InSlots, Arrange;
    RoomBehind(p, cap);
    SectionsKeep(reverse, cap, p, m);
    var q := PutMessage(reverse, cap, p, m);
    RoomBehind(q, cap);
    RecordedNameParses(reverse, cap, q, q.index, MessageStarts(reverse, cap, p, m)[k]);
  }
}
