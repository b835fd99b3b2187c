/** Who wins a simultaneous probe (section 8.2 of RFC 6762): the SRV and TXT comparisons. */
module TieBreak {
  import opened Bytes
  import opened TxtCodec

  datatype Verdict = WeWin | Same | TheyWin

  function Flip(v: Verdict): Verdict {
    match v case WeWin => TheyWin case Same => Same case TheyWin => WeWin
  }

  datatype Srv = Srv(priority: nat, weight: nat, port: nat, host: text)

  predicate ValidSrv(s: Srv) {
    s.priority < 0x10000 && s.weight < 0x10000 && s.port < 0x10000 && 1 <= |s.host| <= 255
  }

  /** The record data that both sides build: three numbers, the host and the domain. */
  function SrvData(s: Srv, domain: text): seq<byte> {
    U16Bytes(s.priority) + U16Bytes(s.weight) + U16Bytes(s.port) + [|s.host| % 256] + s.host
    + [|domain| % 256] + domain + [0]
  }

  // ----- the comparison -----

  /** memcmp on data of the same length: the sign of the first difference. */
  function Memcmp(a: seq<byte>, b: seq<byte>): int
    requires |a| == |b|
  {
    if a == [] then 0 else if a[0] != b[0] then a[0] - b[0] else Memcmp(a[1..], b[1..])
  }

  /** The longer data wins; among data of one length the lexicographically later. */
  function Compare(ours: seq<byte>, theirs: seq<byte>): Verdict {
    if |theirs| > |ours| then TheyWin
    else if |theirs| < |ours| then WeWin
    else
      var r := Memcmp(ours, theirs);
      if r > 0 then WeWin else if r < 0 then TheyWin else Same
  }

  /** Two strings of one length first differ where the first has the larger byte. */
  ghost predicate LexLarger(x: seq<byte>, y: seq<byte>)
    requires |x| == |y|
  {
    exists k: nat :: FirstDiffer(x, y, k) && x[k] > y[k]
  }

  ghost predicate FirstDiffer(x: seq<byte>, y: seq<byte>, k: nat)
    requires |x| == |y|
  {
    k < |x| && x[k] != y[k] && forall j | 0 <= j < k :: x[j] == y[j]
  }

  /** The longer data wins, and of two of one length the one with the larger byte where they first differ. */
  ghost function Winner(ours: seq<byte>, theirs: seq<byte>): Verdict {
    if |theirs| > |ours| then TheyWin
    else if |theirs| < |ours| then WeWin
    else if LexLarger(ours, theirs) then WeWin
    else if LexLarger(theirs, ours) then TheyWin
    else Same
  }

  /** Where data first differ, the sign of the comparison is that of the difference. */
  lemma {:induction false} DifferenceDecides(x: seq<byte>, y: seq<byte>, k: nat)
    requires |x| == |y| && FirstDiffer(x, y, k)
    ensures Memcmp(x, y) + y[k] == x[k]
    decreases k
  {
    if k > 0 {
      DifferenceDecides(x[1..], y[1..], k - 1);
    }
  }

  lemma {:induction false} SomeDifference(x: seq<byte>, y: seq<byte>) returns (k: nat)
    requires |x| == |y| && x != y
    ensures FirstDiffer(x, y, k)
    decreases |x|
  {
    if x[0] != y[0] {
      k := 0;
    } else {
      assert x == [x[0]] + x[1..] && y == [y[0]] + y[1..];
      k := SomeDifference(x[1..], y[1..]);
      assert forall j | 0 < j < k + 1 :: x[j] == x[1..][j - 1] && y[j] == y[1..][j - 1];
      k := k + 1;
    }
  }

  /** The comparison lets the larger byte win where the data first differ. */
  lemma CompareDecides(ours: seq<byte>, theirs: seq<byte>)
    ensures Compare(ours, theirs) == Winner(ours, theirs)
  {
    if |ours| == |theirs| {
      MemcmpFlips(ours, theirs);
      if ours != theirs {
        var k := SomeDifference(ours, theirs);
        DifferenceDecides(ours, theirs, k);
        forall l | FirstDiffer(ours, theirs, l) || FirstDiffer(theirs, ours, l)
          ensures l == k
        {
        }
        assert FirstDiffer(theirs, ours, k);
      } else {
        SameNotLarger(ours);
      }
    }
  }

  /** The larger of two SRV records: by priority, then weight, then port, then the bytes of hosts of one length. */
  ghost predicate LargerSrv(a: Srv, b: Srv)
    requires |a.host| == |b.host|
  {
    || a.priority > b.priority
    || (&& a.priority == b.priority
        && (|| a.weight > b.weight
            || (&& a.weight == b.weight
                && (a.port > b.port || (a.port == b.port && LexLarger(a.host, b.host))))))
  }

  /** Numbers compare like their bytes in network order. */
  lemma U16Order(v: nat, w: nat)
    requires v < w < 0x10000
    ensures U16Bytes(v)[0] < U16Bytes(w)[0] || (U16Bytes(v)[0] == U16Bytes(w)[0] && U16Bytes(v)[1] < U16Bytes(w)[1])
  {
  }

  /** The smaller SRV record has the smaller byte where the data first differ. */
  lemma SmallerLoses(a: Srv, b: Srv)
    requires ValidSrv(a) && ValidSrv(b) && |a.host| == |b.host| && LargerSrv(b, a)
    ensures |SrvData(a, LOCAL)| == |SrvData(b, LOCAL)| && LexLarger(SrvData(b, LOCAL), SrvData(a, LOCAL))
  {
    hide SrvData, U16Bytes;
    var x, y := SrvData(a, LOCAL), SrvData(b, LOCAL);
    SrvParts(a);
    SrvParts(b);
    SrvBytes(a);
    SrvBytes(b);
    if a.priority < b.priority {
      U16Order(a.priority, b.priority);
      var k := if x[0] == y[0] then 1 else 0;
      assert FirstDiffer(y, x, k);
    } else if a.weight < b.weight {
      U16Order(a.weight, b.weight);
      var k := if x[2] == y[2] then 3 else 2;
      assert FirstDiffer(y, x, k);
    } else if a.port < b.port {
      U16Order(a.port, b.port);
      var k := if x[4] == y[4] then 5 else 4;
      assert FirstDiffer(y, x, k);
    } else {
      var k: nat :| FirstDiffer(b.host, a.host, k) && b.host[k] > a.host[k];
      assert forall j | 7 <= j < 7 + |a.host| :: x[j] == a.host[j - 7] && y[j] == b.host[j - 7];
      assert FirstDiffer(y, x, 7 + k);
    }
  }

  lemma SrvBytes(s: Srv)
    ensures var x := SrvData(s, LOCAL);
            && |x| >= 7 && x[6] == |s.host| % 256
            && x[0] == U16Bytes(s.priority)[0] && x[1] == U16Bytes(s.priority)[1]
            && x[2] == U16Bytes(s.weight)[0] && x[3] == U16Bytes(s.weight)[1]
            && x[4] == U16Bytes(s.port)[0] && x[5] == U16Bytes(s.port)[1]
  {
    hide U16Bytes;
  }

  lemma {:induction false} LargerIsTotal(a: Srv, b: Srv)
    requires |a.host| == |b.host| && a != b
    ensures LargerSrv(a, b) || LargerSrv(b, a)
  {
    if a.host != b.host {
      var k := SomeDifference(a.host, b.host);
      assert FirstDiffer(b.host, a.host, k);
    }
  }

  /** Of two hosts' SRV records the one with the longer host wins, and of hosts of one length the larger record. */
  lemma SrvDirection(ours: Srv, theirs: Srv)
    requires ValidSrv(ours) && ValidSrv(theirs)
    ensures Compare(SrvData(ours, LOCAL), SrvData(theirs, LOCAL))
         == if |theirs.host| > |ours.host| then TheyWin
            else if |theirs.host| < |ours.host| then WeWin
            else if LargerSrv(ours, theirs) then WeWin
            else if LargerSrv(theirs, ours) then TheyWin
            else Same
  {
    hide SrvData, LargerSrv, LexLarger;
    SrvParts(ours);
    SrvParts(theirs);
    var x, y := SrvData(ours, LOCAL), SrvData(theirs, LOCAL);
    CompareDecides(x, y);
    if |ours.host| == |theirs.host| {
      if ours != theirs {
        LargerIsTotal(ours, theirs);
      } else {
        NotLarger(ours);
        SameNotLarger(x);
      }
      if LargerSrv(ours, theirs) {
        SmallerLoses(theirs, ours);
      } else if LargerSrv(theirs, ours) {
        SmallerLoses(ours, theirs);
        OneIsLarger(y, x);
      }
    }
  }

  lemma NotLarger(a: Srv)
    ensures !LargerSrv(a, a)
  {
  }

  lemma SameNotLarger(x: seq<byte>)
    ensures !LexLarger(x, x)
  {
  }

  lemma OneIsLarger(x: seq<byte>, y: seq<byte>)
    requires |x| == |y| && LexLarger(x, y)
    ensures !LexLarger(y, x)
  {
    var k: nat :| FirstDiffer(x, y, k) && x[k] > y[k];
    forall l: nat | FirstDiffer(y, x, l)
      ensures l == k
    {
    }
  }

  /** The SRV check against what a packet says; a host without a name sees no collision. */
  method CheckSrvCollision(ours: Srv, theirs: Srv, domain: text) returns (v: Verdict)
    ensures ours.host == [] ==> v == Same
    ensures ours.host != [] ==> v == Winner(SrvData(ours, LOCAL), SrvData(theirs, domain))
    ensures ValidSrv(ours) && ValidSrv(theirs) && domain == LOCAL ==>
              v == if |theirs.host| > |ours.host| then TheyWin
                   else if |theirs.host| < |ours.host| then WeWin
                   else if LargerSrv(ours, theirs) then WeWin
                   else if LargerSrv(theirs, ours) then TheyWin
                   else Same
  {
    hide Winner, LargerSrv;
    CompareDecides(SrvData(ours, LOCAL), SrvData(theirs, domain));
    if ValidSrv(ours) && ValidSrv(theirs) && domain == LOCAL {
      SrvDirection(ours, theirs);
    }
    if ours.host == [] {
      return Same;
    }
    var ourLen, theirLen := 14 + |ours.host|, 9 + |theirs.host| + |domain|;
    if theirLen > ourLen {
      return TheyWin;
    } else if theirLen < ourLen {
      return WeWin;
    }
    var ourData := U16Bytes(ours.priority) + U16Bytes(ours.weight) + U16Bytes(ours.port);
    ourData := ourData + [|ours.host| % 256] + ours.host + [5] + LOCAL + [0];
    var theirData := U16Bytes(theirs.priority) + U16Bytes(theirs.weight) + U16Bytes(theirs.port);
    theirData := theirData + [|theirs.host| % 256] + theirs.host + [|domain| % 256] + domain + [0];
    var r := CompareBytes(ourData, theirData);
    return if r > 0 then WeWin else if r < 0 then TheyWin else Same;
  }

  method CompareBytes(a: seq<byte>, b: seq<byte>) returns (r: int)
    requires |a| == |b|
    ensures r == Memcmp(a, b)
  {
    var i := 0;
    while i < |a| && a[i] == b[i]
      invariant i <= |a| && Memcmp(a, b) == Memcmp(a[i..], b[i..])
    {
      i := i + 1;
    }
    if i == |a| {
      return 0;
    }
    r := a[i];
    r := r - b[i];
  }

  lemma {:induction false} MemcmpFlips(a: seq<byte>, b: seq<byte>)
    requires |a| == |b|
    ensures Memcmp(b, a) == -Memcmp(a, b) && (Memcmp(a, b) == 0 <==> a == b)
    decreases |a|
  {
    if a != [] {
      MemcmpFlips(a[1..], b[1..]);
      assert a == [a[0]] + a[1..] && b == [b[0]] + b[1..];
    }
  }

  lemma {:induction false} MemcmpTransitive(a: seq<byte>, b: seq<byte>, c: seq<byte>)
    requires |a| == |b| == |c| && Memcmp(a, b) > 0 && Memcmp(b, c) > 0
    ensures Memcmp(a, c) > 0
    decreases |a|
  {
    if a != [] && a[0] == b[0] == c[0] {
      MemcmpTransitive(a[1..], b[1..], c[1..]);
    }
  }

  /** The verdict is a strict total order on data: opposite on both sides, Same only for equal data, transitive. */
  lemma VerdictIsTotalOrder(a: seq<byte>, b: seq<byte>, c: seq<byte>)
    ensures Compare(b, a) == Flip(Compare(a, b)) && (Compare(a, b).Same? <==> a == b)
    ensures Compare(a, b).WeWin? && Compare(b, c).WeWin? ==> Compare(a, c).WeWin?
  {
    if |a| == |b| {
      MemcmpFlips(a, b);
    }
    if |a| == |b| == |c| && Memcmp(a, b) > 0 && Memcmp(b, c) > 0 {
      MemcmpTransitive(a, b, c);
    }
  }

  lemma U16Injective(v: nat, w: nat)
    requires v < 0x10000 && w < 0x10000 && U16Bytes(v) == U16Bytes(w)
    ensures v == w
  {
    assert U16Bytes(v)[0] == U16Bytes(w)[0] && U16Bytes(v)[1] == U16Bytes(w)[1];
  }

  lemma SrvParts(s: Srv)
    ensures var x := SrvData(s, LOCAL);
            && |x| == 14 + |s.host|
            && x[0..2] == U16Bytes(s.priority) && x[2..4] == U16Bytes(s.weight) && x[4..6] == U16Bytes(s.port)
               && x[7..7 + |s.host|] == s.host
  {
    var head := U16Bytes(s.priority) + U16Bytes(s.weight) + U16Bytes(s.port) + [|s.host| % 256];
    assert SrvData(s, LOCAL) == head + s.host + ([|LOCAL| % 256] + LOCAL + [0]);
  }

  lemma SrvDataInjective(a: Srv, b: Srv)
    requires ValidSrv(a) && ValidSrv(b) && SrvData(a, LOCAL) == SrvData(b, LOCAL)
    ensures a == b
  {
    hide SrvData, U16Bytes;
    SrvParts(a);
    SrvParts(b);
    U16Injective(a.priority, b.priority);
    U16Injective(a.weight, b.weight);
    U16Injective(a.port, b.port);
  }

  /**
   Two hosts that run the SRV check on each other's records get opposite verdicts, and no verdict
   only if the records are byte for byte the same; and a host that beats a second one beats
   whatever the second one beats.
   */
  lemma SrvTieBreak(a: Srv, b: Srv, c: Srv)
    requires ValidSrv(a) && ValidSrv(b)
    ensures Compare(SrvData(b, LOCAL), SrvData(a, LOCAL)) == Flip(Compare(SrvData(a, LOCAL), SrvData(b, LOCAL)))
    ensures Compare(SrvData(a, LOCAL), SrvData(b, LOCAL)).Same? <==> a == b
    ensures Compare(SrvData(a, LOCAL), SrvData(b, LOCAL)).WeWin? && Compare(SrvData(b, LOCAL), SrvData(c, LOCAL)).WeWin?
            ==> Compare(SrvData(a, LOCAL), SrvData(c, LOCAL)).WeWin?
  {
    VerdictIsTotalOrder(SrvData(a, LOCAL), SrvData(b, LOCAL), SrvData(c, LOCAL));
    if SrvData(a, LOCAL) == SrvData(b, LOCAL) {
      SrvDataInjective(a, b);
    }
  }

  // ----- one winner -----

  /** The w-th piece of data beats every other. */
  ghost predicate Beats(data: seq<seq<byte>>, w: nat)
    requires w < |data|
  {
    forall j | 0 <= j < |data| && j != w :: Compare(data[w], data[j]).WeWin?
  }

  /** Among any number of pieces of data that all differ exactly one beats all the others. */
  lemma {:induction false} DataWinner(data: seq<seq<byte>>) returns (w: nat)
    requires data != [] && forall i, j | 0 <= i < j < |data| :: data[i] != data[j]
    ensures w < |data| && Beats(data, w)
    ensures forall v | 0 <= v < |data| && Beats(data, v) :: v == w
    decreases |data|
  {
    hide Compare;
    var n := |data| - 1;
    if n == 0 {
      w := 0;
    } else {
      var init := data[..n];
      w := DataWinner(init);
      assert init[w] == data[w];
      VerdictIsTotalOrder(data[w], data[n], data[n]);
      if Compare(data[w], data[n]).WeWin? {
        forall j | 0 <= j < |data| && j != w
          ensures Compare(data[w], data[j]).WeWin?
        {
          assert j < n ==> init[j] == data[j];
        }
      } else {
        NewWinner(data, w);
        w := n;
      }
    }
    forall v | 0 <= v < |data| && Beats(data, v)
      ensures v == w
    {
      if v != w {
        VerdictIsTotalOrder(data[v], data[w], data[w]);
      }
    }
  }

  lemma NewWinner(data: seq<seq<byte>>, w: nat)
    requires |data| > 1 && w < |data| - 1 && Beats(data[..|data| - 1], w)
    requires data[w] != data[|data| - 1] && !Compare(data[w], data[|data| - 1]).WeWin?
    ensures Beats(data, |data| - 1)
  {
    hide Compare;
    var n := |data| - 1;
    var init := data[..n];
    VerdictIsTotalOrder(data[w], data[n], data[n]);
    forall j | 0 <= j < n
      ensures Compare(data[n], data[j]).WeWin?
    {
      assert init[w] == data[w] && init[j] == data[j];
      VerdictIsTotalOrder(data[n], data[w], data[j]);
    }
  }

  /** The v-th prober wins the SRV check against every other. */
  ghost predicate WinsSrv(hosts: seq<Srv>, v: nat)
    requires v < |hosts|
  {
    forall j | 0 <= j < |hosts| && j != v :: Compare(SrvData(hosts[v], LOCAL), SrvData(hosts[j], LOCAL)).WeWin?
  }

  function AllSrvData(hosts: seq<Srv>): (r: seq<seq<byte>>)
    ensures |r| == |hosts| && forall i | 0 <= i < |hosts| :: r[i] == SrvData(hosts[i], LOCAL)
  {
    seq(|hosts|, i requires 0 <= i < |hosts| => SrvData(hosts[i], LOCAL))
  }

  lemma WinsIsBeats(hosts: seq<Srv>, v: nat)
    requires v < |hosts|
    ensures WinsSrv(hosts, v) <==> Beats(AllSrvData(hosts), v)
  {
    hide Compare, SrvData;
    var data := AllSrvData(hosts);
    assert forall j | 0 <= j < |hosts| :: data[j] == SrvData(hosts[j], LOCAL);
    if Beats(data, v) {
      forall j | 0 <= j < |hosts| && j != v
        ensures Compare(SrvData(hosts[v], LOCAL), SrvData(hosts[j], LOCAL)).WeWin?
      {
        assert Compare(data[v], data[j]).WeWin?;
      }
    }
  }

  /** Among any number of distinct probers exactly one wins the SRV check against all the others. */
  lemma {:induction false} OneWinner(hosts: seq<Srv>) returns (w: nat)
    requires hosts != [] && forall i | 0 <= i < |hosts| :: ValidSrv(hosts[i])
    requires forall i, j | 0 <= i < j < |hosts| :: hosts[i] != hosts[j]
    ensures w < |hosts| && forall v | 0 <= v < |hosts| :: WinsSrv(hosts, v) <==> v == w
  {
    hide Compare, SrvData, Beats, WinsSrv, ValidSrv;
    var data := AllSrvData(hosts);
    forall i, j | 0 <= i < j < |hosts|
      ensures data[i] != data[j]
    {
      if SrvData(hosts[i], LOCAL) == SrvData(hosts[j], LOCAL) {
        SrvDataInjective(hosts[i], hosts[j]);
      }
    }
    w := DataWinner(data);
    forall v | 0 <= v < |hosts|
      ensures WinsSrv(hosts, v) <==> v == w
    {
      WinsIsBeats(hosts, v);
    }
  }

  // ----- TXT -----

  /** The TXT check: our items against the data of their record. */
  method CheckTxtCollision(ours: seq<Item>, data: seq<byte>) returns (v: Verdict)
    ensures v == TxtVerdict(ours, data)
    ensures AllValid(ours) && data != [] ==> v == if ours == [] && |data| == 1 then Same else Winner(Encode(ours), data)
  {
    hide Winner, TxtVerdict, Encode;
    if AllValid(ours) && data != [] {
      TxtDirection(ours, data);
    }
    TxtCases(ours, data);
    if |data| == 1 && ours != [] {
      return WeWin;
    } else if |data| > 1 && ours == [] {
      return TheyWin;
    } else if |data| == 1 && ours == [] {
      return Same;
    }
    var ourData: seq<byte> := [];
    var i := 0;
    assert ours[0..] == ours;
    while i < |ours|
      invariant i <= |ours| && ourData + Entries(ours[i..]) == Entries(ours)
    {
      EntriesSnoc(ours, i);
      assert ourData + (Entry(ours[i]) + Entries(ours[i + 1..])) == ourData + Entry(ours[i]) + Entries(ours[i + 1..]);
      ourData := ourData + Entry(ours[i]);
      i := i + 1;
    }
    assert ours[|ours|..] == [] && ourData + [] == ourData;
    if |data| > |ourData| {
      return TheyWin;
    } else if |data| < |ourData| {
      return WeWin;
    }
    var r := CompareBytes(ourData, data);
    return if r > 0 then WeWin else if r < 0 then TheyWin else Same;
  }

  /** Unless both are empty the TXT check lets the longer data win, or the larger byte where they first differ. */
  lemma TxtDirection(ours: seq<Item>, data: seq<byte>)
    requires AllValid(ours) && data != []
    ensures TxtVerdict(ours, data) == if ours == [] && |data| == 1 then Same else Winner(Encode(ours), data)
  {
    hide Winner, Compare;
    if ours != [] || |data| != 1 {
      TxtCheckIsComparison(ours, data);
      CompareDecides(Encode(ours), data);
    }
  }

  lemma TxtCases(ours: seq<Item>, data: seq<byte>)
    ensures |data| == 1 && ours != [] ==> TxtVerdict(ours, data) == WeWin
    ensures |data| > 1 && ours == [] ==> TxtVerdict(ours, data) == TheyWin
    ensures |data| == 1 && ours == [] ==> TxtVerdict(ours, data) == Same
    ensures !(|data| == 1 || (|data| > 1 && ours == [])) ==> TxtVerdict(ours, data) == Compare(Entries(ours), data)
  {
  }

  /** The verdict as the code reaches it. */
  function TxtVerdict(ours: seq<Item>, data: seq<byte>): Verdict {
    if |data| == 1 && ours != [] then WeWin
    else if |data| > 1 && ours == [] then TheyWin
    else if |data| == 1 && ours == [] then Same
    else Compare(Entries(ours), data)
  }

  /**
   For items with keys and for non-empty data the TXT check is the same comparison, with no items
   read as one zero byte, except that any single byte counts as that zero byte.
   */
  lemma TxtCheckIsComparison(ours: seq<Item>, data: seq<byte>)
    requires AllValid(ours) && data != []
    ensures TxtVerdict(ours, data) == Compare(Encode(ours), data) <==> !(ours == [] && |data| == 1 && data[0] != 0)
  {
    if ours != [] {
      AtLeastTwo(ours);
    } else if |data| == 1 {
      assert Memcmp([0], data) + data[0] == 0 by {
        assert Memcmp([], data[1..]) == 0;
      }
    }
  }

  /** Against the data of another host the TXT check is the comparison. */
  lemma TxtAgainstHost(a: seq<Item>, b: seq<Item>)
    requires AllValid(a) && AllValid(b)
    ensures TxtVerdict(a, Encode(b)) == Compare(Encode(a), Encode(b))
  {
    if b != [] {
      AtLeastTwo(b);
    }
    TxtCheckIsComparison(a, Encode(b));
  }

  /**
   Two hosts that run the TXT check on each other's records get opposite verdicts, and none only
   for equal data; and a host that beats a second one beats whatever the second one beats.
   */
  lemma TxtTieBreak(a: seq<Item>, b: seq<Item>, c: seq<Item>)
    requires AllValid(a) && AllValid(b) && AllValid(c)
    ensures TxtVerdict(b, Encode(a)) == Flip(TxtVerdict(a, Encode(b)))
    ensures TxtVerdict(a, Encode(b)).Same? <==> Encode(a) == Encode(b)
    ensures TxtVerdict(a, Encode(b)).WeWin? && TxtVerdict(b, Encode(c)).WeWin? ==> TxtVerdict(a, Encode(c)).WeWin?
  {
    hide TxtVerdict, Encode, Compare;
    TxtAgainstHost(a, b);
    TxtAgainstHost(b, a);
    TxtAgainstHost(b, c);
    TxtAgainstHost(a, c);
    VerdictIsTotalOrder(Encode(a), Encode(b), Encode(c));
  }

  /** The v-th host wins the TXT check against every other. */
  ghost predicate WinsTxt(hosts: seq<seq<Item>>, v: nat)
    requires v < |hosts|
  {
    forall j | 0 <= j < |hosts| && j != v :: TxtVerdict(hosts[v], Encode(hosts[j])).WeWin?
  }

  function AllTxtData(hosts: seq<seq<Item>>): (r: seq<seq<byte>>)
    ensures |r| == |hosts| && forall i | 0 <= i < |hosts| :: r[i] == Encode(hosts[i])
  {
    seq(|hosts|, i requires 0 <= i < |hosts| => Encode(hosts[i]))
  }

  lemma WinsTxtIsBeats(hosts: seq<seq<Item>>, v: nat)
    requires v < |hosts| && forall i | 0 <= i < |hosts| :: AllValid(hosts[i])
    ensures WinsTxt(hosts, v) <==> Beats(AllTxtData(hosts), v)
  {
    hide Compare, Encode, TxtVerdict, AllValid;
    var data := AllTxtData(hosts);
    forall j | 0 <= j < |hosts|
      ensures TxtVerdict(hosts[v], Encode(hosts[j])) == Compare(data[v], data[j])
    {
      TxtAgainstHost(hosts[v], hosts[j]);
    }
    if Beats(data, v) {
      forall j | 0 <= j < |hosts| && j != v
        ensures TxtVerdict(hosts[v], Encode(hosts[j])).WeWin?
      {
        assert Compare(data[v], data[j]).WeWin?;
      }
    }
  }

  /** Among any number of hosts whose TXT data all differ exactly one wins the TXT check against all the others. */
  lemma {:induction false} OneTxtWinner(hosts: seq<seq<Item>>) returns (w: nat)
    requires hosts != [] && forall i | 0 <= i < |hosts| :: AllValid(hosts[i])
    requires forall i, j | 0 <= i < j < |hosts| :: Encode(hosts[i]) != Encode(hosts[j])
    ensures w < |hosts| && forall v | 0 <= v < |hosts| :: WinsTxt(hosts, v) <==> v == w
  {
    hide Compare, Encode, Beats, WinsTxt, AllValid;
    w := DataWinner(AllTxtData(hosts));
    forall v | 0 <= v < |hosts|
      ensures WinsTxt(hosts, v) <==> v == w
    {
      WinsTxtIsBeats(hosts, v);
    }
  }
}
