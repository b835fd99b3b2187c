/** Conflict renaming: "name" becomes "name-2", "name-2" becomes "name-3", and so on. */
module NameMangling {
  import opened Bytes

  const DASH: byte := 45
  const INT_MAX: nat := 0x7fff_ffff

  // ----- decimal numbers -----

  predicate IsDigit(c: byte) { 48 <= c <= 57 }

  predicate AllDigits(s: text) {
    forall i | 0 <= i < |s| :: IsDigit(s[i])
  }

  /** sprintf("%d") of a number that is not negative. */
  function Decimal(v: nat): (r: text)
    ensures r != [] && AllDigits(r)
  {
    if v < 10 then [48 + v] else Decimal(v / 10) + [48 + v % 10]
  }

  function DigitValue(c: byte): nat
    requires IsDigit(c)
  {
    c - 48
  }

  /** The number that a string of digits stands for. */
  function Number(s: text): nat
    requires AllDigits(s)
  {
    if s == [] then 0 else Number(s[..|s| - 1]) * 10 + DigitValue(s[|s| - 1])
  }

  lemma {:induction false} NumberOfDecimal(v: nat)
    ensures Number(Decimal(v)) == v
    decreases v
  {
    if v >= 10 {
      NumberOfDecimal(v / 10);
      var d := Decimal(v);
      assert d[..|d| - 1] == Decimal(v / 10);
    }
  }

  /** A number needs no more digits than it was written with. */
  lemma {:induction false} DecimalIsShortest(s: text)
    requires s != [] && AllDigits(s)
    ensures |Decimal(Number(s))| <= |s|
    decreases |s|
  {
    if |s| > 1 {
      var init := s[..|s| - 1];
      DecimalIsShortest(init);
      assert Number(s) / 10 == Number(init);
      if Number(s) < 10 {
      } else {
        assert |Decimal(Number(s))| == |Decimal(Number(init))| + 1;
      }
    } else {
      assert s[..0] == [];
    }
  }

  lemma {:induction false} IncrementLength(v: nat)
    ensures |Decimal(v)| <= |Decimal(v + 1)| <= |Decimal(v)| + 1
    decreases v
  {
    if v >= 10 {
      if v % 10 == 9 {
        IncrementLength(v / 10);
        assert (v + 1) / 10 == v / 10 + 1;
      } else {
        assert (v + 1) / 10 == v / 10;
      }
    }
  }

  // ----- the suffix of a name -----

  /** strrchr(s, '-'): behind the last dash, |s| + 1 if there is none. */
  function AfterDash(s: text): (k: nat)
    ensures k <= |s| + 1 && k > 0
    ensures k <= |s| ==> s[k - 1] == DASH && forall i | k <= i < |s| :: s[i] != DASH
    ensures k == |s| + 1 ==> DASH !in s
  {
    if s == [] then 1
    else if s[|s| - 1] == DASH then |s|
    else
      var k := AfterDash(s[..|s| - 1]);
      assert s == s[..|s| - 1] + [s[|s| - 1]];
      if k == |s| then |s| + 1 else k
  }

  predicate IsSpace(c: byte) { c == 32 || 9 <= c <= 13 }

  function SkipSpaces(s: text): text {
    if s != [] && IsSpace(s[0]) then SkipSpaces(s[1..]) else s
  }

  /** strtol on text without '-': white space, a plus sign, digits; the number only if that is all of the text. */
  datatype Suffix = NotNumeric | Numeric(v: nat)

  function Strtol(s: text): Suffix {
    if s == [] then Numeric(0)
    else
      var u := SkipSign(SkipSpaces(s));
      if u != [] && AllDigits(u) then Numeric(Number(u)) else NotNumeric
  }

  function SkipSign(s: text): text {
    if s != [] && s[0] == 43 then s[1..] else s
  }

  /** The numeric suffix of a name, if it has one. */
  function SuffixOf(s: text): Suffix {
    var k := AfterDash(s);
    if k > |s| then NotNumeric else Strtol(s[k..])
  }

  function Mangle(s: text): text {
    match SuffixOf(s)
    case NotNumeric => s + [DASH] + Decimal(2)
    case Numeric(v) => s[..AfterDash(s) - 1] + [DASH] + Decimal(v + 1)
  }

  /** The renaming, with its three outcomes of the search for a numeric suffix. */
  method MangleName(s: text) returns (r: text)
    ensures r == Mangle(s)
  {
    var p: nat := |s|;
    while p > 0 && s[p - 1] != DASH
      invariant p <= |s| && forall i | p <= i < |s| :: s[i] != DASH
    {
      p := p - 1;
    }
    DashFound(s, p);
    if p == 0 {
      return s + [DASH] + Decimal(2);
    }
    var suffix := Strtol(s[p..]);
    match suffix {
      case NotNumeric => return s + [DASH] + Decimal(2);
      case Numeric(v) => return s[..p - 1] + [DASH] + Decimal(v + 1);
    }
  }

  lemma DashFound(s: text, p: nat)
    requires p <= |s| && (p > 0 ==> s[p - 1] == DASH) && forall i | p <= i < |s| :: s[i] != DASH
    ensures AfterDash(s) == if p == 0 then |s| + 1 else p
  {
  }

  // ----- what the renaming promises -----

  lemma SkipNoSpaces(s: text)
    requires s != [] ==> !IsSpace(s[0])
    ensures SkipSpaces(s) == s
  {
  }

  /** A dash and a decimal number is a numeric suffix, whatever stands in front. */
  lemma SuffixOfDecimal(base: text, v: nat)
    ensures SuffixOf(base + [DASH] + Decimal(v)) == Numeric(v) && AfterDash(base + [DASH] + Decimal(v)) == |base| + 1
  {
    var s := base + [DASH] + Decimal(v);
    DashFound(s, |base| + 1);
    var d := Decimal(v);
    assert s[|base| + 1..] == d;
    SkipNoSpaces(d);
    NumberOfDecimal(v);
  }

  lemma MangleNumbered(base: text, v: nat)
    ensures Mangle(base + [DASH] + Decimal(v)) == base + [DASH] + Decimal(v + 1)
  {
    hide Decimal;
    SuffixOfDecimal(base, v);
    var r := base + [DASH] + Decimal(v);
    assert r[..|base|] == base;
  }

  /** The n-th renaming of a name. */
  function Renamed(s: text, n: nat): text {
    if n == 0 then s else Mangle(Renamed(s, n - 1))
  }

  /** The name without its numeric suffix, and the number the first renaming gives it. */
  function Base(s: text): text {
    if SuffixOf(s).Numeric? then s[..AfterDash(s) - 1] else s
  }

  function FirstNumber(s: text): nat {
    match SuffixOf(s) case NotNumeric => 2 case Numeric(v) => v + 1
  }

  /** Renaming counts up from the first number, on the same base, as long as the number is an int. */
  lemma {:induction false} RenamingCounts(s: text, n: nat)
    requires n > 0 && FirstNumber(s) + n - 1 <= INT_MAX
    ensures Renamed(s, n) == Base(s) + [DASH] + Decimal(FirstNumber(s) + n - 1)
    decreases n
  {
    hide Decimal, SuffixOf, AfterDash;
    if n == 1 {
      assert Renamed(s, 1) == Mangle(Renamed(s, 0));
    } else {
      RenamingCounts(s, n - 1);
      hide Mangle;
      MangleNumbered(Base(s), FirstNumber(s) + n - 2);
    }
  }

  /** No renaming gives a name that was there before, as long as the number is an int. */
  lemma {:induction false} NeverRepeats(s: text, m: nat, n: nat)
    requires m < n && FirstNumber(s) + n - 1 <= INT_MAX
    ensures Renamed(s, m) != Renamed(s, n)
  {
    hide Decimal, AfterDash, Strtol, Mangle, Number, AllDigits, SkipSpaces, SkipSign;
    RenamingCounts(s, n);
    SuffixOfDecimal(Base(s), FirstNumber(s) + n - 1);
    if m > 0 {
      RenamingCounts(s, m);
      SuffixOfDecimal(Base(s), FirstNumber(s) + m - 1);
    }
  }

  /** Distinct names that are all taken are no more than the taken names. */
  lemma {:induction false} AllTaken(s: text, n: nat, taken: set<text>)
    requires n == 0 || FirstNumber(s) + n - 1 <= INT_MAX
    requires forall k: nat | 0 < k <= n :: Renamed(s, k) in taken
    ensures n <= |taken|
    decreases n
  {
    if n > 0 {
      var rest := taken - {Renamed(s, n)};
      forall k: nat | 0 < k <= n - 1
        ensures Renamed(s, k) in rest
      {
        NeverRepeats(s, k, n);
      }
      AllTaken(s, n - 1, rest);
    }
  }

  /**
   Renaming always escapes: for any finite set of taken names, some renaming among the first
   |taken| + 1 is free; every suffix used on the way is a number of type int.
   */
  lemma {:induction false} RenamingEscapes(s: text, taken: set<text>) returns (n: nat)
    requires FirstNumber(s) + |taken| <= INT_MAX
    ensures 0 < n <= |taken| + 1 && Renamed(s, n) !in taken
    ensures forall k: nat | 0 < k <= n :: Renamed(s, k) == Base(s) + [DASH] + Decimal(FirstNumber(s) + k - 1)
                                     && FirstNumber(s) + k - 1 <= INT_MAX
  {
    hide Renamed, Decimal, Base, FirstNumber;
    if forall k: nat | 0 < k <= |taken| + 1 :: Renamed(s, k) in taken {
      AllTaken(s, |taken| + 1, taken);
    }
    n :| 0 < n <= |taken| + 1 && Renamed(s, n) !in taken;
    forall k: nat | 0 < k <= n
      ensures Renamed(s, k) == Base(s) + [DASH] + Decimal(FirstNumber(s) + k - 1) && FirstNumber(s) + k - 1 <= INT_MAX
    {
      RenamingCounts(s, k);
    }
  }

  lemma {:induction false} SkipShortens(s: text)
    ensures |SkipSpaces(s)| <= |s|
    decreases |s|
  {
    if s != [] && IsSpace(s[0]) {
      SkipShortens(s[1..]);
    }
  }

  /** The buffers fit: one more character for a numeric or empty suffix, two more without one. */
  lemma MangledFits(s: text)
    ensures SuffixOf(s).Numeric? ==> |Mangle(s)| <= |s| + 1
    ensures SuffixOf(s).NotNumeric? ==> |Mangle(s)| == |s| + 2
  {
    if SuffixOf(s).Numeric? {
      var v := SuffixOf(s).v;
      var tail := s[AfterDash(s)..];
      if tail != [] {
        assert Strtol(tail) == Numeric(v);
        SkipShortens(tail);
        DecimalIsShortest(SkipSign(SkipSpaces(tail)));
        IncrementLength(v);
      }
    }
  }

  // ----- which suffixes count -----

  /** Spaces, tabs, and the other white space that strtol skips. */
  predicate AllBlank(s: text) {
    forall i | 0 <= i < |s| :: s[i] == 32 || 9 <= s[i] <= 13
  }

  lemma {:induction false} SkipsBlanks(blanks: text, rest: text)
    requires AllBlank(blanks)
             && (rest != [] ==> !IsSpace(rest[0]))
    ensures SkipSpaces(blanks + rest) == rest
    decreases |blanks|
  {
    if blanks == [] {
      assert blanks + rest == rest;
    } else {
      assert (blanks + rest)[1..] == blanks[1..] + rest;
      SkipsBlanks(blanks[1..], rest);
    }
  }

  /**
   Behind the last dash, white space, a plus sign or none, and digits are a number, leading zeros or not:
   the renaming replaces all of that by the next number.
   */
  lemma {:induction false} NumberIsCounted(base: text, blanks: text, plus: text, digits: text)
    requires AllBlank(blanks) && (plus == [] || plus == [43])
    requires digits != [] && forall i | 0 <= i < |digits| :: 48 <= digits[i] <= 57
    ensures Mangle(base + [45] + (blanks + plus + digits)) == base + [45] + Decimal(Number(digits) + 1)
  {
    hide Strtol, Decimal, AfterDash, Number;
    var tail := blanks + plus + digits;
    assert 45 !in tail;
    LastDash(base, tail);
    TailIsNumber(blanks, plus, digits);
  }

  lemma LastDash(base: text, tail: text)
    requires 45 !in tail
    ensures var s := base + [45] + tail;
            AfterDash(s) == |base| + 1 && s[|base| + 1..] == tail && s[..|base|] == base
  {
    var s := base + [45] + tail;
    assert forall i | |base| + 1 <= i < |s| :: s[i] == tail[i - |base| - 1] && s[i] in tail;
    DashFound(s, |base| + 1);
  }

  lemma TailIsNumber(blanks: text, plus: text, digits: text)
    requires AllBlank(blanks) && (plus == [] || plus == [43])
    requires digits != [] && forall i | 0 <= i < |digits| :: 48 <= digits[i] <= 57
    ensures Strtol(blanks + plus + digits) == Numeric(Number(digits))
  {
    hide Number, AllBlank, Decimal, Strtol, SkipSpaces, SkipSign;
    assert blanks + plus + digits == blanks + (plus + digits);
    assert (plus + digits)[0] == if plus == [] then digits[0] else 43;
    SkipsBlanks(blanks, plus + digits);
    SignIsSkipped(plus, digits);
    AllOfIt(blanks + plus + digits);
  }

  lemma SignIsSkipped(plus: text, digits: text)
    requires (plus == [] || plus == [43]) && digits != [] && digits[0] != 43
    ensures SkipSign(plus + digits) == digits
  {
    if plus == [43] {
      assert (plus + digits)[1..] == digits;
    } else {
      assert plus + digits == digits;
    }
  }

  lemma AllOfIt(s: text)
    requires s != [] && SkipSign(SkipSpaces(s)) != [] && AllDigits(SkipSign(SkipSpaces(s)))
    ensures Strtol(s) == Numeric(Number(SkipSign(SkipSpaces(s))))
  {
  }

  /** Leading zeros do not change the number. */
  lemma {:induction false} ZerosDoNotCount(zeros: text, digits: text)
    requires (forall i | 0 <= i < |zeros| :: zeros[i] == 48) && AllDigits(digits)
    ensures AllDigits(zeros + digits) && Number(zeros + digits) == Number(digits)
    decreases |digits|, |zeros|
  {
    var all := zeros + digits;
    if digits != [] {
      assert all[..|all| - 1] == zeros + digits[..|digits| - 1];
      ZerosDoNotCount(zeros, digits[..|digits| - 1]);
    } else if zeros != [] {
      assert all[..|all| - 1] == zeros[..|zeros| - 1] + [];
      ZerosDoNotCount(zeros[..|zeros| - 1], []);
    }
  }

  /**
   A name without a dash, or with a character behind its last dash that is no digit, no plus sign and no white
   space, is kept whole, with "-2" behind it; a name that ends in a dash gets a "1".
   */
  lemma {:induction false} OtherwiseKept(s: text, base: text, tail: text, k: nat)
    ensures 45 !in s ==> Mangle(s) == s + [45, 50]
    ensures 45 !in tail && k < |tail| && !(48 <= tail[k] <= 57) && tail[k] != 43 && tail[k] != 32
            && !(9 <= tail[k] <= 13) ==>
              Mangle(base + [45] + tail) == base + [45] + tail + [45, 50]
    ensures Mangle(base + [45]) == base + [45, 49]
  {
    if 45 !in s {
      DashFound(s, 0);
      assert s + [45] + [50] == s + [45, 50];
    }
    if 45 !in tail && k < |tail| && !(48 <= tail[k] <= 57) && tail[k] != 43 && tail[k] != 32 && !(9 <= tail[k] <= 13) {
      LastDash(base, tail);
      StrangeStays(tail, k);
      var n := base + [45] + tail;
      assert n + [45] + [50] == n + [45, 50];
    }
    var d := base + [45];
    DashFound(d, |d|);
    assert d[|d|..] == [] && d[..|d| - 1] == base;
    assert base + [45] + [49] == base + [45, 49];
  }

  /** A strange character is still there when white space and a sign are skipped. */
  lemma {:induction false} StrangeStays(t: text, k: nat)
    requires k < |t| && !IsDigit(t[k]) && t[k] != 43 && !IsSpace(t[k])
    ensures Strtol(t) == NotNumeric
    decreases |t|
  {
    if IsSpace(t[0]) {
      StrangeStays(t[1..], k - 1);
    } else if t[0] == 43 {
      assert t[1..][k - 1] == t[k];
    }
  }

  /** Digits are decimal: behind 9 comes 10, and behind 99 comes 100. */
  lemma {:induction false} TenFollowsNine(base: text)
    ensures Mangle(base + [45] + [57]) == base + [45] + [49, 48]
    ensures Mangle(base + [45] + [57, 57]) == base + [45] + [49, 48, 48]
  {
    assert Decimal(9) == [57] && Decimal(1) == [49] && Decimal(10) == [49, 48];
    assert Decimal(99) == [57, 57] && Decimal(100) == [49, 48, 48];
    MangleNumbered(base, 9);
    MangleNumbered(base, 99);
  }
}
