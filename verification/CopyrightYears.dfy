/** Sets of copyright years as text (datestr and process_dates in
    util/find_copyrights.py). */
module CopyrightYears {
  import opened Common
  import opened Text

  // ---------------------------------------------------------------- printing

  datatype Run = Run(first: int, second: int)

  // add_output
  function Piece(r: Run): string {
    if r.first == r.second then Number(r.first) else Number(r.first) + "-" + Number(r.second)
  }

  // The runs of consecutive years of a sorted list.
  function Runs(ys: seq<int>): (rs: seq<Run>)
    requires ys != []
    ensures rs != []
  {
    if |ys| == 1 then [Run(ys[0], ys[0])]
    else Extend(Runs(ys[..|ys| - 1]), ys[|ys| - 1])
  }

  // the next year either lengthens the last run or starts a new one
  function Extend(rs: seq<Run>, y: int): (r: seq<Run>)
    requires rs != []
    ensures r != []
  {
    var l := rs[|rs| - 1];
    if y == l.second + 1 then rs[..|rs| - 1] + [Run(l.first, y)] else rs + [Run(y, y)]
  }

  function Pieces(rs: seq<Run>): (ps: seq<string>)
    ensures |ps| == |rs|
  {
    if rs == [] then [] else Pieces(rs[..|rs| - 1]) + [Piece(rs[|rs| - 1])]
  }

  function DateStr(ys: seq<int>): string
    requires ys != []
  {
    Join(Pieces(Runs(ys)), ',')
  }

  // ---------------------------------------------------------------- parsing

  predicate AllDigits(s: string) { forall i :: 0 <= i < |s| ==> IsDigit(s[i]) }

  // int(s), for an optionally signed digit string; None is the ValueError
  function ParseInt(s: string): Option<int> {
    if s == [] then None
    else
      var r := ParseNat(if s[0] == '-' || s[0] == '+' then s[1..] else s);
      if r.None? then None
      else
        var v: int := r.value;
        if s[0] == '-' then Some(-v) else Some(v)
  }

  // date_range_re.match: four digits, a dash, four digits, at the start of the string
  function MatchRange(s: string): Option<Run> {
    if |s| < 4 || !AllDigits(s[..4]) then None
    else
      var t := StripLeft(s[4..]);
      if t == [] || t[0] != '-' then None
      else
        var u := StripLeft(t[1..]);
        if |u| < 4 || !AllDigits(u[..4]) || ParseNat(s[..4]).None? || ParseNat(u[..4]).None? then None
        else Some(Run(ParseNat(s[..4]).value, ParseNat(u[..4]).value))
  }

  ghost predicate FourDigits(s: string) { |s| == 4 && AllDigits(s) }

  // s is a range: two four-digit numbers around a dash and blanks, and then anything.
  ghost predicate IsRange(s: string, f: string, x: string, y: string, l: string, rest: string) {
    s == f + x + "-" + y + l + rest && FourDigits(f) && FourDigits(l) && Blank(x) && Blank(y)
  }

  lemma {:induction false} FourDigitsRead(s: string)
    requires FourDigits(s)
    ensures ParseNat(s).Some?
  {
    ParseNatExact(s);
  }

  lemma {:induction false} StripLeftTo(x: string, s: string)
    requires Blank(x) && s != [] && !IsSpace(s[0])
    ensures StripLeft(x + s) == s
  {
    StripLeftBlank(x, s);
  }

  /** A range is read as its two years, whatever follows it. */
  lemma {:induction false} RangeRead(s: string, f: string, x: string, y: string, l: string, rest: string)
    requires IsRange(s, f, x, y, l, rest)
    ensures ParseNat(f).Some? && ParseNat(l).Some?
    ensures MatchRange(s) == Some(Run(ParseNat(f).value, ParseNat(l).value))
  {
    FourDigitsRead(f);
    FourDigitsRead(l);
    var u := l + rest;
    var t := "-" + (y + u);
    assert s[..4] == f && s[4..] == x + t;
    StripLeftTo(x, t);
    assert t[1..] == y + u && u[0] == l[0] && u[..4] == l;
    StripLeftTo(y, u);
  }

  lemma {:induction false} StripLeftSplits(s: string) returns (x: string)
    ensures Blank(x) && s == x + StripLeft(s)
  {
    x := [];
    if s != [] && IsSpace(s[0]) {
      var y := StripLeftSplits(s[1..]);
      x := [s[0]] + y;
    }
  }

  /** Nothing else is. */
  lemma {:induction false} OnlyRangesMatch(s: string)
    requires MatchRange(s).Some?
    ensures exists f, x, y, l, rest :: IsRange(s, f, x, y, l, rest)
  {
    var f, t := s[..4], StripLeft(s[4..]);
    var x := StripLeftSplits(s[4..]);
    var u := StripLeft(t[1..]);
    var y := StripLeftSplits(t[1..]);
    RangeGlued(s, f, x, t, y, u);
    assert FourDigits(f) && FourDigits(u[..4]);
    assert IsRange(s, f, x, y, u[..4], u[4..]);
  }

  lemma {:induction false} RangeGlued(s: string, f: string, x: string, t: string, y: string, u: string)
    requires |s| >= 4 && f == s[..4] && s[4..] == x + t && t != [] && t[0] == '-' && t[1..] == y + u && |u| >= 4
    ensures s == f + x + "-" + y + u[..4] + u[4..]
  {
    assert s == f + s[4..] && t == "-" + t[1..] && u == u[..4] + u[4..];
  }

  // for i in xrange(f, l + 1): output.add(i)
  function Between(r: Run): set<int>
    decreases r.second - r.first
  {
    if r.first > r.second then {} else Between(Run(r.first, r.second - 1)) + {r.second}
  }

  lemma {:induction false} BetweenMembers(r: Run)
    ensures forall i :: i in Between(r) <==> r.first <= i <= r.second
    decreases r.second - r.first
  {
    if r.first <= r.second { BetweenMembers(Run(r.first, r.second - 1)); }
  }

  // what one comma-separated item adds
  function Years(item: string): set<int> {
    var d := Strip(item);
    var m := MatchRange(d);
    if m.Some? then Between(m.value)
    else var n := ParseInt(d); if n.Some? then {n.value} else {}
  }

  /** A printed number is read back, and a minus sign is printed exactly for negative ones. */
  lemma {:induction false} NumberRead(n: int)
    ensures ParseInt(Number(n)) == Some(n)
    ensures Number(n)[0] == '-' <==> n < 0
  {
    var m := if n < 0 then -n else n;
    SignedRead(m, Decimal(m));
  }

  lemma {:induction false} SignedRead(m: int, d: string)
    requires m >= 0 && d == Decimal(m)
    ensures ParseInt(d) == Some(m) && ParseInt("-" + d) == Some(-m) && d[0] != '-'
  {
    ParseDecimal(m);
    DecimalDigits(m);
    assert d[0] in d;
    assert ("-" + d)[1..] == d;
  }

  /** Blanks around an item make no difference. */
  lemma {:induction false} YearsIgnoreBlanks(a: string, item: string, b: string)
    requires Blank(a) && Blank(b)
    ensures Years(a + item + b) == Years(item)
  {
    StripBlanks(a, item, b);
  }

  ghost predicate OneYear(ys: set<int>, n: Option<nat>, negative: bool) {
    n.Some? && var v: int := n.value; Same(ys, {if negative then -v else v})
  }

  /** An item that is not a range is read as one year if it is a number, with or without a
      sign, and adds nothing otherwise. */
  lemma {:induction false} SingleYear(item: string)
    requires MatchRange(Strip(item)).None?
    ensures var d := Strip(item);
            var n := if d != [] && (d[0] == '-' || d[0] == '+') then d[1..] else d;
            && (Years(item) != {} <==> n != [] && Digits(n))
            && (Years(item) != {} ==> OneYear(Years(item), ParseNat(n), d[0] == '-'))
  {
    var d := Strip(item);
    ParseNatExact(if d != [] && (d[0] == '-' || d[0] == '+') then d[1..] else d);
  }

  function YearsOf(items: seq<string>): set<int> {
    if items == [] then {} else YearsOf(items[..|items| - 1]) + Years(items[|items| - 1])
  }

  function ProcessDates(text: string): set<int> { YearsOf(Split(text, ',')) }

  // ---------------------------------------------------------------- the runs

  ghost predicate Increasing(ys: seq<int>) { forall i, j :: 0 <= i < j < |ys| ==> ys[i] < ys[j] }

  // Runs are non-empty, and a gap lies between each and the next: none can be merged.
  ghost predicate Maximal(rs: seq<Run>) {
    && (forall i :: 0 <= i < |rs| ==> rs[i].first <= rs[i].second)
    && (forall i, j :: 0 <= i < j < |rs| ==> rs[i].second + 1 < rs[j].first)
  }

  function Members(rs: seq<Run>): set<int> {
    if rs == [] then {} else Members(rs[..|rs| - 1]) + Between(rs[|rs| - 1])
  }

  function SetOf(ys: seq<int>): set<int> { set y | y in ys }

  lemma {:induction false} MembersSnoc(rs: seq<Run>, r: Run)
    ensures Members(rs + [r]) == Members(rs) + Between(r)
  {
    assert (rs + [r])[..|rs + [r]| - 1] == rs;
  }

  lemma {:induction false} ExtendMembers(rs: seq<Run>, y: int)
    requires rs != [] && rs[|rs| - 1].first <= rs[|rs| - 1].second < y
    ensures Members(Extend(rs, y)) == Members(rs) + {y}
    ensures Extend(rs, y)[|Extend(rs, y)| - 1].second == y
  {
    var l, t := rs[|rs| - 1], rs[..|rs| - 1];
    if y == l.second + 1 {
      MembersSnoc(t, Run(l.first, y));
      assert Between(Run(l.first, y)) == Between(Run(l.first, y - 1)) + {y};
      assert Run(l.first, y - 1) == l;
    } else {
      MembersSnoc(rs, Run(y, y));
    }
  }

  lemma {:induction false} ExtendMaximal(rs: seq<Run>, y: int)
    requires rs != [] && Maximal(rs) && rs[|rs| - 1].second < y
    ensures Maximal(Extend(rs, y))
  {
    var l, next := rs[|rs| - 1], Extend(rs, y);
    forall i, j | 0 <= i < j < |next| ensures next[i].second + 1 < next[j].first {
      if j == |rs| && i < |rs| - 1 { assert rs[i].second + 1 < l.first; }
    }
  }

  lemma {:induction false} IncreasingFront(ys: seq<int>)
    requires |ys| > 1 && Increasing(ys)
    ensures Increasing(ys[..|ys| - 1]) && ys[|ys| - 2] < ys[|ys| - 1]
  {
  }

  lemma {:induction false} RunsMaximal(ys: seq<int>)
    requires ys != [] && Increasing(ys)
    ensures Maximal(Runs(ys)) && Runs(ys)[|Runs(ys)| - 1].second == ys[|ys| - 1]
  {
    if |ys| > 1 {
      var t, y := ys[..|ys| - 1], ys[|ys| - 1];
      IncreasingFront(ys);
      RunsMaximal(t);
      ExtendMaximal(Runs(t), y);
      ExtendMembers(Runs(t), y);
    }
  }

  lemma {:induction false} SetOfSnoc(ys: seq<int>, y: int)
    ensures SetOf(ys + [y]) == SetOf(ys) + {y}
  {
  }

  lemma {:induction false} OneRun(y: int)
    ensures Members([Run(y, y)]) == {y}
  {
    MembersSnoc([], Run(y, y));
    assert [] + [Run(y, y)] == [Run(y, y)];
  }

  lemma {:induction false} RunsMembers(ys: seq<int>)
    requires ys != [] && Increasing(ys)
    ensures Members(Runs(ys)) == SetOf(ys)
  {
    if |ys| == 1 {
      SingleRun(ys[0], ys);
    } else {
      var t, y := ys[..|ys| - 1], ys[|ys| - 1];
      IncreasingFront(ys);
      RunsMembers(t);
      RunsMaximal(t);
      NextYear(t, y, Runs(t), ys);
    }
  }

  lemma {:induction false} SingleRun(y: int, ys: seq<int>)
    requires ys == [y]
    ensures Members([Run(y, y)]) == SetOf(ys)
  {
    OneRun(y);
    assert ys == [] + [y];
    SetOfSnoc([], y);
  }

  lemma {:induction false} NextYear(t: seq<int>, y: int, rs: seq<Run>, ys: seq<int>)
    requires t != [] && ys == t + [y] && rs == Runs(t) && Maximal(rs) && Members(rs) == SetOf(t)
    requires rs[|rs| - 1].second < y
    ensures Members(Extend(rs, y)) == SetOf(ys)
  {
    ExtendMembers(rs, y);
    SetOfSnoc(t, y);
  }

  /** The printed ranges are increasing, disjoint and cannot be merged, and they cover
      exactly the years of the list. */
  lemma {:induction false} RunsCorrect(ys: seq<int>)
    requires ys != [] && Increasing(ys)
    ensures Maximal(Runs(ys)) && Members(Runs(ys)) == SetOf(ys)
    ensures Runs(ys)[|Runs(ys)| - 1].second == ys[|ys| - 1]
  {
    RunsMaximal(ys);
    RunsMembers(ys);
  }

  // ---------------------------------------------------------------- reading one range back

  lemma {:induction false} ParseNatSplit(s: string)
    requires s != [] && AllDigits(s)
    ensures ParseNat(s).Some?
    ensures |s| == 4 ==> ParseNat(s).value < 10000
  {
    if |s| > 1 {
      ParseNatSplit(s[..|s| - 1]);
      ParseNatLess(s);
    }
  }

  // a value with k digits is below 10^k, for the few k that matter
  lemma {:induction false} ParseNatLess(s: string)
    requires s != [] && AllDigits(s) && ParseNat(s).Some?
    ensures |s| == 1 ==> ParseNat(s).value < 10
    ensures |s| == 2 ==> ParseNat(s).value < 100
    ensures |s| == 3 ==> ParseNat(s).value < 1000
    ensures |s| == 4 ==> ParseNat(s).value < 10000
  {
    if |s| > 1 { ParseNatLess(s[..|s| - 1]); }
  }

  lemma {:induction false} ParseNatNeedsDigits(s: string, i: nat)
    requires i < |s| && !IsDigit(s[i])
    ensures ParseNat(s).None?
  {
    if i < |s| - 1 { ParseNatNeedsDigits(s[..|s| - 1], i); }
  }

  lemma {:induction false} DecimalLength(n: nat)
    ensures |Decimal(n)| <= 3 <==> n < 1000
    ensures |Decimal(n)| == 4 <==> 1000 <= n < 10000
    ensures AllDigits(Decimal(n))
  {
    DecimalDigits(n);
    if n >= 10 {
      DecimalLengthThree(n / 10);
    }
  }

  lemma {:induction false} DecimalLengthThree(n: nat)
    ensures |Decimal(n)| <= 2 <==> n < 100
    ensures |Decimal(n)| == 3 <==> 100 <= n < 1000
  {
    if n >= 10 {
      assert |Decimal(n / 10)| == 1 <==> n / 10 < 10;
      if n >= 100 { assert |Decimal(n / 100)| == 1 <==> n / 100 < 10; assert n / 10 / 10 == n / 100; }
    }
  }

  // A digit is neither a space nor a sign.
  lemma {:induction false} DigitChars(c: char)
    requires IsDigit(c)
    ensures !IsSpace(c) && c != '-' && c != '+' && c != ','
  {
  }

  lemma {:induction false} StripLeftStops(s: string)
    requires s == [] || !IsSpace(s[0])
    ensures StripLeft(s) == s
  {
  }

  lemma {:induction false} SingleNoRange(n: int)
    ensures MatchRange(Number(n)).None?
  {
    var s := Number(n);
    if n < 0 {
      assert s[0] == '-';
      if |s| >= 4 { assert s[..4][0] == '-'; }
    } else {
      DecimalLength(n);
      if |s| > 4 {
        DigitChars(s[4]);
        assert s[4..][0] == s[4];
        StripLeftStops(s[4..]);
      } else if |s| == 4 {
        assert s[4..] == [];
      }
    }
  }

  lemma {:induction false} SingleParses(n: int)
    ensures ParseInt(Number(n)) == Some(n)
  {
    var s := Number(n);
    if n < 0 {
      assert s[0] == '-' && s[1..] == Decimal(-n);
      ParseDecimal(-n);
    } else {
      DecimalLength(n);
      DigitChars(s[0]);
      ParseDecimal(n);
    }
  }

  // "first-second" is not a number.
  lemma {:induction false} RangeNotNumber(r: Run)
    requires r.first < r.second
    ensures ParseInt(Piece(r)).None?
  {
    var a, s := Number(r.first), Piece(r);
    assert s[|a|] == '-';
    if r.first >= 0 {
      DecimalLength(r.first);
      DigitChars(a[0]);
      assert s[0] == a[0];
      ParseNatNeedsDigits(s, |a|);
    } else {
      assert a[0] == '-' && s[0] == '-' && |a| > 1;
      assert s[1..][|a| - 1] == s[|a|];
      ParseNatNeedsDigits(s[1..], |a| - 1);
    }
  }

  // Unless the first year has four digits the range is not recognised.
  lemma {:induction false} RangeUnrecognised(r: Run)
    requires r.first < r.second && !(1000 <= r.first <= 9999)
    ensures MatchRange(Piece(r)).None?
  {
    var a, s := Number(r.first), Piece(r);
    if r.first < 0 {
      assert s[0] == '-';
      if |s| >= 4 { assert s[..4][0] == '-'; }
    } else {
      DecimalLength(r.first);
      assert s[|a|] == '-';
      if r.first < 1000 {
        if |s| >= 4 { assert s[..4][|a|] == '-'; }
      } else {
        assert s[4] == a[4] && s[4..][0] == s[4];
        DigitChars(a[4]);
        StripLeftStops(s[4..]);
      }
    }
  }

  // A range that starts with a four-digit year is read up to four digits of its end.
  lemma {:induction false} RangeRecognised(r: Run)
    requires r.first < r.second && 1000 <= r.first <= 9999
    ensures var m := MatchRange(Piece(r));
            && m.Some? && m.value.first == r.first && m.value.second <= 9999
            && (r.second <= 9999 ==> m.value == r)
  {
    var a, b, s := Number(r.first), Number(r.second), Piece(r);
    DecimalLength(r.first);
    DecimalLength(r.second);
    ParseDecimal(r.first);
    ParseDecimal(r.second);
    assert s[..4] == a && s[4..] == "-" + b;
    assert s[4..][0] == '-' && s[4..][1..] == b;
    StripLeftStops(s[4..]);
    DigitChars(b[0]);
    StripLeftStops(b);
    assert AllDigits(b[..4]);
    ParseNatSplit(b[..4]);
    if r.second <= 9999 { assert b[..4] == b; }
  }

  // The runs whose text is read back.
  predicate Readable(r: Run) { r.first == r.second || (1000 <= r.first && r.second <= 9999) }

  lemma {:induction false} PieceChars(r: Run)
    requires r.first <= r.second
    ensures Piece(r) != [] && forall c :: c in Piece(r) ==> IsDigit(c) || c == '-'
    ensures Strip(Piece(r)) == Piece(r)
  {
    DecimalDigits(if r.first < 0 then -r.first else r.first);
    DecimalDigits(if r.second < 0 then -r.second else r.second);
    var s := Piece(r);
    assert forall c :: c in Number(r.first) ==> IsDigit(c) || c == '-';
    assert forall c :: c in Number(r.second) ==> IsDigit(c) || c == '-';
    assert s[0] in s && s[|s| - 1] in s;
    StripNothing(s);
  }

  ghost predicate Same(a: set<int>, b: set<int>) { forall y :: y in a <==> y in b }

  ghost predicate Within(a: set<int>, b: set<int>) { forall y :: y in a ==> y in b }

  lemma {:induction false} PieceYears(r: Run)
    requires r.first <= r.second
    ensures Within(Years(Piece(r)), Between(r))
    ensures Same(Years(Piece(r)), Between(r)) <==> Readable(r)
  {
    PieceChars(r);
    BetweenMembers(r);
    if r.first == r.second {
      SingleNoRange(r.first);
      SingleParses(r.first);
    } else if 1000 <= r.first <= 9999 {
      RangeRecognised(r);
      var m := MatchRange(Piece(r)).value;
      BetweenMembers(m);
      assert Years(Piece(r)) == Between(m);
      if r.second > 9999 { assert r.second in Between(r) && r.second !in Between(m); }
    } else {
      RangeUnrecognised(r);
      RangeNotNumber(r);
      assert r.first in Between(r);
    }
  }

  // ---------------------------------------------------------------- the round trip

  lemma {:induction false} PiecesPlain(rs: seq<Run>)
    requires Maximal(rs)
    ensures forall p :: p in Pieces(rs) ==> ',' !in p
  {
    if rs != [] {
      assert Maximal(rs[..|rs| - 1]);
      PiecesPlain(rs[..|rs| - 1]);
      PieceChars(rs[|rs| - 1]);
    }
  }

  lemma {:induction false} MembersBelow(rs: seq<Run>, bound: int)
    requires forall i :: 0 <= i < |rs| ==> rs[i].second < bound
    ensures forall y :: y in Members(rs) ==> y < bound
  {
    if rs != [] {
      MembersBelow(rs[..|rs| - 1], bound);
      BetweenMembers(rs[|rs| - 1]);
    }
  }

  lemma {:induction false} PiecesReadBack(rs: seq<Run>)
    requires Maximal(rs)
    ensures Within(YearsOf(Pieces(rs)), Members(rs))
    ensures Same(YearsOf(Pieces(rs)), Members(rs)) <==> forall r :: r in rs ==> Readable(r)
  {
    if rs != [] {
      var t, l := rs[..|rs| - 1], rs[|rs| - 1];
      assert Maximal(t);
      PiecesReadBack(t);
      PieceYears(l);
      MembersBelow(t, l.first);
      BetweenMembers(l);
      assert Pieces(rs)[..|rs| - 1] == Pieces(t);
      assert forall r :: r in rs <==> r in t || r == l;
    }
  }

  /** Printing a non-empty set of years and reading the text gives the set back exactly
      when every printed range of two or more years has four-digit ends. */
  lemma {:induction false} DatesRoundTrip(ys: seq<int>)
    requires ys != [] && Increasing(ys)
    ensures Same(ProcessDates(DateStr(ys)), SetOf(ys)) <==> forall r :: r in Runs(ys) ==> Readable(r)
  {
    var rs := Runs(ys);
    RunsCorrect(ys);
    PiecesPlain(rs);
    SplitJoin(Pieces(rs), ',');
    PiecesReadBack(rs);
  }

  /** In particular all sets of four-digit years come back. */
  lemma {:induction false} FourDigitYears(ys: seq<int>)
    requires ys != [] && Increasing(ys) && forall y :: y in ys ==> 1000 <= y <= 9999
    ensures Same(ProcessDates(DateStr(ys)), SetOf(ys))
  {
    DatesRoundTrip(ys);
    RunsCorrect(ys);
    forall r | r in Runs(ys) ensures Readable(r) {
      RunInside(Runs(ys), r);
      assert r.first in SetOf(ys) && r.second in SetOf(ys);
    }
  }

  lemma {:induction false} RunInside(rs: seq<Run>, r: Run)
    requires r in rs && r.first <= r.second
    ensures r.first in Members(rs) && r.second in Members(rs)
  {
    if r == rs[|rs| - 1] { BetweenMembers(r); } else { RunInside(rs[..|rs| - 1], r); }
  }

  // Item k of a printed text: the one year of the run, or its first and last year around
  // a dash.
  ghost predicate ShowsRun(item: string, r: Run) {
    item == if r.first == r.second then Number(r.first) else Number(r.first) + "-" + Number(r.second)
  }

  lemma {:induction false} PiecesSplit(rs: seq<Run>, text: string) returns (items: seq<string>)
    requires rs != [] && Maximal(rs) && text == Join(Pieces(rs), ',')
    ensures items == Split(text, ',') && items == Pieces(rs)
  {
    PiecesPlain(rs);
    items := Pieces(rs);
    SplitJoin(items, ',');
  }

  /** The printed text: the runs in order, separated by commas. */
  lemma {:induction false} DateStrFormat(ys: seq<int>, text: string) returns (items: seq<string>)
    requires ys != [] && Increasing(ys) && text == DateStr(ys)
    ensures items == Split(text, ',') && |items| == |Runs(ys)|
    ensures forall k :: 0 <= k < |items| ==> ShowsRun(items[k], Runs(ys)[k])
  {
    var rs := Runs(ys);
    RunsCorrect(ys);
    items := PiecesSplit(rs, text);
    forall k | 0 <= k < |items| ensures ShowsRun(items[k], rs[k]) { PiecesAt(rs, k); }
  }

  lemma {:induction false} PiecesAt(rs: seq<Run>, k: nat)
    requires k < |rs|
    ensures Pieces(rs)[k] == Piece(rs[k])
  {
    if k < |rs| - 1 { PiecesAt(rs[..|rs| - 1], k); }
  }

  // ---------------------------------------------------------------- the programs

  /** datestr on the sorted list of a set of years; popping from an empty list raises. */
  method PrintDates(ys: seq<int>) returns (text: Option<string>)
    requires Increasing(ys)
    ensures text.None? <==> ys == []
    ensures text.Some? ==> text.value == DateStr(ys)
  {
    if ys == [] {
      return None;
    }
    var output: seq<string>, first, second := [], ys[0], ys[0];
    ghost var done: seq<Run> := [];
    for i := 1 to |ys|
      invariant Runs(ys[..i]) == done + [Run(first, second)]
      invariant output == Pieces(done)
    {
      var next := ys[i];
      assert ys[..i + 1][..i] == ys[..i];
      ghost var rs := Runs(ys[..i]);
      assert rs[..|rs| - 1] == done;
      if next == second + 1 {
        second := next;
      } else {
        PiecesSnoc(done, Run(first, second));
        output := output + [Piece(Run(first, second))];
        done := done + [Run(first, second)];
        first, second := next, next;
      }
    }
    assert ys[..|ys|] == ys;
    PiecesSnoc(done, Run(first, second));
    output := output + [Piece(Run(first, second))];
    text := Some(Join(output, ','));
  }

  lemma {:induction false} PiecesSnoc(rs: seq<Run>, r: Run)
    ensures Pieces(rs + [r]) == Pieces(rs) + [Piece(r)]
  {
    assert (rs + [r])[..|rs + [r]| - 1] == rs;
  }

  /** process_dates. */
  method ReadDates(text: string) returns (output: set<int>)
    ensures output == ProcessDates(text)
  {
    var items := Split(text, ',');
    output := {};
    for i := 0 to |items|
      invariant output == YearsOf(items[..i])
    {
      assert items[..i + 1][..i] == items[..i];
      output := output + Years(items[i]);
    }
    assert items[..|items|] == items;
  }

  /** Printing a set of years and reading the text back gives the same years exactly if
      every printed range can be read. */
  method PrintThenRead(ys: seq<int>) returns (back: Option<set<int>>)
    requires Increasing(ys)
    ensures back.None? <==> ys == []
    ensures back.Some? ==> (Same(back.value, SetOf(ys)) <==> forall r :: r in Runs(ys) ==> Readable(r))
  {
    var text := PrintDates(ys);
    if text.None? {
      return None;
    }
    var years := ReadDates(text.value);
    DatesRoundTrip(ys);
    back := Some(years);
  }
}
