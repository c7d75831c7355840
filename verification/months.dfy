/**
 * Calendar months as the budget grid sees them.
 *
 * Every Date the component builds is midnight on the first day of a month, so it is
 * fully described by its month number counted from January of year 0,
 * `year * 12 + monthIndex`, with JavaScript's zero-based `monthIndex`. A Date built
 * from a NaN part is the Invalid Date, against which every comparison is false.
 */
module Months {
  import opened Wrappers
  import opened Decimal

  /** A calendar month; `month` runs from 1 (January) to 12 (December). */
  datatype MonthKey = MonthKey(year: int, month: int)

  /** A Date at the first of a month, or the Invalid Date. */
  datatype MonthDate = Invalid | At(index: int)

  predicate ValidKey(k: MonthKey) { 1 <= k.month <= 12 }

  /** Months since January of year 0. */
  function Index(k: MonthKey): int { k.year * 12 + k.month - 1 }

  /** The calendar month of a month number (`getFullYear()`, `getMonth() + 1`). */
  function KeyOf(d: int): (k: MonthKey)
    ensures ValidKey(k) && Index(k) == d
  {
    MonthKey(d / 12, d % 12 + 1)
  }

  /** Strict calendar order: an earlier year, or the same year and an earlier month. */
  predicate Before(a: MonthKey, b: MonthKey)
  {
    a.year < b.year || (a.year == b.year && a.month < b.month)
  }

  /** The month after `k`; December rolls over to January of the next year. */
  function NextMonth(k: MonthKey): MonthKey
  {
    if k.month == 12 then MonthKey(k.year + 1, 1) else MonthKey(k.year, k.month + 1)
  }

  /** Month numbers and valid calendar months are in one-to-one correspondence. */
  lemma KeyOfIndex(k: MonthKey)
    requires ValidKey(k)
    ensures KeyOf(Index(k)) == k
  {
    var d := Index(k);
    assert d == 12 * k.year + (k.month - 1);
    assert d / 12 == k.year && d % 12 == k.month - 1;
  }

  /** The calendar order of months is the order of their month numbers. */
  lemma KeyOfMonotone(a: int, b: int)
    ensures a < b <==> Before(KeyOf(a), KeyOf(b))
  {
    var ka, kb := KeyOf(a), KeyOf(b);
    assert a == 12 * ka.year + (ka.month - 1) && b == 12 * kb.year + (kb.month - 1);
    if ka.year < kb.year {
      assert 12 * ka.year + 12 <= 12 * kb.year;
    } else if ka.year > kb.year {
      assert 12 * kb.year + 12 <= 12 * ka.year;
    }
  }

  /** Adding one to a month number moves to the next calendar month. */
  lemma KeyOfSucc(d: int)
    ensures KeyOf(d + 1) == NextMonth(KeyOf(d))
  {
    var k := KeyOf(d);
    var n := NextMonth(k);
    assert ValidKey(n) && Index(n) == d + 1;
    KeyOfIndex(n);
  }

  /** The year JavaScript's `new Date(y, m, d)` uses: a year from 0 to 99 means 1900 to 1999. */
  function FullYear(y: int): int
  {
    if 0 <= y <= 99 then 1900 + y else y
  }

  /**
   * `new Date(y, m0, 1)`. A month index outside 0..11 rolls into the neighbouring years,
   * which adding it to the month number of January does exactly.
   */
  function NewDate(y: int, m0: int): MonthDate
  {
    At(FullYear(y) * 12 + m0)
  }

  /** `new Date(d.getFullYear(), d.getMonth(), 1)`, as the range resolver copies its bounds. */
  function Rebuild(d: int): int
  {
    NewDate(d / 12, d % 12).index
  }

  /** Copying a Date keeps it, unless its year is 0..99, which the copy moves by 1900 years. */
  lemma RebuildEffect(d: int)
    ensures 0 <= KeyOf(d).year <= 99 ==> Rebuild(d) == d + 1900 * 12
    ensures !(0 <= KeyOf(d).year <= 99) ==> Rebuild(d) == d
  {
  }

  /**
   * The months from `start` to `end` inclusive, as `rangeMonths` lists them: nothing when
   * either bound is the Invalid Date or when the end precedes the start.
   */
  function MonthsBetween(start: MonthDate, end: MonthDate): seq<MonthKey>
  {
    if start.Invalid? || end.Invalid? then []
    else
      var first, last := Rebuild(start.index), Rebuild(end.index);
      seq(if first <= last then last - first + 1 else 0, i => KeyOf(first + i))
  }

  /** `rangeMonths`: walk from the start month to the end month one month at a time. */
  method RangeMonths(start: MonthDate, end: MonthDate) returns (arr: seq<MonthKey>)
    ensures arr == MonthsBetween(start, end)
  {
    arr := [];
    if start.At? && end.At? {
      var first := Rebuild(start.index);
      var cur := first;
      var last := Rebuild(end.index);
      while cur <= last
        invariant first <= cur && (cur == first || cur <= last + 1)
        invariant arr == seq(cur - first, i => KeyOf(first + i))
        decreases last - cur
      {
        arr := arr + [KeyOf(cur)];
        cur := cur + 1;
      }
      assert cur - first == if first <= last then last - first + 1 else 0;
    }
  }

  /** The length of the range is `max(0, last - first + 1)`, and zero for an Invalid Date. */
  lemma RangeLength(start: MonthDate, end: MonthDate)
    ensures start.Invalid? || end.Invalid? ==> MonthsBetween(start, end) == []
    ensures (start.At? && end.At? && Rebuild(end.index) < Rebuild(start.index))
              ==> MonthsBetween(start, end) == []
    ensures (start.At? && end.At? && Rebuild(start.index) <= Rebuild(end.index))
              ==> |MonthsBetween(start, end)| == Rebuild(end.index) - Rebuild(start.index) + 1
  {
  }

  /** A non-empty range starts at the start month and ends at the end month. */
  lemma RangeEndpoints(start: MonthDate, end: MonthDate)
    requires MonthsBetween(start, end) != []
    ensures var r := MonthsBetween(start, end);
      r[0] == KeyOf(Rebuild(start.index)) && r[|r| - 1] == KeyOf(Rebuild(end.index))
  {
  }

  /** The range is strictly increasing in calendar order. */
  lemma RangeIncreasing(start: MonthDate, end: MonthDate, i: int, j: int)
    requires 0 <= i < j < |MonthsBetween(start, end)|
    ensures Before(MonthsBetween(start, end)[i], MonthsBetween(start, end)[j])
  {
    var first := Rebuild(start.index);
    KeyOfMonotone(first + i, first + j);
  }

  /** Each month of the range is followed by the next calendar month. */
  lemma RangeConsecutive(start: MonthDate, end: MonthDate, i: int)
    requires 0 <= i && i + 1 < |MonthsBetween(start, end)|
    ensures MonthsBetween(start, end)[i + 1] == NextMonth(MonthsBetween(start, end)[i])
  {
    var first := Rebuild(start.index);
    var r := MonthsBetween(start, end);
    assert r[i] == KeyOf(first + i) && r[i + 1] == KeyOf(first + i + 1);
    KeyOfSucc(first + i);
  }

  /** A calendar month is in the range exactly when it lies between the two bounds. */
  lemma RangeMembership(start: MonthDate, end: MonthDate, k: MonthKey)
    requires start.At? && end.At? && ValidKey(k)
    ensures (k in MonthsBetween(start, end))
              <==> (Rebuild(start.index) <= Index(k) <= Rebuild(end.index))
  {
    var r := MonthsBetween(start, end);
    var first := Rebuild(start.index);
    if k in r {
      var i :| 0 <= i < |r| && r[i] == k;
      assert Index(KeyOf(first + i)) == first + i;
    }
    if first <= Index(k) <= Rebuild(end.index) {
      KeyOfIndex(k);
      assert r[Index(k) - first] == k;
    }
  }

  /** A one-month range holds that month alone. */
  lemma RangeSingleMonth()
    ensures MonthsBetween(NewDate(2025, 0), NewDate(2025, 0)) == [MonthKey(2025, 1)]
  {
    assert Rebuild(24300) == 24300;
    var r := MonthsBetween(At(24300), At(24300));
    assert |r| == 1;
    assert r[0] == KeyOf(24300) == MonthKey(2025, 1);
  }

  /** A range whose end precedes its start is empty. */
  lemma RangeReversed()
    ensures MonthsBetween(NewDate(2025, 2), NewDate(2025, 0)) == []
  {
    assert Rebuild(24302) == 24302;
    assert Rebuild(24300) == 24300;
  }

  lemma KeysAroundNewYear()
    ensures KeyOf(24298) == MonthKey(2024, 11) && KeyOf(24299) == MonthKey(2024, 12)
    ensures KeyOf(24300) == MonthKey(2025, 1) && KeyOf(24301) == MonthKey(2025, 2)
    ensures Rebuild(24298) == 24298 && Rebuild(24301) == 24301
  {
    KeyOfIndex(MonthKey(2024, 11));
    KeyOfIndex(MonthKey(2024, 12));
    KeyOfIndex(MonthKey(2025, 1));
    KeyOfIndex(MonthKey(2025, 2));
  }

  /** A range across a year end rolls December over to January. */
  lemma RangeAcrossYearEnd()
    ensures MonthsBetween(NewDate(2024, 10), NewDate(2025, 1))
              == [MonthKey(2024, 11), MonthKey(2024, 12), MonthKey(2025, 1), MonthKey(2025, 2)]
  {
    KeysAroundNewYear();
    var r := MonthsBetween(At(24298), At(24301));
    assert |r| == 4;
    assert r[0] == KeyOf(24298);
    assert r[1] == KeyOf(24299);
    assert r[2] == KeyOf(24300);
    assert r[3] == KeyOf(24301);
  }

  // ----- the "YYYY-MM" key and its parse -----

  /** A number as a template literal prints it. */
  function IntToString(n: int): (s: string)
  {
    if n < 0 then "-" + NatToString(-n) else NatToString(n)
  }

  /** `s.padStart(2, '0')`. */
  function PadStart2(s: string): (r: string)
    ensures |r| == if |s| < 2 then 2 else |s|
    ensures r[|r| - |s|..] == s
  {
    if |s| >= 2 then s else seq(2 - |s|, _ => '0') + s
  }

  /** `monthKeyFromDate`: the year, a dash, and the month number padded to two digits. */
  function MonthKeyFromDate(d: int): string
  {
    var k := KeyOf(d);
    IntToString(k.year) + "-" + PadStart2(NatToString(k.month))
  }

  /** `s.split('-')`: the pieces between dashes, always at least one. */
  function Split(s: string): (parts: seq<string>)
    ensures |parts| >= 1
  {
    if s == [] then [[]]
    else
      var rest := Split(s[1..]);
      if s[0] == '-' then [[]] + rest else [[s[0]] + rest[0]] + rest[1..]
  }

  /**
   * `parseInt(s, 10)`: an optional sign and the longest run of digits after it;
   * `None` is NaN (no digit at all).
   */
  function ParseInt(s: string): Option<int>
  {
    var signed := |s| > 0 && (s[0] == '-' || s[0] == '+');
    var body := if signed then s[1..] else s;
    var k := DigitRun(body);
    if k == 0 then None
    else
      var n: int := DigitsValue(body[..k]);
      Some(if |s| > 0 && s[0] == '-' then -n else n)
  }

  /**
   * `const [y, m] = v.split('-').map((s) => parseInt(s, 10))`; `None` when either part
   * is NaN, a missing second part included.
   */
  function ParseMonthInput(v: string): Option<(int, int)>
  {
    var parts := Split(v);
    if |parts| < 2 then None
    else
      match (ParseInt(parts[0]), ParseInt(parts[1]))
      case (Some(y), Some(m)) => Some((y, m))
      case _ => None
  }

  /** `new Date(y, m - 1, 1)` from a month input; NaN parts give the Invalid Date. */
  function DateFromInput(v: string): MonthDate
  {
    match ParseMonthInput(v)
    case Some((y, m)) => NewDate(y, m - 1)
    case None => Invalid
  }

  lemma {:induction false} SplitPlain(a: string)
    requires forall i :: 0 <= i < |a| ==> a[i] != '-'
    ensures Split(a) == [a]
  {
    if a != [] {
      SplitPlain(a[1..]);
      assert [a[0]] + a[1..] == a;
    }
  }

  lemma {:induction false} SplitAtDash(a: string, b: string)
    requires forall i :: 0 <= i < |a| ==> a[i] != '-'
    ensures Split(a + "-" + b) == [a] + Split(b)
  {
    var s := a + "-" + b;
    if a == [] {
      assert s[1..] == b;
    } else {
      assert s[1..] == a[1..] + "-" + b;
      SplitAtDash(a[1..], b);
      assert [a[0]] + a[1..] == a;
    }
  }

  lemma DigitsHaveNoDash(s: string)
    requires AllDigits(s)
    ensures forall i :: 0 <= i < |s| ==> s[i] != '-'
  {
    forall i | 0 <= i < |s| ensures s[i] != '-' { assert IsDigit(s[i]); }
  }

  lemma PaddedDigits(s: string)
    requires |s| >= 1 && AllDigits(s)
    ensures |PadStart2(s)| >= 1 && AllDigits(PadStart2(s))
    ensures DigitsValue(PadStart2(s)) == DigitsValue(s)
  {
    if |s| < 2 {
      assert PadStart2(s) == "0" + s;
      LeadingZero(s);
    }
  }

  lemma ParseDigits(s: string)
    requires |s| >= 1 && AllDigits(s)
    ensures ParseInt(s) == Some(DigitsValue(s))
  {
    DigitRunAll(s);
    assert s[..|s|] == s;
  }

  /** The key of a month with a non-negative year splits into its year and month digits. */
  lemma SplitMonthKey(d: int)
    requires KeyOf(d).year >= 0
    ensures Split(MonthKeyFromDate(d)) == [NatToString(KeyOf(d).year), PadStart2(NatToString(KeyOf(d).month))]
  {
    var k := KeyOf(d);
    var ys := NatToString(k.year);
    var mp := PadStart2(NatToString(k.month));
    assert MonthKeyFromDate(d) == ys + "-" + mp;
    PaddedDigits(NatToString(k.month));
    DigitsHaveNoDash(ys);
    DigitsHaveNoDash(mp);
    SplitAtDash(ys, mp);
    SplitPlain(mp);
  }

  /** For a non-negative year, the month key parses back to its year and month. */
  lemma MonthKeyRoundTrip(d: int)
    requires KeyOf(d).year >= 0
    ensures ParseMonthInput(MonthKeyFromDate(d)) == Some((KeyOf(d).year, KeyOf(d).month))
  {
    var k := KeyOf(d);
    SplitMonthKey(d);
    PaddedDigits(NatToString(k.month));
    ParseDigits(NatToString(k.year));
    ParseDigits(PadStart2(NatToString(k.month)));
    ValueOfNatToString(k.year);
    ValueOfNatToString(k.month);
  }

  /**
   * The key is the year in its shortest decimal spelling, a dash, and the month as
   * exactly two digits.
   */
  lemma MonthKeyFormat(d: int)
    requires KeyOf(d).year >= 0
    ensures var k := KeyOf(d);
      var mm := PadStart2(NatToString(k.month));
      MonthKeyFromDate(d) == NatToString(k.year) + "-" + mm
      && |mm| == 2 && AllDigits(mm) && DigitsValue(mm) == k.month
  {
    var k := KeyOf(d);
    var ms := NatToString(k.month);
    if k.month >= 10 {
      assert |NatToString(k.month / 10)| == 1;
    }
    assert |ms| <= 2;
    PaddedDigits(ms);
    ValueOfNatToString(k.month);
  }

  /**
   * Choosing the month a key names gives back the same month, except that a year from
   * 0 to 99 comes back 1900 years later.
   */
  lemma DateFromMonthKey(d: int)
    requires KeyOf(d).year >= 0
    ensures KeyOf(d).year >= 100 ==> DateFromInput(MonthKeyFromDate(d)) == At(d)
    ensures KeyOf(d).year <= 99 ==> DateFromInput(MonthKeyFromDate(d)) == At(d + 1900 * 12)
  {
    KeyDate(d);
    DateShift(MonthKeyFromDate(d), d, KeyOf(d));
  }

  lemma DateShift(v: string, d: int, k: MonthKey)
    requires DateFromInput(v) == At(FullYear(k.year) * 12 + k.month - 1)
    requires Index(k) == d && k.year >= 0
    ensures k.year >= 100 ==> DateFromInput(v) == At(d)
    ensures k.year <= 99 ==> DateFromInput(v) == At(d + 1900 * 12)
  {
  }

  lemma KeyDate(d: int)
    requires KeyOf(d).year >= 0
    ensures DateFromInput(MonthKeyFromDate(d)) == At(FullYear(KeyOf(d).year) * 12 + KeyOf(d).month - 1)
  {
    MonthKeyRoundTrip(d);
    DateOfParsed(MonthKeyFromDate(d), KeyOf(d).year, KeyOf(d).month);
  }

  lemma DateOfParsed(v: string, y: int, m: int)
    requires ParseMonthInput(v) == Some((y, m))
    ensures DateFromInput(v) == At(FullYear(y) * 12 + m - 1)
  {
  }
}
