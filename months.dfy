/** Month keys ("wrzesień 2025"), the calendar arithmetic behind them, and the month list
    the front end offers: the 13-month fallback window, de-duplication and the default choice. */
module Months {
  import opened Wrappers
  import opened Text

  /** The fixed Polish month table, shared with the backend; index 0 is January. */
  const MonthNames: seq<string> :=
    ["styczeń", "luty", "marzec", "kwiecień", "maj", "czerwiec", "lipiec",
     "sierpień", "wrzesień", "październik", "listopad", "grudzień"]

  /** "Now", as the clock would report it: month 0..11 and a day of that month. */
  datatype Date = Date(year: int, month: int, day: int)

  predicate IsLeapYear(y: int) { y % 4 == 0 && (y % 100 != 0 || y % 400 == 0) }

  /** Days in month `m` (0..11) of year `y`, Gregorian rule. */
  function DaysIn(y: int, m: int): (n: int)
    requires 0 <= m < 12
    ensures 28 <= n <= 31
    ensures n == 29 <==> m == 1 && IsLeapYear(y)
  {
    if m == 1 then (if IsLeapYear(y) then 29 else 28)
    else if m == 3 || m == 5 || m == 8 || m == 10 then 30
    else 31
  }

  /** The length of each month: February 28 days or 29 in a leap year; April, June,
      September and November 30; the other seven 31. */
  lemma DaysInTable(y: int, m: int)
    requires 0 <= m < 12
    ensures m == 1 ==> DaysIn(y, m) == (if IsLeapYear(y) then 29 else 28)
    ensures DaysIn(y, m) == 30 <==> m == 3 || m == 5 || m == 8 || m == 10
    ensures DaysIn(y, m) == 31 <==> m != 1 && m != 3 && m != 5 && m != 8 && m != 10
  {
  }

  /** The days in the first `m` months of year `y`. */
  function DaysBefore(y: int, m: int): (n: int)
    requires 0 <= m <= 12
  {
    if m == 0 then 0 else DaysBefore(y, m - 1) + DaysIn(y, m - 1)
  }

  /** The twelve months make a year of 365 days, or 366 in a leap year. */
  lemma YearLength(y: int)
    ensures DaysBefore(y, 12) == if IsLeapYear(y) then 366 else 365
  {
    assert DaysBefore(y, 1) == 31;
    assert DaysBefore(y, 2) == 31 + DaysIn(y, 1);
    assert DaysBefore(y, 3) == DaysBefore(y, 2) + 31;
    assert DaysBefore(y, 4) == DaysBefore(y, 3) + 30;
    assert DaysBefore(y, 5) == DaysBefore(y, 4) + 31;
    assert DaysBefore(y, 6) == DaysBefore(y, 5) + 30;
    assert DaysBefore(y, 7) == DaysBefore(y, 6) + 31;
    assert DaysBefore(y, 8) == DaysBefore(y, 7) + 31;
    assert DaysBefore(y, 9) == DaysBefore(y, 8) + 30;
    assert DaysBefore(y, 10) == DaysBefore(y, 9) + 31;
    assert DaysBefore(y, 11) == DaysBefore(y, 10) + 30;
  }

  predicate ValidDate(d: Date)
  {
    0 <= d.month < 12 && 1 <= d.day <= DaysIn(d.year, d.month)
  }

  datatype YearMonth = YearMonth(year: int, month: int)

  /** The month `k` months after month `m` of year `y` (any `m`, any sign of `k`), as
      `new Date(y, m + k, 1)` normalises it. */
  function AddMonths(y: int, m: int, k: int): (r: YearMonth)
    ensures 0 <= r.month < 12
    ensures 12 * r.year + r.month == 12 * y + m + k
  {
    Normalize(y, m + k)
  }

  /** Month `m` of year `y` for any `m`, rolled over a year at a time into 0..11. */
  function Normalize(y: int, m: int): (r: YearMonth)
    ensures 0 <= r.month < 12
    ensures 12 * r.year + r.month == 12 * y + m
    decreases if m >= 12 then m else if m < 0 then -m else 0
  {
    if m >= 12 then Normalize(y + 1, m - 12)
    else if m < 0 then Normalize(y - 1, m + 12)
    else YearMonth(y, m)
  }

  /** The calendar month is determined by its month count `12 * year + month`. */
  lemma {:induction false} MonthCountUnique(a: YearMonth, b: YearMonth)
    requires 0 <= a.month < 12 && 0 <= b.month < 12
    requires 12 * a.year + a.month == 12 * b.year + b.month
    ensures a == b
  {
  }

  /** `sheetNameFor`: the month name, a space, and the year in decimal. */
  function SheetName(month: int, year: int): (key: string)
    requires 0 <= month < 12
    ensures MonthNames[month] <= key
    ensures |key| > |MonthNames[month]| && key[|MonthNames[month]|] == ' '
  {
    MonthNames[month] + " " + IntToString(year)
  }

  /** `PL_MONTHS.findIndex(m => shown.startsWith(m))`: the first month whose name is a
      prefix of `shown`, or -1. */
  function MonthIndexOf(shown: string): (i: int)
    ensures -1 <= i < 12
    ensures i == -1 <==> forall j :: 0 <= j < 12 ==> !(MonthNames[j] <= shown)
    ensures i >= 0 ==> MonthNames[i] <= shown && forall j :: 0 <= j < i ==> !(MonthNames[j] <= shown)
  {
    MonthIndexFrom(shown, 0)
  }

  function MonthIndexFrom(shown: string, from: nat): (i: int)
    requires from <= 12
    ensures -1 <= i < 12
    ensures i == -1 <==> forall j :: from <= j < 12 ==> !(MonthNames[j] <= shown)
    ensures i >= 0 ==> from <= i && MonthNames[i] <= shown && forall j :: from <= j < i ==> !(MonthNames[j] <= shown)
    decreases 12 - from
  {
    if from == 12 then -1
    else if MonthNames[from] <= shown then from
    else MonthIndexFrom(shown, from + 1)
  }

  /** `parseInt(shown.split(" ")[1], 10)`: `None` (`NaN`) when there is no second field. */
  function YearOf(shown: string): (r: Option<int>)
    ensures shown == [] ==> r.None?
  {
    var parts := Split(shown, ' ');
    if |parts| < 2 then None else ParseInt(parts[1])
  }

  /** A key without a space has no year. */
  lemma YearOfNeedsSpace(shown: string)
    ensures YearOf(shown).Some? ==> ' ' in shown
  {
    SplitPieces(shown, ' ');
  }

  /** The first three letters of a name. */
  function Tag(s: string): (char, char, char)
    requires |s| >= 3
  {
    (s[0], s[1], s[2])
  }

  /** No month name contains a space, and the first three letters tell the months apart;
      hence no month name is a prefix of another month's key. */
  lemma MonthNamesShape()
    ensures forall i :: 0 <= i < 12 ==> |MonthNames[i]| >= 3 && ' ' !in MonthNames[i]
    ensures forall i, j :: 0 <= i < j < 12 ==> Tag(MonthNames[i]) != Tag(MonthNames[j])
  {
  }

  /** The key of month `month` starts with no other month's name. */
  lemma {:induction false} OnlyOwnNamePrefixes(month: int, year: int, j: int)
    requires 0 <= month < 12 && 0 <= j < 12 && j != month
    ensures !(MonthNames[j] <= SheetName(month, year))
  {
    var key := SheetName(month, year);
    MonthNamesShape();
    assert Tag(key) == Tag(MonthNames[month]);
    assert Tag(MonthNames[j]) != Tag(key);
  }

  /** The month lookup by prefix recovers the month of a key. */
  lemma KeyMonthRoundTrip(month: int, year: int)
    requires 0 <= month < 12
    ensures MonthIndexOf(SheetName(month, year)) == month
  {
    var key := SheetName(month, year);
    forall j | 0 <= j < month
      ensures !(MonthNames[j] <= key)
    {
      OnlyOwnNamePrefixes(month, year, j);
    }
    assert MonthNames[month] <= key;
  }

  /** The field after the space recovers the year of a key. */
  lemma KeyYearRoundTrip(month: int, year: int)
    requires 0 <= month < 12
    ensures YearOf(SheetName(month, year)) == Some(year)
  {
    var name, digits := MonthNames[month], IntToString(year);
    MonthNamesShape();
    assert ' ' !in name;
    SplitJoin(name, ' ', digits);
    assert ' ' !in digits;
    SplitNoSeparator(digits, ' ');
    assert Split(SheetName(month, year), ' ') == [name, digits];
    ParseIntRoundTrip(year);
  }

  /** Reading a key back: the month lookup by prefix recovers the month and the field after
      the space recovers the year. */
  lemma KeyRoundTrip(month: int, year: int)
    requires 0 <= month < 12
    ensures MonthIndexOf(SheetName(month, year)) == month
    ensures YearOf(SheetName(month, year)) == Some(year)
  {
    KeyMonthRoundTrip(month, year);
    KeyYearRoundTrip(month, year);
  }

  /** Two keys are equal only for the same month of the same year. */
  lemma SheetNameInjective(m1: int, y1: int, m2: int, y2: int)
    requires 0 <= m1 < 12 && 0 <= m2 < 12
    ensures SheetName(m1, y1) == SheetName(m2, y2) <==> m1 == m2 && y1 == y2
  {
    KeyRoundTrip(m1, y1);
    KeyRoundTrip(m2, y2);
  }

  /** The key of the month `k` months away from `now`. */
  function OffsetSheetName(now: Date, k: int): (key: string)
    ensures var ym := AddMonths(now.year, now.month, k); MonthNames[ym.month] <= key
  {
    var ym := AddMonths(now.year, now.month, k);
    SheetName(ym.month, ym.year)
  }

  /** Offset 0 is the current month. */
  lemma OffsetZeroIsCurrent(now: Date)
    requires 0 <= now.month < 12
    ensures OffsetSheetName(now, 0) == SheetName(now.month, now.year)
  {
    MonthCountUnique(AddMonths(now.year, now.month, 0), YearMonth(now.year, now.month));
  }

  /** The month list used when the months request fails: six months back, the current
      month, six months ahead, in calendar order. */
  function FallbackWindow(now: Date): (w: seq<string>)
    ensures |w| == 13
  {
    Window(k => OffsetSheetName(now, k), -6, 13)
  }

  /** `key(lo)`, `key(lo + 1)`, ..., `key(lo + n - 1)`: `n` keys pushed in order. */
  function Window<T>(key: int -> T, lo: int, n: nat): (w: seq<T>)
    ensures |w| == n
  {
    if n == 0 then [] else Window(key, lo, n - 1) + [key(lo + n - 1)]
  }

  /** Position `i` of a window holds the key of `lo + i`. */
  lemma {:induction false} WindowAt<T>(key: int -> T, lo: int, n: nat, i: int)
    requires 0 <= i < n
    ensures Window(key, lo, n)[i] == key(lo + i)
  {
    if i < n - 1 {
      WindowAt(key, lo, n - 1, i);
    }
  }

  /** Positions whose keys differ hold different elements. */
  lemma WindowDistinct<T>(key: int -> T, lo: int, n: nat, i: int, j: int)
    requires 0 <= i < j < n
    requires key(lo + i) != key(lo + j)
    ensures Window(key, lo, n)[i] != Window(key, lo, n)[j]
  {
    WindowAt(key, lo, n, i);
    WindowAt(key, lo, n, j);
  }

  /** The loop of `loadMonths` that pushes the 13 fallback keys, from `now - 6` to `now + 6`. */
  method FallbackMonths(now: Date) returns (months: seq<string>)
    ensures months == FallbackWindow(now)
  {
    months := [];
    for k := -6 to 7
      invariant months == Window(k => OffsetSheetName(now, k), -6, k + 6)
    {
      months := months + [OffsetSheetName(now, k)];
    }
  }

  predicate NoDuplicates<T(==)>(s: seq<T>)
  {
    forall i, j :: 0 <= i < j < |s| ==> s[i] != s[j]
  }

  /** Different offsets give different keys. */
  lemma OffsetSheetNamesDiffer(now: Date, k1: int, k2: int)
    requires k1 != k2
    ensures OffsetSheetName(now, k1) != OffsetSheetName(now, k2)
  {
    var a := AddMonths(now.year, now.month, k1);
    var b := AddMonths(now.year, now.month, k2);
    SheetNameInjective(a.month, a.year, b.month, b.year);
  }

  /** The fallback window holds 13 different keys, and the current month's key is at index 6. */
  lemma FallbackWindowFacts(now: Date)
    requires 0 <= now.month < 12
    ensures FallbackWindow(now)[6] == SheetName(now.month, now.year)
    ensures NoDuplicates(FallbackWindow(now))
  {
    OffsetZeroIsCurrent(now);
    WindowAt(k => OffsetSheetName(now, k), -6, 13, 6);
    forall i, j | 0 <= i < j < 13
      ensures FallbackWindow(now)[i] != FallbackWindow(now)[j]
    {
      FallbackEntriesDiffer(now, i, j);
    }
  }

  lemma FallbackEntriesDiffer(now: Date, i: int, j: int)
    requires 0 <= i < j < 13
    ensures FallbackWindow(now)[i] != FallbackWindow(now)[j]
  {
    OffsetSheetNamesDiffer(now, -6 + i, -6 + j);
    WindowDistinct(k => OffsetSheetName(now, k), -6, 13, i, j);
  }

  /** The index of the first occurrence of `x` in `s`. */
  function FirstIndex<T(==)>(s: seq<T>, x: T): (i: nat)
    requires x in s
    ensures i < |s| && s[i] == x && x !in s[..i]
  {
    if s[0] == x then 0 else 1 + FirstIndex(s[1..], x)
  }

  /** `Array.from(new Set(s))`: the distinct elements of `s`, each at its first occurrence,
      in the order of first occurrence. */
  function Dedup(s: seq<string>): (r: seq<string>)
    ensures NoDuplicates(r)
    ensures forall x :: x in r <==> x in s
    ensures forall i, j :: 0 <= i < j < |r| ==> FirstIndex(s, r[i]) < FirstIndex(s, r[j])
    ensures |r| <= |s|
  {
    if s == [] then []
    else
      var init := s[..|s| - 1];
      var last := s[|s| - 1];
      var r := Dedup(init);
      assert s == init + [last];
      FirstIndexOfExtension(init, last);
      if last in r then r else r + [last]
  }

  /** Appending an element keeps the first occurrences of what was there, and puts the
      first occurrence of a new element at the end. */
  lemma {:induction false} FirstIndexOfExtension<T>(s: seq<T>, y: T)
    ensures forall x :: x in s ==> FirstIndex(s + [y], x) == FirstIndex(s, x)
    ensures y !in s ==> FirstIndex(s + [y], y) == |s|
  {
    forall x | x in s
      ensures FirstIndex(s + [y], x) == FirstIndex(s, x)
    {
      var i := FirstIndex(s, x);
      var t := s + [y];
      assert t[..i] == s[..i] && t[i] == x;
      FirstIndexUnique(t, x, i);
    }
    if y !in s {
      var t := s + [y];
      assert t[..|s|] == s;
      FirstIndexUnique(t, y, |s|);
    }
  }

  /** The first occurrence is the one with no earlier occurrence. */
  lemma {:induction false} FirstIndexUnique<T>(s: seq<T>, x: T, i: nat)
    requires i < |s| && s[i] == x && x !in s[..i]
    ensures FirstIndex(s, x) == i
  {
    var f := FirstIndex(s, x);
    assert forall k :: 0 <= k < i ==> s[..i][k] == s[k];
    assert forall k :: 0 <= k < f ==> s[..f][k] == s[k];
  }

  /** A list without repeats is left as it is. */
  lemma {:induction false} DedupOfDistinct(s: seq<string>)
    requires NoDuplicates(s)
    ensures Dedup(s) == s
  {
    if s != [] {
      var init, last := s[..|s| - 1], s[|s| - 1];
      assert s == init + [last];
      assert NoDuplicates(init);
      DedupOfDistinct(init);
      assert last !in init;
    }
  }

  /** The month selected after loading the list: today's key when the list holds it,
      otherwise the last key of the list; `None` (`undefined`) for an empty list. */
  function DefaultMonth(months: seq<string>, today: string): (r: Option<string>)
    ensures r.None? <==> months == []
    ensures r.Some? ==> r.value in months
    ensures today in months ==> r == Some(today)
    ensures today !in months && months != [] ==> r == Some(months[|months| - 1])
  {
    if today in months then Some(today)
    else if months == [] then None
    else Some(months[|months| - 1])
  }

  /** With the fallback list the default is always the current month. */
  lemma FallbackDefaultIsToday(now: Date)
    requires 0 <= now.month < 12
    ensures Dedup(FallbackWindow(now)) == FallbackWindow(now)
    ensures DefaultMonth(Dedup(FallbackWindow(now)), SheetName(now.month, now.year))
         == Some(SheetName(now.month, now.year))
  {
    FallbackWindowFacts(now);
    DedupOfDistinct(FallbackWindow(now));
    assert FallbackWindow(now)[6] in FallbackWindow(now);
  }
}
