/** The monthly summary panel: total logged time, time left to the 30-hour goal, days left in
    the shown month, the required daily average and its colour band, each shown as "H:MM". */
module Summary {
  import opened Wrappers
  import opened Text
  import opened Months
  import opened Entries

  const GoalHours: nat := 30
  const GoalMinutes: nat := GoalHours * 60

  /** `const [h, m] = t.split(":").map(Number); h*60 + (+m||0)`. `None` is `NaN`: the hours
      field is not a digit string. A minutes field that is missing or not a digit string
      counts as 0. */
  function ParseDuration(t: string): (r: Option<nat>)
    ensures r.Some? <==> IsDigits(Split(t, ':')[0])
  {
    DurationOfFields(Split(t, ':'))
  }

  /** The value of the pieces of a duration split at its colons. */
  function DurationOfFields(parts: seq<string>): (r: Option<nat>)
    requires |parts| >= 1
    ensures r.Some? <==> IsDigits(parts[0])
  {
    var h := NumberOf(parts[0]);
    var m := if |parts| > 1 then NumberOf(parts[1]) else None;
    if h.None? then None
    else Some(h.value * 60 + (if m.Some? then m.value else 0))
  }

  /** The duration rule on its fields: digit hours count sixty minutes each, and a minutes
      field counts its value when it is a digit string and nothing otherwise. */
  lemma ParseDurationFields(h: string, m: string)
    requires IsDigits(h) && ':' !in m
    ensures ParseDuration(h + [':'] + m) == Some(DigitsValue(h) * 60 + (if IsDigits(m) then DigitsValue(m) else 0))
  {
    var t := h + [':'] + m;
    DigitsHaveNoColon(h);
    SplitNoSeparator(m, ':');
    SplitJoin(h, ':', m);
    assert Split(t, ':') == [h, m];
    DurationOfTwoFields(h, m);
  }

  lemma DurationOfTwoFields(h: string, m: string)
    requires IsDigits(h)
    ensures DurationOfFields([h, m]) == Some(DigitsValue(h) * 60 + (if IsDigits(m) then DigitsValue(m) else 0))
  {
  }

  /** Without a colon the whole string is the hours field. */
  lemma ParseDurationHoursOnly(h: string)
    requires IsDigits(h)
    ensures ParseDuration(h) == Some(DigitsValue(h) * 60)
  {
    DigitsHaveNoColon(h);
    SplitNoSeparator(h, ':');
  }

  /** The minutes an entry contributes; a missing duration reads as "0:00". */
  function MinutesOf(e: Entry): (r: Option<nat>)
    ensures e.time == "" ==> r == Some(0)
  {
    if e.time == "" then
      SplitNoSeparator("0", ':');
      SplitJoin("0", ':', "00");
      SplitNoSeparator("00", ':');
      ParseDuration("0:00")
    else ParseDuration(e.time)
  }

  /** Addition of JavaScript numbers restricted to naturals and `NaN`. */
  function Add(a: Option<nat>, b: Option<nat>): (r: Option<nat>)
  {
    if a.Some? && b.Some? then Some(a.value + b.value) else None
  }

  /** The total that the summary loop accumulates over `entries`: the sum of the minutes of
      every entry, `NaN` as soon as one entry's duration is. */
  function SumMinutes(s: seq<Entry>): (r: Option<nat>)
    ensures s == [] ==> r == Some(0)
    ensures |s| == 1 ==> r == MinutesOf(s[0])
  {
    SumBy(s, MinutesOf)
  }

  /** `f` summed over `s` from left to right, `NaN` absorbing. */
  function SumBy(s: seq<Entry>, f: Entry -> Option<nat>): (r: Option<nat>)
    ensures s == [] ==> r == Some(0)
    ensures |s| == 1 ==> r == f(s[0])
  {
    if s == [] then Some(0)
    else Add(SumBy(s[..|s| - 1], f), f(s[|s| - 1]))
  }

  /** The total is `NaN` exactly when some entry's duration is. */
  lemma {:induction false} SumByNaN(s: seq<Entry>, f: Entry -> Option<nat>)
    ensures SumBy(s, f).None? <==> exists i :: 0 <= i < |s| && f(s[i]).None?
  {
    if s != [] {
      var init := s[..|s| - 1];
      SumByNaN(init, f);
      assert forall i :: 0 <= i < |init| ==> init[i] == s[i];
    }
  }

  lemma SumMinutesNaN(s: seq<Entry>)
    ensures SumMinutes(s).None? <==> exists i :: 0 <= i < |s| && MinutesOf(s[i]).None?
  {
    SumByNaN(s, MinutesOf);
  }

  lemma {:induction false} SumByAppend(a: seq<Entry>, b: seq<Entry>, f: Entry -> Option<nat>)
    ensures SumBy(a + b, f) == Add(SumBy(a, f), SumBy(b, f))
  {
    if b == [] {
      assert a + b == a;
    } else {
      var bi := b[..|b| - 1];
      assert (a + b)[..|a + b| - 1] == a + bi;
      SumByAppend(a, bi, f);
    }
  }

  lemma SumBySnoc(p: seq<Entry>, x: Entry, f: Entry -> Option<nat>)
    ensures SumBy(p + [x], f) == Add(SumBy(p, f), f(x))
  {
    assert (p + [x])[..|p|] == p;
  }

  lemma SumBySplitAt(b: seq<Entry>, i: nat, f: Entry -> Option<nat>)
    requires i < |b|
    ensures SumBy(b, f) == Add(Add(SumBy(b[..i], f), f(b[i])), SumBy(b[i + 1..], f))
  {
    assert b == (b[..i] + [b[i]]) + b[i + 1..];
    SumByAppend(b[..i] + [b[i]], b[i + 1..], f);
    SumBySnoc(b[..i], b[i], f);
  }

  lemma SumByRemoveAt(b: seq<Entry>, i: nat, f: Entry -> Option<nat>)
    requires i < |b|
    ensures SumBy(b, f) == Add(SumBy(b[..i] + b[i + 1..], f), f(b[i]))
  {
    SumBySplitAt(b, i, f);
    SumByAppend(b[..i], b[i + 1..], f);
    AddRearrange(SumBy(b[..i], f), SumBy(b[i + 1..], f), f(b[i]));
  }

  lemma AddRearrange(a: Option<nat>, b: Option<nat>, c: Option<nat>)
    ensures Add(Add(a, c), b) == Add(Add(a, b), c)
  {
  }

  lemma {:induction false} SumByPermutation(a: seq<Entry>, b: seq<Entry>, f: Entry -> Option<nat>)
    requires multiset(a) == multiset(b)
    ensures SumBy(a, f) == SumBy(b, f)
  {
    if a == [] {
      assert b == [];
    } else {
      var n := |a| - 1;
      var x := a[n];
      assert a == a[..n] + [x];
      assert x in multiset(b);
      var i :| 0 <= i < |b| && b[i] == x;
      var rest := b[..i] + b[i + 1..];
      assert b == b[..i] + [x] + b[i + 1..];
      assert multiset(a[..n]) == multiset(a) - multiset{x};
      assert multiset(rest) == multiset(b) - multiset{x};
      SumByPermutation(a[..n], rest, f);
      SumByRemoveAt(b, i, f);
    }
  }

  /** The total does not depend on the order of the entries. */
  lemma SumMinutesPermutation(a: seq<Entry>, b: seq<Entry>)
    requires multiset(a) == multiset(b)
    ensures SumMinutes(a) == SumMinutes(b)
  {
    SumByPermutation(a, b, MinutesOf);
  }

  /** `Math.max(0, goalMin - totalMin)`. */
  function Remaining(total: Option<nat>): (r: Option<nat>)
    ensures r.None? <==> total.None?
    ensures r.Some? ==> r.value <= GoalMinutes
    ensures r.Some? && total.value >= GoalMinutes ==> r.value == 0
    ensures r.Some? && total.value < GoalMinutes ==> total.value + r.value == GoalMinutes
  {
    if total.None? then None
    else if total.value >= GoalMinutes then Some(0)
    else Some(GoalMinutes - total.value)
  }

  /** `new Date(year, monthIdx + 1, 0).getDate()`: the last day of month `monthIdx`, which
      for index -1 is December of the year before. */
  function LastDayOf(year: int, monthIdx: int): (n: int)
    ensures 28 <= n <= 31
    ensures 0 <= monthIdx < 12 ==> n == DaysIn(year, monthIdx)
    ensures monthIdx == -1 ==> n == 31
  {
    var ym := AddMonths(year, monthIdx, 0);
    if 0 <= monthIdx < 12 then
      MonthCountUnique(ym, YearMonth(year, monthIdx));
      DaysIn(ym.year, ym.month)
    else if monthIdx == -1 then
      MonthCountUnique(ym, YearMonth(year - 1, 11));
      DaysIn(ym.year, ym.month)
    else
      DaysIn(ym.year, ym.month)
  }

  /** Days left in the shown month, counting today: from today when the shown month is the
      current one, from the 1st otherwise. `None` is `NaN`: the key has no year. */
  function DaysLeft(shown: string, now: Date): (r: Option<int>)
    ensures r.None? <==> YearOf(shown).None?
    ensures ValidDate(now) && r.Some? ==> 1 <= r.value <= 31
  {
    match YearOf(shown)
    case None => None
    case Some(year) =>
      var monthIdx := MonthIndexOf(shown);
      var lastDay := LastDayOf(year, monthIdx);
      var todayDay := if now.month == monthIdx && now.year == year then now.day else 1;
      Some(lastDay - todayDay + 1)
  }

  /** For the current month's key, the days from today to the end of the month. */
  lemma DaysLeftInCurrentMonth(now: Date)
    requires ValidDate(now)
    ensures DaysLeft(SheetName(now.month, now.year), now)
         == Some(DaysIn(now.year, now.month) - now.day + 1)
  {
    var key := SheetName(now.month, now.year);
    KeyRoundTrip(now.month, now.year);
    DaysLeftOfCurrentKey(key, now);
  }

  /** For the key of any other month, the whole month. */
  lemma DaysLeftInOtherMonth(month: int, year: int, now: Date)
    requires 0 <= month < 12
    requires month != now.month || year != now.year
    ensures DaysLeft(SheetName(month, year), now) == Some(DaysIn(year, month))
  {
    KeyRoundTrip(month, year);
    DaysLeftOfKey(SheetName(month, year), month, year, now);
  }

  /** For a key that reads back as the current month, the days from today to its end. */
  lemma DaysLeftOfCurrentKey(shown: string, now: Date)
    requires 0 <= now.month < 12
    requires MonthIndexOf(shown) == now.month && YearOf(shown) == Some(now.year)
    ensures DaysLeft(shown, now) == Some(DaysIn(now.year, now.month) - now.day + 1)
  {
    DaysLeftOfKey(shown, now.month, now.year, now);
  }

  /** For any key that reads back as month `month` of `year`: from today to the end of that
      month when it is the current one, the whole month otherwise. */
  lemma DaysLeftOfKey(shown: string, month: int, year: int, now: Date)
    requires 0 <= month < 12
    requires MonthIndexOf(shown) == month && YearOf(shown) == Some(year)
    ensures DaysLeft(shown, now)
         == Some(DaysIn(year, month) - (if now.month == month && now.year == year then now.day else 1) + 1)
  {
    assert LastDayOf(year, month) == DaysIn(year, month);
  }

  /** `Math.ceil(left / days)` for a positive day count. */
  function CeilDiv(left: nat, days: int): (avg: nat)
    requires days > 0
    ensures avg * days >= left
    ensures (avg - 1) * days < left || (left == 0 && avg == 0)
    ensures left == 0 <==> avg == 0
  {
    var q := (left + days - 1) / days;
    var rem := (left + days - 1) % days;
    assert left + days - 1 == q * days + rem;
    assert q * days == left + days - 1 - rem;
    assert (q - 1) * days == q * days - days;
    q
  }

  /** `daysLeft > 0 ? Math.ceil(leftMin / daysLeft) : 0`; a `NaN` day count is not positive. */
  function Average(left: Option<nat>, days: Option<int>): (r: Option<nat>)
    ensures r.None? <==> left.None? && days.Some? && days.value > 0
    ensures days.None? || days.value <= 0 ==> r == Some(0)
    ensures left.Some? && days.Some? && days.value > 0 ==>
      r.Some? && r.value * days.value >= left.value &&
      (left.value == 0 <==> r.value == 0) &&
      (left.value > 0 ==> (r.value - 1) * days.value < left.value)
  {
    if days.Some? && days.value > 0 then
      (if left.None? then None else Some(CeilDiv(left.value, days.value)))
    else Some(0)
  }

  /** The colour class of the summary box. */
  datatype Band = Green | Orange | Red

  /** Green up to an hour a day, orange up to two hours, red above (and for `NaN`, which
      fails both comparisons). */
  function BandOf(avg: Option<nat>): (b: Band)
    ensures b == Green <==> avg.Some? && avg.value <= 60
    ensures b == Orange <==> avg.Some? && 60 < avg.value <= 120
    ensures b == Red <==> avg.None? || avg.value > 120
  {
    if avg.Some? && avg.value <= 60 then Green
    else if avg.Some? && avg.value <= 120 then Orange
    else Red
  }

  /** `${Math.floor(n/60)}:${String(n%60).padStart(2,"0")}`. */
  function FormatHM(n: nat): (r: string)
    ensures |r| >= 4 && r[|r| - 3] == ':'
  {
    PaddedMinutes(n % 60);
    NatToString(n / 60) + ":" + PadStart(NatToString(n % 60), 2, '0')
  }

  /** The same template applied to `NaN` gives "NaN:NaN". Either way the text reads back,
      by the duration rule, as the figure it shows. */
  function Format(x: Option<nat>): (r: string)
    ensures ParseDuration(r) == x
  {
    if x.Some? then
      FormatHMRoundTrip(x.value);
      FormatHM(x.value)
    else
      NaNReadsAsNaN();
      "NaN:NaN"
  }

  lemma NaNReadsAsNaN()
    ensures ParseDuration("NaN:NaN").None?
  {
    var t := "NaN:NaN";
    assert t == "NaN" + [':'] + "NaN";
    SplitJoin("NaN", ':', "NaN");
    assert Split(t, ':')[0] == "NaN";
    assert !IsDigit('N');
  }

  /** The two-digit minutes field: always two digits, worth `m`. */
  lemma PaddedMinutes(m: nat)
    requires m < 60
    ensures var p := PadStart(NatToString(m), 2, '0');
      |p| == 2 && IsDigits(p) && DigitsValue(p) == m
  {
    var s := NatToString(m);
    var p := PadStart(s, 2, '0');
    if m < 10 {
      assert p == ['0'] + s;
      DigitsValueSnoc(['0'], s[0]);
      assert ['0'] + [s[0]] == p;
      assert DigitsValue(['0']) == 0 by { assert ['0'][..0] == []; }
    } else {
      assert p == s;
    }
  }

  lemma DigitsHaveNoColon(s: string)
    requires IsDigits(s)
    ensures ':' !in s
  {
  }

  /** An "H:MM" figure splits into the hours and a two-digit minutes field below 60. */
  lemma FormatHMShape(n: nat)
    ensures var parts := Split(FormatHM(n), ':');
      |parts| == 2 &&
      IsDigits(parts[0]) && DigitsValue(parts[0]) == n / 60 &&
      |parts[1]| == 2 && IsDigits(parts[1]) && DigitsValue(parts[1]) == n % 60 < 60
  {
    var hs := NatToString(n / 60);
    var ms := PadStart(NatToString(n % 60), 2, '0');
    PaddedMinutes(n % 60);
    DigitsHaveNoColon(hs);
    DigitsHaveNoColon(ms);
    SplitJoin(hs, ':', ms);
    SplitNoSeparator(ms, ':');
  }

  /** Reading a displayed figure back with the duration rule gives the same number of minutes. */
  lemma FormatHMRoundTrip(n: nat)
    ensures ParseDuration(FormatHM(n)) == Some(n)
  {
    FormatHMShape(n);
  }

  /** What `renderSummary` puts on screen, and the figures behind it. */
  datatype SummaryView = SummaryView(
    total: Option<nat>, left: Option<nat>, daysLeft: Option<int>, avg: Option<nat>,
    totalText: string, leftText: string, avgText: string, band: Band)

  /** Every displayed figure reads back as the figure behind it; a `NaN` total gives the red
      band over a positive day count; the average covers what is left in the days left. */
  function Summarize(entries: seq<Entry>, shown: string, now: Date): (v: SummaryView)
    ensures ParseDuration(v.totalText) == v.total
    ensures ParseDuration(v.leftText) == v.left
    ensures ParseDuration(v.avgText) == v.avg
    ensures v.total.None? && v.daysLeft.Some? && v.daysLeft.value > 0 ==> v.band == Red
    ensures v.left.Some? && v.daysLeft.Some? && v.daysLeft.value > 0 ==>
      v.avg.Some? && v.avg.value * v.daysLeft.value >= v.left.value
  {
    var total := SumMinutes(entries);
    var left := Remaining(total);
    var days := DaysLeft(shown, now);
    var avg := Average(left, days);
    SummaryView(total, left, days, avg, Format(total), Format(left), Format(avg), BandOf(avg))
  }

  /** `renderSummary`: the loop that accumulates the total, then the derived figures. */
  method RenderSummary(entries: seq<Entry>, shown: string, now: Date) returns (view: SummaryView)
    ensures view == Summarize(entries, shown, now)
  {
    var total: Option<nat> := Some(0);
    for i := 0 to |entries|
      invariant total == SumBy(entries[..i], MinutesOf)
    {
      assert entries[..i + 1][..i] == entries[..i];
      total := Add(total, MinutesOf(entries[i]));
    }
    assert entries[..|entries|] == entries;
    var left := Remaining(total);
    var days := DaysLeft(shown, now);
    var avg := Average(left, days);
    view := SummaryView(total, left, days, avg, Format(total), Format(left), Format(avg), BandOf(avg));
  }

  /** The summary depends on which entries there are, not on their order. */
  lemma SummaryOrderIndependent(a: seq<Entry>, b: seq<Entry>, shown: string, now: Date)
    requires multiset(a) == multiset(b)
    ensures Summarize(a, shown, now) == Summarize(b, shown, now)
  {
    SumMinutesPermutation(a, b);
  }
}
