/**
 * The recent-completed page: the after-hours shift rule, the duration
 * label, and the two summary figures computed from the listed orders.
 */
module RecentPage {
  import opened Wrappers
  import opened Decimal
  import opened JsMath
  import opened Records
  import opened CompletedOrders

  /**
   * `isAfterHours(start, end)`, given the local weekday of the start
   * (0 = Sunday) and the local hours of start and end.
   */
  predicate IsAfterHours(startWeekday: int, startHour: int, endHour: int) {
    var isWeekend := startWeekday == 0 || startWeekday == 6;
    isWeekend || startHour < 9 || startHour >= 18 || endHour < 9 || endHour >= 18
  }

  /** A start on Saturday or Sunday is after hours whatever the hours. */
  lemma WeekendIsAfterHours(startWeekday: int, startHour: int, endHour: int)
    requires startWeekday == 0 || startWeekday == 6
    ensures IsAfterHours(startWeekday, startHour, endHour)
  {
  }

  /**
   * The regular shift: a weekday start with both hours in 9..17. Only the
   * start's weekday matters, so a Friday-to-Saturday span inside those hours is regular.
   */
  lemma RegularShiftWindow(startWeekday: int, startHour: int, endHour: int)
    requires 0 <= startWeekday < 7
    ensures !IsAfterHours(startWeekday, startHour, endHour) <==>
      1 <= startWeekday <= 5 && 9 <= startHour < 18 && 9 <= endHour < 18
  {
  }

  /** On a weekday, hours 8 and 18 are after hours, hours 9 and 17 are not. */
  lemma HourBoundaries(weekday: int)
    requires 1 <= weekday <= 5
    ensures IsAfterHours(weekday, 8, 12) && !IsAfterHours(weekday, 9, 12)
    ensures IsAfterHours(weekday, 12, 18) && !IsAfterHours(weekday, 12, 17)
  {
  }

  /**
   * A `Date` as the page reads it: the local weekday (0 = Sunday) and hour,
   * or an Invalid Date, whose `getDay()` and `getHours()` are NaN.
   */
  datatype LocalDate = Invalid | Valid(weekday: int, hour: int)

  /** `new Date(t)` in a zone `offset` milliseconds ahead of UTC: the weekday and hour of the local time value (the epoch was a Thursday). */
  function LocalOf(t: int, offset: int): (d: LocalDate)
    ensures d.Valid? && 0 <= d.weekday < 7 && 0 <= d.hour < 24
  {
    var local := t + offset;
    Valid((local / MsPerDay + 4) % 7, local / MsPerHour % 24)
  }

  /** `isAfterHours(start, end)` on two dates; every comparison with NaN is false. */
  predicate IsAfterHoursOn(start: LocalDate, end: LocalDate) {
    var isWeekend := start.Valid? && (start.weekday == 0 || start.weekday == 6);
    || isWeekend
    || (start.Valid? && (start.hour < 9 || start.hour >= 18))
    || (end.Valid? && (end.hour < 9 || end.hour >= 18))
  }

  /** On two valid dates the test is the shift rule; the end's weekday plays no part. */
  lemma ValidDatesShiftRule(start: LocalDate, end: LocalDate)
    requires start.Valid? && end.Valid?
    ensures IsAfterHoursOn(start, end) <==> IsAfterHours(start.weekday, start.hour, end.hour)
  {
  }

  /**
   * An invalid start drops the weekend and start-hour tests, leaving only the
   * end hour; with both dates invalid the shift is never after hours.
   */
  lemma InvalidStartOnlyEndHour(end: LocalDate)
    ensures IsAfterHoursOn(Invalid, end) <==> end.Valid? && (end.hour < 9 || end.hour >= 18)
    ensures !IsAfterHoursOn(Invalid, Invalid)
  {
  }

  /** The third of January 1970, noon UTC, was a Saturday. */
  lemma LocalOfExample()
    ensures LocalOf(2 * MsPerDay + 12 * MsPerHour, 0) == Valid(6, 12)
  {
  }

  /** `formatDuration(minutes)`: "<m>m" below an hour, else "<h>h <m>m". */
  function FormatDuration(minutes: int): string {
    if minutes < 60 then IntToString(minutes) + "m"
    else NatToString(minutes / 60) + "h " + NatToString(minutes % 60) + "m"
  }

  /** Position of the first `c` in `s`. */
  function IndexOf(s: string, c: char): (r: Option<nat>)
    ensures r.Some? ==> r.value < |s| && s[r.value] == c && forall k :: 0 <= k < r.value ==> s[k] != c
    ensures r.None? ==> forall k :: 0 <= k < |s| ==> s[k] != c
  {
    if s == [] then None
    else if s[0] == c then Some(0)
    else
      match IndexOf(s[1..], c)
      case None => None
      case Some(k) => Some(k + 1)
  }

  lemma IndexOfAt(s: string, c: char, k: nat)
    requires k < |s| && s[k] == c && forall j :: 0 <= j < k ==> s[j] != c
    ensures IndexOf(s, c) == Some(k)
  {
  }

  /** Reads a duration label back into minutes; None when it is not one. */
  function ParseDuration(s: string): Option<int> {
    if |s| == 0 || s[|s| - 1] != 'm' then None
    else
      var body := s[..|s| - 1];
      match IndexOf(body, 'h')
      case None => ParseInt(body)
      case Some(k) =>
        if k + 1 < |body| && body[k + 1] == ' ' && k > 0 && AllDigits(body[..k])
           && k + 2 < |body| && AllDigits(body[k + 2..])
        then Some(ParseNat(body[..k]) * 60 + ParseNat(body[k + 2..]))
        else None
  }

  /** The label is lossless: it reads back as the same number of minutes. */
  lemma FormatDurationRoundTrip(minutes: int)
    ensures ParseDuration(FormatDuration(minutes)) == Some(minutes)
  {
    if minutes < 60 {
      ShortLabelRoundTrip(minutes);
    } else {
      LongLabelRoundTrip(minutes / 60, minutes % 60);
    }
  }

  /** A label below an hour, "<m>m", reads back as `m`. */
  lemma ShortLabelRoundTrip(minutes: int)
    ensures ParseDuration(IntToString(minutes) + "m") == Some(minutes)
  {
    var s := IntToString(minutes) + "m";
    var body := IntToString(minutes);
    assert s[..|s| - 1] == body;
    assert IndexOf(body, 'h') == None;
    ParseIntToString(minutes);
  }

  /** A label "<h>h <m>m" reads back as `h * 60 + m`. */
  lemma LongLabelRoundTrip(h: nat, m: nat)
    ensures ParseDuration(NatToString(h) + "h " + NatToString(m) + "m") == Some(h * 60 + m)
  {
    ParseDigitsLabel(NatToString(h), NatToString(m));
    ParseNatToString(h);
    ParseNatToString(m);
  }

  /** Two digit runs around "h " and before "m" read as hours and minutes. */
  lemma ParseDigitsLabel(hs: string, ms: string)
    requires |hs| >= 1 && AllDigits(hs) && |ms| >= 1 && AllDigits(ms)
    ensures ParseDuration(hs + "h " + ms + "m") == Some(ParseNat(hs) * 60 + ParseNat(ms))
  {
    var s := hs + "h " + ms + "m";
    var body := hs + "h " + ms;
    assert s[..|s| - 1] == body;
    LongBody(hs, ms);
    assert AllDigits(body[..|hs|]) && AllDigits(body[|hs| + 2..]) && |hs| + 2 < |body|;
  }

  /** Where the 'h' of "<h>h <m>" is, and what lies on either side of it. */
  lemma LongBody(hs: string, ms: string)
    requires AllDigits(hs)
    ensures var body := hs + "h " + ms;
      && IndexOf(body, 'h') == Some(|hs|) && body[|hs| + 1] == ' '
      && body[..|hs|] == hs && body[|hs| + 2..] == ms
  {
    var body := hs + "h " + ms;
    assert forall k :: 0 <= k < |hs| ==> body[k] == hs[k] && IsDigit(hs[k]);
    IndexOfAt(body, 'h', |hs|);
    assert body[..|hs|] == hs;
    assert body[|hs| + 2..] == ms;
  }

  /** Long durations split into whole hours and 0..59 remaining minutes. */
  lemma FormatDurationSplit(minutes: int)
    requires minutes >= 60
    ensures exists h: nat, m: nat ::
              (m < 60 && h * 60 + m == minutes &&
               FormatDuration(minutes) == NatToString(h) + "h " + NatToString(m) + "m")
  {
    var h: nat, m: nat := minutes / 60, minutes % 60;
    assert m < 60 && h * 60 + m == minutes;
    assert FormatDuration(minutes) == NatToString(h) + "h " + NatToString(m) + "m";
  }

  /** The start and end of one listed order, as weekday and hours in local time. */
  datatype Shift = Shift(startWeekday: int, startHour: int, endHour: int)

  /** One row of the page: its shift and the `processing_minutes` it was sent (possibly missing). */
  datatype Row = Row(shift: Shift, processingMinutes: Option<int>)

  predicate RowAfterHours(r: Row) {
    IsAfterHours(r.shift.startWeekday, r.shift.startHour, r.shift.endHour)
  }

  /** The "After Hours" figure: how many listed rows are after hours. */
  function AfterHoursCount(rows: seq<Row>): (n: nat)
    ensures n <= |rows|
    ensures n == 0 <==> forall i :: 0 <= i < |rows| ==> !RowAfterHours(rows[i])
    ensures n == |rows| <==> forall i :: 0 <= i < |rows| ==> RowAfterHours(rows[i])
  {
    if rows == [] then 0
    else
      var rest := AfterHoursCount(rows[1..]);
      assert forall i :: 1 <= i < |rows| ==> rows[i] == rows[1..][i - 1];
      rest + if RowAfterHours(rows[0]) then 1 else 0
  }

  /** The figure counts row by row: the count of two lists joined is the sum of their counts. */
  lemma {:induction false} AfterHoursCountAppend(a: seq<Row>, b: seq<Row>)
    ensures AfterHoursCount(a + b) == AfterHoursCount(a) + AfterHoursCount(b)
  {
    if a == [] {
      assert a + b == b;
    } else {
      assert (a + b)[1..] == a[1..] + b;
      AfterHoursCountAppend(a[1..], b);
    }
  }

  /** `processing_minutes || 0`. */
  function MinutesOrZero(r: Row): int {
    r.processingMinutes.GetOr(0)
  }

  function TotalMinutes(rows: seq<Row>): int {
    if rows == [] then 0 else MinutesOrZero(rows[0]) + TotalMinutes(rows[1..])
  }

  /** The "Avg Time" figure, shown only when the list is not empty: the rounded mean. */
  function AverageMinutes(rows: seq<Row>): (avg: int)
    requires |rows| > 0
    ensures 2 * |rows| * avg - |rows| <= 2 * TotalMinutes(rows) < 2 * |rows| * avg + |rows|
  {
    RoundDiv(TotalMinutes(rows), |rows|)
  }

  /** The duration cell of a row. */
  function DurationCell(r: Row): string {
    FormatDuration(MinutesOrZero(r))
  }

  /** A row without `processing_minutes` shows "0m". */
  lemma MissingMinutesShowZero(r: Row)
    requires r.processingMinutes.None?
    ensures DurationCell(r) == "0m"
  {
  }

  // ---- The page over the listed orders ----

  /**
   * `new Date(o[field])` for a listed order: `claimedAt` and `completedAt`
   * (a stored null is the epoch); any other field is undefined, an Invalid Date.
   */
  function DateField(o: CompletedOrder, field: string, offset: int): LocalDate {
    if field == "claimedAt" then LocalOf(o.order.claimedAt.GetOr(0), offset)
    else if field == "completedAt" then LocalOf(o.order.completedAt.GetOr(0), offset)
    else Invalid
  }

  /** How many listed orders `isAfterHours(o[start], o[end])` holds for. */
  function CountAfterHours(list: seq<CompletedOrder>, start: string, end: string, offset: int): (n: nat)
    ensures n <= |list|
  {
    if list == [] then 0
    else
      var o := list[0];
      CountAfterHours(list[1..], start, end, offset)
        + if IsAfterHoursOn(DateField(o, start, offset), DateField(o, end, offset)) then 1 else 0
  }

  /** The "After Hours" figure as the page computes it, from `o.claimed_at` and `o.completed_at`. */
  function ShownAfterHours(list: seq<CompletedOrder>, offset: int): nat {
    CountAfterHours(list, "claimed_at", "completed_at", offset)
  }

  /** The listed orders carry no snake_case stamps, so both dates are invalid and the shown figure is always 0. */
  lemma {:induction false} ShownAfterHoursIsZero(list: seq<CompletedOrder>, offset: int)
    ensures ShownAfterHours(list, offset) == 0
  {
    if list != [] {
      InvalidStartOnlyEndHour(Invalid);
      ShownAfterHoursIsZero(list[1..], offset);
    }
  }

  /** The row a listed order stands for: its claim and completion in local time, and its minutes. */
  function RowOf(o: CompletedOrder, offset: int): Row {
    var start := LocalOf(o.order.claimedAt.GetOr(0), offset);
    var end := LocalOf(o.order.completedAt.GetOr(0), offset);
    Row(Shift(start.weekday, start.hour, end.hour), Some(o.processingMinutes))
  }

  function Rows(list: seq<CompletedOrder>, offset: int): (rows: seq<Row>)
    ensures |rows| == |list|
  {
    if list == [] then [] else [RowOf(list[0], offset)] + Rows(list[1..], offset)
  }

  /** The evidently intended figure, reading the `claimedAt` and `completedAt` the list carries. */
  function IntendedAfterHours(list: seq<CompletedOrder>, offset: int): nat {
    CountAfterHours(list, "claimedAt", "completedAt", offset)
  }

  /** The intended figure is the after-hours count of the listed orders' shifts. */
  lemma {:induction false} IntendedAfterHoursCountsShifts(list: seq<CompletedOrder>, offset: int)
    ensures IntendedAfterHours(list, offset) == AfterHoursCount(Rows(list, offset))
  {
    if list != [] {
      var o := list[0];
      ValidDatesShiftRule(DateField(o, "claimedAt", offset), DateField(o, "completedAt", offset));
      IntendedAfterHoursCountsShifts(list[1..], offset);
      assert Rows(list, offset)[1..] == Rows(list[1..], offset);
    }
  }

  /** An order claimed and completed on a Saturday: the intended figure is 1, the page shows 0. */
  lemma SaturdayShiftNotShown()
    ensures var o := CompletedOrder(Order("1", "A1", "completed", Some("Arun"),
                                          Some(2 * MsPerDay + 10 * MsPerHour), Some(2 * MsPerDay + 12 * MsPerHour),
                                          0, []), 120);
            IntendedAfterHours([o], 0) == 1 && ShownAfterHours([o], 0) == 0
  {
    var o := CompletedOrder(Order("1", "A1", "completed", Some("Arun"),
                                  Some(2 * MsPerDay + 10 * MsPerHour), Some(2 * MsPerDay + 12 * MsPerHour),
                                  0, []), 120);
    assert DateField(o, "claimedAt", 0) == Valid(6, 10);
    assert [o][1..] == [];
  }
}
