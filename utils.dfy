/** The stand-alone helpers of src/utils/index.ts: the calendar-week and
    month helpers, the completion percentage and its colour, the greeting,
    the validators, and the second streak calculator. */
module Utils {
  import opened Wrappers
  import opened HabitTypes
  import opened ArrayOps
  import opened DayRuns

  // ---------------------------------------------------------------- weeks

  /** `getDay()`: 0 = Sunday, ..., 6 = Saturday. Day 0 was a Thursday. */
  function Weekday(d: Day): (r: int)
    ensures 0 <= r < 7
  {
    (d + 4) % 7
  }

  /** `getWeekStart(date)`: the Monday of the date's Monday-to-Sunday week.
      It is a Monday, at most six days back, and no later Monday is on or
      before the date; a Sunday goes back six days. */
  function WeekStart(d: Day): (r: Day)
    ensures Weekday(r) == 1
    ensures d - 6 <= r <= d
    ensures forall m :: r < m <= d ==> Weekday(m) != 1
    ensures Weekday(d) == 0 ==> r == d - 6
  {
    var day := Weekday(d);
    d - day + (if day == 0 then -6 else 1)
  }

  /** `getWeekEnd(date)`: the Sunday six days after the week's Monday, which
      is on or after the date. */
  function WeekEnd(d: Day): (r: Day)
    ensures Weekday(r) == 0
    ensures d <= r <= d + 6
    ensures r == WeekStart(d) + 6
  {
    WeekStart(d) + 6
  }

  /** `getDaysInWeek(date)`: seven consecutive days from the week's Monday to
      its Sunday, the given date among them. */
  method DaysInWeek(date: Day) returns (days: seq<Day>)
    ensures |days| == 7
    ensures days[0] == WeekStart(date) && days[6] == WeekEnd(date)
    ensures forall i :: 0 <= i < 6 ==> days[i + 1] == days[i] + 1
    ensures date in days
  {
    days := [];
    var start := WeekStart(date);
    for i := 0 to 7
      invariant |days| == i
      invariant forall k :: 0 <= k < i ==> days[k] == start + k
    {
      days := days + [start + i];
    }
    assert days[date - start] == date;
  }

  /** Every day belongs to exactly one Monday-to-Sunday week. */
  lemma {:induction false} SameWeekIffSameStart(a: Day, b: Day)
    ensures WeekStart(a) == WeekStart(b) <==> WeekStart(a) <= b <= WeekEnd(a)
  {
    var s := WeekStart(a);
    if s <= b <= s + 6 {
      assert WeekStart(b) <= b && b - 6 <= WeekStart(b);
      assert (WeekStart(b) - s) % 7 == 0 by {
        assert (WeekStart(b) + 4) % 7 == (s + 4) % 7;
      }
    }
  }

  // --------------------------------------------------------------- months

  const MonthNames: seq<string> := [
    "January", "February", "March", "April", "May", "June",
    "July", "August", "September", "October", "November", "December"]

  /** `getMonthName(i)`: the English name of month i (0 = January), or the
      empty string for an index outside 0..11. */
  function MonthName(monthIndex: int): (r: string)
    ensures 0 <= monthIndex < 12 ==> r == MonthNames[monthIndex]
    ensures !(0 <= monthIndex < 12) ==> r == ""
  {
    if 0 <= monthIndex < |MonthNames| then MonthNames[monthIndex] else ""
  }

  /** A name comes back exactly for the twelve indexes. */
  lemma MonthNameNonEmptyIffInRange(i: int)
    ensures MonthName(i) != "" <==> 0 <= i < 12
  {
    assert forall k :: 0 <= k < 12 ==> |MonthNames[k]| >= 3;
  }

  // ----------------------------------------------------------- percentage

  /** A JavaScript number as the percentage code can produce it: a whole
      number, minus infinity, or NaN. */
  datatype Percent = Whole(n: int) | MinusInfinity | NotANumber

  /** `Math.round(p / q)` for q > 0, computed exactly: halves round up. */
  function RoundRatio(p: int, q: int): (r: int)
    requires q > 0
    ensures 2 * q * r <= 2 * p + q < 2 * q * r + 2 * q
  {
    (2 * p + q) / (2 * q)
  }

  function Sum(es: seq<HabitEntry>): (r: int)
    ensures (forall e | e in es :: e.value >= 0) ==> r >= 0
  {
    if es == [] then 0 else es[0].value + Sum(es[1..])
  }

  function IsDayEntryOf(habitId: string, date: Day): HabitEntry -> bool {
    (e: HabitEntry) => e.habitId == habitId && e.date == date
  }

  /** The summed value of the habit's entries on the day: zero when it has
      none, never negative when none of them is. */
  function DayTotal(habitId: string, entries: seq<HabitEntry>, date: Day): (r: int)
    ensures (forall e | e in entries && e.habitId == habitId && e.date == date :: e.value >= 0) ==> r >= 0
    ensures (forall e | e in entries :: e.habitId != habitId || e.date != date) ==> r == 0
  {
    var day := Filter(entries, IsDayEntryOf(habitId, date));
    assert day != [] ==> day[0] in entries && day[0].habitId == habitId && day[0].date == date;
    Sum(day)
  }

  /** `calculateCompletionPercentage(habit, entries, date)`:
      `Math.min(100, Math.round(total / target * 100))`. With a zero target the
      quotient is +Infinity (capped to 100), -Infinity or NaN. */
  function CompletionPercentage(habit: Habit, entries: seq<HabitEntry>, date: Day): (r: Percent)
    ensures r.Whole? ==> r.n <= 100
    ensures r.NotANumber? <==> habit.target == 0 && DayTotal(habit.id, entries, date) == 0
    ensures r.MinusInfinity? <==> habit.target == 0 && DayTotal(habit.id, entries, date) < 0
  {
    var total := DayTotal(habit.id, entries, date);
    if habit.target == 0 then
      (if total > 0 then Whole(100) else if total < 0 then MinusInfinity else NotANumber)
    else
      var rounded := if habit.target > 0 then RoundRatio(100 * total, habit.target)
                     else RoundRatio(-100 * total, -habit.target);
      Whole(if rounded < 100 then rounded else 100)
  }

  /** With a positive target: a met target reads 100; otherwise the value is
      100 * total / target rounded to the nearest whole number (halves up),
      and it is not negative when the total is not. */
  lemma {:induction false} PercentageOfPositiveTarget(habit: Habit, entries: seq<HabitEntry>, date: Day)
    requires habit.target > 0
    ensures var total := DayTotal(habit.id, entries, date);
      var r := CompletionPercentage(habit, entries, date);
      r.Whole?
      && (total >= habit.target ==> r.n == 100)
      && (total < habit.target ==> 2 * habit.target * r.n <= 200 * total + habit.target < 2 * habit.target * (r.n + 1))
      && (total >= 0 ==> r.n >= 0)
  {
    var total := DayTotal(habit.id, entries, date);
    var g := habit.target;
    var rounded := RoundRatio(100 * total, g);
    assert 2 * g * rounded <= 200 * total + g < 2 * g * rounded + 2 * g;
    RoundedPercentBounds(total, g, rounded);
    assert CompletionPercentage(habit, entries, date) == Whole(if rounded < 100 then rounded else 100);
  }

  /** The arithmetic behind PercentageOfPositiveTarget. */
  lemma RoundedPercentBounds(total: int, g: int, rounded: int)
    requires g > 0
    requires 2 * g * rounded <= 200 * total + g < 2 * g * rounded + 2 * g
    ensures total >= g ==> rounded >= 100
    ensures total < g ==> rounded <= 100
    ensures total >= 0 ==> rounded >= 0
  {
    if total >= g {
      MulCancel(2 * g, 100, rounded + 1);
    } else {
      MulCancel(2 * g, rounded, 101);
    }
    if total >= 0 {
      MulCancel(2 * g, 0, rounded + 1);
    }
  }

  lemma MulCancel(g: int, x: int, y: int)
    requires g > 0
    ensures g * x < g * y ==> x < y
  {
    if y <= x {
      assert g * x - g * y == g * (x - y);
    }
  }

  lemma {:induction false} SumConcat(a: seq<HabitEntry>, b: seq<HabitEntry>)
    ensures Sum(a + b) == Sum(a) + Sum(b)
  {
    if a == [] {
      assert a + b == b;
    } else {
      assert (a + b)[0] == a[0];
      assert (a + b)[1..] == a[1..] + b;
      SumConcat(a[1..], b);
    }
  }

  /** Appending an entry adds its value to the day's total when it is an
      entry of that habit on that day, and nothing otherwise. */
  lemma {:induction false} DayTotalAppend(habitId: string, entries: seq<HabitEntry>, date: Day, e: HabitEntry)
    ensures DayTotal(habitId, entries + [e], date)
         == DayTotal(habitId, entries, date) + (if e.habitId == habitId && e.date == date then e.value else 0)
  {
    var keep := IsDayEntryOf(habitId, date);
    var tail := if keep(e) then [e] else [];
    FilterConcat(entries, [e], keep);
    assert [e][1..] == [];
    assert Filter([e], keep) == tail;
    SumConcat(Filter(entries, keep), tail);
  }

  /** Only the habit's entries on that day count: appending an entry of
      another habit or another day leaves the percentage unchanged, and
      appending one of that day adds its value to the total. */
  lemma PercentageIgnoresOtherEntries(habit: Habit, entries: seq<HabitEntry>, date: Day, e: HabitEntry)
    ensures e.habitId != habit.id || e.date != date ==>
      CompletionPercentage(habit, entries + [e], date) == CompletionPercentage(habit, entries, date)
    ensures e.habitId == habit.id && e.date == date ==>
      DayTotal(habit.id, entries + [e], date) == DayTotal(habit.id, entries, date) + e.value
  {
    DayTotalAppend(habit.id, entries, date, e);
  }

  /** The colours a progress value can be drawn in. */
  datatype ProgressColors = ProgressColors(success: string, warning: string, error: string)

  /** `getProgressColor(percentage, colors)`: success from 100 up, warning
      from 75 up, error below 75. */
  function ProgressColor(percentage: int, colors: ProgressColors): (r: string)
    ensures percentage >= 100 ==> r == colors.success
    ensures 75 <= percentage < 100 ==> r == colors.warning
    ensures percentage < 75 ==> r == colors.error
  {
    if percentage >= 100 then colors.success
    else if percentage >= 75 then colors.warning
    else colors.error
  }

  /** A day's progress colour only improves as its percentage grows. */
  lemma ProgressColorMonotone(p: int, q: int, colors: ProgressColors)
    requires p <= q
    requires colors.success != colors.warning && colors.warning != colors.error && colors.success != colors.error
    ensures ProgressColor(p, colors) == colors.success ==> ProgressColor(q, colors) == colors.success
    ensures ProgressColor(q, colors) == colors.error ==> ProgressColor(p, colors) == colors.error
  {
  }

  // ------------------------------------------------------------- greeting

  /** `getGreeting()` for the hour it reads from the clock. */
  function Greeting(hour: int): (r: string)
    ensures r == "Good morning" <==> hour < 12
    ensures r == "Good afternoon" <==> 12 <= hour < 18
    ensures r == "Good evening" <==> hour >= 18
  {
    if hour < 12 then "Good morning"
    else if hour < 18 then "Good afternoon"
    else "Good evening"
  }

  // ----------------------------------------------------------- validators

  /** The characters JavaScript's `\s` matches. */
  predicate IsJsWhitespace(c: char) {
    var n := c as int;
    (0x09 <= n <= 0x0D) || n == 0x20 || n == 0xA0 || n == 0x1680
    || (0x2000 <= n <= 0x200A) || n == 0x2028 || n == 0x2029 || n == 0x202F
    || n == 0x205F || n == 0x3000 || n == 0xFEFF
  }

  /** One character of the class `[^\s@]`. */
  predicate Plain(c: char) { !IsJsWhitespace(c) && c != '@' }

  /** No character of s[lo..hi] is whitespace or '@'. */
  predicate PlainBetween(s: string, lo: int, hi: int)
    requires 0 <= lo <= hi <= |s|
  {
    forall k :: lo <= k < hi ==> Plain(s[k])
  }

  /** The language of `^[^\s@]+@[^\s@]+\.[^\s@]+$`: a non-empty local part,
      '@', a non-empty domain, '.', a non-empty last part, where no part
      holds whitespace or '@' (the domain and the last part may hold dots). */
  ghost predicate EmailShape(s: string) {
    exists i, j :: 0 < i && i + 1 < j && j + 1 < |s|
      && s[i] == '@' && s[j] == '.'
      && PlainBetween(s, 0, i) && PlainBetween(s, i + 1, j) && PlainBetween(s, j + 1, |s|)
  }

  /** The first index of `c` in `s` at or after `from`, or -1. */
  function IndexOf(s: string, c: char, from: nat): (r: int)
    requires from <= |s|
    ensures r == -1 || from <= r < |s|
    ensures r == -1 ==> forall k :: from <= k < |s| ==> s[k] != c
    ensures r >= 0 ==> s[r] == c && forall k :: from <= k < r ==> s[k] != c
    decreases |s| - from
  {
    if from == |s| then -1
    else if s[from] == c then from
    else IndexOf(s, c, from + 1)
  }

  /** `validateEmail(email)`: the regular-expression test as a scan. The
      first '@' is not the first character, nothing is whitespace, nothing
      after the '@' is another '@', and a '.' stands at least two places
      after the '@' and before the last character. */
  function ValidateEmail(email: string): (r: bool)
    ensures r ==> 5 <= |email| && email[0] != '@' && '@' in email
  {
    var at := IndexOf(email, '@', 0);
    at > 0 && at + 2 <= |email|
    && PlainBetween(email, 0, at) && PlainBetween(email, at + 1, |email|)
    && var dot := IndexOf(email, '.', at + 2);
       0 <= dot < |email| - 1
  }

  /** The scan accepts exactly the strings the regular expression matches. */
  lemma ValidateEmailMatchesRegex(email: string)
    ensures ValidateEmail(email) <==> EmailShape(email)
  {
    var at := IndexOf(email, '@', 0);
    if ValidateEmail(email) {
      var dot := IndexOf(email, '.', at + 2);
      assert PlainBetween(email, at + 1, dot) && PlainBetween(email, dot + 1, |email|);
      assert email[at] == '@' && email[dot] == '.';
    }
    if EmailShape(email) {
      var i, j :| 0 < i && i + 1 < j && j + 1 < |email|
        && email[i] == '@' && email[j] == '.'
        && PlainBetween(email, 0, i) && PlainBetween(email, i + 1, j) && PlainBetween(email, j + 1, |email|);
      assert Plain(email[j]);
      assert forall k :: 0 <= k < i ==> Plain(email[k]);
      assert at == i;
      assert PlainBetween(email, at + 1, |email|);
      assert IndexOf(email, '.', at + 2) <= j;
    }
  }

  /** The number of UTF-16 code units of a string: JavaScript's `length`. */
  function Utf16Length(s: string): (r: nat)
    ensures |s| <= r <= 2 * |s|
  {
    if s == [] then 0 else (if s[0] as int > 0xFFFF then 2 else 1) + Utf16Length(s[1..])
  }

  /** `validatePassword(password)`: at least six UTF-16 code units. */
  function ValidatePassword(password: string): (r: bool)
    ensures |password| >= 6 ==> r
    ensures r ==> |password| >= 3
  {
    Utf16Length(password) >= 6
  }

  /** Six characters always pass; fewer than three never do; in the Basic
      Multilingual Plane the rule is exactly "at least six characters". */
  lemma {:induction false} PasswordLengthBounds(password: string)
    ensures |password| >= 6 ==> ValidatePassword(password)
    ensures |password| < 3 ==> !ValidatePassword(password)
    ensures (forall k :: 0 <= k < |password| ==> password[k] as int <= 0xFFFF) ==>
              (ValidatePassword(password) <==> |password| >= 6)
  {
    if forall k :: 0 <= k < |password| ==> password[k] as int <= 0xFFFF {
      BmpLength(password);
    }
  }

  lemma {:induction false} BmpLength(s: string)
    requires forall k :: 0 <= k < |s| ==> s[k] as int <= 0xFFFF
    ensures Utf16Length(s) == |s|
  {
    if s != [] {
      assert forall k :: 0 <= k < |s[1..]| ==> s[1..][k] == s[k + 1];
      BmpLength(s[1..]);
    }
  }

  // --------------------------------------------------------------- streak

  /** `{current, longest}` as the utility calculator returns it. */
  datatype StreakCounts = StreakCounts(current: int, longest: int)

  /** The days on which the habit has a completed entry. */
  ghost function HabitDays(entries: seq<HabitEntry>, habitId: string): set<Day> {
    set e | e in entries && e.habitId == habitId && e.completed :: e.date
  }

  /** What the utility calculator promises: zero and zero for no completed
      day; otherwise the current streak is the run of completed days ending
      at the latest one when that is today or yesterday, and zero when it is
      older, and the longest streak is the longest run of completed days. */
  ghost predicate IsStreakCountsFor(r: StreakCounts, entries: seq<HabitEntry>, habitId: string, today: Day) {
    var D := HabitDays(entries, habitId);
    (D == {} ==> r == StreakCounts(0, 0))
    && (D != {} ==>
          IsLongestRun(D, r.longest)
          && (forall m :: m in D && (forall d :: d in D ==> d <= m) ==>
                if m == today || m == today - 1 then ExactRunTo(D, m, r.current) else r.current == 0))
  }

  function IsCompletedOf(habitId: string): HabitEntry -> bool {
    (e: HabitEntry) => e.habitId == habitId && IsCompleted(e)
  }

  /** The distinct completed days of the habit, latest first:
      `[...new Set(dates)].sort().reverse()`. */
  function UniqueDatesNewestFirst(entries: seq<HabitEntry>, habitId: string): (r: seq<Day>)
    ensures StrictlyDecreasing(r)
    ensures forall d :: d in r <==> d in HabitDays(entries, habitId)
  {
    var done := Filter(entries, IsCompletedOf(habitId));
    var dates := MapSeq(done, EntryDate);
    var sorted := SortedDistinct(dates);
    ReverseOfIncreasing(sorted);
    var r := Reverse(sorted);
    assert forall d :: d in dates <==> d in HabitDays(entries, habitId) by {
      forall d | d in dates ensures d in HabitDays(entries, habitId) {
        var i :| 0 <= i < |done| && dates[i] == d;
        assert done[i] in done;
      }
      forall d | d in HabitDays(entries, habitId) ensures d in dates {
        var e :| e in entries && e.habitId == habitId && e.completed && e.date == d;
        assert e in done;
        var i :| 0 <= i < |done| && done[i] == e;
        assert dates[i] == d;
      }
    }
    r
  }

  /** The current run read off a descending list: the first `c` days are
      consecutive and the list stops or jumps after them. */
  lemma DescendingPrefixRun(u: seq<Day>, D: set<Day>, c: int)
    requires StrictlyDecreasing(u) && forall d :: d in u <==> d in D
    requires 1 <= c <= |u|
    requires forall k :: 0 <= k < c ==> u[k] == u[0] - k
    requires c < |u| ==> u[c - 1] - u[c] != 1
    ensures ExactRunTo(D, u[0], c)
  {
    forall d | u[0] - c + 1 <= d < u[0] + 1 ensures d in D {
      assert u[u[0] - d] == d;
      assert u[u[0] - d] in u;
    }
    forall k | 0 <= k < |u| ensures u[k] != u[0] - c {
      if c <= k {
        assert u[k] <= u[c];
      }
    }
  }

  /** One step of the descending scan, the mirror of the ascending one. */
  lemma DescendingStep(seen: set<Day>, prev: Day, x: Day, temp: int)
    requires forall d :: d in seen ==> prev <= d
    requires x < prev && ExactRunFrom(seen, prev, temp)
    ensures x == prev - 1 ==> ExactRunFrom(seen + {x}, x, temp + 1)
    ensures x != prev - 1 ==> ExactRunFrom(seen + {x}, x, 1)
  {
    if x == prev - 1 {
      assert Run(seen + {x}, x, temp + 1) by {
        forall d | x <= d < x + temp + 1 ensures d in seen + {x} {
          if d > x {
            assert Run(seen, prev, temp);
          }
        }
      }
    } else {
      assert Run(seen + {x}, x, 1);
    }
  }

  /** The whole of one step of the descending scan when the day `x` comes
      before every day seen so far: the open run, the best closed run and the
      bound on every run, after the step's two possible updates. */
  lemma DescendingScanStep(seen: set<Day>, prev: Day, x: Day, temp: int, longest: int, bestLo: Day)
    requires forall d :: d in seen ==> prev <= d
    requires x < prev && temp >= 1 && ExactRunFrom(seen, prev, temp)
    requires longest >= 0 && Run(seen, bestLo, longest)
    requires forall lo, k :: Run(seen, lo, k) ==> k <= Max(longest, temp)
    ensures x == prev - 1 ==>
      ExactRunFrom(seen + {x}, x, temp + 1) && Run(seen + {x}, bestLo, longest)
      && forall lo, k :: Run(seen + {x}, lo, k) ==> k <= Max(longest, temp + 1)
    ensures x != prev - 1 ==>
      ExactRunFrom(seen + {x}, x, 1)
      && Run(seen + {x}, if temp > longest then prev else bestLo, Max(longest, temp))
      && forall lo, k :: Run(seen + {x}, lo, k) ==> k <= Max(Max(longest, temp), 1)
  {
    DescendingStep(seen, prev, x, temp);
    var t := if x == prev - 1 then temp + 1 else 1;
    RunsAfterAddingMin(seen, x, Max(longest, temp), t);
    assert Run(seen + {x}, bestLo, longest);
    assert Run(seen + {x}, prev, temp);
  }

  /** The descending scan: the larger of the closed runs and the open one is
      the longest run of the days. */
  method ScanRunsDescending(u: seq<Day>, ghost D: set<Day>) returns (longestStreak: int, tempStreak: int)
    requires u != [] && StrictlyDecreasing(u)
    requires forall d :: d in u <==> d in D
    ensures IsLongestRun(D, Max(longestStreak, tempStreak))
  {
    longestStreak := 0;
    tempStreak := 1;
    ghost var seen: set<Day> := {u[0]};
    ghost var bestLo: Day := 0;
    SingleDayRuns(seen, u[0]);
    assert ExactRunFrom(seen, u[0], 1);
    for i := 1 to |u|
      invariant forall d :: d in seen <==> d in u[..i]
      invariant forall d :: d in seen ==> u[i - 1] <= d
      invariant tempStreak >= 1 && ExactRunFrom(seen, u[i - 1], tempStreak)
      invariant longestStreak >= 0 && Run(seen, bestLo, longestStreak)
      invariant forall lo, k :: Run(seen, lo, k) ==> k <= Max(longestStreak, tempStreak)
    {
      var currDate := u[i];
      DescendingScanStep(seen, u[i - 1], currDate, tempStreak, longestStreak, bestLo);
      var diff := u[i - 1] - currDate;
      if diff == 1 {
        tempStreak := tempStreak + 1;
      } else {
        if tempStreak > longestStreak {
          bestLo := u[i - 1];
        }
        longestStreak := Max(longestStreak, tempStreak);
        tempStreak := 1;
      }
      seen := seen + {currDate};
      assert u[..i + 1] == u[..i] + [currDate];
    }
    assert u[..|u|] == u;
    assert forall d :: d in seen <==> d in D;
    assert seen == D;
    assert Run(D, if longestStreak >= tempStreak then bestLo else u[|u| - 1], Max(longestStreak, tempStreak));
  }

  /** The current-streak part of the utility calculator: a run is counted
      only when the latest completed day is today or yesterday. */
  method CurrentRunFromLatest(uniqueDates: seq<Day>, ghost D: set<Day>, today: Day) returns (currentStreak: int)
    requires uniqueDates != [] && StrictlyDecreasing(uniqueDates)
    requires forall d :: d in uniqueDates <==> d in D
    ensures uniqueDates[0] == today || uniqueDates[0] == today - 1 ==> ExactRunTo(D, uniqueDates[0], currentStreak)
    ensures uniqueDates[0] != today && uniqueDates[0] != today - 1 ==> currentStreak == 0
  {
    currentStreak := 0;
    if uniqueDates[0] == today || uniqueDates[0] == today - 1 {
      currentStreak := 1;
      for i := 1 to |uniqueDates|
        invariant currentStreak == i
        invariant forall k :: 0 <= k < i ==> uniqueDates[k] == uniqueDates[0] - k
      {
        var diff := uniqueDates[i - 1] - uniqueDates[i];
        if diff == 1 {
          currentStreak := currentStreak + 1;
        } else {
          break;
        }
      }
      DescendingPrefixRun(uniqueDates, D, currentStreak);
    }
  }

  /** The first day of a descending list is the largest of its days. */
  lemma FirstIsLargest(u: seq<Day>, D: set<Day>)
    requires u != [] && StrictlyDecreasing(u)
    requires forall d :: d in u <==> d in D
    ensures u[0] in D
    ensures forall d :: d in D ==> d <= u[0]
    ensures forall m :: m in D && (forall d :: d in D ==> d <= m) ==> m == u[0]
  {
    assert u[0] in u;
    forall d | d in D ensures d <= u[0] {
      var k :| 0 <= k < |u| && u[k] == d;
    }
  }

  /** `calculateStreak(entries, habitId)` of the utilities, with today given. */
  method CalculateStreak(entries: seq<HabitEntry>, habitId: string, today: Day) returns (r: StreakCounts)
    ensures IsStreakCountsFor(r, entries, habitId, today)
    ensures r.longest >= r.current >= 0
  {
    ghost var D := HabitDays(entries, habitId);
    var uniqueDates := UniqueDatesNewestFirst(entries, habitId);
    if |uniqueDates| == 0 {
      assert D == {};
      return StreakCounts(0, 0);
    }
    FirstIsLargest(uniqueDates, D);

    var currentStreak := CurrentRunFromLatest(uniqueDates, D, today);
    var longestStreak, tempStreak := ScanRunsDescending(uniqueDates, D);
    LongestRunFacts(D, Max(longestStreak, tempStreak));
    r := StreakCounts(currentStreak, Max(Max(longestStreak, tempStreak), currentStreak));
  }

  /** The result depends only on the set of completed days of the habit:
      entries of other habits, unfinished entries and repeated dates make no
      difference. A non-empty set gives a longest streak of at least one, and
      a positive current streak means the latest completed day is today or
      yesterday. */
  lemma {:induction false} StreakCountsDependOnDaysOnly(a: StreakCounts, b: StreakCounts,
      entries1: seq<HabitEntry>, entries2: seq<HabitEntry>, habitId: string, today: Day)
    requires IsStreakCountsFor(a, entries1, habitId, today) && IsStreakCountsFor(b, entries2, habitId, today)
    requires HabitDays(entries1, habitId) == HabitDays(entries2, habitId)
    ensures a == b
    ensures HabitDays(entries1, habitId) != {} ==> a.longest >= 1
    ensures a.current > 0 ==> today in HabitDays(entries1, habitId) || today - 1 in HabitDays(entries1, habitId)
  {
    var D := HabitDays(entries1, habitId);
    var u := UniqueDatesNewestFirst(entries1, habitId);
    if u == [] {
      assert forall d :: d !in D;
      assert D == {};
    } else {
      FirstIsLargest(u, D);
      var m := u[0];
      LongestRunFacts(D, a.longest);
      assert IsLongestRun(D, b.longest);
      if m == today || m == today - 1 {
        ExactRunToUnique(D, m, a.current, b.current);
      }
    }
  }

  /** Three completed days ending yesterday and none today: the current
      streak is three days, and so is the longest. */
  lemma {:induction false} RunEndingYesterdayIsCurrent(r: StreakCounts, entries: seq<HabitEntry>,
                                                       habitId: string, today: Day)
    requires IsStreakCountsFor(r, entries, habitId, today)
    requires HabitDays(entries, habitId) == {today - 3, today - 2, today - 1}
    ensures r.current == 3 && r.longest == 3
  {
    var D := HabitDays(entries, habitId);
    ThreeDayRun(D, today - 1);
    ExactRunToUnique(D, today - 1, 3, r.current);
    LongestRunFacts(D, 3);
  }

  /** An entry that is not a completed one of the habit, or one on an
      already completed day, leaves the completed days as they were. */
  lemma HabitDaysUnchangedBy(entries: seq<HabitEntry>, habitId: string, e: HabitEntry)
    requires e.habitId != habitId || !e.completed || e.date in HabitDays(entries, habitId)
    ensures HabitDays(entries + [e], habitId) == HabitDays(entries, habitId)
  {
    assert forall x :: x in entries + [e] <==> x in entries || x == e;
  }
}
