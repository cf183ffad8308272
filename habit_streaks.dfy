/** The store's streak calculator (`calculateStreak` in
    src/context/HabitContext.tsx), as a function of an explicit entry list
    and of "today". */
module HabitStreaks {
  import opened Wrappers
  import opened HabitTypes
  import opened ArrayOps
  import opened DayRuns

  /** `entries.filter(e => e.completed).map(e => e.date)`. */
  function CompletedDates(entries: seq<HabitEntry>): seq<Day> {
    MapSeq(Filter(entries, IsCompleted), EntryDate)
  }

  /** The days on which some entry is completed. */
  ghost function CompletedDays(entries: seq<HabitEntry>): set<Day> {
    set e | e in entries && e.completed :: e.date
  }

  lemma CompletedDatesAreDays(entries: seq<HabitEntry>)
    ensures forall d :: d in CompletedDates(entries) <==> d in CompletedDays(entries)
  {
    var done := Filter(entries, IsCompleted);
    forall d | d in CompletedDates(entries) ensures d in CompletedDays(entries) {
      var i :| 0 <= i < |done| && CompletedDates(entries)[i] == d;
      assert done[i] in done;
    }
    forall d | d in CompletedDays(entries) ensures d in CompletedDates(entries) {
      var e :| e in entries && e.completed && e.date == d;
      assert e in done;
      var i :| 0 <= i < |done| && done[i] == e;
      assert CompletedDates(entries)[i] == d;
    }
  }

  /** The completed days of a list with no entries, and of a list whose only
      entry is a completed `e`. */
  lemma CompletedDaysOfNoneOrOne(none: seq<HabitEntry>, one: seq<HabitEntry>, e: HabitEntry)
    requires forall x :: x !in none
    requires (forall x :: x in one <==> x == e) && e.completed
    ensures CompletedDays(none) == {}
    ensures CompletedDays(one) == {e.date}
  {
  }

  /** What the calculator promises for a habit's entries and today's date D:
      with no completed day, both counts are zero and no date is set;
      otherwise the current streak is the run of completed days ending today
      (zero when today is not completed), the longest streak is the longest
      run of completed days, the last completed date is the latest completed
      day, and the streak start is today - current + 1 exactly when the
      current streak is positive. */
  ghost predicate IsStreakFor(st: HabitStreak, habitId: string, entries: seq<HabitEntry>, today: Day) {
    var D := CompletedDays(entries);
    st.habitId == habitId
    && (D == {} ==> st == HabitStreak(habitId, 0, 0, None, None))
    && (D != {} ==>
          ExactRunTo(D, today, st.currentStreak)
          && IsLongestRun(D, st.longestStreak)
          && st.lastCompletedDate.Some? && st.lastCompletedDate.value in D
          && (forall d :: d in D ==> d <= st.lastCompletedDate.value)
          && st.streakStartDate == if st.currentStreak > 0 then Some(today - st.currentStreak + 1) else None)
  }

  /** The promise pins the streak down completely, and it implies the bounds
      longest >= current >= 0, and longest >= 1 once any day is completed. */
  lemma {:induction false} StreakDeterminedAndBounded(a: HabitStreak, b: HabitStreak, habitId: string,
                                                    entries: seq<HabitEntry>, today: Day)
    requires IsStreakFor(a, habitId, entries, today) && IsStreakFor(b, habitId, entries, today)
    ensures a == b
    ensures a.longestStreak >= a.currentStreak >= 0
    ensures forall e :: e in entries && e.completed ==> a.longestStreak >= 1
  {
    var D := CompletedDays(entries);
    if D != {} {
      ExactRunToUnique(D, today, a.currentStreak, b.currentStreak);
      LongestRunFacts(D, a.longestStreak);
      assert a.lastCompletedDate.value <= b.lastCompletedDate.value;
      assert b.lastCompletedDate.value <= a.lastCompletedDate.value;
    }
    forall e | e in entries && e.completed ensures a.longestStreak >= 1 {
      assert e.date in D;
      LongestRunFacts(D, a.longestStreak);
    }
  }

  /** When today is a completed day, the current streak counts it: it is at
      least one day, the last completed day is not before today, and the
      streak started on or before today. */
  lemma {:induction false} CompletedTodayCounts(st: HabitStreak, habitId: string, entries: seq<HabitEntry>,
                                                today: Day, e: HabitEntry)
    requires IsStreakFor(st, habitId, entries, today)
    requires e in entries && e.completed && e.date == today
    ensures st.currentStreak >= 1
    ensures st.lastCompletedDate.Some? && st.lastCompletedDate.value >= today
    ensures st.streakStartDate.Some? && st.streakStartDate.value <= today
  {
    var D := CompletedDays(entries);
    assert today in D;
  }

  /** The walk back starts at today itself: when nothing is completed today
      there is no current streak and no streak start, even if yesterday was
      completed. */
  lemma {:induction false} NoCurrentStreakWithoutToday(st: HabitStreak, habitId: string,
                                                       entries: seq<HabitEntry>, today: Day)
    requires IsStreakFor(st, habitId, entries, today)
    requires forall e :: e in entries && e.completed ==> e.date != today
    ensures st.currentStreak == 0 && st.streakStartDate.None?
  {
    var D := CompletedDays(entries);
    assert today !in D;
  }

  /** Three completed days ending yesterday and none today: this calculator
      reports no current streak, a longest streak of three days, and
      yesterday as the last completed day. */
  lemma {:induction false} RunEndingYesterdayIsNotCurrent(st: HabitStreak, habitId: string,
                                                          entries: seq<HabitEntry>, today: Day)
    requires IsStreakFor(st, habitId, entries, today)
    requires CompletedDays(entries) == {today - 3, today - 2, today - 1}
    ensures st.currentStreak == 0 && st.longestStreak == 3
    ensures st.lastCompletedDate == Some(today - 1) && st.streakStartDate.None?
  {
    var D := CompletedDays(entries);
    ThreeDayRun(D, today - 1);
    assert today !in D;
    LongestRunFacts(D, 3);
  }

  /** A run in a set is a run in any larger set. */
  lemma RunGrows(D: set<Day>, E: set<Day>, lo: Day, k: int)
    requires Run(D, lo, k) && D <= E
    ensures Run(E, lo, k)
  {
  }

  /** One step of the ascending scan: the exact run ending at the new, larger
      day `x` is one longer than the one ending at `prev` when `x` follows
      `prev` directly, and one day long otherwise. */
  lemma AscendingStep(seen: set<Day>, prev: Day, x: Day, temp: int)
    requires forall d :: d in seen ==> d <= prev
    requires prev < x && ExactRunTo(seen, prev, temp)
    ensures x == prev + 1 ==> ExactRunTo(seen + {x}, x, temp + 1)
    ensures x != prev + 1 ==> ExactRunTo(seen + {x}, x, 1)
  {
    if x == prev + 1 {
      RunGrows(seen, seen + {x}, prev - temp + 1, temp);
    } else {
      assert Run(seen + {x}, x, 1);
    }
  }

  /** The walk back from `today` in `calculateStreak`: counts the completed
      days today, yesterday, ... until the first day that is not completed.
      `checkDate` ends on that first missing day. */
  method WalkBack(completedDates: seq<Day>, ghost D: set<Day>, today: Day) returns (currentStreak: int, checkDate: Day)
    requires completedDates != [] && StrictlyIncreasing(completedDates)
    requires forall d :: d in completedDates <==> d in D
    ensures ExactRunTo(D, today, currentStreak)
    ensures checkDate == today - currentStreak
  {
    assert completedDates[0] in completedDates;
    currentStreak := 0;
    checkDate := today;
    while true
      invariant currentStreak >= 0 && checkDate == today - currentStreak
      invariant Run(D, checkDate + 1, currentStreak)
      decreases checkDate - completedDates[0]
    {
      if checkDate in completedDates {
        assert completedDates[0] <= checkDate;
        currentStreak := currentStreak + 1;
        checkDate := checkDate - 1;
      } else {
        break;
      }
    }
  }

  /** The whole of one step of the ascending scan when the day `x` comes
      after every day seen so far: the open run, the best closed run and the
      bound on every run, after the step's two possible updates. */
  lemma AscendingScanStep(seen: set<Day>, prev: Day, x: Day, temp: int, longest: int, bestLo: Day)
    requires forall d :: d in seen ==> d <= prev
    requires prev < x && temp >= 1 && ExactRunTo(seen, prev, temp)
    requires longest >= 0 && Run(seen, bestLo, longest)
    requires forall lo, k :: Run(seen, lo, k) ==> k <= Max(longest, temp)
    ensures x == prev + 1 ==>
      ExactRunTo(seen + {x}, x, temp + 1) && Run(seen + {x}, bestLo, longest)
      && forall lo, k :: Run(seen + {x}, lo, k) ==> k <= Max(longest, temp + 1)
    ensures x != prev + 1 ==>
      ExactRunTo(seen + {x}, x, 1)
      && Run(seen + {x}, if temp > longest then prev - temp + 1 else bestLo, Max(longest, temp))
      && forall lo, k :: Run(seen + {x}, lo, k) ==> k <= Max(Max(longest, temp), 1)
  {
    AscendingStep(seen, prev, x, temp);
    var t := if x == prev + 1 then temp + 1 else 1;
    RunsAfterAddingMax(seen, x, Max(longest, temp), t);
    RunGrows(seen, seen + {x}, bestLo, longest);
    RunGrows(seen, seen + {x}, prev - temp + 1, temp);
  }

  /** The ascending scan of `calculateStreak`: `longestStreak` is the longest
      run closed so far and `tempStreak` the run ending at the last day, so the
      larger of the two is the longest run of all the days. */
  method ScanRuns(completedDates: seq<Day>, ghost D: set<Day>) returns (longestStreak: int, tempStreak: int)
    requires completedDates != [] && StrictlyIncreasing(completedDates)
    requires forall d :: d in completedDates <==> d in D
    ensures IsLongestRun(D, Max(longestStreak, tempStreak))
    ensures ExactRunTo(D, completedDates[|completedDates| - 1], tempStreak)
  {
    longestStreak := 0;
    tempStreak := 0;
    var prevDate: Option<Day> := None;
    ghost var seen: set<Day> := {};
    ghost var bestLo: Day := 0;
    NoRunsInEmpty(seen);
    for i := 0 to |completedDates|
      invariant prevDate == if i == 0 then None else Some(completedDates[i - 1])
      invariant forall d :: d in seen <==> d in completedDates[..i]
      invariant i > 0 ==> forall d :: d in seen ==> d <= completedDates[i - 1]
      invariant i == 0 ==> seen == {} && tempStreak == 0 && longestStreak == 0
      invariant i > 0 ==> tempStreak >= 1 && ExactRunTo(seen, completedDates[i - 1], tempStreak)
      invariant longestStreak >= 0 && Run(seen, bestLo, longestStreak)
      invariant forall lo, k :: Run(seen, lo, k) ==> k <= Max(longestStreak, tempStreak)
    {
      var currentDate := completedDates[i];
      if prevDate.None? {
        tempStreak := 1;
        SingleDayRuns(seen + {currentDate}, currentDate);
        assert Run(seen + {currentDate}, currentDate, 1);
      } else {
        var prev := prevDate.value;
        AscendingScanStep(seen, prev, currentDate, tempStreak, longestStreak, bestLo);
        var diffDays := currentDate - prev;
        if diffDays == 1 {
          tempStreak := tempStreak + 1;
        } else {
          if tempStreak > longestStreak {
            bestLo := prev - tempStreak + 1;
          }
          longestStreak := Max(longestStreak, tempStreak);
          tempStreak := 1;
        }
      }
      seen := seen + {currentDate};
      prevDate := Some(currentDate);
      assert completedDates[..i + 1] == completedDates[..i] + [currentDate];
    }
    assert completedDates[..|completedDates|] == completedDates;
    assert forall d :: d in seen <==> d in D;
    assert seen == D;
    var last := completedDates[|completedDates| - 1];
    assert Run(D, if longestStreak >= tempStreak then bestLo else last - tempStreak + 1, Max(longestStreak, tempStreak));
  }

  /** The last day of an ascending list is its largest. */
  lemma LastIsLargest(xs: seq<Day>, D: set<Day>)
    requires xs != [] && StrictlyIncreasing(xs)
    requires forall d :: d in xs <==> d in D
    ensures xs[|xs| - 1] in D
    ensures forall d :: d in D ==> d <= xs[|xs| - 1]
  {
    assert xs[|xs| - 1] in xs;
    forall d | d in D ensures d <= xs[|xs| - 1] {
      var k :| 0 <= k < |xs| && xs[k] == d;
    }
  }

  /** `calculateStreak(habitId)` over the habit's entries, with `today` given. */
  method CalculateStreak(habitId: string, entries: seq<HabitEntry>, today: Day) returns (streak: HabitStreak)
    ensures IsStreakFor(streak, habitId, entries, today)
    ensures streak.longestStreak >= streak.currentStreak >= 0
  {
    ghost var D := CompletedDays(entries);
    CompletedDatesAreDays(entries);
    var completedDates := SortedDistinct(CompletedDates(entries));

    if |completedDates| == 0 {
      assert D == {};
      streak := HabitStreak(habitId, 0, 0, None, None);
      return;
    }

    var currentStreak, checkDate := WalkBack(completedDates, D, today);
    var longestStreak, tempStreak := ScanRuns(completedDates, D);
    LongestRunFacts(D, Max(longestStreak, tempStreak));
    var longest := Max(Max(longestStreak, tempStreak), currentStreak);

    var last := completedDates[|completedDates| - 1];
    LastIsLargest(completedDates, D);

    streak := HabitStreak(
      habitId,
      currentStreak,
      longest,
      Some(last),
      if currentStreak > 0 then Some(checkDate + 1) else None);
  }
}
