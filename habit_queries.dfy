/** The store's read-only queries (`getHabitEntries`, `getHabitStreak` in
    src/context/HabitContext.tsx). */
module HabitQueries {
  import opened Wrappers
  import opened HabitTypes
  import opened ArrayOps
  import opened HabitReducer

  /** Timestamps never increase along the list: the newest entry comes first. */
  ghost predicate NewestFirst(es: seq<HabitEntry>) {
    forall i, j :: 0 <= i < j < |es| ==> es[i].timestamp >= es[j].timestamp
  }

  /** An entry no older than every entry of a newest-first list can go in
      front of it. */
  lemma NewestFirstCons(x: HabitEntry, rest: seq<HabitEntry>)
    requires NewestFirst(rest)
    requires forall y :: y in rest ==> y.timestamp <= x.timestamp
    ensures NewestFirst([x] + rest)
  {
    var r := [x] + rest;
    forall i, j | 0 <= i < j < |r| ensures r[i].timestamp >= r[j].timestamp {
      assert r[j] == rest[j - 1];
      if i > 0 {
        assert r[i] == rest[i - 1];
      } else {
        assert rest[j - 1] in rest;
      }
    }
  }

  /** The head of a non-empty newest-first list is no older than any of its
      entries. */
  lemma HeadIsNewest(es: seq<HabitEntry>)
    requires es != [] && NewestFirst(es)
    ensures forall y :: y in es ==> y.timestamp <= es[0].timestamp
  {
    forall y | y in es ensures y.timestamp <= es[0].timestamp {
      var k :| 0 <= k < |es| && es[k] == y;
    }
  }

  /** Puts `e` before the first entry that is not newer than it. */
  function InsertNewestFirst(e: HabitEntry, es: seq<HabitEntry>): seq<HabitEntry> {
    if es == [] || es[0].timestamp <= e.timestamp then [e] + es
    else [es[0]] + InsertNewestFirst(e, es[1..])
  }

  /** Inserting into a newest-first list adds exactly the one entry and
      keeps the list newest-first. */
  lemma {:induction false} InsertKeepsNewestFirst(e: HabitEntry, es: seq<HabitEntry>)
    requires NewestFirst(es)
    ensures NewestFirst(InsertNewestFirst(e, es))
    ensures multiset(InsertNewestFirst(e, es)) == multiset(es) + multiset{e}
  {
    if es == [] {
    } else if es[0].timestamp <= e.timestamp {
      HeadIsNewest(es);
      NewestFirstCons(e, es);
    } else {
      assert es == [es[0]] + es[1..];
      var rest := InsertNewestFirst(e, es[1..]);
      InsertKeepsNewestFirst(e, es[1..]);
      HeadIsNewest(es);
      forall y | y in rest ensures y.timestamp <= es[0].timestamp {
        assert y in multiset(rest);
        if y != e {
          assert y in multiset(es[1..]);
          assert y in es;
        }
      }
      NewestFirstCons(es[0], rest);
    }
  }

  /** `es.sort((a, b) => b.timestamp - a.timestamp)`, a stable sort: an entry
      is inserted ahead of the later entries with the same timestamp. */
  function SortNewestFirst(es: seq<HabitEntry>): (r: seq<HabitEntry>)
    ensures NewestFirst(r)
    ensures multiset(r) == multiset(es)
  {
    if es == [] then []
    else
      assert es == [es[0]] + es[1..];
      var sorted := SortNewestFirst(es[1..]);
      InsertKeepsNewestFirst(es[0], sorted);
      InsertNewestFirst(es[0], sorted)
  }

  function EntryHabitIdIs(id: string): HabitEntry -> bool { (x: HabitEntry) => x.habitId == id }
  function EntryDateIs(d: Day): HabitEntry -> bool { (x: HabitEntry) => x.date == d }

  /** Whether an entry belongs to the habit and, when a date is given, to that day. */
  predicate Selects(e: HabitEntry, habitId: string, date: Option<Day>) {
    e.habitId == habitId && (date.Some? ==> e.date == date.value)
  }

  /** The entries `getHabitEntries` keeps before sorting. */
  function SelectEntries(entries: seq<HabitEntry>, habitId: string, date: Option<Day>): seq<HabitEntry> {
    var ofHabit := Filter(entries, EntryHabitIdIs(habitId));
    if date.Some? then Filter(ofHabit, EntryDateIs(date.value)) else ofHabit
  }

  /** `getHabitEntries(habitId, date?)`: the habit's entries, restricted to the
      day when one is given, newest first. */
  function GetHabitEntries(entries: seq<HabitEntry>, habitId: string, date: Option<Day>): (r: seq<HabitEntry>)
    ensures NewestFirst(r)
    ensures forall e :: e in r <==> e in entries && Selects(e, habitId, date)
  {
    var selected := SelectEntries(entries, habitId, date);
    var r := SortNewestFirst(selected);
    assert forall e :: e in r <==> e in multiset(selected);
    r
  }

  /** The result of `getHabitEntries` is a permutation of exactly the
      selected entries: each occurs as often as in the store. */
  lemma GetHabitEntriesPermutes(entries: seq<HabitEntry>, habitId: string, date: Option<Day>)
    ensures forall e :: multiset(GetHabitEntries(entries, habitId, date))[e]
                        == if Selects(e, habitId, date) then multiset(entries)[e] else 0
  {
    var ofHabit := Filter(entries, EntryHabitIdIs(habitId));
    FilterCounts(entries, EntryHabitIdIs(habitId));
    if date.Some? {
      FilterCounts(ofHabit, EntryDateIs(date.value));
    }
  }

  /** `getHabitStreak(habitId)`: the first streak record of the habit, if any. */
  function GetHabitStreak(streaks: seq<HabitStreak>, habitId: string): (r: Option<HabitStreak>)
    ensures r.None? <==> forall st :: st in streaks ==> st.habitId != habitId
    ensures r.Some? ==> r.value.habitId == habitId
    ensures r.Some? ==> exists i :: 0 <= i < |streaks| && streaks[i] == r.value
                                 && forall j :: 0 <= j < i ==> streaks[j].habitId != habitId
  {
    Find(streaks, StreakHabitIdIs(habitId))
  }

  /** After UPDATE_STREAK, the habit's streak is the one just written. */
  lemma StreakFoundAfterUpsert(streaks: seq<HabitStreak>, st: HabitStreak)
    ensures GetHabitStreak(UpsertStreak(streaks, st), st.habitId) == Some(st)
  {
    var r := UpsertStreak(streaks, st);
    var i := FindIndex(streaks, StreakHabitIdIs(st.habitId));
    var k := FindIndex(r, StreakHabitIdIs(st.habitId));
    if i >= 0 {
      assert r == streaks[i := st];
      assert StreakHabitIdIs(st.habitId)(r[i]);
      assert forall j :: 0 <= j < i ==> r[j] == streaks[j];
    } else {
      assert r == streaks + [st];
      assert StreakHabitIdIs(st.habitId)(r[|streaks|]);
      assert forall j :: 0 <= j < |streaks| ==> r[j] == streaks[j];
    }
  }

  /** After RESET_DATA no habit has entries or a streak. */
  lemma ResetLeavesNothing(s: AppState, habitId: string, date: Option<Day>)
    ensures var r := Reduce(s, ResetData);
      GetHabitEntries(r.habitEntries, habitId, date) == [] && GetHabitStreak(r.streaks, habitId) == None
  {
    assert Reduce(s, ResetData) == InitialState.(isLoading := false);
    assert SelectEntries([], habitId, date) == [];
  }
}
