/** The habit provider of src/context/HabitContext.tsx: the store's state and
    the operations the screens call. Each operation dispatches actions to
    the reducer one after another. The streak recalculation that follows an
    entry change reads the state as it was when the operation started (the
    `state` the operation's closure captured), not the state its own
    dispatch produced. Ids, the current instant and today's day are passed
    in. */
module HabitProvider {
  import opened Wrappers
  import opened HabitTypes
  import opened ArrayOps
  import opened DayRuns
  import opened HabitReducer
  import opened HabitQueries
  import HabitStreaks
  import HabitTransfer

  /** `Omit<Habit, 'id' | 'createdAt' | 'updatedAt'>`. */
  datatype HabitDraft = HabitDraft(
    name: string,
    description: Option<string>,
    category: string,
    color: string,
    icon: string,
    target: int,
    unit: string,
    frequency: Frequency,
    reminderTime: Option<string>,
    isActive: bool)

  /** `Omit<HabitEntry, 'id' | 'timestamp'>`. */
  datatype EntryDraft = EntryDraft(
    habitId: string,
    date: Day,
    value: int,
    completed: bool,
    notes: Option<string>)

  /** The draft fields of a habit: everything but the id and the time stamps. */
  function DraftOf(h: Habit): HabitDraft {
    HabitDraft(h.name, h.description, h.category, h.color, h.icon, h.target, h.unit,
               h.frequency, h.reminderTime, h.isActive)
  }

  /** The draft fields of an entry: everything but the id and the timestamp. */
  function EntryDraftOf(e: HabitEntry): EntryDraft {
    EntryDraft(e.habitId, e.date, e.value, e.completed, e.notes)
  }

  /** The habit `addHabit` builds: every draft field is kept, and the id and
      both time stamps are added. */
  function NewHabit(d: HabitDraft, id: string, now: Instant): (h: Habit)
    ensures DraftOf(h) == d
    ensures h.id == id && h.createdAt == now && h.updatedAt == now
  {
    Habit(id, d.name, d.description, d.category, d.color, d.icon, d.target, d.unit,
          d.frequency, d.reminderTime, d.isActive, now, now)
  }

  /** The entry `addHabitEntry` builds: every draft field is kept, and the id
      and the timestamp are added. */
  function NewEntry(d: EntryDraft, id: string, now: Instant): (e: HabitEntry)
    ensures EntryDraftOf(e) == d
    ensures e.id == id && e.timestamp == now
  {
    HabitEntry(id, d.habitId, d.date, d.value, d.completed, d.notes, now)
  }

  /** The streak `addHabit` registers for a new habit. */
  function ZeroStreak(habitId: string): HabitStreak {
    HabitStreak(habitId, 0, 0, None, None)
  }

  class HabitStore {
    var state: AppState

    /** A fresh provider: the reducer's initial state. */
    constructor()
      ensures state == InitialState
    {
      state := InitialState;
    }

    /** `calculateStreak(habitId)` as a closure over `snapshot`, the state it
        reads: nothing happens when the snapshot has no such habit; otherwise
        the streak of the snapshot's entries of the habit is upserted into the
        current state. */
    method RecalculateFrom(snapshot: AppState, habitId: string, today: Day)
      modifies this
      ensures (forall h :: h in snapshot.habits ==> h.id != habitId) ==> state == old(state)
      ensures (exists h :: h in snapshot.habits && h.id == habitId) ==>
        exists st :: HabitStreaks.IsStreakFor(st, habitId, GetHabitEntries(snapshot.habitEntries, habitId, None), today)
                     && state == Reduce(old(state), UpdateStreak(st))
    {
      var habit := Find(snapshot.habits, HabitIdIs(habitId));
      if habit.None? {
        return;
      }
      var entries := GetHabitEntries(snapshot.habitEntries, habitId, None);
      var streak := HabitStreaks.CalculateStreak(habitId, entries, today);
      state := Reduce(state, UpdateStreak(streak));
    }

    /** `calculateStreak(habitId)` called on its own, when the captured state
        is the current one. */
    method CalculateStreak(habitId: string, today: Day)
      modifies this
      ensures (forall h :: h in old(state).habits ==> h.id != habitId) ==> state == old(state)
      ensures (exists h :: h in old(state).habits && h.id == habitId) ==>
        exists st :: HabitStreaks.IsStreakFor(st, habitId, GetHabitEntries(old(state).habitEntries, habitId, None), today)
                     && state == Reduce(old(state), UpdateStreak(st))
    {
      RecalculateFrom(state, habitId, today);
    }

    /** `addHabit(habitData)`: appends the new habit, then registers a zero
        streak for it. */
    method AddHabit(draft: HabitDraft, id: string, now: Instant)
      modifies this
      ensures state == Reduce(Reduce(old(state), HabitAction.AddHabit(NewHabit(draft, id, now))),
                              UpdateStreak(ZeroStreak(id)))
    {
      var habit := NewHabit(draft, id, now);
      state := Reduce(state, HabitAction.AddHabit(habit));
      var initialStreak := ZeroStreak(habit.id);
      state := Reduce(state, UpdateStreak(initialStreak));
    }

    /** `updateHabit(habit)`: replaces the habit with that id, stamped `now`. */
    method UpdateHabit(habit: Habit, now: Instant)
      modifies this
      ensures state == Reduce(old(state), HabitAction.UpdateHabit(habit.(updatedAt := now)))
    {
      state := Reduce(state, HabitAction.UpdateHabit(habit.(updatedAt := now)));
    }

    /** `deleteHabit(habitId)`. */
    method DeleteHabit(habitId: string)
      modifies this
      ensures state == Reduce(old(state), HabitAction.DeleteHabit(habitId))
    {
      state := Reduce(state, HabitAction.DeleteHabit(habitId));
    }

    /** `addHabitEntry(entryData)`: appends the entry, then recalculates the
        habit's streak from the entries as they were BEFORE the append. */
    method AddHabitEntry(draft: EntryDraft, id: string, now: Instant, today: Day)
      modifies this
      ensures var s1 := Reduce(old(state), HabitAction.AddHabitEntry(NewEntry(draft, id, now)));
        ((forall h :: h in old(state).habits ==> h.id != draft.habitId) ==> state == s1)
        && ((exists h :: h in old(state).habits && h.id == draft.habitId) ==>
              exists st :: HabitStreaks.IsStreakFor(st, draft.habitId,
                                                    GetHabitEntries(old(state).habitEntries, draft.habitId, None), today)
                           && state == Reduce(s1, UpdateStreak(st)))
    {
      var snapshot := state;
      var entry := NewEntry(draft, id, now);
      state := Reduce(state, HabitAction.AddHabitEntry(entry));
      RecalculateFrom(snapshot, draft.habitId, today);
    }

    /** `addHabitEntry` with the recalculation reading the state after the
        append, so that the new entry is part of the streak. */
    method AddHabitEntryRecomputed(draft: EntryDraft, id: string, now: Instant, today: Day)
      modifies this
      ensures var s1 := Reduce(old(state), HabitAction.AddHabitEntry(NewEntry(draft, id, now)));
        ((forall h :: h in old(state).habits ==> h.id != draft.habitId) ==> state == s1)
        && ((exists h :: h in old(state).habits && h.id == draft.habitId) ==>
              exists st :: HabitStreaks.IsStreakFor(st, draft.habitId,
                                                    GetHabitEntries(s1.habitEntries, draft.habitId, None), today)
                           && state == Reduce(s1, UpdateStreak(st)))
    {
      var entry := NewEntry(draft, id, now);
      state := Reduce(state, HabitAction.AddHabitEntry(entry));
      RecalculateFrom(state, draft.habitId, today);
    }

    /** `updateHabitEntry(entry)`: replaces the entry, then recalculates the
        streak of the entry's habit from the entries before the replacement. */
    method UpdateHabitEntry(entry: HabitEntry, today: Day)
      modifies this
      ensures var s1 := Reduce(old(state), HabitAction.UpdateHabitEntry(entry));
        ((forall h :: h in old(state).habits ==> h.id != entry.habitId) ==> state == s1)
        && ((exists h :: h in old(state).habits && h.id == entry.habitId) ==>
              exists st :: HabitStreaks.IsStreakFor(st, entry.habitId,
                                                    GetHabitEntries(old(state).habitEntries, entry.habitId, None), today)
                           && state == Reduce(s1, UpdateStreak(st)))
    {
      var snapshot := state;
      state := Reduce(state, HabitAction.UpdateHabitEntry(entry));
      RecalculateFrom(snapshot, entry.habitId, today);
    }

    /** `deleteHabitEntry(entryId)`: looks the entry up, removes every entry
        with that id, and, when the entry existed, recalculates its habit's
        streak from the entries before the removal. */
    method DeleteHabitEntry(entryId: string, today: Day)
      modifies this
      ensures var s1 := Reduce(old(state), HabitAction.DeleteHabitEntry(entryId));
        var found := Find(old(state).habitEntries, EntryIdIs(entryId));
        (found.None? ==> state == s1)
        && (found.Some? && (forall h :: h in old(state).habits ==> h.id != found.value.habitId) ==> state == s1)
        && (found.Some? && (exists h :: h in old(state).habits && h.id == found.value.habitId) ==>
              exists st :: HabitStreaks.IsStreakFor(st, found.value.habitId,
                                                    GetHabitEntries(old(state).habitEntries, found.value.habitId, None), today)
                           && state == Reduce(s1, UpdateStreak(st)))
    {
      var snapshot := state;
      var entry := Find(state.habitEntries, EntryIdIs(entryId));
      state := Reduce(state, HabitAction.DeleteHabitEntry(entryId));
      if entry.Some? {
        RecalculateFrom(snapshot, entry.value.habitId, today);
      }
    }

    /** `exportData()` at the instant `now`. */
    method ExportData(now: Instant) returns (envelope: HabitTransfer.ExportEnvelope)
      ensures envelope.habits == state.habits && envelope.habitEntries == state.habitEntries
      ensures envelope.streaks == state.streaks && envelope.user == state.user
      ensures envelope.userAchievements == state.userAchievements
      ensures envelope.exportedAt == now && envelope.version == HabitTransfer.ExportVersion
    {
      envelope := HabitTransfer.ExportData(state, now);
    }

    /** `importData(data)`: on success the payload is loaded; on failure the
        state is untouched and the thrown message is returned. */
    method ImportData(data: HabitTransfer.ParsedImport) returns (thrown: Option<string>)
      modifies this
      ensures var r := HabitTransfer.ImportData(data);
        (r.Failure? ==> thrown == Some(r.error) && state == old(state))
        && (r.Success? ==> thrown.None? && state == Reduce(old(state), LoadData(r.value)))
    {
      var r := HabitTransfer.ImportData(data);
      if r.Failure? {
        return Some(r.error);
      }
      state := Reduce(state, LoadData(r.value));
      return None;
    }

    /** `resetData()`: the RESET_DATA action (the removal from storage is not
        modelled). */
    method ResetData()
      modifies this
      ensures state == Reduce(old(state), HabitAction.ResetData)
    {
      state := Reduce(state, HabitAction.ResetData);
    }
  }

  /** After `addHabit`, the new habit is the last one and its streak is the
      zero streak; nothing else about habits changes. */
  lemma AddedHabitHasZeroStreak(s: AppState, h: Habit)
    ensures var r := Reduce(Reduce(s, HabitAction.AddHabit(h)), UpdateStreak(ZeroStreak(h.id)));
      r.habits == s.habits + [h] && GetHabitStreak(r.streaks, h.id) == Some(ZeroStreak(h.id))
      && r.habitEntries == s.habitEntries
  {
    var s1 := Reduce(s, HabitAction.AddHabit(h));
    assert s1 == s.(habits := s.habits + [h]);
    var z := ZeroStreak(h.id);
    assert Reduce(s1, UpdateStreak(z)) == s1.(streaks := UpsertStreak(s1.streaks, z));
    StreakFoundAfterUpsert(s1.streaks, z);
  }

  /** The habit's entries before and after `e` is appended. */
  lemma EntriesAroundAppend(s: AppState, e: HabitEntry)
    ensures Reduce(s, HabitAction.AddHabitEntry(e)).habitEntries == s.habitEntries + [e]
    ensures forall x :: x in GetHabitEntries(s.habitEntries + [e], e.habitId, None) <==>
                        x == e || (x in s.habitEntries && x.habitId == e.habitId)
  {
  }

  /** The habit's completed days once `e` has been appended, for a habit
      without entries. */
  lemma DaysAfterAppend(s: AppState, e: HabitEntry)
    requires forall x :: x in s.habitEntries ==> x.habitId != e.habitId
    requires e.completed
    ensures HabitStreaks.CompletedDays(GetHabitEntries(s.habitEntries, e.habitId, None)) == {}
    ensures HabitStreaks.CompletedDays(GetHabitEntries(Reduce(s, HabitAction.AddHabitEntry(e)).habitEntries, e.habitId, None)) == {e.date}
  {
    EntriesAroundAppend(s, e);
    var before := GetHabitEntries(s.habitEntries, e.habitId, None);
    var after := GetHabitEntries(s.habitEntries + [e], e.habitId, None);
    HabitStreaks.CompletedDaysOfNoneOrOne(before, after, e);
  }

  /** What `addHabitEntry` stores: for a habit with no entries yet, adding a
      completed entry for today leaves the stored streak at zero, while the
      streak of the entries after the append is one day long. */
  lemma StaleStreakMissesNewEntry(s: AppState, e: HabitEntry, stored: HabitStreak, intended: HabitStreak)
    requires forall x :: x in s.habitEntries ==> x.habitId != e.habitId
    requires e.completed
    requires HabitStreaks.IsStreakFor(stored, e.habitId, GetHabitEntries(s.habitEntries, e.habitId, None), e.date)
    requires HabitStreaks.IsStreakFor(intended, e.habitId,
                                      GetHabitEntries(Reduce(s, HabitAction.AddHabitEntry(e)).habitEntries, e.habitId, None), e.date)
    ensures stored.currentStreak == 0 && stored.longestStreak == 0
    ensures intended.currentStreak == 1 && intended.longestStreak == 1
    ensures stored != intended
  {
    DaysAfterAppend(s, e);
    var D: set<Day> := {e.date};
    assert ExactRunTo(D, e.date, 1);
    ExactRunToUnique(D, e.date, 1, intended.currentStreak);
    SingleDayRuns(D, e.date);
    LongestRunFacts(D, intended.longestStreak);
  }

  /** What the corrected recalculation stores: a completed entry for today is
      counted, so the current streak is at least one day and the last
      completed day is not earlier than today. */
  lemma RecomputedStreakCountsNewEntry(s: AppState, e: HabitEntry, st: HabitStreak)
    requires e.completed
    requires HabitStreaks.IsStreakFor(st, e.habitId,
                                      GetHabitEntries(Reduce(s, HabitAction.AddHabitEntry(e)).habitEntries, e.habitId, None), e.date)
    ensures st.currentStreak >= 1
    ensures st.lastCompletedDate.Some? && st.lastCompletedDate.value >= e.date
    ensures st.streakStartDate.Some? && st.streakStartDate.value <= e.date
  {
    EntriesAroundAppend(s, e);
    var after := GetHabitEntries(s.habitEntries + [e], e.habitId, None);
    HabitStreaks.CompletedTodayCounts(st, e.habitId, after, e.date, e);
  }
}
