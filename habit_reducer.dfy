/** The store's reducer (`habitReducer` in src/context/HabitContext.tsx):
    each action maps the old state to a new one. */
module HabitReducer {
  import opened Wrappers
  import opened HabitTypes
  import opened ArrayOps

  /** `Partial<AppState>`: the fields a LOAD_DATA action carries. `None` is an
      absent key; for `user`, `Some(None)` is a key holding `null`. The
      `isLoading` and `error` keys are left out: the reducer overwrites them. */
  datatype LoadPayload = LoadPayload(
    habits: Option<seq<Habit>>,
    habitEntries: Option<seq<HabitEntry>>,
    streaks: Option<seq<HabitStreak>>,
    user: Option<Option<User>>,
    achievements: Option<seq<Achievement>>,
    userAchievements: Option<seq<UserAchievement>>,
    categories: Option<seq<HabitCategory>>)

  datatype HabitAction =
    | SetLoading(loading: bool)
    | SetError(message: Option<string>)
    | LoadData(payload: LoadPayload)
    | AddHabit(habit: Habit)
    | UpdateHabit(habit: Habit)
    | DeleteHabit(habitId: string)
    | AddHabitEntry(entry: HabitEntry)
    | UpdateHabitEntry(entry: HabitEntry)
    | DeleteHabitEntry(entryId: string)
    | UpdateStreak(streak: HabitStreak)
    | ResetData

  /** The state a store starts in: empty, loading, with the default categories. */
  const InitialState: AppState :=
    AppState([], [], [], None, [], [], DefaultCategories, true, None)

  // The element tests the reducer's `map` and `filter` calls use.
  function HabitIdIs(id: string): Habit -> bool { (x: Habit) => x.id == id }
  function EntryIdIs(id: string): HabitEntry -> bool { (x: HabitEntry) => x.id == id }
  function HabitIdIsNot(id: string): Habit -> bool { (x: Habit) => x.id != id }
  function EntryHabitIdIsNot(id: string): HabitEntry -> bool { (x: HabitEntry) => x.habitId != id }
  function EntryIdIsNot(id: string): HabitEntry -> bool { (x: HabitEntry) => x.id != id }
  function StreakHabitIdIsNot(id: string): HabitStreak -> bool { (x: HabitStreak) => x.habitId != id }
  function StreakHabitIdIs(id: string): HabitStreak -> bool { (x: HabitStreak) => x.habitId == id }
  function StreakKey(st: HabitStreak): string { st.habitId }

  /** UPDATE_STREAK's upsert: the first streak of the same habit is replaced;
      without one, the streak is appended. */
  function UpsertStreak(streaks: seq<HabitStreak>, st: HabitStreak): (r: seq<HabitStreak>)
    ensures (forall x :: x in streaks ==> x.habitId != st.habitId) ==> r == streaks + [st]
    ensures forall i :: 0 <= i < |streaks| && streaks[i].habitId == st.habitId
                        && (forall j :: 0 <= j < i ==> streaks[j].habitId != st.habitId)
                        ==> r == streaks[i := st]
  {
    var i := FindIndex(streaks, StreakHabitIdIs(st.habitId));
    if i >= 0 then streaks[i := st] else streaks + [st]
  }

  function Reduce(state: AppState, action: HabitAction): (r: AppState)
    ensures !action.LoadData? && !action.ResetData? ==>
      r.user == state.user && r.achievements == state.achievements
      && r.userAchievements == state.userAchievements && r.categories == state.categories
    ensures action.SetLoading? || action.SetError? || action.LoadData? || action.ResetData?
      || (r.isLoading == state.isLoading && r.error == state.error)
  {
    match action
    case SetLoading(loading) => state.(isLoading := loading)
    case SetError(message) => state.(error := message, isLoading := false)
    case LoadData(p) =>
      state.(
        habits := p.habits.GetOr(state.habits),
        habitEntries := p.habitEntries.GetOr(state.habitEntries),
        streaks := p.streaks.GetOr(state.streaks),
        user := p.user.GetOr(state.user),
        achievements := p.achievements.GetOr(state.achievements),
        userAchievements := p.userAchievements.GetOr(state.userAchievements),
        categories := p.categories.GetOr(state.categories),
        isLoading := false,
        error := None)
    case AddHabit(h) => state.(habits := state.habits + [h])
    case UpdateHabit(h) => state.(habits := ReplaceWhere(state.habits, HabitIdIs(h.id), h))
    case DeleteHabit(id) =>
      state.(
        habits := Filter(state.habits, HabitIdIsNot(id)),
        habitEntries := Filter(state.habitEntries, EntryHabitIdIsNot(id)),
        streaks := Filter(state.streaks, StreakHabitIdIsNot(id)))
    case AddHabitEntry(e) => state.(habitEntries := state.habitEntries + [e])
    case UpdateHabitEntry(e) => state.(habitEntries := ReplaceWhere(state.habitEntries, EntryIdIs(e.id), e))
    case DeleteHabitEntry(id) => state.(habitEntries := Filter(state.habitEntries, EntryIdIsNot(id)))
    case UpdateStreak(st) => state.(streaks := UpsertStreak(state.streaks, st))
    case ResetData => InitialState.(isLoading := false)
  }

  /** ADD_HABIT and ADD_HABIT_ENTRY put the payload at the end of their list
      and leave every earlier element and every other field as it was. */
  lemma AddAppendsAtEnd(s: AppState, h: Habit, e: HabitEntry)
    ensures var r := Reduce(s, AddHabit(h));
      |r.habits| == |s.habits| + 1 && r.habits[..|s.habits|] == s.habits
      && r.habits[|s.habits|] == h && r.(habits := s.habits) == s
    ensures var r := Reduce(s, AddHabitEntry(e));
      |r.habitEntries| == |s.habitEntries| + 1 && r.habitEntries[..|s.habitEntries|] == s.habitEntries
      && r.habitEntries[|s.habitEntries|] == e && r.(habitEntries := s.habitEntries) == s
  {
  }

  /** UPDATE_HABIT and UPDATE_HABIT_ENTRY keep length and order: every element
      with the payload's id becomes the payload, the others are untouched. */
  lemma UpdateReplacesById(s: AppState, h: Habit, e: HabitEntry)
    ensures var r := Reduce(s, UpdateHabit(h));
      |r.habits| == |s.habits| && r.(habits := s.habits) == s
      && forall i :: 0 <= i < |s.habits| ==>
           r.habits[i] == if s.habits[i].id == h.id then h else s.habits[i]
    ensures var r := Reduce(s, UpdateHabitEntry(e));
      |r.habitEntries| == |s.habitEntries| && r.(habitEntries := s.habitEntries) == s
      && forall i :: 0 <= i < |s.habitEntries| ==>
           r.habitEntries[i] == if s.habitEntries[i].id == e.id then e else s.habitEntries[i]
  {
  }

  /** DELETE_HABIT cascades: afterwards no habit, entry or streak refers to
      the id; everything with another id survives, as often as it occurred;
      the other fields are unchanged. */
  lemma DeleteHabitCascades(s: AppState, id: string)
    ensures var r := Reduce(s, DeleteHabit(id));
      (forall h :: h in r.habits ==> h.id != id)
      && (forall e :: e in r.habitEntries ==> e.habitId != id)
      && (forall st :: st in r.streaks ==> st.habitId != id)
    ensures var r := Reduce(s, DeleteHabit(id));
      (forall h: Habit :: h.id != id ==> multiset(r.habits)[h] == multiset(s.habits)[h])
      && (forall e: HabitEntry :: e.habitId != id ==> multiset(r.habitEntries)[e] == multiset(s.habitEntries)[e])
      && (forall st: HabitStreak :: st.habitId != id ==> multiset(r.streaks)[st] == multiset(s.streaks)[st])
    ensures var r := Reduce(s, DeleteHabit(id));
      r.(habits := s.habits, habitEntries := s.habitEntries, streaks := s.streaks) == s
  {
    FilterCounts(s.habits, HabitIdIsNot(id));
    FilterCounts(s.habitEntries, EntryHabitIdIsNot(id));
    FilterCounts(s.streaks, StreakHabitIdIsNot(id));
  }

  /** DELETE_HABIT_ENTRY removes exactly the entries with that id. */
  lemma DeleteEntryRemovesOnlyThatId(s: AppState, id: string)
    ensures var r := Reduce(s, DeleteHabitEntry(id));
      (forall e :: e in r.habitEntries <==> e in s.habitEntries && e.id != id)
      && (forall e: HabitEntry :: e.id != id ==> multiset(r.habitEntries)[e] == multiset(s.habitEntries)[e])
      && r.(habitEntries := s.habitEntries) == s
  {
    FilterCounts(s.habitEntries, EntryIdIsNot(id));
  }

  /** The survivors of a delete keep their relative order in each of the
      three lists: deleting from a concatenation deletes from each part. */
  lemma {:induction false} DeleteKeepsOrder(s: AppState, id: string,
                                            ha: seq<Habit>, hb: seq<Habit>,
                                            ea: seq<HabitEntry>, eb: seq<HabitEntry>,
                                            sa: seq<HabitStreak>, sb: seq<HabitStreak>)
    requires s.habits == ha + hb && s.habitEntries == ea + eb && s.streaks == sa + sb
    ensures var r := Reduce(s, DeleteHabit(id));
      var ra := Reduce(s.(habits := ha, habitEntries := ea, streaks := sa), DeleteHabit(id));
      var rb := Reduce(s.(habits := hb, habitEntries := eb, streaks := sb), DeleteHabit(id));
      r.habits == ra.habits + rb.habits
      && r.habitEntries == ra.habitEntries + rb.habitEntries
      && r.streaks == ra.streaks + rb.streaks
  {
    FilterConcat(ha, hb, HabitIdIsNot(id));
    FilterConcat(ea, eb, EntryHabitIdIsNot(id));
    FilterConcat(sa, sb, StreakHabitIdIsNot(id));
  }

  /** UPDATE_STREAK is an upsert: an existing streak for the habit is replaced
      in place (the first one, the length unchanged), otherwise the payload is
      appended; nothing else changes. */
  lemma UpdateStreakUpserts(s: AppState, st: HabitStreak)
    ensures var r := Reduce(s, UpdateStreak(st));
      r.(streaks := s.streaks) == s
      && ((exists x :: x in s.streaks && x.habitId == st.habitId) ==>
            |r.streaks| == |s.streaks| && st in r.streaks
            && forall i :: 0 <= i < |s.streaks| ==> r.streaks[i] == s.streaks[i] || r.streaks[i] == st)
      && ((forall x :: x in s.streaks ==> x.habitId != st.habitId) ==> r.streaks == s.streaks + [st])
  {
    var r := Reduce(s, UpdateStreak(st));
    var i := FindIndex(s.streaks, StreakHabitIdIs(st.habitId));
    if i >= 0 {
      assert r.streaks == s.streaks[i := st];
      assert r.streaks[i] == st;
    } else {
      assert forall x :: x in s.streaks ==> x.habitId != st.habitId by {
        forall x | x in s.streaks ensures x.habitId != st.habitId {
          var j :| 0 <= j < |s.streaks| && s.streaks[j] == x;
          assert !StreakHabitIdIs(st.habitId)(s.streaks[j]);
        }
      }
    }
  }

  /** The upsert keeps "at most one streak per habit". */
  lemma UpsertKeepsUnique(streaks: seq<HabitStreak>, st: HabitStreak)
    requires UniqueBy(streaks, StreakKey)
    ensures UniqueBy(UpsertStreak(streaks, st), StreakKey)
  {
    var r := UpsertStreak(streaks, st);
    var i := FindIndex(streaks, StreakHabitIdIs(st.habitId));
    if i >= 0 {
      forall a, b | 0 <= a < b < |r| ensures StreakKey(r[a]) != StreakKey(r[b]) {
        assert StreakKey(streaks[a]) != StreakKey(streaks[b]);
        if a == i {
          assert StreakKey(streaks[i]) == StreakKey(st);
        } else if b == i {
          assert StreakKey(streaks[i]) == StreakKey(st);
        }
      }
    } else {
      forall a, b | 0 <= a < b < |r| ensures StreakKey(r[a]) != StreakKey(r[b]) {
        if b == |streaks| {
          assert r[a] == streaks[a];
          assert !StreakHabitIdIs(st.habitId)(streaks[a]);
        }
      }
    }
  }

  /** Every action except a LOAD_DATA that brings its own duplicate streaks
      keeps "at most one streak per habit". */
  lemma ReduceKeepsStreaksUnique(s: AppState, a: HabitAction)
    requires UniqueBy(s.streaks, StreakKey)
    requires a.LoadData? && a.payload.streaks.Some? ==> UniqueBy(a.payload.streaks.value, StreakKey)
    ensures UniqueBy(Reduce(s, a).streaks, StreakKey)
  {
    match a
    case DeleteHabit(id) => FilterKeepsUniqueBy(s.streaks, StreakHabitIdIsNot(id), StreakKey);
    case UpdateStreak(st) => UpsertKeepsUnique(s.streaks, st);
    case ResetData =>
    case LoadData(p) =>
    case _ =>
  }

  /** RESET_DATA empties every collection, logs the user out, keeps the
      default categories and is no longer loading. */
  lemma ResetClears(s: AppState)
    ensures var r := Reduce(s, ResetData);
      r.habits == [] && r.habitEntries == [] && r.streaks == [] && r.user == None
      && r.achievements == [] && r.userAchievements == [] && r.categories == DefaultCategories
      && !r.isLoading && r.error == None
  {
  }

  /** LOAD_DATA takes every field the payload carries, keeps the others, and
      always clears `isLoading` and `error`; SET_ERROR also clears
      `isLoading`; SET_LOADING sets `isLoading` to its payload and changes
      nothing else. */
  lemma LoadAndErrorClearLoading(s: AppState, p: LoadPayload, message: Option<string>, loading: bool)
    ensures var r := Reduce(s, LoadData(p));
      !r.isLoading && r.error == None
      && (p.habits.Some? ==> r.habits == p.habits.value) && (p.habits.None? ==> r.habits == s.habits)
      && (p.habitEntries.Some? ==> r.habitEntries == p.habitEntries.value)
      && (p.habitEntries.None? ==> r.habitEntries == s.habitEntries)
      && (p.streaks.Some? ==> r.streaks == p.streaks.value) && (p.streaks.None? ==> r.streaks == s.streaks)
      && (p.user.Some? ==> r.user == p.user.value) && (p.user.None? ==> r.user == s.user)
      && (p.userAchievements.Some? ==> r.userAchievements == p.userAchievements.value)
      && (p.userAchievements.None? ==> r.userAchievements == s.userAchievements)
      && (p.achievements.Some? ==> r.achievements == p.achievements.value)
      && (p.achievements.None? ==> r.achievements == s.achievements)
      && (p.categories.Some? ==> r.categories == p.categories.value)
      && (p.categories.None? ==> r.categories == s.categories)
    ensures var r := Reduce(s, SetError(message));
      !r.isLoading && r.error == message && r.(isLoading := s.isLoading, error := s.error) == s
    ensures var r := Reduce(s, SetLoading(loading));
      r.isLoading == loading && r.(isLoading := s.isLoading) == s
  {
  }
}
