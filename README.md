# Habit tracker core in Dafny

This project models the data layer of a React Native habit tracker and proves
properties of that model. Three parts are covered:

- **The habit store** (`src/context/HabitContext.tsx`):
  - the `habitReducer` with all eleven actions;
  - the provider operations, which dispatch actions one after another;
  - the queries `getHabitEntries` and `getHabitStreak`;
  - the streak calculator `calculateStreak`;
  - `exportData` and `importData`.
- **The stand-alone helpers** (`src/utils/index.ts`):
  - the calendar-week helpers and the month names;
  - the completion percentage and its colour;
  - the greeting and the two validators;
  - a second streak calculator.
- **The signed-in user** (`src/context/AuthContext.tsx`): a nullable `User`
  record with a loading flag. Login, registration, logout, profile update,
  settings update and the premium upgrade change it.

## How the model is built

- **Dates.** Calendar dates are whole day numbers. Day 0 is 1970-01-01, a
  Thursday, so `getDay()` is `(d + 4) % 7`. Instants are whole milliseconds.
- **Inputs from the environment.** The clock, generated ids, the host's time
  zone, "today" and the premium expiry instant are parameters.
- **The reducer** is a pure function `HabitReducer.Reduce`. The
  `HabitProvider.HabitStore` and `Auth.AuthStore` classes hold the state the
  React hooks keep. Their methods reassign that state exactly as the
  provider's dispatches do.
- **`calculateStreak`** reads the `state` the operation's closure captured.
  It does not read the state produced by the dispatch just before it. The
  model passes that snapshot explicitly, in
  `HabitProvider.HabitStore.RecalculateFrom`.
- **The streak calculators** are methods with the source's loops. They are
  proved against a declarative meaning:
  - a *run* is a block of consecutive completed days;
  - the current streak is the exact run ending today, or, for the utility
    calculator, the run ending at the latest completed day when that day is
    today or yesterday;
  - the longest streak is the length of the longest run.
- **Import.** JSON text is not modelled. An import starts from what
  `JSON.parse` produced, described field by field as the import code
  inspects it.

## Model

| member | source | states |
|---|---|---|
| ArrayOps.Filter | src/context/HabitContext.tsx:50-56 | `filter` keeps exactly the elements that pass, never lengthens the list |
| ArrayOps.FilterCounts | src/context/HabitContext.tsx:50-56 | every passing element survives as often as it occurred, every other one is gone |
| ArrayOps.FilterConcat | src/context/HabitContext.tsx:50-56 | filtering a concatenation filters each part, so survivors keep their order |
| ArrayOps.MapSeq | src/context/HabitContext.tsx:263-266 | `map` keeps the length and applies the function at every index |
| ArrayOps.ReplaceWhere | src/context/HabitContext.tsx:43-49 | the conditional `map` replaces every matching element and keeps the rest in place |
| ArrayOps.FindIndex | src/context/HabitContext.tsx:72-74 | `findIndex` gives the first passing index, or -1 exactly when none passes |
| ArrayOps.Find | src/context/HabitContext.tsx:252 | `find` gives the first passing element, or nothing exactly when none passes |
| ArrayOps.FilterKeepsUniqueBy | src/context/HabitContext.tsx:50-56 | filtering never creates two elements with the same key |
| ArrayOps.HeadKeyNotInRest | src/context/HabitContext.tsx:50-56 | in a list with unique keys the head's key is not repeated |
| DayRuns.InsertDistinct | src/context/HabitContext.tsx:263-268 | inserting a day into an ascending duplicate-free list keeps it so and adds just that day |
| DayRuns.SortedDistinct | src/context/HabitContext.tsx:263-268 | `[...new Set(dates)]` of the sorted dates: strictly ascending, the same days |
| DayRuns.Reverse | src/utils/index.ts:73 | `reverse()` mirrors the indexes |
| DayRuns.ReverseOfIncreasing | src/utils/index.ts:73 | reversing an ascending list gives a strictly descending one with the same days |
| DayRuns.ExactRunToUnique | src/context/HabitContext.tsx:281-292 | the exact run ending at a day has one length |
| DayRuns.LongestRunFacts | src/context/HabitContext.tsx:294-319 | the longest-run length is unique, at least 1 for a non-empty set, and bounds every exact run |
| DayRuns.RunsAfterAddingMax | src/context/HabitContext.tsx:299-317 | after adding a day above all others, every run is bounded by the old bound or the run ending at the new day |
| DayRuns.RunsAfterAddingMin | src/utils/index.ts:99-110 | the mirror image for a day below all others |
| DayRuns.NoRunsInEmpty | src/context/HabitContext.tsx:294-297 | an empty set holds no run of positive length |
| DayRuns.SingleDayRuns | src/utils/index.ts:79 | a one-day set holds runs of length at most one |
| DayRuns.ThreeDayRun | src/utils/index.ts:84-97 | three consecutive days form an exact run of three that is also the longest |
| HabitReducer.Reduce | src/context/HabitContext.tsx:33-87 | only LOAD_DATA and RESET_DATA change the user, the achievements and the categories; only SET_LOADING, SET_ERROR, LOAD_DATA and RESET_DATA change loading and error; the lemmas below give each action its meaning |
| HabitReducer.UpsertStreak | src/context/HabitContext.tsx:71-81 | the first streak of the habit is replaced in place; without one the streak is appended |
| HabitReducer.AddAppendsAtEnd | src/context/HabitContext.tsx:41-42 | ADD_HABIT / ADD_HABIT_ENTRY append at the end and change nothing else |
| HabitReducer.UpdateReplacesById | src/context/HabitContext.tsx:43-65 | UPDATE_HABIT / UPDATE_HABIT_ENTRY replace every element with the payload's id, keep the length and leave other fields alone |
| HabitReducer.DeleteHabitCascades | src/context/HabitContext.tsx:50-56 | DELETE_HABIT leaves no habit, entry or streak of the id, keeps everything else with its multiplicity, touches no other field |
| HabitReducer.DeleteEntryRemovesOnlyThatId | src/context/HabitContext.tsx:66-70 | DELETE_HABIT_ENTRY removes exactly the entries with that id |
| HabitReducer.DeleteKeepsOrder | src/context/HabitContext.tsx:50-56 | DELETE_HABIT on concatenated habits, entries and streaks deletes from each part, so the survivors of all three lists keep their order |
| HabitReducer.UpdateStreakUpserts | src/context/HabitContext.tsx:71-81 | UPDATE_STREAK replaces an existing streak without changing the length, or appends; nothing else changes |
| HabitReducer.UpsertKeepsUnique | src/context/HabitContext.tsx:71-81 | the upsert keeps at most one streak per habit |
| HabitReducer.ReduceKeepsStreaksUnique | src/context/HabitContext.tsx:33-87 | every action keeps at most one streak per habit, unless LOAD_DATA brings duplicates itself |
| HabitReducer.ResetClears | src/context/HabitContext.tsx:82-83 | RESET_DATA empties every collection, clears the user, keeps the default categories and stops loading |
| HabitReducer.LoadAndErrorClearLoading | src/context/HabitContext.tsx:33-40 | LOAD_DATA takes exactly the fields its payload carries (the six lists and the user) and keeps the others, and clears loading and error; SET_ERROR clears loading; SET_LOADING sets loading to its payload and changes nothing else |
| HabitQueries.NewestFirstCons | src/context/HabitContext.tsx:248 | an entry no older than a newest-first list can go in front of it |
| HabitQueries.HeadIsNewest | src/context/HabitContext.tsx:248 | the head of a newest-first list is its newest entry |
| HabitQueries.InsertKeepsNewestFirst | src/context/HabitContext.tsx:248 | inserting into a newest-first list keeps it newest-first and adds exactly one entry |
| HabitQueries.SortNewestFirst | src/context/HabitContext.tsx:248 | the sort by descending timestamp is newest-first and a permutation |
| HabitQueries.GetHabitEntries | src/context/HabitContext.tsx:241-249 | the result is newest-first and holds exactly the habit's entries, of that day when one is given |
| HabitQueries.GetHabitEntriesPermutes | src/context/HabitContext.tsx:241-249 | each selected entry occurs as often as in the store, every other one not at all |
| HabitQueries.GetHabitStreak | src/context/HabitContext.tsx:251-253 | the first streak of the habit, or nothing exactly when there is none |
| HabitQueries.StreakFoundAfterUpsert | src/context/HabitContext.tsx:71-81 | after UPDATE_STREAK, `getHabitStreak` returns the streak just written |
| HabitQueries.ResetLeavesNothing | src/context/HabitContext.tsx:383-386 | after RESET_DATA every habit has no entries and no streak |
| HabitStreaks.CompletedDatesAreDays | src/context/HabitContext.tsx:263-266 | the listed completed dates are exactly the completed days |
| HabitStreaks.CompletedDaysOfNoneOrOne | src/context/HabitContext.tsx:263-266 | no entries give no days; one completed entry gives its day |
| HabitStreaks.StreakDeterminedAndBounded | src/context/HabitContext.tsx:319-329 | the promised streak is unique; longest >= current >= 0, and longest >= 1 once a day is completed |
| HabitStreaks.CompletedTodayCounts | src/context/HabitContext.tsx:281-292 | a completed entry today gives a current streak >= 1 that started on or before today |
| HabitStreaks.NoCurrentStreakWithoutToday | src/context/HabitContext.tsx:281-292 | nothing completed today means no current streak and no start date, even with yesterday completed |
| HabitStreaks.RunEndingYesterdayIsNotCurrent | src/context/HabitContext.tsx:281-329 | three days ending yesterday: current 0, longest 3, last completed yesterday |
| HabitStreaks.RunGrows | src/context/HabitContext.tsx:299-317 | a run stays a run in a larger set |
| HabitStreaks.AscendingStep | src/context/HabitContext.tsx:308-313 | the open run grows by one on a one-day gap and restarts at one otherwise |
| HabitStreaks.WalkBack | src/context/HabitContext.tsx:281-292 | the walk back from today counts the exact run ending today and stops on the first missing day |
| HabitStreaks.AscendingScanStep | src/context/HabitContext.tsx:299-317 | one scan step keeps the open run, the best closed run and the bound on all runs |
| HabitStreaks.ScanRuns | src/context/HabitContext.tsx:294-317 | the larger of the closed and the open run is the longest run; the open run ends at the last day |
| HabitStreaks.LastIsLargest | src/context/HabitContext.tsx:325 | the last ascending date is the latest completed day |
| HabitStreaks.CalculateStreak | src/context/HabitContext.tsx:255-332 | the streak record meets its meaning: exact run to today, longest run, latest day, start date iff current > 0 |
| HabitTransfer.ExportData | src/context/HabitContext.tsx:334-346 | the export carries the five persisted collections, the export instant and version "1.0.0" |
| HabitTransfer.FirstNullError | src/context/HabitContext.tsx:357-366 | nothing exactly when no element is `null`; otherwise the message of the first `null` element |
| HabitTransfer.Values | src/context/HabitContext.tsx:357-366 | the records of an array without `null` elements, in order |
| HabitTransfer.ImportData | src/context/HabitContext.tsx:348-381 | fails exactly on a parse error, `null`, a missing or non-array `habits`, a `null` habit, an unmappable `habitEntries` or a `null` entry, with the prefixed message of the first failure; otherwise loads the records in order, with the defaults for missing fields |
| HabitTransfer.Reparse | src/context/HabitContext.tsx:345-350 | the serialised export parses back to arrays of records that always import; ImportOfExportRestores gives the round trip |
| HabitTransfer.ImportOfExportRestores | src/context/HabitContext.tsx:334-381 | importing an export restores the five collections into any store, loaded and without error |
| HabitProvider.NewHabit | src/context/HabitContext.tsx:187-192 | the new habit's draft fields are exactly the draft (`DraftOf` gives them back); the id is the given one and both stamps are now |
| HabitProvider.NewEntry | src/context/HabitContext.tsx:215-219 | the new entry's draft fields are exactly the draft (`EntryDraftOf` gives them back); the id is the given one and the timestamp is now |
| HabitProvider.HabitStore.constructor | src/context/HabitContext.tsx:20-30 | a new store holds the initial state |
| HabitProvider.HabitStore.RecalculateFrom | src/context/HabitContext.tsx:255-332 | no change for an unknown habit; otherwise upserts the streak of the snapshot's entries |
| HabitProvider.HabitStore.CalculateStreak | src/context/HabitContext.tsx:255-332 | the same, reading the current state |
| HabitProvider.HabitStore.AddHabit | src/context/HabitContext.tsx:186-203 | ADD_HABIT of the new habit, then UPDATE_STREAK of its zero streak |
| HabitProvider.HabitStore.UpdateHabit | src/context/HabitContext.tsx:205-208 | UPDATE_HABIT of the habit stamped with the current instant |
| HabitProvider.HabitStore.DeleteHabit | src/context/HabitContext.tsx:210-212 | DELETE_HABIT |
| HabitProvider.HabitStore.AddHabitEntry | src/context/HabitContext.tsx:214-225 | appends the entry, then upserts the streak of the entries as they were before the append |
| HabitProvider.HabitStore.AddHabitEntryRecomputed | src/context/HabitContext.tsx:214-225 | appends the entry, then upserts the streak of the entries after the append |
| HabitProvider.HabitStore.UpdateHabitEntry | src/context/HabitContext.tsx:227-230 | replaces the entry, then upserts the streak of the entries before the replacement |
| HabitProvider.HabitStore.DeleteHabitEntry | src/context/HabitContext.tsx:232-239 | removes the entries with that id; when one existed, upserts its habit's streak of the entries before the removal |
| HabitProvider.HabitStore.ExportData | src/context/HabitContext.tsx:334-346 | the envelope of the current state |
| HabitProvider.HabitStore.ImportData | src/context/HabitContext.tsx:348-381 | on failure returns the thrown message and leaves the state alone; on success dispatches LOAD_DATA |
| HabitProvider.HabitStore.ResetData | src/context/HabitContext.tsx:383-386 | RESET_DATA |
| HabitProvider.AddedHabitHasZeroStreak | src/context/HabitContext.tsx:186-203 | after `addHabit` the habit is last and `getHabitStreak` finds the zero streak |
| HabitProvider.EntriesAroundAppend | src/context/HabitContext.tsx:221 | the habit's entries after the append are the old ones plus the new entry |
| HabitProvider.DaysAfterAppend | src/context/HabitContext.tsx:221-224 | for a habit without entries, no completed day before and the entry's day after |
| HabitProvider.StaleStreakMissesNewEntry | src/context/HabitContext.tsx:214-225 | as written: a first completed entry leaves the stored streak at 0/0 while the streak of the new entries is 1/1 |
| HabitProvider.RecomputedStreakCountsNewEntry | src/context/HabitContext.tsx:214-225 | corrected: a completed entry for today gives a current streak >= 1 ending no earlier than today |
| Utils.Weekday | src/utils/index.ts:26 | `getDay()` lies in 0..6 |
| Utils.WeekStart | src/utils/index.ts:24-31 | the Monday on or before the date, at most six days back; a Sunday goes back six days |
| Utils.WeekEnd | src/utils/index.ts:33-39 | the Sunday six days after the week start, on or after the date |
| Utils.DaysInWeek | src/utils/index.ts:41-50 | seven consecutive days from the week's Monday to its Sunday, the date among them |
| Utils.SameWeekIffSameStart | src/utils/index.ts:24-39 | two dates share a week start exactly when the second lies in the first's week |
| Utils.MonthName | src/utils/index.ts:52-58 | the month's English name for 0..11, the empty string otherwise |
| Utils.MonthNameNonEmptyIffInRange | src/utils/index.ts:52-58 | a name comes back exactly for the twelve indexes |
| Utils.RoundRatio | src/utils/index.ts:68 | `Math.round(p / q)` rounds to the nearest integer, halves up |
| Utils.CompletionPercentage | src/utils/index.ts:60-69 | never above 100; NaN exactly for 0/0, minus infinity exactly for a negative total over 0 |
| Utils.PercentageOfPositiveTarget | src/utils/index.ts:66-68 | a met target reads 100; otherwise the rounded 100 * total / target; non-negative for a non-negative total |
| Utils.RoundedPercentBounds | src/utils/index.ts:68 | the arithmetic behind the cap at 100 and the lower bound 0 |
| Utils.Sum | src/utils/index.ts:67 | a total of non-negative values is non-negative |
| Utils.DayTotal | src/utils/index.ts:66-67 | zero when the habit has no entry that day, non-negative when none of its values that day is negative; DayTotalAppend gives how each entry changes it |
| Utils.DayTotalAppend | src/utils/index.ts:66-67 | appending an entry adds its value exactly when it is the habit's entry of that day |
| Utils.SumConcat | src/utils/index.ts:67 | the total of a concatenation is the sum of the totals |
| Utils.PercentageIgnoresOtherEntries | src/utils/index.ts:66-67 | entries of other habits or days leave the percentage unchanged; one of that day adds its value |
| Utils.ProgressColor | src/utils/index.ts:117-121 | success from 100, warning from 75, error below |
| Utils.ProgressColorMonotone | src/utils/index.ts:117-121 | the colour never worsens as the percentage grows |
| Utils.Greeting | src/utils/index.ts:123-128 | morning before 12, afternoon from 12 to 17, evening from 18 |
| Utils.IndexOf | src/utils/index.ts:138-141 | the first index of a character at or after a position, or -1 |
| Utils.ValidateEmail | src/utils/index.ts:138-141 | an accepted address has at least five characters and an '@' that is not the first; ValidateEmailMatchesRegex proves it accepts exactly the regular expression's language |
| Utils.ValidateEmailMatchesRegex | src/utils/index.ts:138-141 | the scan accepts exactly the language of `^[^\s@]+@[^\s@]+\.[^\s@]+$` |
| Utils.Utf16Length | src/utils/index.ts:143-145 | the UTF-16 length lies between the number of characters and twice it |
| Utils.ValidatePassword | src/utils/index.ts:143-145 | six characters always pass and an accepted password has at least three; PasswordLengthBounds makes the rule exact in the BMP |
| Utils.PasswordLengthBounds | src/utils/index.ts:143-145 | six characters always pass, fewer than three never; in the BMP the rule is exactly "at least six" |
| Utils.BmpLength | src/utils/index.ts:143-145 | a BMP string's UTF-16 length is its character count |
| Utils.UniqueDatesNewestFirst | src/utils/index.ts:72-73 | the distinct completed days of the habit, strictly descending |
| Utils.DescendingPrefixRun | src/utils/index.ts:84-97 | consecutive leading days of a descending list form the exact run ending at the first |
| Utils.DescendingStep | src/utils/index.ts:104-109 | the open run grows by one on a one-day gap and restarts at one otherwise |
| Utils.DescendingScanStep | src/utils/index.ts:99-110 | one scan step keeps the open run, the best closed run and the bound on all runs |
| Utils.ScanRunsDescending | src/utils/index.ts:99-112 | the larger of the closed and the open run is the longest run |
| Utils.CurrentRunFromLatest | src/utils/index.ts:81-97 | the run ending at the latest day when that is today or yesterday, else 0 |
| Utils.FirstIsLargest | src/utils/index.ts:84 | the first descending date is the latest completed day |
| Utils.CalculateStreak | src/utils/index.ts:71-115 | the counts meet their meaning, and longest >= current >= 0 |
| Utils.StreakCountsDependOnDaysOnly | src/utils/index.ts:71-115 | the counts depend only on the completed days; longest >= 1 for any day; a current streak means today or yesterday is completed |
| Utils.RunEndingYesterdayIsCurrent | src/utils/index.ts:84-97 | three days ending yesterday: current 3, longest 3 |
| Utils.HabitDaysUnchangedBy | src/utils/index.ts:72 | another habit's entry, an unfinished one or a repeated day leaves the completed days unchanged |
| Auth.DefaultSettings | src/context/AuthContext.tsx:19-26 | system theme, notifications on, 09:00, Monday, English, the host's zone |
| Auth.LocalPart | src/context/AuthContext.tsx:77 | `split('@')[0]`: the longest prefix without '@' |
| Auth.LocalPartOfAddress | src/context/AuthContext.tsx:77 | the local part of `local@domain` is `local` |
| Auth.LoginUser | src/context/AuthContext.tsx:75-82 | named after the local part, not premium, default settings |
| Auth.RegisterUser | src/context/AuthContext.tsx:98-105 | the given name and address, not premium, default settings |
| Auth.RegisterAsLocalPartIsLogin | src/context/AuthContext.tsx:70-114 | registering under the local part gives the login user |
| Auth.ApplyProfileUpdate | src/context/AuthContext.tsx:124 | every field in the update replaces the user's, the rest is kept, `updatedAt` is now |
| Auth.ProfileUpdateLaws | src/context/AuthContext.tsx:124 | an empty update only stamps `updatedAt`; applying an update twice is applying it once |
| Auth.MergeSettings | src/context/AuthContext.tsx:132 | the patched settings take the patch's values, the others keep theirs |
| Auth.SettingsMergeLaws | src/context/AuthContext.tsx:132 | an empty patch is the identity, patches are idempotent, and two in a row are one combined patch |
| Auth.AsPremium | src/context/AuthContext.tsx:144-148 | premium with the expiry, otherwise unchanged |
| Auth.AuthStore.IsAuthenticated | src/context/AuthContext.tsx:156 | `!!user`: true exactly when a user is signed in; Login and Register end signed in, Logout signed out |
| Auth.AuthStore.constructor | src/context/AuthContext.tsx:33-34 | no user, loading |
| Auth.AuthStore.Login | src/context/AuthContext.tsx:70-91 | the login user is signed in and authenticated, loading ends |
| Auth.AuthStore.Register | src/context/AuthContext.tsx:93-114 | the registered user is signed in and authenticated, loading ends |
| Auth.AuthStore.Logout | src/context/AuthContext.tsx:116-119 | no user and not authenticated afterwards |
| Auth.AuthStore.UpdateProfile | src/context/AuthContext.tsx:121-127 | no effect when signed out; otherwise the update applied |
| Auth.AuthStore.UpdateSettings | src/context/AuthContext.tsx:129-136 | no effect when signed out; otherwise only the settings change, to the merge |
| Auth.AuthStore.UpgradeToPremium | src/context/AuthContext.tsx:138-152 | no effect when signed out; otherwise the premium user |

## Left out

- Persistence is not modelled: the asynchronous key-value storage, `loadData`, `saveData`, `loadUser`, `saveUser` and the save-on-every-change effect. When storage fails, `loadData` and `saveData` dispatch SET_ERROR with "Failed to load data" and "Failed to save data"; the model never issues those two actions.
- React rendering and hooks are not modelled, nor the `useHabits`/`useAuth` guards. Operations run one after another; the source's event loop gives no concurrency to model.
- JSON text is not modelled. `exportData` yields the envelope before `JSON.stringify`, and `importData` starts from what `JSON.parse` produced.
- Reviving date strings into `Date` objects is not modelled: days and instants are integers throughout. `exportedAt` is an instant, not its ISO text.
- The imported user's `createdAt` stays a string in the source. The model cannot tell strings and dates apart.
- HabitTransfer.ImportData: a truthy `streaks` or `userAchievements` value that is not an array, and a truthy `user` that is not a user record, are taken over by the source as they are. The model only knows arrays or absence for the two lists, and a user record or `null` for `user`.
- Auth.ApplyProfileUpdate: a `Partial<User>` that sets a required field (`name`, `email`, ...) to `undefined` is not modelled. Only `avatar` and `premiumExpiry` can be set to `undefined`.
- Auth.AuthStore: the callbacks of the source close over the `user` of the last render. The model reads the current user; a call that overlaps another update is not modelled.
- Auth.AuthStore.Login and Auth.AuthStore.Register: the `catch` branches are not modelled, because nothing in the mocked bodies can throw once storage is left out.
- `generateId`, `formatDate`, `formatFullDate` and `debounce` are left out. They are clocks, randomness, locale formatting and timers.
- Utils.CompletionPercentage: numbers are exact. Floating-point error in `total / target * 100` before `Math.round` is not modelled; a non-integer target is not modelled either.
- Utils.Greeting: the hour comes from the clock in the source and is a parameter here.
- Auth.AuthStore.UpgradeToPremium: the expiry instant is a parameter. The rule that computes it, one calendar year after the current date (`setFullYear(getFullYear() + 1)`), is not modelled, because the model has no calendar years for instants.
- Utils.ProgressColor: only whole percentages are modelled. A fractional percentage is not, and neither are the NaN and minus infinity that a zero target gives; for those two, every comparison in the source fails and the error colour comes back.
- Utils.MonthName: the twelve names are not proved pairwise distinct. The contract gives each index's name and the empty string outside 0..11.
- HabitQueries.GetHabitEntries: the date parameter is optional. An empty-string date, which the source treats like a missing one, is not distinguished from a missing one.
- HabitQueries.SortNewestFirst: the contract states newest-first order and permutation. The order of entries with equal timestamps is not stated.
- The streak calculators compare ISO date strings. Ordering days by number agrees with that for the years 0000-9999 that the strings can represent.
- UTC versus local time in `toISOString` and `setDate` is not modelled: "today" is one given day number.
- HabitStreaks.CalculateStreak: the walk back starts at today (src/context/HabitContext.tsx:282-286), while the utility calculator also accepts a latest day of yesterday (src/utils/index.ts:84). HabitStreaks.RunEndingYesterdayIsNotCurrent and Utils.RunEndingYesterdayIsCurrent state the difference.
- HabitProvider.HabitStore.ResetData: the source awaits `multiRemove` outside any `try`, so a storage failure rejects the call before RESET_DATA is dispatched. Storage is not modelled, and the model always resets.
- HabitTransfer.ImportData: a number, string or boolean element of `habits` or `habitEntries` is spread by the source into a record without its fields, without an error. The model's elements are records or `null`.
- HabitProvider.HabitStore.UpdateHabitEntry and HabitProvider.HabitStore.DeleteHabitEntry: these recalculate from the captured state, as the source does, and have the same defect as the finding below. They are modelled as written only.

## Findings

| source | as written | input that shows it | evidently intended | confidence | as-written member | corrected member |
|---|---|---|---|---|---|---|
| src/context/HabitContext.tsx:214-225 | `addHabitEntry` dispatches ADD_HABIT_ENTRY and then calls `calculateStreak`. That function reads the `state` captured before the dispatch, so the stored streak leaves out the new entry. | A habit with no entries gets a completed entry for today. The stored streak stays at current 0 and longest 0. | The streak is recalculated from the entries including the new one: current 1, longest 1. | not executed | HabitProvider.HabitStore.AddHabitEntry, HabitProvider.StaleStreakMissesNewEntry | HabitProvider.HabitStore.AddHabitEntryRecomputed, HabitProvider.RecomputedStreakCountsNewEntry |
