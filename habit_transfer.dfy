/** Export and import of the store's data (`exportData`, `importData` in
    src/context/HabitContext.tsx). The JSON text is not modelled: an export
    is the envelope record before `JSON.stringify`, and an import starts from
    what `JSON.parse` produced, described field by field as the import code
    inspects it. */
module HabitTransfer {
  import opened Wrappers
  import opened HabitTypes
  import opened ArrayOps
  import opened HabitReducer

  const ExportVersion := "1.0.0"
  const ImportFailurePrefix := "Failed to import data: "
  const InvalidFormat := "Invalid import data format"

  /** The object `exportData` serialises. */
  datatype ExportEnvelope = ExportEnvelope(
    habits: seq<Habit>,
    habitEntries: seq<HabitEntry>,
    streaks: seq<HabitStreak>,
    user: Option<User>,
    userAchievements: seq<UserAchievement>,
    exportedAt: Instant,
    version: string)

  /** `exportData()` at the instant `now`: the five persisted collections,
      the time of export and the format version. */
  function ExportData(s: AppState, now: Instant): (r: ExportEnvelope)
    ensures r.habits == s.habits && r.habitEntries == s.habitEntries && r.streaks == s.streaks
    ensures r.user == s.user && r.userAchievements == s.userAchievements
    ensures r.exportedAt == now && r.version == ExportVersion
  {
    ExportEnvelope(s.habits, s.habitEntries, s.streaks, s.user, s.userAchievements, now, ExportVersion)
  }

  /** One element of a parsed array as the import's `map` callback sees it:
      a record, or `null`, whose field read in the spread raises a TypeError
      with the engine's message. */
  datatype Element<T> = Value(value: T) | Null(typeError: string)

  /** The message of the first `null` element, if there is one: the error
      the `map` over the array stops with. */
  function FirstNullError<T>(s: seq<Element<T>>): (r: Option<string>)
    ensures r.None? <==> forall i :: 0 <= i < |s| ==> s[i].Value?
    ensures r.Some? ==> exists i :: 0 <= i < |s| && s[i] == Null(r.value)
                                    && forall j :: 0 <= j < i ==> s[j].Value?
  {
    if s == [] then None
    else if s[0].Null? then Some(s[0].typeError)
    else
      var rest := FirstNullError(s[1..]);
      assert forall i :: 0 <= i < |s[1..]| ==> s[1..][i] == s[i + 1];
      if rest.Some? then
        assert exists i :: 0 <= i < |s[1..]| && s[1..][i] == Null(rest.value)
                           && forall j :: 0 <= j < i ==> s[1..][j].Value?;
        rest
      else rest
  }

  /** The records of an array without `null` elements, in order. */
  function Values<T>(s: seq<Element<T>>): (r: seq<T>)
    requires forall i :: 0 <= i < |s| ==> s[i].Value?
    ensures |r| == |s| && forall i :: 0 <= i < |s| ==> Value(r[i]) == s[i]
  {
    if s == [] then [] else [s[0].value] + Values(s[1..])
  }

  /** The parsed `habits` field: missing or falsy, truthy but not an array,
      or an array (which is truthy even when empty). */
  datatype HabitsField = HabitsFalsy | HabitsNotArray | HabitsArray(items: seq<Element<Habit>>)

  /** The parsed `habitEntries` field as `habitEntries?.map(...)` sees it:
      `null` or missing, an array, or anything else, whose missing `map`
      method raises a TypeError with the engine's message. */
  datatype EntriesField =
    | EntriesNullish
    | EntriesArray(items: seq<Element<HabitEntry>>)
    | EntriesNotMappable(typeError: string)

  /** The parsed object. For the three `x || default` fields, `None` is a
      falsy value. */
  datatype ImportObject = ImportObject(
    habits: HabitsField,
    habitEntries: EntriesField,
    streaks: Option<seq<HabitStreak>>,
    user: Option<User>,
    userAchievements: Option<seq<UserAchievement>>)

  /** What `JSON.parse(data)` gave: a SyntaxError, `null` (reading `habits`
      from it raises a TypeError), or a value whose fields are read. A number,
      a string or an array reads as an object without a `habits` field. */
  datatype ParsedImport =
    | SyntaxError(message: string)
    | ParsedNull(typeError: string)
    | ParsedValue(obj: ImportObject)

  /** Why an import fails, before the prefix is added, in the order the code
      meets the failures: the parse, the `habits` check, the `map` over the
      habits, then the `map` over the entries. */
  function ImportError(d: ParsedImport): Option<string> {
    match d
    case SyntaxError(m) => Some(m)
    case ParsedNull(m) => Some(m)
    case ParsedValue(o) =>
      if !o.habits.HabitsArray? then Some(InvalidFormat)
      else if FirstNullError(o.habits.items).Some? then FirstNullError(o.habits.items)
      else if o.habitEntries.EntriesNotMappable? then Some(o.habitEntries.typeError)
      else if o.habitEntries.EntriesArray? then FirstNullError(o.habitEntries.items)
      else None
  }

  /** `importData(data)`: the LOAD_DATA payload it dispatches, or the message
      of the error it throws. It fails exactly when the text does not parse,
      parses to `null`, has no `habits` array, has a `null` habit, has an
      unmappable `habitEntries` or a `null` entry; every message starts with
      "Failed to import data: ". On success the habits and entries are taken
      in order, and missing entries, streaks and achievements become empty
      lists and a missing user `null`; the achievement catalogue and the
      categories are not touched. */
  function ImportData(d: ParsedImport): (r: Result<LoadPayload, string>)
    ensures r.Failure? <==> ImportError(d).Some?
    ensures r.Failure? ==> r.error == ImportFailurePrefix + ImportError(d).value
    ensures r.Success? ==> d.ParsedValue? && d.obj.habits.HabitsArray?
    ensures r.Success? ==>
      var o := d.obj;
      (forall i :: 0 <= i < |o.habits.items| ==> o.habits.items[i].Value?)
      && r.value.habits.Some? && |r.value.habits.value| == |o.habits.items|
      && (forall i :: 0 <= i < |o.habits.items| ==> o.habits.items[i] == Value(r.value.habits.value[i]))
      && (o.habitEntries.EntriesNullish? ==> r.value.habitEntries == Some([]))
      && (o.habitEntries.EntriesArray? ==>
            r.value.habitEntries.Some? && |r.value.habitEntries.value| == |o.habitEntries.items|
            && forall i :: 0 <= i < |o.habitEntries.items| ==>
                 o.habitEntries.items[i] == Value(r.value.habitEntries.value[i]))
      && r.value.streaks == Some(o.streaks.GetOr([]))
      && r.value.user == Some(o.user)
      && r.value.userAchievements == Some(o.userAchievements.GetOr([]))
      && r.value.achievements.None? && r.value.categories.None?
  {
    match d
    case SyntaxError(m) => Failure(ImportFailurePrefix + m)
    case ParsedNull(m) => Failure(ImportFailurePrefix + m)
    case ParsedValue(o) =>
      if !o.habits.HabitsArray? then
        Failure(ImportFailurePrefix + InvalidFormat)
      else
        var habitError := FirstNullError(o.habits.items);
        if habitError.Some? then Failure(ImportFailurePrefix + habitError.value)
        else
          var habits := Values(o.habits.items);
          match o.habitEntries
          case EntriesNotMappable(m) => Failure(ImportFailurePrefix + m)
          case EntriesNullish =>
            Success(LoadPayload(Some(habits), Some([]), Some(o.streaks.GetOr([])), Some(o.user),
                                None, Some(o.userAchievements.GetOr([])), None))
          case EntriesArray(items) =>
            var entryError := FirstNullError(items);
            if entryError.Some? then Failure(ImportFailurePrefix + entryError.value)
            else
              Success(LoadPayload(Some(habits), Some(Values(items)), Some(o.streaks.GetOr([])), Some(o.user),
                                  None, Some(o.userAchievements.GetOr([])), None))
  }

  function AsHabitElement(h: Habit): Element<Habit> { Value(h) }
  function AsEntryElement(e: HabitEntry): Element<HabitEntry> { Value(e) }

  /** How `JSON.parse(JSON.stringify(envelope))` reads back under the import's
      view: every list is an array of records (an empty one included) and the
      user is the user or `null`. It always imports. */
  function Reparse(env: ExportEnvelope): (r: ParsedImport)
    ensures r.ParsedValue? && r.obj.habits.HabitsArray? && r.obj.habitEntries.EntriesArray?
    ensures ImportError(r).None?
  {
    var habits := MapSeq(env.habits, AsHabitElement);
    var entries := MapSeq(env.habitEntries, AsEntryElement);
    ParsedValue(ImportObject(
      HabitsArray(habits),
      EntriesArray(entries),
      Some(env.streaks),
      env.user,
      Some(env.userAchievements)))
  }

  /** Importing an export restores the five exported collections into any
      store, and leaves it loaded and without an error. */
  lemma {:induction false} ImportOfExportRestores(s: AppState, now: Instant, target: AppState)
    ensures ImportData(Reparse(ExportData(s, now))).Success?
    ensures var r := Reduce(target, LoadData(ImportData(Reparse(ExportData(s, now))).value));
      r.habits == s.habits && r.habitEntries == s.habitEntries && r.streaks == s.streaks
      && r.user == s.user && r.userAchievements == s.userAchievements
      && r.achievements == target.achievements && r.categories == target.categories
      && !r.isLoading && r.error.None?
  {
    var p := ImportData(Reparse(ExportData(s, now)));
    assert p.value.habits.value == s.habits;
    assert p.value.habitEntries.value == s.habitEntries;
  }
}
