/** The records of the habit store (src/types/index.ts).
    Calendar days are integer day numbers (day 0 is 1970-01-01) and instants
    are integer milliseconds since the epoch. */
module HabitTypes {
  import opened Wrappers

  /** A calendar day: the YYYY-MM-DD strings of the source, numbered. */
  type Day = int
  /** A point in time: a `Date`, as milliseconds since the epoch. */
  type Instant = int

  datatype Frequency = Daily | Weekly | Monthly

  datatype Habit = Habit(
    id: string,
    name: string,
    description: Option<string>,
    category: string,
    color: string,
    icon: string,
    target: int,
    unit: string,
    frequency: Frequency,
    reminderTime: Option<string>,
    isActive: bool,
    createdAt: Instant,
    updatedAt: Instant)

  datatype HabitEntry = HabitEntry(
    id: string,
    habitId: string,
    date: Day,
    value: int,
    completed: bool,
    notes: Option<string>,
    timestamp: Instant)

  datatype HabitStreak = HabitStreak(
    habitId: string,
    currentStreak: int,
    longestStreak: int,
    lastCompletedDate: Option<Day>,
    streakStartDate: Option<Day>)

  datatype Theme = Dark | Light | System

  /** 0 = the week starts on Sunday, 1 = on Monday. */
  type WeekStartDay = d: int | 0 <= d <= 1

  datatype UserSettings = UserSettings(
    theme: Theme,
    notifications: bool,
    reminderTime: string,
    weekStartsOn: WeekStartDay,
    language: string,
    timezone: string)

  /** `updatedAt` is not in the declared User type, but the profile update
      writes it into the record it stores. */
  datatype User = User(
    id: string,
    name: string,
    email: string,
    avatar: Option<string>,
    premium: bool,
    premiumExpiry: Option<Instant>,
    createdAt: Instant,
    updatedAt: Option<Instant>,
    settings: UserSettings)

  datatype AchievementCategory = Streaks | Consistency | Milestones | Social

  datatype Achievement = Achievement(
    id: string,
    title: string,
    description: string,
    icon: string,
    category: AchievementCategory,
    requirement: int,
    reward: Option<string>,
    unlockedAt: Option<Instant>)

  datatype UserAchievement = UserAchievement(
    achievementId: string,
    userId: string,
    unlockedAt: Instant,
    progress: int)

  datatype HabitCategory = HabitCategory(
    id: string,
    name: string,
    color: string,
    icon: string,
    description: Option<string>)

  datatype AppState = AppState(
    habits: seq<Habit>,
    habitEntries: seq<HabitEntry>,
    streaks: seq<HabitStreak>,
    user: Option<User>,
    achievements: seq<Achievement>,
    userAchievements: seq<UserAchievement>,
    categories: seq<HabitCategory>,
    isLoading: bool,
    error: Option<string>)

  // Entry accessors shared by the filters and maps of both streak calculators.
  function IsCompleted(e: HabitEntry): bool { e.completed }
  function EntryDate(e: HabitEntry): Day { e.date }

  /** The fixed category list every fresh store starts with. */
  const DefaultCategories: seq<HabitCategory> := [
    HabitCategory("1", "Health", "#18A999", "fitness_center", Some("Physical health and fitness")),
    HabitCategory("2", "Learning", "#F7B32B", "school", Some("Education and skill development")),
    HabitCategory("3", "Productivity", "#FF6B4A", "work", Some("Work and efficiency")),
    HabitCategory("4", "Mindfulness", "#9C88FF", "self_improvement", Some("Mental health and meditation")),
    HabitCategory("5", "Social", "#FF9FF3", "people", Some("Relationships and social connections")),
    HabitCategory("6", "Creativity", "#54A0FF", "palette", Some("Art and creative pursuits"))
  ]
}
