/** The signed-in user of src/context/AuthContext.tsx: a nullable `User`
    record and a loading flag, changed by login, registration, logout and
    three kinds of update. Ids, the current instant, the host's time zone and
    the premium expiry instant are passed in. */
module Auth {
  import opened Wrappers
  import opened HabitTypes

  /** The settings every new user starts with: system theme, notifications
      on, a 09:00 reminder, weeks from Monday, English, the host's zone. */
  function DefaultSettings(timezone: string): (r: UserSettings)
    ensures r.theme == System && r.notifications && r.reminderTime == "09:00"
    ensures r.weekStartsOn == 1 && r.language == "en" && r.timezone == timezone
  {
    UserSettings(System, true, "09:00", 1, "en", timezone)
  }

  /** `email.split('@')[0]`: everything before the first '@', or the whole
      string when there is none. */
  function LocalPart(email: string): (r: string)
    ensures r <= email
    ensures '@' !in r
    ensures |r| < |email| ==> email[|r|] == '@'
  {
    if email == [] || email[0] == '@' then []
    else [email[0]] + LocalPart(email[1..])
  }

  /** The local part of `local@domain` is `local`, whatever the domain. */
  lemma {:induction false} LocalPartOfAddress(local: string, domain: string)
    requires '@' !in local
    ensures LocalPart(local + "@" + domain) == local
  {
    if local != [] {
      assert (local + "@" + domain)[1..] == local[1..] + "@" + domain;
      LocalPartOfAddress(local[1..], domain);
    }
  }

  /** The user `login(email, password)` creates: named after the address's
      local part, not premium, with the default settings. The password is
      not looked at. */
  function LoginUser(email: string, id: string, now: Instant, timezone: string): (u: User)
    ensures u.id == id && u.email == email && u.createdAt == now
    ensures u.name == LocalPart(email)
    ensures !u.premium && u.premiumExpiry.None? && u.avatar.None? && u.updatedAt.None?
    ensures u.settings == DefaultSettings(timezone)
  {
    User(id, LocalPart(email), email, None, false, None, now, None, DefaultSettings(timezone))
  }

  /** The user `register(name, email, password)` creates: the name and
      address exactly as given, not premium, with the default settings. */
  function RegisterUser(name: string, email: string, id: string, now: Instant, timezone: string): (u: User)
    ensures u.id == id && u.name == name && u.email == email && u.createdAt == now
    ensures !u.premium && u.premiumExpiry.None? && u.avatar.None? && u.updatedAt.None?
    ensures u.settings == DefaultSettings(timezone)
  {
    User(id, name, email, None, false, None, now, None, DefaultSettings(timezone))
  }

  /** Registering under an address's local part gives the same user as
      logging in with that address. */
  lemma RegisterAsLocalPartIsLogin(email: string, id: string, now: Instant, timezone: string)
    ensures RegisterUser(LocalPart(email), email, id, now, timezone) == LoginUser(email, id, now, timezone)
  {
  }

  /** A `Partial<User>`: `None` is an absent key. For the optional fields the
      inner `None` is a key present with the value `undefined`, which the
      spread copies over the old value. */
  datatype ProfileUpdate = ProfileUpdate(
    id: Option<string>,
    name: Option<string>,
    email: Option<string>,
    avatar: Option<Option<string>>,
    premium: Option<bool>,
    premiumExpiry: Option<Option<Instant>>,
    createdAt: Option<Instant>,
    settings: Option<UserSettings>)

  /** `{...user, ...updates, updatedAt: now}`: every field the update
      carries replaces the user's, every other field is kept, and `updatedAt`
      is always the given instant. */
  function ApplyProfileUpdate(u: User, p: ProfileUpdate, now: Instant): (r: User)
    ensures r.id == p.id.GetOr(u.id) && r.name == p.name.GetOr(u.name) && r.email == p.email.GetOr(u.email)
    ensures r.avatar == p.avatar.GetOr(u.avatar) && r.premium == p.premium.GetOr(u.premium)
    ensures r.premiumExpiry == p.premiumExpiry.GetOr(u.premiumExpiry)
    ensures r.createdAt == p.createdAt.GetOr(u.createdAt) && r.settings == p.settings.GetOr(u.settings)
    ensures r.updatedAt == Some(now)
  {
    User(
      p.id.GetOr(u.id),
      p.name.GetOr(u.name),
      p.email.GetOr(u.email),
      p.avatar.GetOr(u.avatar),
      p.premium.GetOr(u.premium),
      p.premiumExpiry.GetOr(u.premiumExpiry),
      p.createdAt.GetOr(u.createdAt),
      Some(now),
      p.settings.GetOr(u.settings))
  }

  const NoProfileChange := ProfileUpdate(None, None, None, None, None, None, None, None)

  /** An empty update only stamps `updatedAt`; applying an update twice is
      applying it once. */
  lemma ProfileUpdateLaws(u: User, p: ProfileUpdate, now: Instant, later: Instant)
    ensures ApplyProfileUpdate(u, NoProfileChange, now) == u.(updatedAt := Some(now))
    ensures ApplyProfileUpdate(ApplyProfileUpdate(u, p, now), p, later) == ApplyProfileUpdate(u, p, later)
  {
  }

  /** A `Partial<UserSettings>`: `None` is an absent key. */
  datatype SettingsPatch = SettingsPatch(
    theme: Option<Theme>,
    notifications: Option<bool>,
    reminderTime: Option<string>,
    weekStartsOn: Option<WeekStartDay>,
    language: Option<string>,
    timezone: Option<string>)

  /** `{...settings, ...patch}`: the patched fields take the patch's values,
      the others keep theirs. */
  function MergeSettings(s: UserSettings, p: SettingsPatch): (r: UserSettings)
    ensures r.theme == p.theme.GetOr(s.theme) && r.notifications == p.notifications.GetOr(s.notifications)
    ensures r.reminderTime == p.reminderTime.GetOr(s.reminderTime)
    ensures r.weekStartsOn == p.weekStartsOn.GetOr(s.weekStartsOn)
    ensures r.language == p.language.GetOr(s.language) && r.timezone == p.timezone.GetOr(s.timezone)
  {
    UserSettings(
      p.theme.GetOr(s.theme),
      p.notifications.GetOr(s.notifications),
      p.reminderTime.GetOr(s.reminderTime),
      p.weekStartsOn.GetOr(s.weekStartsOn),
      p.language.GetOr(s.language),
      p.timezone.GetOr(s.timezone))
  }

  function Prefer<T>(later: Option<T>, earlier: Option<T>): Option<T> {
    if later.Some? then later else earlier
  }

  /** One patch after another: the later patch wins where both set a field. */
  function CombinePatches(p: SettingsPatch, q: SettingsPatch): SettingsPatch {
    SettingsPatch(
      Prefer(q.theme, p.theme),
      Prefer(q.notifications, p.notifications),
      Prefer(q.reminderTime, p.reminderTime),
      Prefer(q.weekStartsOn, p.weekStartsOn),
      Prefer(q.language, p.language),
      Prefer(q.timezone, p.timezone))
  }

  const NoSettingsChange := SettingsPatch(None, None, None, None, None, None)

  /** An empty patch changes nothing, a patch applied twice is applied once,
      and two patches in a row are one combined patch. */
  lemma SettingsMergeLaws(s: UserSettings, p: SettingsPatch, q: SettingsPatch)
    ensures MergeSettings(s, NoSettingsChange) == s
    ensures MergeSettings(MergeSettings(s, p), p) == MergeSettings(s, p)
    ensures MergeSettings(MergeSettings(s, p), q) == MergeSettings(s, CombinePatches(p, q))
  {
  }

  /** The user `upgradeToPremium` stores: premium, with the given expiry,
      and otherwise unchanged. */
  function AsPremium(u: User, expiry: Instant): (r: User)
    ensures r.premium && r.premiumExpiry == Some(expiry)
    ensures r.(premium := u.premium, premiumExpiry := u.premiumExpiry) == u
  {
    u.(premium := true, premiumExpiry := Some(expiry))
  }

  /** The provider's state: the user (`null` when signed out) and whether a
      sign-in is in progress. */
  class AuthStore {
    var user: Option<User>
    var isLoading: bool
    /** The host's time zone, read once when the default settings are built. */
    const timezone: string

    /** A fresh provider: no user yet and loading until the stored user has
        been read. */
    constructor(timezone: string)
      ensures user.None? && isLoading && this.timezone == timezone
    {
      user := None;
      isLoading := true;
      this.timezone := timezone;
    }

    /** `isAuthenticated`. */
    function IsAuthenticated(): (r: bool)
      reads this
      ensures r <==> user.Some?
    {
      user.Some?
    }

    /** `login(email, password)`: any address and password are accepted. */
    method Login(email: string, password: string, id: string, now: Instant)
      modifies this
      ensures user == Some(LoginUser(email, id, now, timezone))
      ensures IsAuthenticated() && !isLoading
    {
      isLoading := true;
      user := Some(LoginUser(email, id, now, timezone));
      isLoading := false;
    }

    /** `register(name, email, password)`: any registration is accepted. */
    method Register(name: string, email: string, password: string, id: string, now: Instant)
      modifies this
      ensures user == Some(RegisterUser(name, email, id, now, timezone))
      ensures IsAuthenticated() && !isLoading
    {
      isLoading := true;
      user := Some(RegisterUser(name, email, id, now, timezone));
      isLoading := false;
    }

    /** `logout()`: always signed out afterwards. */
    method Logout()
      modifies this
      ensures user.None? && !IsAuthenticated() && isLoading == old(isLoading)
    {
      user := None;
    }

    /** `updateProfile(updates)`: nothing happens when signed out. */
    method UpdateProfile(updates: ProfileUpdate, now: Instant)
      modifies this
      ensures old(user).None? ==> user.None?
      ensures old(user).Some? ==> user == Some(ApplyProfileUpdate(old(user).value, updates, now))
      ensures isLoading == old(isLoading)
    {
      if user.None? {
        return;
      }
      user := Some(ApplyProfileUpdate(user.value, updates, now));
    }

    /** `updateSettings(settings)`: merges the patch into the user's settings
        and keeps every other field; nothing happens when signed out. */
    method UpdateSettings(patch: SettingsPatch)
      modifies this
      ensures old(user).None? ==> user.None?
      ensures old(user).Some? ==> user.Some? && user.value.settings == MergeSettings(old(user).value.settings, patch)
      ensures old(user).Some? ==> user.value.(settings := old(user).value.settings) == old(user).value
      ensures isLoading == old(isLoading)
    {
      if user.None? {
        return;
      }
      var updatedSettings := MergeSettings(user.value.settings, patch);
      user := Some(user.value.(settings := updatedSettings));
    }

    /** `upgradeToPremium()`, where `expiry` is one calendar year after the
        current instant; nothing happens when signed out. */
    method UpgradeToPremium(expiry: Instant)
      modifies this
      ensures old(user).None? ==> user.None?
      ensures old(user).Some? ==> user == Some(AsPremium(old(user).value, expiry))
      ensures isLoading == old(isLoading)
    {
      if user.None? {
        return;
      }
      user := Some(AsPremium(user.value, expiry));
    }
  }
}
