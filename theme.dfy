/** The renderer's theme mode: the value kept in local storage, the cycle
    the header button steps through, and when the `dark` class is set. */
module Theme {
  import opened Outcomes

  datatype ThemeMode = Light | Dark | System

  /** The mode's name as stored. */
  function ModeName(m: ThemeMode): string {
    match m
    case Light => "light"
    case Dark => "dark"
    case System => "system"
  }

  lemma ModeNameInjective(a: ThemeMode, b: ThemeMode)
    ensures ModeName(a) == ModeName(b) ==> a == b
  {
  }

  const StorageKey := "toolsx-theme-mode"

  /** Local storage, as the strings it holds by key. */
  type Storage = map<string, string>

  /** The stored value read as a mode: exactly one of the three names, or
      'system' for anything else and for a missing value. */
  function ParseMode(v: Option<string>): (m: ThemeMode)
    ensures forall n :: v == Some(ModeName(n)) ==> m == n
    ensures (forall n :: v != Some(ModeName(n))) ==> m == System
  {
    assert ModeName(Light) == "light" && ModeName(Dark) == "dark" && ModeName(System) == "system";
    if v == Some("light") then Light
    else if v == Some("dark") then Dark
    else System
  }

  /** getStoredThemeMode. */
  function GetStoredMode(store: Storage): (m: ThemeMode)
    ensures StorageKey !in store ==> m == System
    ensures m == System || (StorageKey in store && store[StorageKey] == ModeName(m))
  {
    ParseMode(if StorageKey in store then Some(store[StorageKey]) else None)
  }

  /** setStoredThemeMode: only the theme's key changes. */
  function SetStoredMode(store: Storage, mode: ThemeMode): (r: Storage)
    ensures StorageKey in r && r[StorageKey] == ModeName(mode)
    ensures forall k :: k != StorageKey ==> (k in r <==> k in store) && (k in store ==> r[k] == store[k])
  {
    store[StorageKey := ModeName(mode)]
  }

  /** A mode written to storage is the mode read back. */
  lemma StoredModeRoundTrip(store: Storage, mode: ThemeMode)
    ensures GetStoredMode(SetStoredMode(store, mode)) == mode
  {
    ModeNameParses(mode);
  }

  lemma ModeNameParses(mode: ThemeMode)
    ensures ParseMode(Some(ModeName(mode))) == mode
  {
  }

  /** A value that is none of the three names, or no value, reads as 'system'. */
  lemma UnknownValueIsSystem(store: Storage)
    requires StorageKey !in store || store[StorageKey] !in {"light", "dark", "system"}
    ensures GetStoredMode(store) == System
  {
  }

  /** nextThemeMode: system, then light, then dark, then system again. */
  function NextMode(m: ThemeMode): (r: ThemeMode)
    ensures r != m
    ensures m == System ==> r == Light
    ensures m == Light ==> r == Dark
    ensures m == Dark ==> r == System
  {
    match m
    case System => Light
    case Light => Dark
    case Dark => System
  }

  /** Three steps come back to the start, so the cycle visits every mode
      and `NextMode` is a bijection. */
  lemma CycleOfThree(m: ThemeMode)
    ensures NextMode(NextMode(NextMode(m))) == m
    ensures NextMode(m) != NextMode(NextMode(m))
  {
  }

  lemma NextModeBijective(a: ThemeMode, b: ThemeMode)
    ensures NextMode(a) == NextMode(b) ==> a == b
    ensures NextMode(NextMode(NextMode(b))) == b
  {
    CycleOfThree(b);
  }

  /** getSystemPrefersDark: false where the media query is unavailable. */
  function SystemPrefersDark(matches: Option<bool>): (r: bool)
    ensures r <==> matches == Some(true)
  {
    matches.GetOr(false)
  }

  /** applyThemeClass's condition for the `dark` class. */
  function IsDark(mode: ThemeMode, prefersDark: bool): (dark: bool)
    ensures mode != System ==> (dark <==> mode == Dark)
    ensures mode == System ==> dark == prefersDark
  {
    mode == Dark || (mode == System && prefersDark)
  }

  /** Only 'system' follows the platform: 'light' and 'dark' ignore it, and
      'system' is dark exactly when the platform prefers dark. */
  lemma DarkFollowsPlatformOnlyInSystem(mode: ThemeMode, p: bool, q: bool)
    ensures mode != System ==> IsDark(mode, p) == IsDark(mode, q) == (mode == Dark)
    ensures IsDark(System, p) == p
    ensures IsDark(mode, p) <==> mode == Dark || (mode == System && p)
  {
  }
}
