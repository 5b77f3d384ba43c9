/** The theme state of src/contexts/ThemeContext.js: whether the app follows
    the device's colour scheme and whether it is dark. The device scheme and
    the stored preference are inputs; a state change returns the preference
    it asks AsyncStorage to store. */
module Theme {

  /** `Appearance.getColorScheme()`: `light`, `dark`, or `null` when the
      device states none. */
  datatype Scheme = Light | Dark | NoScheme

  /** `(isSystemTheme, isDarkMode)`. */
  datatype ThemeState = ThemeState(isSystemTheme: bool, isDarkMode: bool)

  /** The `useState` defaults, before the stored preference is read. */
  const Initial := ThemeState(true, false)

  /** The JSON object stored under `themePreference`. */
  datatype Preference = Preference(isSystemTheme: bool, isDarkMode: bool)

  /** What reading `themePreference` gives: nothing stored, a failure (the
      read or `JSON.parse` throws, or the stored JSON is `null`), or a
      preference the app stored earlier. */
  datatype StoredItem = Absent | Unreadable | Present(pref: Preference)

  /** `systemColorScheme === 'dark'`. */
  predicate IsDark(scheme: Scheme) {
    scheme == Dark
  }

  /** `initializeTheme`: a stored preference decides whether the device
      scheme is followed and, if not, the mode; without one, or when it
      cannot be read, the mode follows the device and `isSystemTheme` is left
      as it was. */
  function InitializeTheme(s: ThemeState, stored: StoredItem, scheme: Scheme): (r: ThemeState)
    ensures stored.Present? && stored.pref.isSystemTheme ==> r == ThemeState(true, IsDark(scheme))
    ensures stored.Present? && !stored.pref.isSystemTheme ==> r == ThemeState(false, stored.pref.isDarkMode)
    ensures !stored.Present? ==> r == s.(isDarkMode := IsDark(scheme))
  {
    match stored
    case Present(p) => ThemeState(p.isSystemTheme, if p.isSystemTheme then IsDark(scheme) else p.isDarkMode)
    case _ => s.(isDarkMode := IsDark(scheme))
  }

  /** A state change and the preference it stores. */
  datatype Change = Change(state: ThemeState, saved: Preference)

  /** The preference that records a state. */
  function PreferenceOf(s: ThemeState): Preference {
    Preference(s.isSystemTheme, s.isDarkMode)
  }

  /** `toggleTheme`: switch the mode and stop following the device. */
  function ToggleTheme(s: ThemeState): (r: Change)
    ensures r.state.isDarkMode != s.isDarkMode && !r.state.isSystemTheme
    ensures r.saved == PreferenceOf(r.state)
  {
    var dark := !s.isDarkMode;
    Change(ThemeState(false, dark), Preference(false, dark))
  }

  /** `setSystemTheme`: follow the device from now on. */
  function SetSystemTheme(s: ThemeState, scheme: Scheme): (r: Change)
    ensures r.state == ThemeState(true, IsDark(scheme))
    ensures r.saved == PreferenceOf(r.state)
  {
    Change(ThemeState(true, IsDark(scheme)), Preference(true, IsDark(scheme)))
  }

  /** `setManualTheme(darkMode)`: a fixed mode, whatever came before. */
  function SetManualTheme(s: ThemeState, darkMode: bool): (r: Change)
    ensures r.state == ThemeState(false, darkMode)
    ensures r.saved == PreferenceOf(r.state)
  {
    Change(ThemeState(false, darkMode), Preference(false, darkMode))
  }

  /** Toggling twice gives back the mode, no longer following the device. */
  lemma ToggleTwice(s: ThemeState)
    ensures ToggleTheme(ToggleTheme(s).state).state == ThemeState(false, s.isDarkMode)
  {
  }

  /** Setting the same manual mode again changes nothing. */
  lemma SetManualIdempotent(s: ThemeState, darkMode: bool)
    ensures SetManualTheme(SetManualTheme(s, darkMode).state, darkMode) == SetManualTheme(s, darkMode)
  {
  }

  /** The user's actions on the theme. */
  datatype Action = Toggle | FollowSystem | Manual(darkMode: bool)

  function Act(s: ThemeState, a: Action, scheme: Scheme): Change {
    match a
    case Toggle => ToggleTheme(s)
    case FollowSystem => SetSystemTheme(s, scheme)
    case Manual(d) => SetManualTheme(s, d)
  }

  /** What the app starts with after an action was stored: the same state
      when the action fixed the mode, and the device's scheme of that moment
      when it chose to follow the device. */
  lemma RestoredOnLaunch(s: ThemeState, a: Action, scheme: Scheme, launch: ThemeState, later: Scheme)
    ensures var c := Act(s, a, scheme);
            InitializeTheme(launch, Present(c.saved), later)
              == if a.FollowSystem? then ThemeState(true, IsDark(later)) else c.state
  {
  }

  /** With the device's scheme unchanged, a relaunch restores exactly the
      state the last action left. */
  lemma RelaunchRestores(s: ThemeState, actions: seq<Action>, scheme: Scheme, launch: ThemeState)
    requires |actions| > 0
    ensures var c := Run(s, actions, scheme);
            InitializeTheme(launch, Present(c.saved), scheme) == c.state
  {
    var before := if |actions| == 1 then s else Run(s, actions[..|actions| - 1], scheme).state;
    RestoredOnLaunch(before, actions[|actions| - 1], scheme, launch, scheme);
  }

  /** A sequence of actions with the device scheme fixed: the final state and
      the last preference stored. */
  function Run(s: ThemeState, actions: seq<Action>, scheme: Scheme): (c: Change)
    requires |actions| > 0
    ensures c.saved == PreferenceOf(c.state)
    decreases |actions|
  {
    var before := if |actions| == 1 then s else Run(s, actions[..|actions| - 1], scheme).state;
    Act(before, actions[|actions| - 1], scheme)
  }

  /* ---------------- the appearance listener ---------------- */

  /** One device scheme change: the listener exists only while the app
      follows the device, and it changes the mode but stores nothing. */
  function OnSchemeChange(s: ThemeState, scheme: Scheme): (r: ThemeState)
    ensures r.isSystemTheme == s.isSystemTheme
    ensures s.isSystemTheme ==> r.isDarkMode == IsDark(scheme)
    ensures !s.isSystemTheme ==> r == s
  {
    if s.isSystemTheme then s.(isDarkMode := IsDark(scheme)) else s
  }

  /** A series of device scheme changes, in order. */
  function OnSchemeChanges(s: ThemeState, schemes: seq<Scheme>): (r: ThemeState)
    ensures r.isSystemTheme == s.isSystemTheme
    decreases |schemes|
  {
    if |schemes| == 0 then s
    else OnSchemeChange(OnSchemeChanges(s, schemes[..|schemes| - 1]), schemes[|schemes| - 1])
  }

  /** Following the device, the mode is dark exactly when the latest scheme
      is. */
  lemma SystemFollowsDevice(s: ThemeState, schemes: seq<Scheme>)
    requires s.isSystemTheme && |schemes| > 0
    ensures OnSchemeChanges(s, schemes).isDarkMode == IsDark(schemes[|schemes| - 1])
  {
  }

  /** A manual mode ignores every device change. */
  lemma {:induction false} ManualIgnoresDevice(s: ThemeState, schemes: seq<Scheme>)
    requires !s.isSystemTheme
    ensures OnSchemeChanges(s, schemes) == s
    decreases |schemes|
  {
    if |schemes| > 0 {
      ManualIgnoresDevice(s, schemes[..|schemes| - 1]);
    }
  }

  /* ---------------- theme selection ---------------- */

  /** The two palettes of the theme constants. */
  datatype Palette = LightPalette | DarkPalette

  /** `currentTheme`: the dark palette exactly in dark mode. */
  function CurrentTheme(s: ThemeState): (p: Palette)
    ensures p == DarkPalette <==> s.isDarkMode
    ensures p == LightPalette <==> !s.isDarkMode
  {
    if s.isDarkMode then DarkPalette else LightPalette
  }

  /** On a first launch the palette follows the device. */
  lemma FirstLaunch(scheme: Scheme)
    ensures CurrentTheme(InitializeTheme(Initial, Absent, scheme)) == if IsDark(scheme) then DarkPalette else LightPalette
  {
  }
}
