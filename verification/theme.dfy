/**
 * The theme toggle: the page's data-theme attribute, the toggle button's
 * label, and the stored preference, which setTheme writes together.
 */
module Theme {
  import opened Wrappers

  /** The data-theme attribute, the button caption, and the value stored under the key 'theme'. */
  datatype ThemeState = ThemeState(dataTheme: string, caption: string, stored: Option<string>)

  const DarkLabel := "\U{2600}\U{FE0F} Light Mode"
  const LightLabel := "\U{1F319} Dark Mode"

  /** The button offers the other theme: the light-mode label while dark, the dark-mode label otherwise. */
  function LabelFor(theme: string): string {
    if theme == "dark" then DarkLabel else LightLabel
  }

  /** Attribute, label and stored preference agree. */
  predicate Consistent(s: ThemeState) {
    s.stored == Some(s.dataTheme) && s.caption == LabelFor(s.dataTheme)
  }

  /** setTheme: writes the attribute, the label and the stored value; the prior state is irrelevant. */
  function SetTheme(theme: string): (r: ThemeState)
    ensures Consistent(r) && r.dataTheme == theme
  {
    ThemeState(theme, LabelFor(theme), Some(theme))
  }

  /** localStorage.getItem('theme') || 'light': a missing or empty stored value falls back to light. */
  function InitialTheme(stored: Option<string>): (t: string)
    ensures t != ""
    ensures stored.Some? && stored.value != "" ==> t == stored.value
    ensures stored == None || stored == Some("") ==> t == "light"
  {
    match stored
    case None => "light"
    case Some(v) => if v == "" then "light" else v
  }

  /** Page load. */
  function Load(stored: Option<string>): (r: ThemeState)
    ensures Consistent(r) && r.dataTheme != ""
  {
    SetTheme(InitialTheme(stored))
  }

  /** The toggle click: 'dark' becomes 'light', anything else becomes 'dark'. */
  function Toggle(s: ThemeState): (r: ThemeState)
    ensures Consistent(r)
    ensures r.dataTheme == "dark" <==> s.dataTheme != "dark"
    ensures r.dataTheme == "light" <==> s.dataTheme == "dark"
  {
    SetTheme(if s.dataTheme == "dark" then "light" else "dark")
  }

  /** Toggling twice restores a consistent light or dark state. */
  lemma ToggleTwice(s: ThemeState)
    requires Consistent(s) && (s.dataTheme == "light" || s.dataTheme == "dark")
    ensures Toggle(Toggle(s)) == s
  {
  }

  /** An unknown stored theme is not restored by two toggles: it comes back as light. */
  lemma ToggleTwiceUnknown()
    ensures Toggle(Toggle(Load(Some("blue")))).dataTheme == "light"
    ensures Load(Some("blue")).dataTheme == "blue"
  {
  }

  /** Reloading reads back the last value set: loading from the stored preference reproduces the state. */
  lemma ReloadRestores(s: ThemeState)
    requires Consistent(s) && s.dataTheme != ""
    ensures Load(s.stored) == s
  {
  }

  /** The stored value always equals the displayed theme after load and any number of toggles. */
  function ToggleTimes(s: ThemeState, n: nat): (r: ThemeState)
    requires Consistent(s)
    ensures Consistent(r)
    ensures n % 2 == 0 && (s.dataTheme == "light" || s.dataTheme == "dark") ==> r == s
    ensures n % 2 == 1 ==> r == Toggle(s)
    decreases n
  {
    if n == 0 then s else Toggle(ToggleTimes(s, n - 1))
  }
}
