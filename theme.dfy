/** The theme context (`modules/shared/contexts/theme-context.tsx`): the
    mode starts from `localStorage['themeMode']`, unchecked, and toggling
    it is written back. */
module Theme {
  import opened Wrappers

  /** The first mode: a non-empty saved string as it is, else "light". */
  function InitialMode(saved: Option<string>): (m: string)
    ensures saved.Some? && saved.value != "" ==> m == saved.value
    ensures saved.None? || saved.value == "" ==> m == "light"
  {
    if saved.Some? && saved.value != "" then saved.value else "light"
  }

  /** `toggleTheme`'s new mode. */
  function Toggled(mode: string): (r: string)
    ensures r == "dark" <==> mode == "light"
    ensures r == "light" <==> mode != "light"
  {
    if mode == "light" then "dark" else "light"
  }

  /** The light theme is used exactly for the mode "light". */
  predicate UsesLightTheme(mode: string) {
    mode == "light"
  }

  /** A toggle always switches the theme in use. */
  lemma ToggleSwitchesTheme(mode: string)
    ensures UsesLightTheme(Toggled(mode)) <==> !UsesLightTheme(mode)
  {
  }

  /** Toggling twice restores "light" or "dark"; an unrecognised saved
      mode, such as "blue", is shown dark and comes back as "dark". */
  lemma ToggleTwice(mode: string)
    ensures mode == "light" || mode == "dark" ==> Toggled(Toggled(mode)) == mode
    ensures mode != "light" && mode != "dark" ==> Toggled(Toggled(mode)) == "dark"
    ensures !UsesLightTheme(InitialMode(Some("blue")))
  {
  }

  class ThemeProvider {
    var mode: string
    /** `localStorage['themeMode']`. */
    var stored: Option<string>

    constructor(saved: Option<string>)
      ensures mode == InitialMode(saved) && stored == saved
    {
      mode := InitialMode(saved);
      stored := saved;
    }

    /** `toggleTheme()`: the new mode is stored as well. */
    method ToggleTheme()
      modifies this
      ensures mode == Toggled(old(mode))
      ensures stored == Some(mode)
    {
      mode := Toggled(mode);
      stored := Some(mode);
    }
  }

  /** The stored mode is what the next start shows: a toggled mode
      survives a reload. */
  method ReloadScenario(saved: Option<string>) returns (before: string, after: string)
    ensures after == before == Toggled(InitialMode(saved))
  {
    var first := new ThemeProvider(saved);
    first.ToggleTheme();
    before := first.mode;
    var second := new ThemeProvider(first.stored);
    after := second.mode;
  }
}
