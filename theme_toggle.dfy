/** The dark/light switch: the colour scheme, the stored theme and the checkbox. */
module ThemeToggle {
  import opened Optional
  import Browser
  import opened AppTheme

  /** The colour scheme's mode. */
  datatype Mode = LightMode | DarkMode

  /** The switch reached from a stored theme: from the dark theme to the light one,
      from anything else, nothing included, to the dark one. */
  function Switched(stored: Option<string>): (r: (Mode, string, string, bool))
    ensures stored == Some(DarkTheme) ==> r == (LightMode, LightTheme, "light", false)
    ensures stored != Some(DarkTheme) ==> r == (DarkMode, DarkTheme, "dark", true)
  {
    if stored == Some(DarkTheme) then (LightMode, LightTheme, "light", false)
    else (DarkMode, DarkTheme, "dark", true)
  }

  /** The checkbox after the stored theme changes: checked unless the theme is light. */
  function CheckedFor(stored: Option<string>): (r: (string, bool))
    ensures r.1 <==> stored != Some(LightTheme)
    ensures r.0 == (if r.1 then "dark" else "light")
  {
    if stored == Some(LightTheme) then ("light", false) else ("dark", true)
  }

  /** After a switch the stored theme brings the checkbox to the state the switch set. */
  lemma SwitchAgreesWithEffect(stored: Option<string>)
    ensures var (_, name, cls, checked) := Switched(stored); CheckedFor(Some(name)) == (cls, checked)
  {
  }

  /** Two switches from a stored theme name store that name again; from the dark theme
      the mode, class and checkbox are back to dark as well. */
  lemma TwoSwitches(stored: Option<string>)
    requires stored == Some(DarkTheme) || stored == Some(LightTheme)
    ensures Some(Switched(Some(Switched(stored).1)).1) == stored
    ensures stored == Some(DarkTheme) ==> Switched(Some(Switched(stored).1)) == (DarkMode, DarkTheme, "dark", true)
  {
  }

  class Toggle {
    var mode: Mode
    var togClass: string
    var isChecked: bool

    /** The initial state: the class "dark" and checked, as `useState` sets them; the
        mode is whatever the colour scheme reports. */
    constructor (scheme: Mode)
      ensures togClass == "dark" && isChecked && mode == scheme
    {
      mode := scheme;
      togClass := "dark";
      isChecked := true;
    }

    /** `changeTheme`, reading the theme stored when the switch was last drawn. */
    method ChangeTheme(storage: Browser.Storage)
      modifies this, storage
      ensures var (m, name, cls, checked) := Switched(old(storage.GetItem(ThemeKey)));
        mode == m && togClass == cls && isChecked == checked
        && storage.items == old(storage.items)[ThemeKey := name] && storage.documentClass == name
    {
      var theme := storage.GetItem(ThemeKey);
      if theme == Some(DarkTheme) {
        mode := LightMode;
        SetTheme(storage, LightTheme);
        togClass := "light";
        isChecked := false;
      } else {
        mode := DarkMode;
        SetTheme(storage, DarkTheme);
        togClass := "dark";
        isChecked := true;
      }
    }

    /** The effect run when the stored theme changes. */
    method ThemeChanged(storage: Browser.Storage)
      modifies this
      ensures (togClass, isChecked) == CheckedFor(storage.GetItem(ThemeKey))
      ensures mode == old(mode)
    {
      var theme := storage.GetItem(ThemeKey);
      if theme == Some(LightTheme) {
        togClass := "light";
        isChecked := false;
      } else {
        togClass := "dark";
        isChecked := true;
      }
    }
  }
}
