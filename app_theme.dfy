/** The theme kept between visits: a name in the store, copied onto the document's root
    element. */
module AppTheme {
  import opened Optional
  import Browser

  const ThemeKey: string := "theme"
  const DarkTheme: string := "theme-dark"
  const LightTheme: string := "theme-light"

  /** The two names `setTheme` accepts. */
  predicate IsThemeName(name: string) {
    name == DarkTheme || name == LightTheme
  }

  /** `setTheme`: the name goes into the store and becomes the document's class. */
  method SetTheme(storage: Browser.Storage, themeName: string)
    requires IsThemeName(themeName)
    modifies storage
    ensures storage.items == old(storage.items)[ThemeKey := themeName]
    ensures storage.documentClass == themeName
  {
    storage.SetItem(ThemeKey, themeName);
    storage.SetDocumentClass(themeName);
  }

  /** What `keepTheme` leaves: with no stored name, or the empty one, the dark theme is
      set; a stored theme name is set again; any other value leaves everything alone. */
  function Kept(items: map<string, string>, documentClass: string): (r: (map<string, string>, string))
    ensures ThemeKey !in items || items[ThemeKey] == "" ==> r == (items[ThemeKey := DarkTheme], DarkTheme)
    ensures ThemeKey in items && IsThemeName(items[ThemeKey]) ==> r == (items, items[ThemeKey])
    ensures ThemeKey in items && items[ThemeKey] != "" && !IsThemeName(items[ThemeKey]) ==> r == (items, documentClass)
  {
    if ThemeKey !in items || items[ThemeKey] == "" then (items[ThemeKey := DarkTheme], DarkTheme)
    else if items[ThemeKey] == DarkTheme then
      assert items[ThemeKey := DarkTheme] == items;
      (items[ThemeKey := DarkTheme], DarkTheme)
    else if items[ThemeKey] == LightTheme then
      assert items[ThemeKey := LightTheme] == items;
      (items[ThemeKey := LightTheme], LightTheme)
    else (items, documentClass)
  }

  /** `keepTheme`. */
  method KeepTheme(storage: Browser.Storage)
    modifies storage
    ensures (storage.items, storage.documentClass) == Kept(old(storage.items), old(storage.documentClass))
  {
    var stored := storage.GetItem(ThemeKey);
    if stored.Some? && stored.value != "" {
      if stored.value == DarkTheme {
        SetTheme(storage, DarkTheme);
      } else if stored.value == LightTheme {
        SetTheme(storage, LightTheme);
      }
    } else {
      SetTheme(storage, DarkTheme);
    }
  }

  /** Keeping the theme twice is keeping it once. */
  lemma KeepIdempotent(items: map<string, string>, documentClass: string)
    ensures Kept(Kept(items, documentClass).0, Kept(items, documentClass).1) == Kept(items, documentClass)
  {
  }

  /** Afterwards a stored theme name and the document's class agree, and only the theme
      entry can have changed. */
  lemma KeptAgrees(items: map<string, string>, documentClass: string)
    ensures var (items', cls) := Kept(items, documentClass);
      ThemeKey in items' && (IsThemeName(items'[ThemeKey]) ==> cls == items'[ThemeKey])
      && forall k :: k != ThemeKey ==> (k in items' <==> k in items) && (k in items ==> items'[k] == items[k])
  {
  }
}
