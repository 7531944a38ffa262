/** The admin side menu: which of its three entries is highlighted for the current path. */
module MenuContent {
  import opened JsText

  datatype MenuItem = MenuItem(text: string, href: string)

  const AdminHref: string := "/admin"
  const ContentHref: string := "/admin/content"
  const MissionsHref: string := "/admin/missions"

  /** `mainListItems`: data analysis, content management and the mission history. */
  const MainListItems: seq<MenuItem> := [
    MenuItem("An\U{00E1}lise de Dados", AdminHref),
    MenuItem("Gest\U{00E3}o de Conte\U{00FA}do", ContentHref),
    MenuItem("Hist\U{00F3}rico de Miss\U{00F5}es", MissionsHref)
  ]

  /** `selected`: the entry for "/admin" only on that exact path, with or without a final
      '/'; every other entry on any path that starts with its link. */
  predicate Selected(item: MenuItem, currentPath: string) {
    if item.href == AdminHref then currentPath == "/admin" || currentPath == "/admin/"
    else StartsWith(currentPath, item.href)
  }

  /** The entries highlighted for a path, as positions in the menu. */
  function SelectedItems(currentPath: string): (ks: set<nat>)
  {
    set k: nat | k < |MainListItems| && Selected(MainListItems[k], currentPath)
  }

  /** The home entry is selected exactly on "/admin" and "/admin/". */
  lemma HomeSelection(currentPath: string)
    ensures Selected(MainListItems[0], currentPath) <==> currentPath == "/admin" || currentPath == "/admin/"
  {
  }

  /** The other entries are selected on their link and on anything below it. */
  lemma SectionSelection(k: nat, currentPath: string)
    requires 1 <= k < |MainListItems|
    ensures Selected(MainListItems[k], currentPath) <==> MainListItems[k].href <= currentPath
  {
    assert MainListItems[k].href != AdminHref by {
      assert |MainListItems[k].href| > |AdminHref|;
    }
  }

  /** A mission's own page highlights the history and nothing else. */
  lemma MissionPageSelectsHistory(currentPath: string)
    requires currentPath == "/admin/missions/7"
    ensures SelectedItems(currentPath) == {2}
  {
    assert MissionsHref <= currentPath;
    assert currentPath[7] == 'm' && ContentHref[7] == 'c';
    assert !Selected(MainListItems[1], currentPath);
    assert !Selected(MainListItems[0], currentPath) by {
      assert |currentPath| > 7;
    }
  }

  /** Whatever the path, at most one entry is highlighted. */
  lemma AtMostOneSelected(currentPath: string)
    ensures |SelectedItems(currentPath)| <= 1
  {
    var ks := SelectedItems(currentPath);
    assert ContentHref[7] == 'c' && MissionsHref[7] == 'm';
    assert !(1 in ks && 2 in ks);
    assert 0 in ks ==> |currentPath| <= 7;
    assert !(0 in ks && 1 in ks);
    assert !(0 in ks && 2 in ks);
    assert ks <= {0, 1, 2};
    if 0 in ks {
      assert ks == {0};
    } else if 1 in ks {
      assert ks == {1};
    } else if 2 in ks {
      assert ks == {2};
    } else {
      assert ks == {};
    }
  }
}
