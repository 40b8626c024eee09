/**
 * The sidebar of the final app: one nav item per entry of `NAV_ITEMS` except
 * the `---` divider, one `active` key, clicks that move it, hover that
 * restyles only the items that are not active, and a refresh that restyles
 * every item from `active`. Also the page title `App.on_nav` shows for a key.
 * Widgets are reduced to the three colours an item shows: its background,
 * its text colour (icon and label alike) and its left indicator bar.
 */
module Navigation {
  import opened Wrappers
  import opened Palette

  datatype NavItem = NavItem(key: string, caption: Option<string>)

  const Divider := "---"

  /** `NAV_ITEMS`, without the icons. */
  const NavItems: seq<NavItem> := [
    NavItem("dashboard", Some("Dashboard")),
    NavItem("patients", Some("Patients")),
    NavItem("appointments", Some("Appointments")),
    NavItem(Divider, None),
    NavItem("staff", Some("Staff")),
    NavItem("settings", Some("Settings"))
  ]

  datatype ItemStyle = ItemStyle(bg: string, fg: string, bar: string)

  /** The active item: darker-blue background, white text, accent bar. */
  const ActiveStyle := ItemStyle(SidebarActive, White, Accent)
  /** Any other item after a refresh, and every item as first built. */
  const IdleStyle := ItemStyle(SidebarBg, Dim, SidebarBg)
  /** An item that is not active, under the pointer. */
  const HoverStyle := ItemStyle(SidebarHover, White, SidebarBg)

  /** The keys `_build` puts into `nav_buttons`, in order: every key but the divider. */
  function ButtonKeys(items: seq<NavItem>): (keys: seq<string>)
    ensures |keys| <= |items|
    ensures Divider !in keys
  {
    if items == [] then []
    else if items[0].key == Divider then ButtonKeys(items[1..])
    else [items[0].key] + ButtonKeys(items[1..])
  }

  /** `nav_buttons` holds exactly the keys of the items that are not the divider. */
  lemma {:induction false} ButtonKeysExact(items: seq<NavItem>)
    ensures forall k :: k in ButtonKeys(items) <==> k != Divider && exists i :: 0 <= i < |items| && items[i].key == k
  {
    if items != [] {
      ButtonKeysExact(items[1..]);
      forall k ensures k in ButtonKeys(items) <==> k != Divider && exists i :: 0 <= i < |items| && items[i].key == k {
        if k != Divider && (exists i :: 0 <= i < |items| && items[i].key == k) {
          var i :| 0 <= i < |items| && items[i].key == k;
          if i > 0 {
            assert items[1..][i - 1].key == k;
          }
        }
        if k in ButtonKeys(items[1..]) {
          var i :| 0 <= i < |items[1..]| && items[1..][i].key == k;
          assert items[i + 1].key == k;
        }
      }
    }
  }

  /** Adding an item at the end adds its key, unless it is the divider. */
  lemma {:induction false} ButtonKeysAppend(items: seq<NavItem>, item: NavItem)
    ensures ButtonKeys(items + [item]) == ButtonKeys(items) + (if item.key == Divider then [] else [item.key])
  {
    if items != [] {
      assert (items + [item])[1..] == items[1..] + [item];
      ButtonKeysAppend(items[1..], item);
    }
  }

  /** With distinct item keys, `nav_buttons` holds each key once, as the dict does. */
  lemma {:induction false} ButtonKeysDistinct(items: seq<NavItem>)
    requires forall i, j :: 0 <= i < j < |items| ==> items[i].key != items[j].key
    ensures forall i, j :: 0 <= i < j < |ButtonKeys(items)| ==> ButtonKeys(items)[i] != ButtonKeys(items)[j]
  {
    if items != [] {
      var rest := items[1..];
      ButtonKeysDistinct(rest);
      ButtonKeysExact(rest);
      assert items[0].key !in ButtonKeys(rest) by {
        forall i | 0 <= i < |rest| ensures rest[i].key != items[0].key {
          assert rest[i] == items[i + 1];
        }
      }
    }
  }

  /** The app's sidebar has five items: the divider only separates them. */
  lemma AppButtonKeys()
    ensures ButtonKeys(NavItems) == ["dashboard", "patients", "appointments", "staff", "settings"]
  {
    var items := NavItems;
    assert ButtonKeys(items[6..]) == [] by { assert items[6..] == []; }
    assert items[5..][1..] == items[6..];
    assert ButtonKeys(items[5..]) == ["settings"];
    assert items[4..][1..] == items[5..];
    assert ButtonKeys(items[4..]) == ["staff", "settings"];
    assert items[3..][1..] == items[4..];
    assert ButtonKeys(items[3..]) == ["staff", "settings"];
    assert items[2..][1..] == items[3..];
    assert ButtonKeys(items[2..]) == ["appointments", "staff", "settings"];
    assert items[1..][1..] == items[2..];
    assert ButtonKeys(items[1..]) == ["patients", "appointments", "staff", "settings"];
    assert items[0..][1..] == items[1..];
    assert items[0..] == items;
  }

  /** The per-item rule of `_refresh_styles`. */
  function StyleFor(key: string, active: string): (s: ItemStyle)
    ensures s == ActiveStyle <==> key == active
    ensures key != active ==> s == IdleStyle
  {
    if key == active then ActiveStyle else IdleStyle
  }

  /** Every item restyled from `active`. */
  function Refreshed(keys: seq<string>, active: string): map<string, ItemStyle> {
    map k | k in keys :: StyleFor(k, active)
  }

  /** How `_build` leaves the items: each one idle, whatever `active` says. */
  function BuiltStyles(keys: seq<string>): map<string, ItemStyle> {
    map k | k in keys :: IdleStyle
  }

  /** The active key, and only it, is drawn as active; every other item is idle or hovered. */
  ghost predicate ShowsSelection(styles: map<string, ItemStyle>, active: string) {
    forall k :: k in styles ==>
      if k == active then styles[k] == ActiveStyle else styles[k] == IdleStyle || styles[k] == HoverStyle
  }

  /** After a refresh exactly the active item carries the active style, and the others are idle. */
  lemma RefreshMarksExactlyActive(keys: seq<string>, active: string)
    ensures ShowsSelection(Refreshed(keys, active), active)
    ensures forall k :: k in keys ==> (Refreshed(keys, active)[k] == ActiveStyle <==> k == active)
    ensures active in keys ==> Refreshed(keys, active)[active] == ActiveStyle
    ensures forall k :: k in keys && k != active ==> Refreshed(keys, active)[k] == IdleStyle
  {
  }

  /**
   * As written, the sidebar starts with `active == 'dashboard'` but never
   * refreshes its styles, so the dashboard item is drawn like every other
   * item: the built state does not show the selection.
   */
  lemma BuiltStateHidesSelection()
    ensures "dashboard" in BuiltStyles(ButtonKeys(NavItems))
    ensures BuiltStyles(ButtonKeys(NavItems))["dashboard"] == IdleStyle
    ensures !ShowsSelection(BuiltStyles(ButtonKeys(NavItems)), "dashboard")
  {
    AppButtonKeys();
    assert BuiltStyles(ButtonKeys(NavItems))["dashboard"] != ActiveStyle;
  }

  /** `labels.get(key, key)` in `App.on_nav`. */
  const PageLabels: map<string, string> := map[
    "dashboard" := "Dashboard", "patients" := "Patients",
    "appointments" := "Appointments", "staff" := "Staff", "settings" := "Settings"]

  /** The page title `App.on_nav` shows for a key: its label, or the key itself when it has none. */
  function PageTitle(key: string): (title: string)
    ensures key in PageLabels ==> title == PageLabels[key]
    ensures key !in PageLabels ==> title == key
  {
    if key in PageLabels then PageLabels[key] else key
  }

  /** The titles `on_nav` shows are the labels the sidebar gives the same keys. */
  lemma PageTitlesMatchLabels()
    ensures forall i :: 0 <= i < |NavItems| && NavItems[i].key != Divider ==>
      NavItems[i].caption == Some(PageTitle(NavItems[i].key))
  {
  }

  class Sidebar {
    /** The keys of `nav_buttons`, in order. */
    const keys: seq<string>
    var active: string
    /** The colours each nav item is drawn in. */
    var styles: map<string, ItemStyle>
    /** The keys handed to `on_nav`, in order. */
    var navigated: seq<string>

    ghost predicate Valid()
      reads this
    {
      styles.Keys == (set k | k in keys) && ShowsSelection(styles, active)
    }

    /**
     * `Sidebar(parent, on_nav)`, with the refresh the as-written constructor
     * leaves out: the dashboard item starts out drawn as active.
     */
    constructor ()
      ensures Valid() && keys == ButtonKeys(NavItems) && active == "dashboard"
      ensures styles == Refreshed(keys, active) && navigated == []
    {
      var built := BuildKeys(NavItems);
      keys := built;
      active := "dashboard";
      styles := BuiltStyles(built);
      navigated := [];
      new;
      RefreshStyles();
    }

    /** The `_build` loop over `NAV_ITEMS`: skip the divider, keep every other key. */
    static method BuildKeys(items: seq<NavItem>) returns (keys: seq<string>)
      ensures keys == ButtonKeys(items)
    {
      keys := [];
      for i := 0 to |items|
        invariant keys == ButtonKeys(items[..i])
      {
        assert items[..i + 1] == items[..i] + [items[i]];
        ButtonKeysAppend(items[..i], items[i]);
        if items[i].key == Divider {
          continue;
        }
        keys := keys + [items[i].key];
      }
      assert items[..|items|] == items;
    }

    /** `_refresh_styles`: every item restyled from `active`. */
    method RefreshStyles()
      requires styles.Keys == (set k | k in keys)
      modifies this`styles
      ensures styles == Refreshed(keys, active)
      ensures Valid()
    {
      var i := 0;
      while i < |keys|
        invariant 0 <= i <= |keys|
        invariant styles.Keys == (set k | k in keys)
        invariant forall j :: 0 <= j < i ==> styles[keys[j]] == StyleFor(keys[j], active)
        invariant forall k :: k in styles && k !in keys[..i] ==> styles[k] == old(styles)[k]
      {
        styles := styles[keys[i] := StyleFor(keys[i], active)];
        i := i + 1;
      }
      assert forall k :: k in styles ==> k in keys[..i];
      RefreshMarksExactlyActive(keys, active);
    }

    /** `_on_click(key)`: make `key` active, refresh, then tell the app. */
    method OnClick(key: string)
      requires Valid() && key in keys
      modifies this`active, this`styles, this`navigated
      ensures Valid() && active == key && styles == Refreshed(keys, key)
      ensures navigated == old(navigated) + [key]
    {
      active := key;
      RefreshStyles();
      navigated := navigated + [key];
    }

    /** `update_active(key)`: as a click, without telling the app. */
    method UpdateActive(key: string)
      requires Valid()
      modifies this`active, this`styles
      ensures Valid() && active == key && styles == Refreshed(keys, key)
    {
      active := key;
      RefreshStyles();
    }

    /** `_on_enter`: a non-active item takes the hover colours; the active item is left alone. */
    method OnEnter(key: string)
      requires Valid() && key in keys
      modifies this`styles
      ensures Valid()
      ensures key != active ==> styles == old(styles)[key := HoverStyle]
      ensures key == active ==> styles == old(styles)
    {
      if key != active {
        styles := styles[key := styles[key].(bg := SidebarHover, fg := White)];
      }
    }

    /** `_on_leave`: a non-active item goes back to the idle colours; the active item is left alone. */
    method OnLeave(key: string)
      requires Valid() && key in keys
      modifies this`styles
      ensures Valid()
      ensures key != active ==> styles == old(styles)[key := IdleStyle]
      ensures key == active ==> styles == old(styles)
    {
      if key != active {
        styles := styles[key := styles[key].(bg := SidebarBg, fg := Dim)];
      }
    }
  }

  /** `App`: the sidebar and the title of the page shown beside it. */
  class App {
    const sidebar: Sidebar
    var page: string

    /** The page shown is the one the sidebar marks as active. */
    ghost predicate Valid()
      reads this, sidebar
    {
      sidebar.Valid() && page == PageTitle(sidebar.active)
    }

    /** The app opens on the `Dashboard` placeholder. */
    constructor ()
      ensures Valid() && fresh(sidebar) && page == "Dashboard" && sidebar.navigated == []
      ensures sidebar.keys == ButtonKeys(NavItems)
      ensures sidebar.active == "dashboard" && sidebar.styles == Refreshed(sidebar.keys, "dashboard")
    {
      sidebar := new Sidebar();
      page := "Dashboard";
    }

    /** A click on a nav item: the sidebar moves its selection and `on_nav` shows that key's page. */
    method NavClick(key: string)
      requires Valid() && key in sidebar.keys
      modifies this`page, sidebar`active, sidebar`styles, sidebar`navigated
      ensures Valid() && sidebar.active == key && page == PageTitle(key)
      ensures sidebar.styles == Refreshed(sidebar.keys, key)
      ensures sidebar.navigated == old(sidebar.navigated) + [key]
    {
      sidebar.OnClick(key);
      page := PageTitle(key);
    }
  }
}
