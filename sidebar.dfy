/**
 * components/layout/Sidebar.js: which menu entries a user sees and which is
 * highlighted, the persisted expanded flag, and the open/expanded toggles.
 */
module Sidebar {
  import opened Wrappers
  import opened Strings

  /** `linkPathname`: the link is active when it occurs anywhere in the current path. */
  predicate LinkActive(pathname: string, link: string)
    ensures LinkActive(pathname, link) <==> exists k :: 0 <= k <= |pathname| && OccursAt(pathname, link, k)
  {
    ContainsIff(pathname, link);
    Contains(pathname, link)
  }

  /** A link is active on its own path and on every path that extends it. */
  lemma LinkActiveOnExtension(link: string, rest: string)
    ensures LinkActive(link + rest, link)
  {
    assert (link + rest)[0..|link|] == link;
    ContainsWitness(link + rest, link, 0);
  }

  /** The match is on substrings, not path segments: `/teacher` lights up under `/teacher-detail`. */
  lemma SubstringMatchNotSegment()
    ensures LinkActive("/teacher-detail", "/teacher")
  {
    var path := "/teacher-detail";
    assert path[0..8] == "/teacher";
    ContainsWitness(path, "/teacher", 0);
  }

  /** A menu item; `caption` is its `label`. */
  datatype MenuItem = MenuItem(link: string, icon: string, caption: string, roles: seq<string>)

  /** `listMenu` */
  function ListMenu(): (m: seq<MenuItem>)
    ensures |m| == 4
    ensures forall i :: 0 <= i < |m| ==> forall j :: 0 <= j < |m[i].roles| ==> m[i].roles[j] != ""
  {
    [ MenuItem("/home", "fa fa-home", "Home", ["Teacher", "Student"]),
      MenuItem("/classroom", "fa-solid fa-graduation-cap", "Data Kelas", ["Teacher"]),
      MenuItem("/teacher", "fa-solid fa-chalkboard-user", "Daftar Guru", ["Teacher", "Student"]),
      MenuItem("/student", "fa-solid fa-user", "Daftar Siswa", ["Teacher", "Student"]) ]
  }

  /** A rendered `<li>`. */
  datatype MenuEntry = MenuEntry(link: string, icon: string, caption: string, active: bool)

  /**
   * `menu.roles.filter((role) => role == userRole)[0]`: the first of the
   * item's roles equal to the user's, `None` when there is none (or no role).
   */
  function MatchingRole(roles: seq<string>, userRole: Option<string>): (r: Option<string>)
    ensures r.Some? <==> userRole.Some? && userRole.value in roles
    ensures r.Some? ==> r.value == userRole.value
  {
    if userRole.None? || |roles| == 0 then None
    else if roles[0] == userRole.value then Some(roles[0])
    else MatchingRole(roles[1..], userRole)
  }

  /** One element of `menuRenderer`'s result: `filterRoles && <li …>`. */
  function RenderItem(menu: MenuItem, userRole: Option<string>, pathname: string): (r: Option<MenuEntry>)
    ensures r.Some? <==> userRole.Some? && userRole.value != "" && userRole.value in menu.roles
    ensures r.Some? ==> r.value == MenuEntry(menu.link, menu.icon, menu.caption, LinkActive(pathname, menu.link))
  {
    var role := MatchingRole(menu.roles, userRole);
    if role.Some? && role.value != "" then
      Some(MenuEntry(menu.link, menu.icon, menu.caption, LinkActive(pathname, menu.link)))
    else None
  }

  /**
   * `menuRenderer`: one slot per menu item, in order; a slot is filled
   * exactly when the user's role is a non-empty role of the item, and the
   * entry is that item, highlighted exactly when its link is in the path.
   */
  function MenuRenderer(subMenu: seq<MenuItem>, userRole: Option<string>, pathname: string): (r: seq<Option<MenuEntry>>)
    ensures |r| == |subMenu|
    ensures forall i :: 0 <= i < |r| ==>
      (r[i].Some? <==> userRole.Some? && userRole.value != "" && userRole.value in subMenu[i].roles)
    ensures forall i :: 0 <= i < |r| && r[i].Some? ==>
      r[i].value == MenuEntry(subMenu[i].link, subMenu[i].icon, subMenu[i].caption, LinkActive(pathname, subMenu[i].link))
  {
    seq(|subMenu|, i requires 0 <= i < |subMenu| => RenderItem(subMenu[i], userRole, pathname))
  }

  /** Only a Teacher sees "Data Kelas"; Teacher and Student see the other three. */
  lemma MenuByRole(userRole: Option<string>, pathname: string)
    ensures var r := MenuRenderer(ListMenu(), userRole, pathname);
      && (r[1].Some? <==> userRole == Some("Teacher"))
      && (forall i :: 0 <= i < 4 && i != 1 ==>
            (r[i].Some? <==> userRole == Some("Teacher") || userRole == Some("Student")))
  {
    var m := ListMenu();
    assert m[1].roles == ["Teacher"];
    assert forall i :: 0 <= i < 4 && i != 1 ==> m[i].roles == ["Teacher", "Student"];
  }

  /** Any other role, or no role, gets an empty menu. */
  lemma OtherRoleSeesNothing(role: string, pathname: string)
    requires role != "Teacher" && role != "Student"
    ensures forall e :: e in MenuRenderer(ListMenu(), Some(role), pathname) ==> e.None?
    ensures forall e :: e in MenuRenderer(ListMenu(), None, pathname) ==> e.None?
  {
    var m := ListMenu();
    assert forall i :: 0 <= i < 4 ==> m[i].roles == ["Teacher"] || m[i].roles == ["Teacher", "Student"];
  }

  const ExpandedKey := "sidebar-expanded"

  /** The initial `sidebarExpanded`: expanded unless the stored value says otherwise. */
  function ParseExpanded(stored: Option<string>): (b: bool)
    ensures stored.None? ==> b
    ensures stored.Some? ==> (b <==> stored.value == "true")
  {
    stored.None? || stored.value == "true"
  }

  /** The string `localStorage.setItem` stores for a boolean. */
  function Persist(b: bool): (s: string)
    ensures s == "true" || s == "false"
    ensures s == "true" <==> b
  {
    if b then "true" else assert "false"[0] != "true"[0]; "false"
  }

  /** What is persisted reads back as the same flag. */
  lemma PersistRoundTrip(b: bool)
    ensures ParseExpanded(Some(Persist(b))) == b
  {
    assert "false" != "true" by { assert "false"[0] != "true"[0]; }
  }

  /** The Escape key code. */
  const EscapeKey := 27

  /**
   * The sidebar's state: the open flag the layout passes in, the expanded
   * flag, and the `sidebar-expanded` slot of `localStorage`.
   */
  class SidebarState {
    var sidebarOpen: bool
    var sidebarExpanded: bool
    var stored: Option<string>

    /** After every render the persisting effect has run: the slot holds the flag. */
    ghost predicate Valid()
      reads this
    {
      stored == Some(Persist(sidebarExpanded))
    }

    /** Mounting: read the slot, then persist what was read. */
    constructor (sidebarOpen: bool, slot: Option<string>)
      ensures Valid()
      ensures this.sidebarOpen == sidebarOpen
      ensures sidebarExpanded == ParseExpanded(slot)
    {
      this.sidebarOpen := sidebarOpen;
      var expanded := ParseExpanded(slot);
      this.sidebarExpanded := expanded;
      this.stored := Some(Persist(expanded));
    }

    /** The `keydown` handler: Escape closes an open sidebar; anything else is ignored. */
    method KeyDown(keyCode: int)
      requires Valid()
      modifies this
      ensures Valid()
      ensures sidebarOpen == (old(sidebarOpen) && keyCode != EscapeKey)
      ensures sidebarExpanded == old(sidebarExpanded) && stored == old(stored)
    {
      if !sidebarOpen || keyCode != EscapeKey {
        return;
      }
      sidebarOpen := false;
    }

    /** The close button: flips the open flag. */
    method ToggleOpen()
      requires Valid()
      modifies this
      ensures Valid()
      ensures sidebarOpen == !old(sidebarOpen)
      ensures sidebarExpanded == old(sidebarExpanded) && stored == old(stored)
    {
      sidebarOpen := !sidebarOpen;
    }

    /** The expand/collapse button: flips the expanded flag, and the effect persists it. */
    method ToggleExpanded()
      requires Valid()
      modifies this
      ensures Valid()
      ensures sidebarExpanded == !old(sidebarExpanded)
      ensures sidebarOpen == old(sidebarOpen)
    {
      sidebarExpanded := !sidebarExpanded;
      stored := Some(Persist(sidebarExpanded));
    }
  }

  /** A reload after any sequence of toggles restores the expanded flag. */
  lemma ReloadRestoresExpanded(s: SidebarState)
    requires s.Valid()
    ensures ParseExpanded(s.stored) == s.sidebarExpanded
  {
    PersistRoundTrip(s.sidebarExpanded);
  }
}
