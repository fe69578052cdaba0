/** The dashboard sidebar (components/dashboard/sidebar.tsx): seven collapsible menus,
    the links they reveal, the administrator-only entries, and logout. */
module Sidebar {
  import opened Wrappers
  import Json
  import AuthContext

  type Menus = map<string, bool>

  /** Every menu starts collapsed. */
  function InitialMenus(): (m: Menus)
    ensures |m.Keys| == 7
    ensures forall k :: k in m ==> !m[k]
  {
    var m := map["importar" := false, "archivos" := false, "compartir" := false, "utilidades" := false,
                 "usuarios" := false, "reuniones" := false, "contactos" := false];
    assert m.Keys == {"importar", "archivos", "compartir", "utilidades", "usuarios", "reuniones", "contactos"};
    m
  }

  /** `expandedMenus[menu]` read as a condition (a missing key is undefined, so false). */
  predicate Expanded(m: Menus, menu: string) {
    menu in m && m[menu]
  }

  /** `toggleMenu(menu)`: `{...prev, [menu]: !prev[menu]}`. */
  function Toggle(m: Menus, menu: string): (r: Menus)
    ensures menu in r && (Expanded(r, menu) <==> !Expanded(m, menu))
    ensures forall k :: k != menu ==> (k in r <==> k in m) && (k in m ==> r[k] == m[k])
  {
    m[menu := !Expanded(m, menu)]
  }

  /** Toggling a menu twice restores the record, for any of its menus. */
  lemma ToggleTwice(m: Menus, menu: string)
    requires menu in m
    ensures Toggle(Toggle(m, menu), menu) == m
  {
    var r := Toggle(Toggle(m, menu), menu);
    assert r.Keys == m.Keys;
    assert forall k :: k in m ==> r[k] == m[k];
  }

  /** Toggles of different menus commute. */
  lemma TogglesCommute(m: Menus, a: string, b: string)
    requires a != b
    ensures Toggle(Toggle(m, a), b) == Toggle(Toggle(m, b), a)
  {
    var x, y := Toggle(Toggle(m, a), b), Toggle(Toggle(m, b), a);
    assert x.Keys == y.Keys;
  }

  /** The links the menus hold. */
  datatype Link =
    | Import | Files | Trash | Share | ShareHistory
    | Compress | Convert | Scan | UtilitiesHistory
    | JoinMeeting | CreateMeeting | MeetingsHistory
    | Contacts | Zones | Users

  /** Where each link leads. */
  function Href(l: Link): string {
    match l
    case Import => "/dashboard/importar"
    case Files => "/dashboard/archivos"
    case Trash => "/dashboard/archivos?tab=trash"
    case Share => "/dashboard/compartir?tab=share"
    case ShareHistory => "/dashboard/compartir?tab=history"
    case Compress => "/dashboard/utilidades?tab=compress"
    case Convert => "/dashboard/utilidades?tab=convert"
    case Scan => "/dashboard/utilidades?tab=scan"
    case UtilitiesHistory => "/dashboard/utilidades?tab=history"
    case JoinMeeting => "/dashboard/reuniones?tab=join"
    case CreateMeeting => "/dashboard/reuniones?tab=create"
    case MeetingsHistory => "/dashboard/reuniones?tab=history"
    case Contacts => "/dashboard/contactos?tab=contacts"
    case Zones => "/dashboard/contactos?tab=zones"
    case Users => "/dashboard/usuarios"
  }

  function Section(m: Menus, menu: string, links: seq<Link>): seq<Link> {
    if Expanded(m, menu) then links else []
  }

  /** The Reuniones menu's links; "Crear reunión" only for administrators. */
  function MeetingLinks(isAdmin: bool): seq<Link> {
    [JoinMeeting] + (if isAdmin then [CreateMeeting] else []) + [MeetingsHistory]
  }

  /** Every link the open menus reveal, top to bottom; the Usuarios menu exists only for
      administrators. */
  function Links(m: Menus, isAdmin: bool): seq<Link> {
    Section(m, "importar", [Import])
    + Section(m, "archivos", [Files, Trash])
    + Section(m, "compartir", [Share, ShareHistory])
    + Section(m, "utilidades", [Compress, Convert, Scan, UtilitiesHistory])
    + Section(m, "reuniones", MeetingLinks(isAdmin))
    + Section(m, "contactos", [Contacts, Zones])
    + (if isAdmin then Section(m, "usuarios", [Users]) else [])
  }

  /** The menu headers shown: six for everyone, the Usuarios header for administrators. */
  function MenuHeaders(isAdmin: bool): (r: seq<string>)
    ensures "usuarios" in r <==> isAdmin
    ensures |r| == if isAdmin then 7 else 6
  {
    ["importar", "archivos", "compartir", "utilidades", "reuniones", "contactos"]
    + (if isAdmin then ["usuarios"] else [])
  }

  /** With every menu collapsed no link is shown. */
  lemma CollapsedShowsNothing(isAdmin: bool)
    ensures Links(InitialMenus(), isAdmin) == []
  {
  }

  /** The "Crear reunión" link appears exactly when an administrator has the Reuniones
      menu open. */
  lemma CreateMeetingLinkForAdmins(m: Menus, isAdmin: bool)
    ensures CreateMeeting in Links(m, isAdmin) <==> isAdmin && Expanded(m, "reuniones")
  {
    var x := CreateMeeting;
    var first := Section(m, "importar", [Import]) + Section(m, "archivos", [Files, Trash])
      + Section(m, "compartir", [Share, ShareHistory])
      + Section(m, "utilidades", [Compress, Convert, Scan, UtilitiesHistory]);
    var last := Section(m, "contactos", [Contacts, Zones])
      + (if isAdmin then Section(m, "usuarios", [Users]) else []);
    assert Links(m, isAdmin) == first + Section(m, "reuniones", MeetingLinks(isAdmin)) + last;
    assert x !in first;
    assert x !in last;
    assert x in MeetingLinks(isAdmin) <==> isAdmin;
  }

  /** The users page link appears exactly when an administrator has the Usuarios menu
      open. */
  lemma UsersLinkForAdmins(m: Menus, isAdmin: bool)
    ensures Users in Links(m, isAdmin) <==> isAdmin && Expanded(m, "usuarios")
  {
    var x := Users;
    var first := Section(m, "importar", [Import]) + Section(m, "archivos", [Files, Trash])
      + Section(m, "compartir", [Share, ShareHistory])
      + Section(m, "utilidades", [Compress, Convert, Scan, UtilitiesHistory])
      + Section(m, "reuniones", MeetingLinks(isAdmin))
      + Section(m, "contactos", [Contacts, Zones]);
    assert Links(m, isAdmin) == first + (if isAdmin then Section(m, "usuarios", [Users]) else []);
    assert x !in first;
  }

  /** The links all lead to different pages. */
  lemma HrefsDistinct(a: Link, b: Link)
    requires a != b
    ensures Href(a) != Href(b)
  {
  }

  class SidebarState {
    var expandedMenus: Menus
    var navigation: AuthContext.Navigation

    constructor ()
      ensures expandedMenus == InitialMenus() && navigation == AuthContext.Nowhere
    {
      expandedMenus := InitialMenus();
      navigation := AuthContext.Nowhere;
    }

    /** What the sidebar shows for the signed-in user. */
    function Shown(user: Option<Json.Object>): seq<Link>
      reads this
    {
      Links(expandedMenus, AuthContext.IsAdmin(user))
    }

    /** A menu header click: `toggleMenu(menu)` then `router.push("/dashboard/" + menu)`. */
    method MenuClick(menu: string)
      modifies this
      ensures expandedMenus == Toggle(old(expandedMenus), menu)
      ensures navigation == AuthContext.PushedTo("/dashboard/" + menu)
    {
      expandedMenus := Toggle(expandedMenus, menu);
      navigation := AuthContext.PushedTo("/dashboard/" + menu);
    }

    /** `handleLogout`: the session is closed and the router sent to /login only when
        `logout()` resolves; when it throws the error is swallowed and nothing moves. */
    method HandleLogout(auth: AuthContext.AuthProvider, reply: AuthContext.Reply)
      modifies this, auth
      ensures reply.NetworkError? ==> navigation == old(navigation) && auth.user == old(auth.user)
                                      && auth.stored == old(auth.stored)
      ensures reply.Reply? ==> navigation == AuthContext.PushedTo("/login") && auth.user.None? && auth.stored.None?
      ensures expandedMenus == old(expandedMenus)
    {
      var r := auth.Logout(reply);
      if r.Ok? {
        navigation := AuthContext.PushedTo("/login");
      }
    }
  }
}
