/**
  * The navigation menu of src/components/layout/AppSidebar.tsx: five base
  * entries for everybody, and for an administrator a "Users" entry spliced
  * in between "Workflows" and "Reports".
  */
module Sidebar {
  import Collections
  import Auth

  /** A menu entry: its title and its route (the icon is left out). */
  datatype MenuItem = MenuItem(title: string, path: string)

  /** The entries every signed-in user sees, in order. */
  const BaseMenu: seq<MenuItem> := [
    MenuItem("Dashboard", "/"),
    MenuItem("Data Grid", "/data-grid"),
    MenuItem("Workflows", "/workflows"),
    MenuItem("Reports", "/reports"),
    MenuItem("Settings", "/settings")
  ]

  /** The administrators' extra entry. */
  const UsersItem: MenuItem := MenuItem("Users", "/users")

  function Paths(items: seq<MenuItem>): (r: seq<string>)
    ensures |r| == |items| && forall k :: 0 <= k < |r| ==> r[k] == items[k].path
  {
    seq(|items|, k requires 0 <= k < |items| => items[k].path)
  }

  /**
    * The admin flag as written, `hasRole('ADMIN')`: an exact comparison with
    * the upper-case name, while the login form stores the role "admin".
    */
  predicate IsAdminAsWritten(session: Auth.StoredAuth) {
    Auth.HasRole(session, "ADMIN")
  }

  /** The admin flag as intended: the role name the login form stores. */
  predicate IsAdmin(session: Auth.StoredAuth) {
    Auth.HasRole(session, "admin")
  }

  /** The demo administrator is not an administrator to the sidebar as written, and is one as intended. */
  lemma DemoAdminNotAdminAsWritten(email: string)
    ensures !IsAdminAsWritten(Auth.DemoLogin(email))
    ensures IsAdmin(Auth.DemoLogin(email))
  {
    assert "admin"[0] != "ADMIN"[0];
  }

  /** The corrected flag holds exactly for a signed-in user whose stored role is "admin". */
  lemma IsAdminExact(session: Auth.StoredAuth)
    ensures IsAdmin(session) <==> Auth.GetCurrentUser(session).Some? && Auth.GetCurrentUser(session).value.role == "admin"
  {
  }

  /**
    * menuItems: the base list, with Users spliced in at index 3 for an
    * administrator; the other entries keep their order and all paths differ.
    */
  method BuildMenu(isAdmin: bool) returns (items: seq<MenuItem>)
    ensures !isAdmin ==> items == BaseMenu
    ensures isAdmin ==> |items| == 6 && items[3] == UsersItem && items[..3] == BaseMenu[..3] && items[4..] == BaseMenu[3..]
    ensures Collections.Distinct(Paths(items))
    ensures UsersItem in items <==> isAdmin
  {
    items := BaseMenu;
    BasePathsDistinct();
    if isAdmin {
      items := Collections.SpliceInsert(items, 3, UsersItem);
      assert items == BaseMenu[..3] + [UsersItem] + BaseMenu[3..];
      AdminPathsDistinct(items);
    }
  }

  lemma BasePathsDistinct()
    ensures Collections.Distinct(Paths(BaseMenu))
    ensures UsersItem !in BaseMenu
  {
    var p := Paths(BaseMenu);
    assert p == ["/", "/data-grid", "/workflows", "/reports", "/settings"];
    assert "/data-grid"[1] != "/workflows"[1];
    assert "/reports"[1] != "/users"[1];
  }

  lemma AdminPathsDistinct(items: seq<MenuItem>)
    requires items == BaseMenu[..3] + [UsersItem] + BaseMenu[3..]
    ensures Collections.Distinct(Paths(items))
  {
    var p := Paths(items);
    assert p == ["/", "/data-grid", "/workflows", "/users", "/reports", "/settings"];
    assert "/data-grid"[1] != "/workflows"[1];
    assert "/reports"[1] != "/users"[1];
  }

  /** The sidebar as written: the demo administrator gets the five base entries only. */
  method SidebarAsWritten(session: Auth.StoredAuth) returns (items: seq<MenuItem>)
    ensures Auth.GetCurrentUser(session).Some? && Auth.GetCurrentUser(session).value.role == "admin" ==> items == BaseMenu
    ensures UsersItem in items <==> IsAdminAsWritten(session)
  {
    items := BuildMenu(IsAdminAsWritten(session));
  }

  /** The sidebar as intended: a stored role of "admin" gets the Users entry. */
  method SidebarMenu(session: Auth.StoredAuth) returns (items: seq<MenuItem>)
    ensures UsersItem in items <==> Auth.GetCurrentUser(session).Some? && Auth.GetCurrentUser(session).value.role == "admin"
    ensures |items| == if IsAdmin(session) then 6 else 5
  {
    items := BuildMenu(IsAdmin(session));
  }
}
