/**
  * The per-row action menu of src/components/orders/OrderActionsCell.tsx:
  * "View details" when the user may update, the next workflow step of the
  * order's status when the user may perform it, and "Delete" when the
  * user may delete.
  */
module OrderActions {
  import opened Wrappers
  import Text
  import Catalog
  import Auth
  import MockApi

  /** STATUS_ACTION_MAP: the next action for each status, keyed by upper-case status names. */
  const StatusActionMap: map<string, string> := map[
    "PENDING" := "approve",
    "APPROVED" := "ship",
    "SHIPPED" := "close",
    "CLOSED" := "reopen",
    "REOPENED" := "close",
    "REJECTED" := "approve"
  ]

  /** Every action of the map is a catalogue permission. */
  lemma StatusActionsArePermissions()
    ensures forall k :: k in StatusActionMap ==> StatusActionMap[k] in Catalog.AllPermissions
  {
  }

  /**
    * `STATUS_ACTION_MAP[status]` as written: the order's status value is
    * lower-case, so the lookup finds no key (undefined is None).
    */
  function NextActionAsWritten(status: MockApi.OrderStatus): (r: Option<string>)
    ensures r.Some? ==> r.value in Catalog.AllPermissions
  {
    var key := MockApi.StatusName(status);
    if key in StatusActionMap then Some(StatusActionMap[key]) else None
  }

  /** No order status finds its next action in the map as it is keyed. */
  lemma NextActionAsWrittenAlwaysMissing(status: MockApi.OrderStatus)
    ensures NextActionAsWritten(status) == None
  {
    assert MockApi.StatusName(status)[0] in "pascr";
  }

  /** The intended lookup: the status upper-cased, which every status finds. */
  function NextAction(status: MockApi.OrderStatus): (r: string)
    ensures Text.Upper(MockApi.StatusName(status)) in StatusActionMap
    ensures r in Catalog.AllPermissions
  {
    var key := Text.Upper(MockApi.StatusName(status));
    UpperStatusNames(status);
    StatusActionMap[key]
  }

  lemma UpperStatusNames(status: MockApi.OrderStatus)
    ensures Text.Upper(MockApi.StatusName(status)) ==
      match status
      case Pending => "PENDING"
      case Approved => "APPROVED"
      case Shipped => "SHIPPED"
      case Closed => "CLOSED"
      case Reopened => "REOPENED"
  {
  }

  /** The workflow the map describes: pending and reopened orders move on, closed ones reopen. */
  lemma NextActionTable()
    ensures NextAction(MockApi.Pending) == "approve"
    ensures NextAction(MockApi.Approved) == "ship"
    ensures NextAction(MockApi.Shipped) == "close"
    ensures NextAction(MockApi.Closed) == "reopen"
    ensures NextAction(MockApi.Reopened) == "close"
  {
    NextActionOf(MockApi.Pending);
    NextActionOf(MockApi.Approved);
    NextActionOf(MockApi.Shipped);
    NextActionOf(MockApi.Closed);
    NextActionOf(MockApi.Reopened);
  }

  lemma NextActionOf(status: MockApi.OrderStatus)
    ensures NextAction(status) ==
      match status
      case Pending => "approve"
      case Approved => "ship"
      case Shipped => "close"
      case Closed => "reopen"
      case Reopened => "close"
  {
    UpperStatusNames(status);
    match status
    case Pending => assert StatusActionMap["PENDING"] == "approve";
    case Approved => assert StatusActionMap["APPROVED"] == "ship";
    case Shipped => assert StatusActionMap["SHIPPED"] == "close";
    case Closed => assert StatusActionMap["CLOSED"] == "reopen";
    case Reopened => assert StatusActionMap["REOPENED"] == "close";
  }

  datatype MenuEntry =
    | ViewDetails(path: string)
    | PerformNext(action: string, caption: string)
    | DeleteOrder

  /**
    * The menu as written: gated by auth.ts's hasPermission, asked for
    * "update" (which it grants to nobody) and for the looked-up next action
    * (undefined, which it grants to nobody either).
    */
  function MenuAsWritten(session: Auth.StoredAuth, order: MockApi.Order): (r: seq<MenuEntry>)
    ensures DeleteOrder in r <==> Auth.HasPermission(session, "delete")
    ensures |r| <= 3
  {
    var next := NextActionAsWritten(order.status);
    (if Auth.HasPermission(session, "update") then [ViewDetails("/orders/" + order.id)] else [])
    + (if next.Some? && Auth.HasPermission(session, next.value) then [PerformNext(next.value, Text.Capitalize(next.value))] else [])
    + (if Auth.HasPermission(session, "delete") then [DeleteOrder] else [])
  }

  /** As written, the menu never offers more than "Delete", even to the demo admin. */
  lemma MenuAsWrittenOnlyDelete(session: Auth.StoredAuth, order: MockApi.Order)
    ensures MenuAsWritten(session, order) == (if Auth.HasPermission(session, "delete") then [DeleteOrder] else [])
    ensures MenuAsWritten(Auth.DemoLogin("a@b.c"), order) == [DeleteOrder]
  {
    NextActionAsWrittenAlwaysMissing(order.status);
  }

  /** The catalogue permissions of the stored user's role, its name read without regard to case. */
  predicate CatalogAllows(session: Auth.StoredAuth, permission: string) {
    match Auth.GetCurrentUser(session)
    case None => false
    case Some(u) =>
      match Catalog.RoleNamed(u.role)
      case None => false
      case Some(role) => permission in Catalog.Permissions(role)
  }

  /** The menu with the next action looked up by upper-case key and gated by the catalogue. */
  function Menu(session: Auth.StoredAuth, order: MockApi.Order): (r: seq<MenuEntry>)
    ensures ViewDetails("/orders/" + order.id) in r <==> CatalogAllows(session, "update")
    ensures DeleteOrder in r <==> CatalogAllows(session, "delete")
    ensures PerformNext(NextAction(order.status), Text.Capitalize(NextAction(order.status))) in r <==>
      CatalogAllows(session, NextAction(order.status))
    ensures forall e :: e in r && e.PerformNext? ==> e == PerformNext(NextAction(order.status), Text.Capitalize(NextAction(order.status)))
  {
    var next := NextAction(order.status);
    MenuOf(order.id, next, CatalogAllows(session, "update"), CatalogAllows(session, next), CatalogAllows(session, "delete"))
  }

  /** The menu's entries, in order, given the answers of the three permission checks. */
  function MenuOf(id: string, next: string, view: bool, step: bool, delete: bool): (r: seq<MenuEntry>)
    ensures ViewDetails("/orders/" + id) in r <==> view
    ensures PerformNext(next, Text.Capitalize(next)) in r <==> step
    ensures DeleteOrder in r <==> delete
    ensures forall e :: e in r && e.PerformNext? ==> e == PerformNext(next, Text.Capitalize(next))
  {
    (if view then [ViewDetails("/orders/" + id)] else [])
    + (if step then [PerformNext(next, Text.Capitalize(next))] else [])
    + (if delete then [DeleteOrder] else [])
  }

  /** A signed-in admin, whatever the case of the stored role name, gets all three entries. */
  lemma AdminGetsFullMenu(session: Auth.StoredAuth, order: MockApi.Order)
    requires Auth.GetCurrentUser(session).Some?
    requires Text.Lower(Auth.GetCurrentUser(session).value.role) == "admin"
    ensures |Menu(session, order)| == 3
    ensures Menu(session, order)[0] == ViewDetails("/orders/" + order.id)
    ensures Menu(session, order)[2] == DeleteOrder
  {
    Catalog.AdminHasAllPermissions();
  }

  /** A manager may view and take the next step but not delete. */
  lemma ManagerMenuHasNoDelete(session: Auth.StoredAuth, order: MockApi.Order)
    requires Auth.GetCurrentUser(session).Some?
    requires Text.Lower(Auth.GetCurrentUser(session).value.role) == "manager"
    ensures Menu(session, order) ==
      [ViewDetails("/orders/" + order.id), PerformNext(NextAction(order.status), Text.Capitalize(NextAction(order.status)))]
  {
    var u := Auth.GetCurrentUser(session).value;
    assert Catalog.RoleNamed(u.role) == Some(Catalog.MANAGER);
    var next := NextAction(order.status);
    assert next in Catalog.Permissions(Catalog.MANAGER) by {
      NextActionTable();
    }
    assert CatalogAllows(session, "update") && CatalogAllows(session, next);
    assert !CatalogAllows(session, "delete") by {
      Catalog.ManagerLacksAdministration();
    }
  }

  /** A plain user, or nobody, gets an empty menu. */
  lemma UserMenuEmpty(session: Auth.StoredAuth, order: MockApi.Order)
    requires Auth.GetCurrentUser(session).None? || Text.Lower(Auth.GetCurrentUser(session).value.role) == "user"
    ensures Menu(session, order) == []
  {
    var next := NextAction(order.status);
    assert next in {"approve", "ship", "close", "reopen"} by {
      NextActionTable();
    }
    UserCatalog(session, "update");
    UserCatalog(session, "delete");
    UserCatalog(session, next);
  }

  /** The catalogue allows a plain user only "read" and "create", and nobody anything. */
  lemma UserCatalog(session: Auth.StoredAuth, permission: string)
    requires Auth.GetCurrentUser(session).None? || Text.Lower(Auth.GetCurrentUser(session).value.role) == "user"
    ensures CatalogAllows(session, permission) <==> Auth.GetCurrentUser(session).Some? && permission in {"read", "create"}
  {
  }

  /** The demo admin sees the full menu once the lookup and the gate are corrected. */
  lemma DemoAdminMenu(order: MockApi.Order)
    ensures |Menu(Auth.DemoLogin("a@b.c"), order)| == 3
  {
    AdminGetsFullMenu(Auth.DemoLogin("a@b.c"), order);
  }
}
