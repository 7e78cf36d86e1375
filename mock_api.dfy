/**
  * The in-memory order service of src/lib/mockApi.ts: a module-level list of
  * orders that fetchOrders filters, sorts and pages, that createOrder
  * prepends to, that updateOrderStatus rewrites in place and that
  * deleteOrder filters. Who may do what is read from the stored sign-in
  * (module Auth); the clock is a parameter.
  */
module MockApi {
  import opened Wrappers
  import Text
  import Collections
  import Auth

  /** OrderStatus: 'pending' | 'approved' | 'shipped' | 'closed' | 'reopened'. */
  datatype OrderStatus = Pending | Approved | Shipped | Closed | Reopened

  /** The string value of a status. */
  function StatusName(s: OrderStatus): string {
    match s
    case Pending => "pending"
    case Approved => "approved"
    case Shipped => "shipped"
    case Closed => "closed"
    case Reopened => "reopened"
  }

  /** A unit price is in cents; a timestamp is milliseconds since the epoch. */
  datatype OrderItem = OrderItem(id: string, productName: string, quantity: int, unitPrice: int)

  datatype HistoryEntry = HistoryEntry(
    id: string, orderId: string, status: OrderStatus, timestamp: int,
    performedBy: string, notes: Option<string>)

  datatype Order = Order(
    id: string, orderNumber: string, customerId: string, customerName: string,
    status: OrderStatus, items: seq<OrderItem>, totalAmount: int,
    createdAt: int, updatedAt: int, createdBy: string,
    assignedTo: Option<string>, notes: Option<string>, history: seq<HistoryEntry>)

  datatype PageMeta = PageMeta(totalItems: nat, totalPages: nat, currentPage: int)

  datatype OrderPage = OrderPage(data: seq<Order>, meta: PageMeta)

  /** The errors the service throws. */
  datatype ApiError =
    | CreateUnauthenticated
    | UpdateUnauthenticated
    | ApprovalForbidden
    | OrderNotFound
    | DeleteForbidden

  function Message(e: ApiError): string {
    match e
    case CreateUnauthenticated => "User must be authenticated to create orders"
    case UpdateUnauthenticated => "User must be authenticated to update orders"
    case ApprovalForbidden => "Only managers or admins can approve or reject orders"
    case OrderNotFound => "Order not found"
    case DeleteForbidden => "Only admins can delete orders"
  }

  // ---------------------------------------------------------------- totals

  /** quantity * unitPrice of one line. */
  function LineTotal(item: OrderItem): int {
    item.quantity * item.unitPrice
  }

  /** `items.reduce((sum, item) => sum + item.quantity * item.unitPrice, 0)`, a left fold. */
  function ItemsTotal(items: seq<OrderItem>): int {
    if items == [] then 0
    else ItemsTotal(items[..|items| - 1]) + LineTotal(items[|items| - 1])
  }

  /** The total of two lists of lines is the sum of their totals. */
  lemma {:induction false} ItemsTotalAppend(a: seq<OrderItem>, b: seq<OrderItem>)
    ensures ItemsTotal(a + b) == ItemsTotal(a) + ItemsTotal(b)
  {
    if b != [] {
      ItemsTotalAppend(a, b[..|b| - 1]);
      assert (a + b)[..|a + b| - 1] == a + b[..|b| - 1];
    } else {
      assert a + b == a;
    }
  }

  /** Lines with non-negative quantities and prices never total below zero. */
  lemma {:induction false} ItemsTotalNonNegative(items: seq<OrderItem>)
    requires forall k :: 0 <= k < |items| ==> items[k].quantity >= 0 && items[k].unitPrice >= 0
    ensures ItemsTotal(items) >= 0
  {
    if items != [] {
      ItemsTotalNonNegative(items[..|items| - 1]);
      var last := items[|items| - 1];
      assert last.quantity * last.unitPrice >= 0;
    }
  }

  // ---------------------------------------------------------------- lookup

  /** `orders.findIndex(o => o.id === id)`, with -1 as None. */
  function FindIndex(orders: seq<Order>, id: string): (r: Option<nat>)
    ensures r.Some? ==> r.value < |orders| && orders[r.value].id == id
    ensures r.Some? ==> forall j :: 0 <= j < r.value ==> orders[j].id != id
    ensures r.None? <==> forall j :: 0 <= j < |orders| ==> orders[j].id != id
  {
    if orders == [] then None
    else if orders[0].id == id then Some(0)
    else
      match FindIndex(orders[1..], id)
      case None => None
      case Some(i) => Some(i + 1)
  }

  // ---------------------------------------------------------------- selection

  /** `if (status)`: no status filter, or the order has the status asked for. */
  predicate StatusMatches(o: Order, status: Option<OrderStatus>) {
    status.None? || o.status == status.value
  }

  /** `search && search.trim() !== ''` */
  predicate SearchActive(search: Option<string>) {
    search.Some? && Text.Trim(search.value) != ""
  }

  /** The lower-cased query occurs in the order number, the customer name or a product name. */
  predicate MatchesQuery(o: Order, query: string) {
    || Text.Contains(Text.Lower(o.orderNumber), query)
    || Text.Contains(Text.Lower(o.customerName), query)
    || exists k :: 0 <= k < |o.items| && Text.Contains(Text.Lower(o.items[k].productName), query)
  }

  /** An order passes both filters of fetchOrders. */
  predicate Selected(o: Order, status: Option<OrderStatus>, search: Option<string>) {
    StatusMatches(o, status) && (SearchActive(search) ==> MatchesQuery(o, Text.Lower(search.value)))
  }

  /** The status filter, then the search filter (the untrimmed query, lower-cased). */
  function SelectOrders(orders: seq<Order>, status: Option<OrderStatus>, search: Option<string>): seq<Order> {
    var byStatus := if status.Some? then Collections.Filter(orders, (o: Order) => o.status == status.value) else orders;
    if SearchActive(search) then
      var query := Text.Lower(search.value);
      Collections.Filter(byStatus, (o: Order) => MatchesQuery(o, query))
    else byStatus
  }

  /** The selection holds exactly the stored orders passing both filters, and no more of them than stored. */
  lemma SelectOrdersExact(orders: seq<Order>, status: Option<OrderStatus>, search: Option<string>, o: Order)
    ensures o in SelectOrders(orders, status, search) <==> o in orders && Selected(o, status, search)
    ensures |SelectOrders(orders, status, search)| <= |orders|
  {
    var byStatus := if status.Some? then Collections.Filter(orders, (o: Order) => o.status == status.value) else orders;
    if status.Some? {
      Collections.FilterMembership(orders, (o: Order) => o.status == status.value, o);
    }
    if SearchActive(search) {
      var query := Text.Lower(search.value);
      Collections.FilterMembership(byStatus, (o: Order) => MatchesQuery(o, query), o);
    }
  }

  /** A blank search (spaces, tabs, line breaks) filters nothing. */
  lemma BlankSearchIgnored(orders: seq<Order>, status: Option<OrderStatus>, search: string)
    requires Text.IsBlank(search)
    ensures SelectOrders(orders, status, Some(search)) == SelectOrders(orders, status, None)
  {
    Text.TrimEmptyIffBlank(search);
  }

  /** Search is case-insensitive: a query and its lower-cased form select the same orders. */
  lemma SearchIgnoresCase(orders: seq<Order>, status: Option<OrderStatus>, search: string)
    ensures SelectOrders(orders, status, Some(Text.Lower(search))) == SelectOrders(orders, status, Some(search))
  {
    Text.LowerIdempotent(search);
    Text.TrimEmptyIffBlank(search);
    Text.TrimEmptyIffBlank(Text.Lower(search));
    Text.LowerKeepsBlank(search);
  }

  // ---------------------------------------------------------------- sorting

  /** The comparison of the sort callback before the direction is applied. */
  function KeyCompare(a: Order, b: Order, sortBy: string): int {
    if sortBy == "orderNumber" then Text.LocaleCompare(a.orderNumber, b.orderNumber)
    else if sortBy == "customerName" then Text.LocaleCompare(a.customerName, b.customerName)
    else if sortBy == "totalAmount" then a.totalAmount - b.totalAmount
    else if sortBy == "status" then Text.LocaleCompare(StatusName(a.status), StatusName(b.status))
    else a.createdAt - b.createdAt
  }

  /** `sortDirection === 'asc' ? comparison : -comparison` */
  function OrderCompare(a: Order, b: Order, sortBy: string, dir: Collections.SortDirection): int {
    if dir == Collections.Asc then KeyCompare(a, b, sortBy) else -KeyCompare(a, b, sortBy)
  }

  function OrderComparator(sortBy: string, dir: Collections.SortDirection): (Order, Order) -> int {
    (a: Order, b: Order) => OrderCompare(a, b, sortBy, dir)
  }

  /** Descending order is ascending order read backwards. */
  lemma DescendingReversesAscending(a: Order, b: Order, sortBy: string)
    ensures OrderCompare(a, b, sortBy, Collections.Desc) == OrderCompare(b, a, sortBy, Collections.Asc)
  {
    KeyCompareAntisymmetric(a, b, sortBy);
  }

  /** An unknown sort key sorts by creation time. */
  lemma UnknownKeySortsByCreation(a: Order, b: Order, sortBy: string)
    requires sortBy !in {"orderNumber", "customerName", "totalAmount", "status"}
    ensures KeyCompare(a, b, sortBy) == KeyCompare(a, b, "createdAt")
    ensures KeyCompare(a, b, sortBy) < 0 <==> a.createdAt < b.createdAt
  {
  }

  lemma KeyCompareAntisymmetric(a: Order, b: Order, sortBy: string)
    ensures KeyCompare(b, a, sortBy) == -KeyCompare(a, b, sortBy)
  {
    Text.LocaleCompareAntisymmetric(a.orderNumber, b.orderNumber);
    Text.LocaleCompareAntisymmetric(a.customerName, b.customerName);
    Text.LocaleCompareAntisymmetric(StatusName(a.status), StatusName(b.status));
  }

  lemma KeyCompareTransitive(a: Order, b: Order, c: Order, sortBy: string)
    requires KeyCompare(a, b, sortBy) <= 0 && KeyCompare(b, c, sortBy) <= 0
    ensures KeyCompare(a, c, sortBy) <= 0
  {
    if sortBy == "orderNumber" {
      Text.LocaleCompareTransitive(a.orderNumber, b.orderNumber, c.orderNumber);
    } else if sortBy == "customerName" {
      Text.LocaleCompareTransitive(a.customerName, b.customerName, c.customerName);
    } else if sortBy == "status" {
      Text.LocaleCompareTransitive(StatusName(a.status), StatusName(b.status), StatusName(c.status));
    }
  }

  /** Every sort key and direction gives a comparator the sort can rely on. */
  lemma OrderComparatorConsistent(sortBy: string, dir: Collections.SortDirection)
    ensures Collections.ConsistentComparator(OrderComparator(sortBy, dir))
  {
    var cmp := OrderComparator(sortBy, dir);
    forall a: Order, b: Order
      ensures cmp(b, a) == -cmp(a, b)
    {
      KeyCompareAntisymmetric(a, b, sortBy);
    }
    forall a: Order, b: Order, c: Order | cmp(a, b) <= 0 && cmp(b, c) <= 0
      ensures cmp(a, c) <= 0
    {
      if dir == Collections.Asc {
        KeyCompareTransitive(a, b, c, sortBy);
      } else {
        KeyCompareAntisymmetric(a, b, sortBy);
        KeyCompareAntisymmetric(b, c, sortBy);
        KeyCompareAntisymmetric(a, c, sortBy);
        KeyCompareTransitive(c, b, a, sortBy);
      }
    }
  }

  /** The selection in the requested order. */
  function SortedSelection(orders: seq<Order>, status: Option<OrderStatus>, search: Option<string>,
                           sortBy: string, dir: Collections.SortDirection): seq<Order> {
    Collections.Sort(SelectOrders(orders, status, search), OrderComparator(sortBy, dir))
  }

  // ---------------------------------------------------------------- pages

  /** `s.slice((page - 1) * pageSize, (page - 1) * pageSize + pageSize)` */
  function PageOf<T>(s: seq<T>, page: int, pageSize: nat): (r: seq<T>)
    requires pageSize >= 1
    ensures |r| <= pageSize
    ensures page >= 1 ==> r == s[Collections.Clamp((page - 1) * pageSize, |s|)..Collections.Clamp(page * pageSize, |s|)]
    ensures page >= 1 && (page - 1) * pageSize >= |s| ==> r == []
  {
    var start := (page - 1) * pageSize;
    Collections.Slice(s, start, start + pageSize)
  }

  /** Pages 1 to k, one after the other, are the first k * pageSize elements. */
  lemma {:induction false} PagesConcatenate<T>(s: seq<T>, k: nat, pageSize: nat)
    requires pageSize >= 1
    ensures Pages(s, k, pageSize) == s[..Collections.Clamp(k * pageSize, |s|)]
  {
    if k > 0 {
      PagesConcatenate(s, k - 1, pageSize);
      var a, b := Collections.Clamp((k - 1) * pageSize, |s|), Collections.Clamp(k * pageSize, |s|);
      assert s[..a] + s[a..b] == s[..b];
    }
  }

  /** Pages 1 to k concatenated. */
  function Pages<T>(s: seq<T>, k: nat, pageSize: nat): seq<T>
    requires pageSize >= 1
  {
    if k == 0 then [] else Pages(s, k - 1, pageSize) + PageOf(s, k, pageSize)
  }

  /** Pages 1 to CeilDiv(|s|, pageSize) hold every element exactly once, in order. */
  lemma AllPagesCoverAll<T>(s: seq<T>, pageSize: nat)
    requires pageSize >= 1
    ensures Pages(s, Collections.CeilDiv(|s|, pageSize), pageSize) == s
    ensures forall p :: p > Collections.CeilDiv(|s|, pageSize) ==> PageOf(s, p, pageSize) == []
  {
    var n := Collections.CeilDiv(|s|, pageSize);
    PagesConcatenate(s, n, pageSize);
    assert s[..|s|] == s;
    forall p | p > n
      ensures PageOf(s, p, pageSize) == []
    {
      Collections.MulMonotone(n, p - 1, pageSize);
    }
  }

  // ---------------------------------------------------------------- the store

  const DefaultCustomerId := "cust-1"
  const DefaultCustomerName := "Acme Corp"

  /** The fields a caller of createOrder supplies (Partial<Order>; the others are ignored). */
  datatype OrderDraft = OrderDraft(
    customerId: Option<string>, customerName: Option<string>,
    items: Option<seq<OrderItem>>, notes: Option<string>)

  /** `value || fallback` for an optional string. */
  function OrElse(value: Option<string>, fallback: string): (r: string)
    ensures value.Some? && value.value != "" ==> r == value.value
    ensures value.None? || value.value == "" ==> r == fallback
  {
    if value.Some? && value.value != "" then value.value else fallback
  }

  /** The order createOrder builds: pending, numbered after the current count, one history entry. */
  function NewOrder(draft: OrderDraft, user: Auth.User, count: nat, now: nat, year: nat): (o: Order)
    ensures o.status == Pending && o.createdAt == now && o.updatedAt == now
    ensures o.id == "order-" + Text.NatToString(now)
    ensures o.customerId == OrElse(draft.customerId, DefaultCustomerId)
    ensures o.customerName == OrElse(draft.customerName, DefaultCustomerName)
    ensures o.orderNumber == "ORD-" + Text.NatToString(year) + "-" + Text.NatToString(10000 + count + 1)
    ensures o.items == (if draft.items.Some? then draft.items.value else [])
    ensures o.totalAmount == ItemsTotal(o.items)
    ensures o.createdBy == user.id && o.assignedTo == None && o.notes == draft.notes
    ensures |o.history| == 1 && o.history[0].status == Pending && o.history[0].orderId == o.id
    ensures o.history[0].timestamp == now && o.history[0].id == "history-" + Text.NatToString(now)
    ensures o.history[0].performedBy == user.id && o.history[0].notes == Some("Order created")
    ensures HistoryConsistent(o)
  {
    var id := "order-" + Text.NatToString(now);
    Order(
      id,
      "ORD-" + Text.NatToString(year) + "-" + Text.NatToString(10000 + count + 1),
      OrElse(draft.customerId, DefaultCustomerId),
      OrElse(draft.customerName, DefaultCustomerName),
      Pending,
      if draft.items.Some? then draft.items.value else [],
      if draft.items.Some? then ItemsTotal(draft.items.value) else 0,
      now, now, user.id, None, draft.notes,
      [HistoryEntry("history-" + Text.NatToString(now), id, Pending, now, user.id, Some("Order created"))])
  }

  /** The last history entry records the order's current status. */
  predicate HistoryConsistent(o: Order) {
    |o.history| > 0 && o.history[|o.history| - 1].status == o.status
  }

  /** `notes || 'Order ${newStatus}'` */
  function HistoryNote(notes: Option<string>, newStatus: OrderStatus): (r: string)
    ensures notes.Some? && notes.value != "" ==> r == notes.value
    ensures notes.None? || notes.value == "" ==> r == "Order " + StatusName(newStatus)
  {
    OrElse(notes, "Order " + StatusName(newStatus))
  }

  /** The order after a status change: new status and update time, one history entry appended, nothing else touched. */
  function WithStatus(o: Order, orderId: string, newStatus: OrderStatus, notes: Option<string>,
                      performer: string, now: nat): (r: Order)
    ensures r.status == newStatus && r.updatedAt == now
    ensures |r.history| == |o.history| + 1 && r.history[..|o.history|] == o.history
    ensures r.history[|o.history|] ==
      HistoryEntry("history-" + Text.NatToString(now), orderId, newStatus, now, performer, Some(HistoryNote(notes, newStatus)))
    ensures r.(status := o.status, updatedAt := o.updatedAt, history := o.history) == o
    ensures HistoryConsistent(r)
  {
    var entry := HistoryEntry("history-" + Text.NatToString(now), orderId, newStatus, now, performer, Some(HistoryNote(notes, newStatus)));
    o.(status := newStatus, updatedAt := now, history := o.history + [entry])
  }

  /** Whether approval needs a manager or an admin ('rejected' is not an OrderStatus, so only 'approved' does). */
  predicate NeedsManager(s: OrderStatus) {
    s == Approved
  }

  /** The first guard of updateOrderStatus that fails, if any. */
  function UpdateRefusal(session: Auth.StoredAuth, orders: seq<Order>, orderId: string, newStatus: OrderStatus): (r: Option<ApiError>)
    ensures r == Some(UpdateUnauthenticated) <==> Auth.GetCurrentUser(session).None?
    ensures r == Some(ApprovalForbidden) <==>
      Auth.GetCurrentUser(session).Some? && NeedsManager(newStatus) &&
      !Auth.HasRole(session, "manager") && !Auth.HasRole(session, "admin")
    ensures r == Some(OrderNotFound) <==>
      Auth.GetCurrentUser(session).Some? &&
      !(NeedsManager(newStatus) && !Auth.HasRole(session, "manager") && !Auth.HasRole(session, "admin")) &&
      forall k :: 0 <= k < |orders| ==> orders[k].id != orderId
    ensures r.None? ==> Auth.GetCurrentUser(session).Some? && FindIndex(orders, orderId).Some?
    ensures r != Some(CreateUnauthenticated) && r != Some(DeleteForbidden)
  {
    if Auth.GetCurrentUser(session).None? then Some(UpdateUnauthenticated)
    else if NeedsManager(newStatus) && !Auth.HasRole(session, "manager") && !Auth.HasRole(session, "admin") then Some(ApprovalForbidden)
    else if FindIndex(orders, orderId).None? then Some(OrderNotFound)
    else None
  }

  /** Any signed-in user may move an existing order to a status other than approved, token or no token. */
  lemma NonApprovalNeedsOnlyAUser(session: Auth.StoredAuth, orders: seq<Order>, orderId: string, newStatus: OrderStatus)
    requires newStatus != Approved
    requires Auth.GetCurrentUser(session).Some?
    requires exists k :: 0 <= k < |orders| && orders[k].id == orderId
    ensures UpdateRefusal(session, orders, orderId, newStatus) == None
  {
  }

  /** `orders.filter(o => o.id !== id)` */
  function WithoutId(orders: seq<Order>, id: string): (r: seq<Order>)
    ensures forall k :: 0 <= k < |r| ==> r[k].id != id && r[k] in orders
    ensures forall k :: 0 <= k < |orders| && orders[k].id != id ==> orders[k] in r
  {
    Collections.Filter(orders, (o: Order) => o.id != id)
  }

  /** Deleting shortens the list exactly when some order had the id; otherwise the list is unchanged. */
  lemma DeleteShrinksIffPresent(orders: seq<Order>, id: string)
    ensures |WithoutId(orders, id)| < |orders| <==> exists k :: 0 <= k < |orders| && orders[k].id == id
    ensures (forall k :: 0 <= k < |orders| ==> orders[k].id != id) ==> WithoutId(orders, id) == orders
  {
    Collections.FilterKeepsAllIff(orders, (o: Order) => o.id != id);
  }

  /** The module-level `mockOrders` list and the operations on it. */
  class OrderStore {
    var orders: seq<Order>

    /** The seed list (generateMockOrders' random output) is a parameter. */
    constructor (initial: seq<Order>)
      ensures orders == initial
    {
      orders := initial;
    }

    /** fetchOrders: one page of the filtered, sorted orders, with the counts of the whole selection. */
    function FetchOrders(page: int, pageSize: nat, status: Option<OrderStatus>, search: Option<string>,
                         sortBy: string, dir: Collections.SortDirection): (r: OrderPage)
      requires pageSize >= 1
      reads this
      ensures r.meta.totalItems == |SelectOrders(orders, status, search)| <= |orders|
      ensures r.meta.totalPages * pageSize >= r.meta.totalItems
      ensures r.meta.totalPages == 0 || (r.meta.totalPages - 1) * pageSize < r.meta.totalItems
      ensures r.meta.currentPage == page
      ensures |r.data| <= pageSize
      ensures forall k :: 0 <= k < |r.data| ==> r.data[k] in orders && Selected(r.data[k], status, search)
      ensures Collections.SortedBy(r.data, OrderComparator(sortBy, dir))
      ensures r.data == PageOf(SortedSelection(orders, status, search, sortBy, dir), page, pageSize)
    {
      var selected := SelectOrders(orders, status, search);
      PageOrdersSelected(orders, page, pageSize, status, search, sortBy, dir);
      PageSorted(orders, page, pageSize, status, search, sortBy, dir);
      var data := PageOf(SortedSelection(orders, status, search, sortBy, dir), page, pageSize);
      OrderPage(data, PageMeta(|selected|, Collections.CeilDiv(|selected|, pageSize), page))
    }

    /** fetchOrderById: the first order with the id, or null. */
    function FetchOrderById(orderId: string): (r: Option<Order>)
      reads this
      ensures r.Some? ==> r.value in orders && r.value.id == orderId
      ensures r.Some? ==> exists i :: 0 <= i < |orders| && orders[i] == r.value && forall j :: 0 <= j < i ==> orders[j].id != orderId
      ensures r.None? <==> forall k :: 0 <= k < |orders| ==> orders[k].id != orderId
    {
      match FindIndex(orders, orderId)
      case None => None
      case Some(i) => Some(orders[i])
    }

    /** createOrder: refused without a signed-in user, otherwise the new order goes to the front. */
    method CreateOrder(session: Auth.StoredAuth, draft: OrderDraft, now: nat, year: nat) returns (r: Result<Order, ApiError>)
      modifies this
      ensures Auth.GetCurrentUser(session).None? ==> r == Err(CreateUnauthenticated) && orders == old(orders)
      ensures Auth.GetCurrentUser(session).Some? ==>
        && r == Ok(NewOrder(draft, Auth.GetCurrentUser(session).value, |old(orders)|, now, year))
        && orders == [r.value] + old(orders)
    {
      var user := Auth.GetCurrentUser(session);
      if user.None? {
        return Err(CreateUnauthenticated);
      }
      var order := NewOrder(draft, user.value, |orders|, now, year);
      orders := [order] + orders;
      r := Ok(order);
    }

    /** updateOrderStatus: the guards in order, then the first order with the id replaced in place. */
    method UpdateOrderStatus(session: Auth.StoredAuth, orderId: string, newStatus: OrderStatus,
                             notes: Option<string>, now: nat) returns (r: Result<Order, ApiError>)
      modifies this
      ensures UpdateRefusal(session, old(orders), orderId, newStatus).Some? ==>
        r == Err(UpdateRefusal(session, old(orders), orderId, newStatus).value) && orders == old(orders)
      ensures UpdateRefusal(session, old(orders), orderId, newStatus).None? ==>
        var i := FindIndex(old(orders), orderId).value;
        && r == Ok(WithStatus(old(orders)[i], orderId, newStatus, notes, Auth.GetCurrentUser(session).value.id, now))
        && orders == old(orders)[i := r.value]
    {
      var refusal := UpdateRefusal(session, orders, orderId, newStatus);
      if refusal.Some? {
        return Err(refusal.value);
      }
      var user := Auth.GetCurrentUser(session).value;
      var i := FindIndex(orders, orderId).value;
      var updated := WithStatus(orders[i], orderId, newStatus, notes, user.id, now);
      orders := orders[i := updated];
      r := Ok(updated);
    }

    /** deleteOrder: admins only; removes every order with the id and reports whether any was removed. */
    method DeleteOrder(session: Auth.StoredAuth, orderId: string) returns (r: Result<bool, ApiError>)
      modifies this
      ensures !Auth.HasRole(session, "admin") ==> r == Err(DeleteForbidden) && orders == old(orders)
      ensures Auth.HasRole(session, "admin") ==>
        && orders == WithoutId(old(orders), orderId)
        && r == Ok(exists k :: 0 <= k < |old(orders)| && old(orders)[k].id == orderId)
    {
      if !Auth.HasRole(session, "admin") {
        return Err(DeleteForbidden);
      }
      var initialLength := |orders|;
      DeleteShrinksIffPresent(orders, orderId);
      orders := WithoutId(orders, orderId);
      r := Ok(|orders| < initialLength);
    }
  }

  /** Every order on a page of fetchOrders is a stored order passing both filters. */
  lemma PageOrdersSelected(orders: seq<Order>, page: int, pageSize: nat, status: Option<OrderStatus>,
                           search: Option<string>, sortBy: string, dir: Collections.SortDirection)
    requires pageSize >= 1
    ensures var data := PageOf(SortedSelection(orders, status, search, sortBy, dir), page, pageSize);
      forall k :: 0 <= k < |data| ==> data[k] in orders && Selected(data[k], status, search)
  {
    var selected := SelectOrders(orders, status, search);
    var sorted := SortedSelection(orders, status, search, sortBy, dir);
    var data := PageOf(sorted, page, pageSize);
    assert data == Collections.Slice(sorted, (page - 1) * pageSize, (page - 1) * pageSize + pageSize);
    forall k | 0 <= k < |data|
      ensures data[k] in orders && Selected(data[k], status, search)
    {
      assert data[k] in sorted;
      assert data[k] in multiset(selected);
      SelectOrdersExact(orders, status, search, data[k]);
    }
  }

  /** A page of fetchOrders is in the requested order. */
  lemma PageSorted(orders: seq<Order>, page: int, pageSize: nat, status: Option<OrderStatus>,
                   search: Option<string>, sortBy: string, dir: Collections.SortDirection)
    requires pageSize >= 1
    ensures Collections.SortedBy(PageOf(SortedSelection(orders, status, search, sortBy, dir), page, pageSize),
                                 OrderComparator(sortBy, dir))
  {
    var cmp := OrderComparator(sortBy, dir);
    var sorted := SortedSelection(orders, status, search, sortBy, dir);
    OrderComparatorConsistent(sortBy, dir);
    Collections.SortSorted(SelectOrders(orders, status, search), cmp);
    var start := (page - 1) * pageSize;
    Collections.SliceSorted(sorted, start, start + pageSize, cmp);
    assert PageOf(sorted, page, pageSize) == Collections.Slice(sorted, start, start + pageSize);
  }
}
