# role-fusion: verified model of the access and list logic

role-fusion is a React single-page administration app. Its pages, grids and menus are gated by a role read from the browser's storage. Its orders come from an in-memory mock service.

This project models in Dafny the logic under that interface: what a signed-in user may see or do, and how lists of records are filtered, sorted, counted and paged. It also proves properties of that model. The parts modelled are:

- **Auth** (`src/lib/auth.ts`): the derivations from the stored `auth` blob (`getAuthState`, `isAuthenticated`, `getCurrentUser`, `hasRole`, `hasPermission`) and `logout`. The storage slot is a class.
- **Catalog** (`src/lib/constants.ts`): the permission catalogue, the role-to-permission record and the breakpoints.
- **RoleProvider** (`src/components/RoleProvider.tsx`): the role context. The current role is one field; `setRole` replaces it and `hasPermission` queries it.
- **MockApi** (`src/lib/mockApi.ts`): the module-level order list as a class. `fetchOrders` filters, searches, sorts and pages it. `fetchOrderById` finds an order. `createOrder` prepends. `updateOrderStatus` guards, then rewrites one order in place. `deleteOrder` is for admins only.
- **OrderActions** (`src/components/orders/OrderActionsCell.tsx`): the status-to-next-action table and the three permission-gated menu entries.
- **Pagination** and **DataTable** (`DataTablePagination.tsx`, `DataTable.tsx`):
  - the page count and the next/previous bounds;
  - the "Showing a to b of n" text and the disabled flags;
  - the sort-direction toggle and the initial sort column, as a class holding the grid's sort state.
- **StatusBadge** (`StatusBadge.tsx`, and its verbatim copy at the end of `DataTable.tsx`): the colour lookup and the label.
- **Titles** (`src/lib/utils.ts`, `src/components/layout/PageTitle.tsx`): the two path-to-title conversions.
- **Workflows** (`src/pages/WorkflowsPage.tsx`): the tab, search and sort effect, the status counts, and approve/reject by id. The page state is a class.
- **Sidebar** (`src/components/layout/AppSidebar.tsx`): the menu, with the admin-only entry spliced in.
- **Coverage** (`scripts/update-readme-stats.ts`): `processCoverageResults`, a loop that lists the files and sums statement counts per package. The package pattern `/src\/(.+?)\//` is modelled with its leftmost-shortest semantics.

Two shared modules model the JavaScript built-ins these pieces rely on:

- **Text**: `toLowerCase`, `toUpperCase`, `trim`, `includes`, `split`, `join`, `localeCompare` and integer-to-decimal rendering.
- **Collections**: `filter`, the stable `sort`, `slice`, `splice` and `Math.ceil` of a quotient.

Wherever two pieces of the app disagree, the model keeps the code as written next to a corrected version. The disagreement is proved as a lemma; see "## Findings".

## Model

| member | source | states |
|---|---|---|
| Text.Lower | src/lib/mockApi.ts:163 | lower-casing keeps the length and maps every character on its own |
| Text.Upper | src/components/orders/OrderActionsCell.tsx:59 | upper-casing keeps the length and maps every character on its own |
| Text.LowerIdempotent | src/components/data-grid/StatusBadge.tsx:15 | lower-casing an already lower-cased string changes nothing |
| Text.Capitalize | src/lib/utils.ts:17 | `charAt(0).toUpperCase() + slice(1)` upper-cases the first character, keeps the rest and keeps the length; the same expression labels a status badge (StatusBadge.tsx:23) and an order action (OrderActionsCell.tsx:59) |
| Text.TrimStart | src/lib/mockApi.ts:162 | the result is a suffix of the input, what was cut off is all whitespace, and the result starts with a non-whitespace character or is empty |
| Text.TrimEnd | src/lib/mockApi.ts:162 | the result is a prefix of the input, what was cut off is all whitespace, and the result ends with a non-whitespace character or is empty |
| Text.Trim | src/lib/mockApi.ts:162 | the result is a contiguous part of the input with only whitespace before and after it, and neither starts nor ends with whitespace |
| Text.TrimEmptyIffBlank | src/lib/mockApi.ts:162 | `trim() !== ''` holds exactly when the string has a non-whitespace character |
| Text.LowerKeepsBlank | src/pages/WorkflowsPage.tsx:59-60 | lower-casing keeps a string blank or non-blank, so testing the raw query and lower-casing it agree |
| Text.Split | src/lib/utils.ts:13 | `split` always yields at least one piece |
| Text.SplitPiecesFree | src/lib/utils.ts:13 | no piece of a split contains the separator |
| Text.Join | src/lib/utils.ts:18 | no contract of its own; Text.JoinSplit states that it undoes `split`, and Text.HyphenWordsToTitleChars what it builds from the capitalised words |
| Text.JoinSplit | src/lib/utils.ts:13-18 | joining the pieces with the separator gives back the original string |
| Text.SplitAppend | src/components/layout/PageTitle.tsx:14 | splitting at a separator splits into the pieces of the two sides |
| Text.SplitNoSeparator | src/components/layout/PageTitle.tsx:14 | a string without the separator is one piece |
| Text.LastPieceOfAppend | src/components/layout/PageTitle.tsx:14 | `split('/').pop()` is exactly the text after the last separator |
| Text.CapitalizeAll | src/lib/utils.ts:16-17 | mapping capitalisation over the words keeps their number and puts at each position that word capitalised |
| Text.TitleChars | src/lib/utils.ts:13-18 | the character-wise title keeps the length and puts at each position the character that position calls for |
| Text.HyphenWordsToTitleChars | src/lib/utils.ts:13-18 | split on '-', capitalise, join with ' ' equals the character-wise title: hyphens become spaces and each word's first letter is upper-cased |
| Text.TitleCharsPieces | src/components/layout/PageTitle.tsx:14-16 | the split/map/join pipeline agrees with the character-wise title, both at a word start and inside a word |
| Text.Contains | src/lib/mockApi.ts:164-167 | no contract of its own; Text.ContainsBasics characterises `includes` |
| Text.ContainsBasics | src/lib/mockApi.ts:164-167 | the empty string occurs in every string and a string in itself; nothing longer occurs in a shorter string; `includes` holds exactly when the needle is some slice of the string |
| Text.LocaleCompare | src/lib/mockApi.ts:176 | the comparison is -1, 0 or 1 |
| Text.LocaleCompareFirstDifference | src/lib/mockApi.ts:176 | after a common prefix, the string whose first differing character has the smaller code point sorts first |
| Text.LocaleCompareAstralAfterBmp | src/lib/mockApi.ts:176 | a character above U+FFFF sorts after U+FF01, the point where code-point order and UTF-16 code-unit order part |
| Text.LocaleCompareZeroIffEqual | src/lib/mockApi.ts:176 | only equal strings compare as 0 |
| Text.LocaleCompareAntisymmetric | src/lib/mockApi.ts:176 | swapping the operands negates the comparison |
| Text.LocaleCompareTransitive | src/lib/mockApi.ts:176 | "sorts no later than" is transitive |
| Text.NatToString | src/lib/mockApi.ts:225 | the decimal text of a number is non-empty, consists of digits, has no leading zero and denotes the number |
| Collections.Filter | src/lib/mockApi.ts:158 | `filter` keeps exactly the passing elements of the input, in a sub-multiset no longer than the input |
| Collections.FilterKeepsAllIff | src/lib/mockApi.ts:309-312 | filtering keeps the length exactly when every element passes, and then returns the input itself |
| Collections.FilterAllPass | src/lib/mockApi.ts:310 | when every element passes, the filter returns the input |
| Collections.FilterDropsFailing | src/lib/mockApi.ts:310-312 | one failing element makes the result strictly shorter |
| Collections.FilterMembership | src/pages/WorkflowsPage.tsx:56 | a value is kept exactly when it is in the input and passes |
| Collections.FilterAppend | src/pages/WorkflowsPage.tsx:114-117 | filtering distributes over concatenation |
| Collections.Insert | src/lib/mockApi.ts:172 | one insertion step of the stable sort adds exactly the new element |
| Collections.Sort | src/lib/mockApi.ts:172-189 | `sort` returns a permutation of its input |
| Collections.InsertSorted | src/lib/mockApi.ts:172-189 | with a consistent comparator, inserting into a sorted list keeps it sorted |
| Collections.SortSorted | src/lib/mockApi.ts:172-189 | with a consistent comparator, the sort's output is in comparator order |
| Collections.SortAllEqualKeepsOrder | src/pages/WorkflowsPage.tsx:78 | a comparator that calls everything equal leaves the order unchanged, because the sort is stable |
| Collections.InsertAllEqualAppends | src/pages/WorkflowsPage.tsx:78 | with an all-equal comparator, an inserted element goes last |
| Collections.Slice | src/lib/mockApi.ts:195 | `slice` yields elements of the input, no more than it holds, and for ordinary bounds exactly the bounded range |
| Collections.SliceSorted | src/lib/mockApi.ts:195 | a slice of a sorted list is sorted |
| Collections.SpliceInsert | src/components/layout/AppSidebar.tsx:39 | `splice(start, 0, x)` puts x at the clamped index, with everything before and after it kept in order |
| Collections.CeilDiv | src/lib/mockApi.ts:193 | `Math.ceil(n / d)` is the least q with q times d at least n, and 0 only for n = 0 |
| Catalog.Permissions | src/lib/constants.ts:25-33 | no contract of its own; Catalog.AdminHasAllPermissions, Catalog.CatalogNested and Catalog.ManagerLacksAdministration characterise the three lists, and Catalog.AllPermissionsDistinct the ALL_PERMISSIONS list ADMIN holds |
| Catalog.RoleNamed | src/lib/constants.ts:25-33 | a role name denotes ADMIN, MANAGER or USER exactly when it equals that name ignoring case |
| Catalog.AdminHasAllPermissions | src/lib/constants.ts:26 | ADMIN holds exactly ALL_PERMISSIONS |
| Catalog.CatalogNested | src/lib/constants.ts:27-32 | every USER permission is a MANAGER permission and every MANAGER permission is in ALL_PERMISSIONS |
| Catalog.ManagerLacksAdministration | src/lib/constants.ts:27-31 | MANAGER lacks delete, manage_users and manage_roles |
| Catalog.AllPermissionsDistinct | src/lib/constants.ts:9-21 | ALL_PERMISSIONS has eleven pairwise-distinct entries |
| Catalog.BreakpointsOrdered | src/lib/constants.ts:1-3 | MOBILE < TABLET < DESKTOP |
| Auth.GetAuthState | src/lib/auth.ts:16-33 | a missing or unreadable blob reads as signed out; a parsed blob's user and token are reported as stored |
| Auth.IsAuthenticated | src/lib/auth.ts:36-38 | authenticated exactly when the blob parsed and its token is a non-empty string |
| Auth.GetCurrentUser | src/lib/auth.ts:41-43 | the stored user of a parsed blob, and no user for a missing or unreadable one |
| Auth.HasRole | src/lib/auth.ts:46-50 | a role is held only by a signed-in user |
| Auth.HasPermission | src/lib/auth.ts:53-69 | a permission is held only by a signed-in user and only if it is in the admin list |
| Auth.AuthStorage.constructor | src/lib/auth.ts:18 | the slot holds the given item |
| Auth.AuthStorage.Store | src/components/auth/LoginForm.tsx:36-44 | the slot holds the written blob |
| Auth.AuthStorage.Logout | src/lib/auth.ts:72-75 | after logout the item is gone: nobody is authenticated, there is no user, and no role or permission holds |
| Auth.NoItemIsSignedOut | src/lib/auth.ts:18-21 | with no item the state is user null, token null, not authenticated |
| Auth.UnparsableIsSignedOut | src/lib/auth.ts:29-32 | a malformed blob yields the signed-out state instead of an error |
| Auth.AuthenticatedIffTruthyToken | src/lib/auth.ts:23-28 | authenticated exactly when the stored token is a non-empty string, whatever the stored user |
| Auth.UserWithoutTokenStillHasRole | src/lib/auth.ts:46-69 | a blob with a user and no token is not authenticated, yet roles and permissions still answer for its user |
| Auth.HasRoleIsExact | src/lib/auth.ts:46-50 | hasRole is false with no user and otherwise exact, case-sensitive equality; the demo admin has "admin" and not "ADMIN" |
| Auth.RolePermissionsExact | src/lib/auth.ts:59-68 | for any stored blob with a user, whatever its token: "admin" grants exactly view, create, edit, delete and approve; "user" grants exactly view and create; any other role grants nothing |
| Auth.UserPermissionsWithinAdmin | src/lib/auth.ts:59-60 | whatever a session whose user has role "user" may do, any session whose user has role "admin" may do |
| RoleProvider.RoleState.constructor | src/components/RoleProvider.tsx:26-27 | the state starts at the initial role, with the given role definitions |
| RoleProvider.NextRole | src/components/RoleProvider.tsx:33-38 | no contract of its own; RoleProvider.PermissionAfterSetRole characterises it and RoleProvider.SetRoleIdempotent and RoleProvider.SwitchAndBackRestores relate two calls |
| RoleProvider.RoleState.HasPermission | src/components/RoleProvider.tsx:29-31 | no contract of its own; RoleProvider.RoleState.SetRole states what it answers after a switch |
| RoleProvider.RoleState.SetRole | src/components/RoleProvider.tsx:33-38 | a configured name replaces the role, after which a permission holds exactly when it is in that name's list; an unknown name changes nothing |
| RoleProvider.PermissionAfterSetRole | src/components/RoleProvider.tsx:29-38 | after setRole(n) a permission holds exactly as n's configured list says, or as before when n is unknown |
| RoleProvider.SetRoleIdempotent | src/components/RoleProvider.tsx:33-37 | setting the same role twice is setting it once |
| RoleProvider.SwitchAndBackRestores | src/components/RoleProvider.tsx:33-37 | switching from a configured role to another and back restores the first |
| RoleProvider.HasPermissionAsWritten | src/components/RoleProvider.tsx:29-31 | with a bare role name as initial role, hasPermission throws; with a role object it answers |
| RoleProvider.UseRoleTestThrowsAsWritten | src/__tests__/useRole.test.tsx:15-25 | the useRole test's initialRole="user" makes its first hasPermission call throw |
| RoleProvider.ResolveInitialRole | src/components/RoleProvider.tsx:26-27 | a role object is kept; a bare configured name resolves to its configured list, as setRole would |
| RoleProvider.UseRoleTestExpectations | src/__tests__/useRole.test.tsx:25-36 | with the initial name resolved, "user" can view but not create users, and after setRole('admin') can create them |
| RoleProvider.RoleProviderTestExpectations | src/__tests__/RoleProvider.test.tsx:18-19 | with the test provider's roles and initial role object (test-utils.tsx:7-11), hasPermission answers true for users.view and false for users.edit |
| RoleProvider.RoleManagementTestThrowsAsWritten | src/__tests__/RoleManagement.test.tsx:44 | the test's initialRole="user" makes its component's first hasPermission('admin.access') throw |
| RoleProvider.RoleManagementTestExpectations | src/__tests__/RoleManagement.test.tsx:51-70 | with the initial name of line 44 resolved, admin.access is absent as user, present after switching to admin, and absent again after switching back; the role is restored |
| MockApi.ItemsTotal | src/lib/mockApi.ts:230-231 | no contract of its own; MockApi.ItemsTotalAppend and MockApi.ItemsTotalNonNegative characterise the reduce |
| MockApi.ItemsTotalAppend | src/lib/mockApi.ts:230-231 | the total of two lists of lines is the sum of their totals |
| MockApi.ItemsTotalNonNegative | src/lib/mockApi.ts:230-231 | lines with non-negative quantities and prices never total below zero |
| MockApi.FindIndex | src/lib/mockApi.ts:274 | findIndex yields the first order with the id, or none exactly when no order has it |
| MockApi.SelectOrders | src/lib/mockApi.ts:156-169 | no contract of its own; MockApi.SelectOrdersExact characterises the selection |
| MockApi.SelectOrdersExact | src/lib/mockApi.ts:156-169 | an order is selected exactly when it is stored, has the requested status and, for a non-blank search, matches the lower-cased query in order number, customer name or a product name |
| MockApi.BlankSearchIgnored | src/lib/mockApi.ts:162 | a blank or whitespace-only search filters nothing |
| MockApi.SearchIgnoresCase | src/lib/mockApi.ts:163-167 | a query and its lower-cased form select the same orders |
| MockApi.KeyCompare | src/lib/mockApi.ts:172-187 | no contract of its own; MockApi.KeyCompareAntisymmetric, MockApi.KeyCompareTransitive and MockApi.UnknownKeySortsByCreation characterise it |
| MockApi.OrderCompare | src/lib/mockApi.ts:188 | no contract of its own; MockApi.DescendingReversesAscending states that 'desc' is 'asc' with the operands swapped |
| MockApi.DescendingReversesAscending | src/lib/mockApi.ts:188 | 'desc' compares two orders as 'asc' compares them swapped |
| MockApi.UnknownKeySortsByCreation | src/lib/mockApi.ts:183-186 | any other sort key orders by creation time |
| MockApi.KeyCompareAntisymmetric | src/lib/mockApi.ts:172-187 | each key's comparison negates when its operands swap |
| MockApi.KeyCompareTransitive | src/lib/mockApi.ts:172-187 | each key's "sorts no later than" is transitive |
| MockApi.OrderComparatorConsistent | src/lib/mockApi.ts:172-189 | every key and direction gives a comparator the sort can rely on |
| MockApi.PageOf | src/lib/mockApi.ts:194-195 | a page holds at most pageSize orders: the clamped range from (page-1)*pageSize, and nothing past the end |
| MockApi.PagesConcatenate | src/lib/mockApi.ts:192-195 | pages 1 to k, one after the other, are the first k*pageSize orders |
| MockApi.AllPagesCoverAll | src/lib/mockApi.ts:192-195 | pages 1 to totalPages hold every selected order once, in order, and later pages are empty |
| MockApi.OrElse | src/lib/mockApi.ts:226-227 | an optional field or its fallback: the field when it is a non-empty string, the fallback otherwise |
| MockApi.NewOrder | src/lib/mockApi.ts:222-246 | a new order is pending, with id `order-` and the time, the next order number, the draft's customer id and name or the first mock customer's when missing or empty, the draft's items (none if absent) and their total, the user as creator, and one pending "Order created" history entry stamped with the same time |
| MockApi.HistoryNote | src/lib/mockApi.ts:292 | the history note is the given note when non-empty and otherwise "Order " plus the new status |
| MockApi.WithStatus | src/lib/mockApi.ts:279-295 | the updated order has the new status and update time and one history entry appended with the new status; nothing else changes |
| MockApi.NeedsManager | src/lib/mockApi.ts:266-267 | no contract of its own; MockApi.UpdateRefusal states that a move to 'approved' without a manager or admin role is refused, and MockApi.NonApprovalNeedsOnlyAUser that every other status needs only a signed-in user |
| MockApi.UpdateRefusal | src/lib/mockApi.ts:260-277 | the refusals come in order: no user, then approval without manager or admin, then an unknown id; with none, a user and the order exist |
| MockApi.NonApprovalNeedsOnlyAUser | src/lib/mockApi.ts:266-272 | any signed-in user may move an existing order to any status other than approved |
| MockApi.WithoutId | src/lib/mockApi.ts:310 | the filter drops exactly the orders with the id |
| MockApi.DeleteShrinksIffPresent | src/lib/mockApi.ts:309-312 | the list shrinks exactly when some order had the id, and otherwise stays the same |
| MockApi.OrderStore.constructor | src/lib/mockApi.ts:139 | the store holds the seed orders |
| MockApi.OrderStore.FetchOrders | src/lib/mockApi.ts:145-205 | reads the store without changing it. The page holds at most pageSize selected orders in the requested order. meta holds the selection's size, its page count and the requested page |
| MockApi.OrderStore.FetchOrderById | src/lib/mockApi.ts:208-211 | the result is the first stored order with the id, and null exactly when there is none |
| MockApi.OrderStore.CreateOrder | src/lib/mockApi.ts:214-250 | without a user it fails and changes nothing; otherwise the new order is prepended and returned |
| MockApi.OrderStore.UpdateOrderStatus | src/lib/mockApi.ts:253-299 | a refused update changes nothing; otherwise only the first order with the id is replaced, by its updated version |
| MockApi.OrderStore.DeleteOrder | src/lib/mockApi.ts:302-313 | a non-admin fails and changes nothing; for an admin every order with the id is removed, and the result says whether any was |
| MockApi.PageOrdersSelected | src/lib/mockApi.ts:157-169 | every order on a page is a stored order passing the status and search filters |
| MockApi.PageSorted | src/lib/mockApi.ts:172-195 | every page is in the requested order |
| OrderActions.StatusActionsArePermissions | src/components/orders/OrderActionsCell.tsx:14-21 | every action in the map is in ALL_PERMISSIONS |
| OrderActions.NextActionAsWritten | src/components/orders/OrderActionsCell.tsx:32 | a found action would be a permission |
| OrderActions.NextActionAsWrittenAlwaysMissing | src/components/orders/OrderActionsCell.tsx:14-21 | no lower-case order status finds a key in the map as written |
| OrderActions.NextAction | src/components/orders/OrderActionsCell.tsx:32 | the upper-cased status is always a key, and the action is a permission |
| OrderActions.NextActionTable | src/components/orders/OrderActionsCell.tsx:15-19 | pending goes to approve, approved to ship, shipped to close, closed to reopen, reopened to close |
| OrderActions.MenuAsWritten | src/components/orders/OrderActionsCell.tsx:34-72 | as written, Delete is offered exactly when auth.ts grants "delete" |
| OrderActions.MenuAsWrittenOnlyDelete | src/components/orders/OrderActionsCell.tsx:34-36 | as written, the menu is Delete or nothing, even for the demo admin |
| OrderActions.Menu | src/components/orders/OrderActionsCell.tsx:34-62 | View details appears exactly when "update" is allowed, Delete exactly when "delete" is, and the labelled next action exactly when that action is; no other next-action entry appears |
| OrderActions.AdminGetsFullMenu | src/components/orders/OrderActionsCell.tsx:47-62 | an admin gets View details, the next action and Delete, in that order |
| OrderActions.ManagerMenuHasNoDelete | src/components/orders/OrderActionsCell.tsx:47-62 | a manager gets View details and the next action, without Delete |
| OrderActions.UserMenuEmpty | src/components/orders/OrderActionsCell.tsx:47-62 | a plain user, or nobody, gets an empty menu |
| OrderActions.DemoAdminMenu | src/components/orders/OrderActionsCell.tsx:34-36 | the demo login gets all three entries once the lookup and the gate are corrected |
| Pagination.TotalPages | src/components/data-grid/table/DataTablePagination.tsx:20 | the page count is at least 1, covers every item, and has no empty trailing page beyond the first |
| Pagination.NextPage | src/components/data-grid/table/DataTablePagination.tsx:22-26 | the next page is emitted exactly when the current page is below the count, and is one more |
| Pagination.PrevPage | src/components/data-grid/table/DataTablePagination.tsx:28-32 | the previous page is emitted exactly above page 1, and is one less |
| Pagination.EmittedPagesInRange | src/components/data-grid/table/DataTablePagination.tsx:20-32 | from a page in range, every emitted page is in range; next is silent only on the last page, prev only on the first |
| Pagination.NextThenPrevReturns | src/components/data-grid/table/DataTablePagination.tsx:22-32 | next then previous returns to the starting page |
| Pagination.ResultRange | src/components/data-grid/table/DataTablePagination.tsx:37-44 | the range text shows exactly when there are items, starts at (page-1)*pageSize+1 and ends at the smaller of page*pageSize and the item count |
| Pagination.RangeWithinItems | src/components/data-grid/table/DataTablePagination.tsx:37-41 | on a page in range, the text names a non-empty run of at most pageSize items within 1 to the item count |
| Pagination.PrevDisabled | src/components/data-grid/table/DataTablePagination.tsx:52 | no contract of its own; Pagination.DisabledIffNothingEmitted characterises it |
| Pagination.NextDisabled | src/components/data-grid/table/DataTablePagination.tsx:65 | no contract of its own; Pagination.DisabledIffNothingEmitted characterises it |
| Pagination.DisabledIffNothingEmitted | src/components/data-grid/table/DataTablePagination.tsx:52-65 | when not loading, a button is disabled exactly when its handler would emit nothing; while loading both are disabled |
| DataTable.FirstSortable | src/components/data-grid/DataTable.tsx:74 | `find(col => col.sortable)` yields the first sortable column, or none exactly when none is sortable |
| DataTable.ToggledDirection | src/components/data-grid/DataTable.tsx:89-90 | the new direction is 'desc' exactly when the clicked column is already sorted ascending |
| DataTable.ToggleTwiceRestores | src/components/data-grid/DataTable.tsx:88-93 | two clicks on the same column from ascending go to descending and back |
| DataTable.NewColumnSortsAscending | src/components/data-grid/DataTable.tsx:89-90 | a click on any other column sorts it ascending |
| DataTable.SortState.constructor | src/components/data-grid/DataTable.tsx:67-68 | no sort column, ascending |
| DataTable.SortState.InitialSort | src/components/data-grid/DataTable.tsx:72-79 | with onSort, the first sortable column with a non-empty id becomes the sort column; otherwise nothing changes |
| DataTable.SortState.HandleSort | src/components/data-grid/DataTable.tsx:88-98 | the clicked column and the toggled direction are stored, and onSort receives exactly what was stored |
| DataTable.NextPage | src/components/data-grid/DataTable.tsx:100-104 | the next page is emitted exactly when onPageChange exists and the page is below the count |
| DataTable.PrevPage | src/components/data-grid/DataTable.tsx:106-110 | the previous page is emitted exactly when onPageChange exists and the page is above 1 |
| DataTable.GridPagesInRange | src/components/data-grid/DataTable.tsx:70-110 | from a page in range, the grid's buttons emit only pages in range |
| DataTable.GridRange | src/components/data-grid/DataTable.tsx:233-240 | the range text shows exactly when the data page is non-empty, starts at (page-1)*pageSize+1 and ends at the smaller of page*pageSize and the item count |
| DataTable.GridRangeMatchesPager | src/components/data-grid/DataTable.tsx:233-240 | when the data page is non-empty exactly when there are items, the grid shows the pager's text |
| DataTable.GridRangeWithDefaultTotal | src/components/data-grid/DataTable.tsx:57 | with data and the default totalItems of 0, the grid reads "Showing 1 to 0 of 0" where the pager says "No results" |
| StatusBadge.StatusClass | src/components/data-grid/StatusBadge.tsx:5-16 | the class is the map's entry for the lower-cased status, or the slate default; it is always one of the map's classes |
| StatusBadge.ClassIgnoresCase | src/components/data-grid/DataTable.tsx:285 | a status and its lower-cased form get the same class |
| StatusBadge.UnknownAndInactiveShareDefault | src/components/data-grid/StatusBadge.tsx:9-15 | an unknown status gets the default, which is also the class of "inactive" |
| StatusBadge.ActiveAndApprovedShareClass | src/components/data-grid/StatusBadge.tsx:7-10 | "active", "approved" and "Approved" share the green class |
| Titles.DropFirst | src/lib/utils.ts:13 | `slice(1)` drops the first character, and the empty string stays empty |
| Titles.FormatPathToTitle | src/lib/utils.ts:9-19 | "/" is "Dashboard"; otherwise the title is the character-wise title of the path after its first character |
| Titles.FormatPathToTitleShape | src/lib/utils.ts:13-18 | outside "/", one character per character after the first, a space exactly where the path had a hyphen or space, and each word's first letter upper-cased |
| Titles.FormatDashboard | src/lib/utils.ts:13-18 | formatPathToTitle("/dashboard") is "Dashboard" |
| Titles.FormatUserManagement | src/lib/utils.ts:13-18 | formatPathToTitle("/user-management") is "User Management" |
| Titles.FormatUserRoleManagement | src/lib/utils.ts:13-18 | formatPathToTitle("/user-role-management") is "User Role Management" |
| Titles.GetTitle | src/components/layout/PageTitle.tsx:10-17 | "/" and an empty last segment give "Dashboard"; otherwise the title of the last segment |
| Titles.GetTitleUsesLastSegment | src/components/layout/PageTitle.tsx:14 | only the last segment counts: any prefix gives the same title |
| Titles.TrailingSlashIsDashboard | src/components/layout/PageTitle.tsx:16 | a trailing slash falls back to "Dashboard" |
| Titles.ConversionsAgreeOnOneSegment | src/components/layout/PageTitle.tsx:10-17 | on a one-segment path, getTitle and formatPathToTitle agree |
| Titles.PageTitleExamples | src/__tests__/components/layout/PageTitle.test.tsx:7-28 | "/", "/dashboard", "/user-management" and "/user-role-management" give the titles the tests expect |
| Titles.TitleOfOneWord | src/lib/utils.ts:16-18 | a word without hyphens is just capitalised |
| Titles.TitleOfFirstWord | src/lib/utils.ts:16-18 | the first word is capitalised and followed by a space and the title of the rest |
| Workflows.Visible | src/pages/WorkflowsPage.tsx:55-66 | no contract of its own; Workflows.FilterWorkflowsExact states that it is exactly what the filter keeps |
| Workflows.WorkflowCompare | src/pages/WorkflowsPage.tsx:68-79 | no contract of its own; Workflows.WorkflowComparatorConsistent and Workflows.OppositeKeysReverse characterise it |
| Workflows.WorkflowComparatorConsistent | src/pages/WorkflowsPage.tsx:68-79 | every sort key gives a comparator the sort can rely on |
| Workflows.OppositeKeysReverse | src/pages/WorkflowsPage.tsx:68-77 | "newest" is "oldest" reversed and puts later creation first; "progress-high" is "progress-low" reversed and puts more progress first |
| Workflows.ShownWorkflows | src/pages/WorkflowsPage.tsx:53-81 | the shown list is a sub-multiset of the workflows, each one visible under the tab and search |
| Workflows.FilterWorkflows | src/pages/WorkflowsPage.tsx:53-66 | no contract of its own; Workflows.FilterWorkflowsKeeps and Workflows.FilterWorkflowsExact characterise it |
| Workflows.FilterWorkflowsKeeps | src/pages/WorkflowsPage.tsx:53-66 | the filtered list is a sub-multiset of the workflows |
| Workflows.FilterWorkflowsExact | src/pages/WorkflowsPage.tsx:55-66 | a workflow is kept exactly when it is loaded, has the tab's status (any for "all") and, for a non-blank query, contains the lower-cased query in title, description or assignee name |
| Workflows.ShownWorkflowsSortedAndComplete | src/pages/WorkflowsPage.tsx:53-81 | the shown list holds every visible workflow and is in sort-key order |
| Workflows.UnknownSortKeyKeepsOrder | src/pages/WorkflowsPage.tsx:78 | an unknown sort key keeps the filtered order |
| Workflows.AllTabBlankQueryShowsAll | src/pages/WorkflowsPage.tsx:55-66 | the "all" tab with a blank search shows every loaded workflow |
| Workflows.SetStatusById | src/pages/WorkflowsPage.tsx:84-98 | exactly the workflows with the id get the new status; the others and the length are unchanged |
| Workflows.SetStatusByIdLastWins | src/pages/WorkflowsPage.tsx:84-98 | of two status changes by id, only the second counts; ids never change |
| Workflows.NoIdUnchanged | src/pages/WorkflowsPage.tsx:84-98 | with no workflow of that id, approve or reject changes nothing |
| Workflows.CountStatus | src/pages/WorkflowsPage.tsx:114-117 | a status count never exceeds the number of workflows |
| Workflows.CountStatusIsFilterLength | src/pages/WorkflowsPage.tsx:114-117 | the count is the length of the filtered list |
| Workflows.Counts | src/pages/WorkflowsPage.tsx:112-118 | "all" is the number of workflows, and the four status counts together do not exceed it |
| Workflows.CountStatusCons | src/pages/WorkflowsPage.tsx:114-117 | one workflow more adds one to its own status's count and nothing to the others |
| Workflows.FourCountsBounded | src/pages/WorkflowsPage.tsx:112-118 | each workflow has one status, so the four counts never exceed the total |
| Workflows.StatusChangeMovesOneCount | src/pages/WorkflowsPage.tsx:84-118 | a new status for the only workflow with its id moves one count from its old status to the new one |
| Workflows.ApproveMovesOneCount | src/pages/WorkflowsPage.tsx:84-90 | approving a pending workflow with a unique id moves one count from pending to approved |
| Workflows.WorkflowsPage.constructor | src/pages/WorkflowsPage.tsx:22-23 | both lists start empty |
| Workflows.WorkflowsPage.Load | src/pages/WorkflowsPage.tsx:31-50 | the loaded data becomes the workflows |
| Workflows.WorkflowsPage.ApplyFilters | src/pages/WorkflowsPage.tsx:52-82 | the shown list becomes the filtered and sorted workflows, which themselves stay unchanged |
| Workflows.WorkflowsPage.Approve | src/pages/WorkflowsPage.tsx:84-90 | the workflows with the id become approved |
| Workflows.WorkflowsPage.Reject | src/pages/WorkflowsPage.tsx:92-98 | the workflows with the id become rejected |
| Sidebar.IsAdminAsWritten | src/components/layout/AppSidebar.tsx:25 | no contract of its own; Sidebar.DemoAdminNotAdminAsWritten shows it false for the demo admin |
| Sidebar.IsAdmin | src/components/layout/AppSidebar.tsx:25 | no contract of its own; Sidebar.IsAdminExact characterises it |
| Sidebar.DemoAdminNotAdminAsWritten | src/components/layout/AppSidebar.tsx:25 | the demo login's "admin" role fails `hasRole('ADMIN')` and passes `hasRole('admin')` |
| Sidebar.IsAdminExact | src/lib/auth.ts:46-50 | the corrected flag holds exactly for a signed-in user whose role is "admin" |
| Sidebar.BuildMenu | src/components/layout/AppSidebar.tsx:28-40 | a non-admin gets the five base entries; an admin gets six, Users at index 3 and the others in order; paths are distinct; Users appears exactly for an admin |
| Sidebar.SidebarAsWritten | src/components/layout/AppSidebar.tsx:25-40 | as written, a stored role of "admin" gets only the base entries; Users appears exactly when the role is "ADMIN" |
| Sidebar.SidebarMenu | src/components/layout/AppSidebar.tsx:28-40 | corrected, Users appears exactly for a stored role of "admin", in six entries against five |
| Coverage.SlashFrom | scripts/update-readme-stats.ts:79 | the first "/" from a position, if no line terminator comes before it |
| Coverage.MatchFrom | scripts/update-readme-stats.ts:79 | the lazy group gives the shortest match from a start |
| Coverage.FirstMatch | scripts/update-readme-stats.ts:79 | the leftmost start that matches, with its shortest match; none exactly when nothing matches |
| Coverage.PackageName | scripts/update-readme-stats.ts:79-81 | no package exactly when the pattern matches nowhere; a package is non-empty and sits between "src/" and "/" in the path |
| Coverage.PackageNameLeftmostShortest | scripts/update-readme-stats.ts:79-81 | the package comes from the leftmost matching "src/" and is the shortest group there, with no "/" after its first character and no line terminator |
| Coverage.PackageOfSourceFile | scripts/update-readme-stats.ts:79-81 | "src/dir/rest" belongs to package dir |
| Coverage.NoSlashNoPackage | scripts/update-readme-stats.ts:79-80 | a path without "/" has no package |
| Coverage.TotalOf | scripts/update-readme-stats.ts:58 | the "total" entry is one of the entries, and absent exactly when no key is "total" |
| Coverage.AddStatements | scripts/update-readme-stats.ts:82-89 | adding a file's statements creates its package if needed, sets it to its old counts (zero if new) plus the file's, and leaves every other package alone |
| Coverage.AddEntry | scripts/update-readme-stats.ts:74-89 | the loop body does exactly one step of the reference fold |
| Coverage.ProcessCoverageResults | scripts/update-readme-stats.ts:48-91 | fails exactly when there is no "total" entry; otherwise the totals are copied from it and files and packages are the reference fold's |
| Coverage.FileKeys | scripts/update-readme-stats.ts:74-76 | "total" is never among the listed keys |
| Coverage.RunFiles | scripts/update-readme-stats.ts:73-76 | the loop appends every key but "total", in order |
| Coverage.RunPackages | scripts/update-readme-stats.ts:79-89 | the loop adds a package exactly for a matching file, and adds each package's summed statements |
| Coverage.AggregateFiles | scripts/update-readme-stats.ts:73-76 | `files` is every key but "total", once each, in iteration order |
| Coverage.AggregatePackages | scripts/update-readme-stats.ts:79-89 | a package is listed exactly when some file matches it, with its files' statement counts summed |
| Coverage.AggregateAppend | scripts/update-readme-stats.ts:73-91 | one entry more is one more iteration of the loop |
| Coverage.RunAppend | scripts/update-readme-stats.ts:73-91 | running over one entry more is one more step after the run |
| Coverage.UnmatchedFileOnlyListed | scripts/update-readme-stats.ts:76-80 | a file without a package is listed but leaves every package as it was |
| Coverage.PackageSumWithinTotal | scripts/update-readme-stats.ts:82-89 | when no file covers more than its total, no package does |

## Left out

- Case mapping (`toLowerCase`, `toUpperCase`) is ASCII-only. Non-ASCII letters keep their case.
- `trim` removes ECMAScript's WhiteSpace and LineTerminator characters, taking Unicode's space separators (category Zs) as Text.IsWhitespace lists them. Separators added to Unicode after that list are not modelled.
- `localeCompare` is modelled as the lexicographic order of code points (Unicode scalar values), -1/0/1. Locale collation is not modelled.
- Strings are sequences of Unicode scalar values, not of UTF-16 code units. Two effects are visible. First, the stand-in order for `localeCompare` puts U+E000-U+FFFF before characters above U+FFFF, where code-unit order would put the surrogate pairs first. Second, `charAt(0)` and `slice(1)` on a string that starts with a character above U+FFFF take the whole character here, while JavaScript splits its surrogate pair.
- Prices are integer cents, and `totalAmount` differences are exact. Floating-point rounding is left out.
- Timestamps are integer milliseconds. Date parsing of the ISO strings, and a NaN from an invalid date in a comparator, are left out.
- The clock, the year and `Date.now()` are parameters. The source reads `Date.now()` separately for the order id and for the history entry; the model uses one reading.
- The `delay` timers, the promise wrappers, and the random mock-data generators of `mockApi.ts` are left out. The seed list is a constructor parameter.
- Workflows.WorkflowsPage.Approve and Workflows.WorkflowsPage.Reject leave the shown list as it was. In the page, the filter effect depends on `workflows` and runs again after each change; the model leaves that re-run to the caller, who runs ApplyFilters.
- The workflows' `mockWorkflows.data` is a parameter of `Load`. Its error path is left out: it only loads the same data again and shows a toast.
- MockApi.OrderStore.FetchOrders and MockApi.PageOf require pageSize >= 1. With 0, JavaScript gives Infinity/NaN page counts, which an integer model cannot express.
- Pagination.TotalPages, DataTable.NextPage and DataTable.GridPagesInRange require pageSize >= 1 for the same reason.
- MockApi.OrderStore.FetchOrders: the default arguments of fetchOrders (page 1, pageSize 10, sortBy 'createdAt', sortDirection 'desc'; src/lib/mockApi.ts:146-151) are not modelled. Callers pass every argument.
- MockApi.NeedsManager: the 'rejected' arm of the approval guard is unreachable, because 'rejected' is not an OrderStatus. The model's status type has no such value.
- Lookups by key ignore JavaScript's inherited object keys. `roles["constructor"]` or `packages["constructor"]` would find a prototype member in the source; the model treats every key as absent unless stored.
- Coverage: `Object.entries` lists integer-like keys first. The model takes the entries in the order given.
- Coverage: `packages` is a map, so the insertion order of its keys is not kept. Only the README writer reads it.
- updateReadmeStats (file I/O, `toFixed` percentages, regex rewriting of README.md) is not part of this model.
- Auth: a JSON blob whose token is a non-string value is not modelled. Tokens are strings or absent.
- Auth: a stored `user` that is not an object with a string `role` (a number, an array, a numeric role) is not modelled. hasRole and hasPermission (src/lib/auth.ts:47-49) compare a role that is always a string.
- Auth.AuthStorage.Logout: the redirect to /login is left out.
- Rendering, icons, toasts, navigation (`navigate`, `handleCreateWorkflow`), the search form's submit handlers and `console` logging are left out.
- Impersonation, the network clients, and the React context and hook plumbing (`useRole`) are left out. Their implementations are not part of this model.

## Findings

| source | as written | input that shows it | evidently intended | confidence | as-written member | corrected member |
|---|---|---|---|---|---|---|
| src/components/layout/AppSidebar.tsx:25 | `hasRole('ADMIN')` compares exactly with an upper-case name | the demo login stores role "admin" (src/components/auth/LoginForm.tsx:41), so the demo admin gets no Users entry | the administrator's stored role "admin" shows the Users entry | high, not executed | Sidebar.SidebarAsWritten | Sidebar.SidebarMenu |
| src/components/orders/OrderActionsCell.tsx:14-21 | the map's keys are upper-case, but `OrderStatus` values are lower-case (src/lib/mockApi.ts:5) | an order with status "pending" looks up `STATUS_ACTION_MAP["pending"]`, which is undefined | the status finds its next action, pending giving approve | high, not executed | OrderActions.NextActionAsWrittenAlwaysMissing | OrderActions.NextActionTable |
| src/components/orders/OrderActionsCell.tsx:34-36 | the menu asks auth.ts's hasPermission for "update" and for the looked-up action, but auth.ts grants only view/create/edit/delete/approve | the demo admin gets only "Delete": "update" is never granted, and neither is the undefined action | the catalogue's vocabulary (src/lib/constants.ts:25-33) gates the menu, so an admin gets all three entries | medium, not executed | OrderActions.MenuAsWrittenOnlyDelete | OrderActions.AdminGetsFullMenu |
| src/__tests__/useRole.test.tsx:15 | `initialRole="user"` passes a string where RoleProvider expects a role object | the first `hasPermission('users.view')` reads `"user".permissions.includes`, which throws | the initial name resolves to its configured role, as setRole resolves names | medium, not executed | RoleProvider.UseRoleTestThrowsAsWritten | RoleProvider.UseRoleTestExpectations |
| src/__tests__/RoleManagement.test.tsx:44 | `initialRole="user"` passes a string where RoleProvider expects a role object, as in the useRole test | the component's first `hasPermission('admin.access')` reads `"user".permissions.includes`, which throws | the initial name resolves to its configured role, as setRole resolves names | medium, not executed | RoleProvider.RoleManagementTestThrowsAsWritten | RoleProvider.RoleManagementTestExpectations |
