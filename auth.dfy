/**
  * Client-side authentication checks of src/lib/auth.ts. Everything is
  * derived from one browser storage item, "auth", holding a JSON blob
  * `{ user, token }`; the only operation that changes it here is logout,
  * which removes the item.
  */
module Auth {
  import opened Wrappers

  datatype User = User(id: string, name: string, email: string, role: string)

  /** What `localStorage.getItem("auth")` yields, seen through JSON.parse. */
  datatype StoredAuth =
    | NoItem        // no item, or the empty string: `!authData` holds
    | Unparsable    // JSON.parse throws, or the JSON is null, so destructuring throws
    | Parsed(user: Option<User>, token: Option<string>)

  datatype AuthState = AuthState(user: Option<User>, token: Option<string>, isAuthenticated: bool)

  /** The state reported whenever there is no usable blob. */
  const SignedOut := AuthState(None, None, false)

  /** `!!token`: a present, non-empty string. */
  predicate Truthy(token: Option<string>) {
    token.Some? && token.value != ""
  }

  /** getAuthState: never throws; a missing or unreadable blob reads as signed out. */
  function GetAuthState(item: StoredAuth): (s: AuthState)
    ensures !item.Parsed? ==> s == SignedOut
    ensures item.Parsed? ==> s.user == item.user && s.token == item.token
  {
    match item
    case Parsed(user, token) => AuthState(user, token, Truthy(token))
    case _ => SignedOut
  }

  /** isAuthenticated: a parsed blob whose token is truthy, whoever its user. */
  function IsAuthenticated(item: StoredAuth): (b: bool)
    ensures b <==> item.Parsed? && Truthy(item.token)
  {
    GetAuthState(item).isAuthenticated
  }

  /** getCurrentUser: the stored user of a parsed blob, and none otherwise. */
  function GetCurrentUser(item: StoredAuth): (u: Option<User>)
    ensures item.Parsed? ==> u == item.user
    ensures !item.Parsed? ==> u.None?
  {
    GetAuthState(item).user
  }

  /** hasRole: exact, case-sensitive comparison with the stored user's role. */
  function HasRole(item: StoredAuth, role: string): (b: bool)
    ensures b ==> GetCurrentUser(item).Some?
  {
    match GetCurrentUser(item)
    case None => false
    case Some(u) => u.role == role
  }

  const AdminPermissions: seq<string> := ["view", "create", "edit", "delete", "approve"]
  const UserPermissions: seq<string> := ["view", "create"]

  /** hasPermission: the hard-coded "admin" and "user" lists; any other role has none. */
  function HasPermission(item: StoredAuth, permission: string): (b: bool)
    ensures b ==> GetCurrentUser(item).Some?
    ensures b ==> permission in AdminPermissions
  {
    match GetCurrentUser(item)
    case None => false
    case Some(u) =>
      if u.role == "admin" then permission in AdminPermissions
      else if u.role == "user" then permission in UserPermissions
      else false
  }

  /** The blob the demo login form writes (src/components/auth/LoginForm.tsx:36-44). */
  function DemoLogin(email: string): StoredAuth {
    Parsed(Some(User("user-1", "John Appleseed", email, "admin")), Some("demo-token-xyz"))
  }

  /** The browser's storage slot for "auth". */
  class AuthStorage {
    var item: StoredAuth

    constructor (initial: StoredAuth)
      ensures item == initial
    {
      item := initial;
    }

    /** `localStorage.setItem("auth", ...)`, as the login form does. */
    method Store(blob: StoredAuth)
      modifies this
      ensures item == blob
    {
      item := blob;
    }

    /** logout: the item is removed, so nobody is signed in afterwards. */
    method Logout()
      modifies this
      ensures item == NoItem
      ensures !IsAuthenticated(item) && GetCurrentUser(item) == None
      ensures forall r :: !HasRole(item, r)
      ensures forall p :: !HasPermission(item, p)
    {
      item := NoItem;
    }
  }

  /** With no stored item the state is { user: null, token: null, isAuthenticated: false }. */
  lemma NoItemIsSignedOut()
    ensures GetAuthState(NoItem) == AuthState(None, None, false)
  {
  }

  /** A malformed blob reads as signed out rather than failing. */
  lemma UnparsableIsSignedOut()
    ensures GetAuthState(Unparsable) == SignedOut
    ensures !IsAuthenticated(Unparsable) && GetCurrentUser(Unparsable) == None
  {
  }

  /** Authentication is exactly a truthy stored token; the stored user plays no part. */
  lemma AuthenticatedIffTruthyToken(item: StoredAuth)
    ensures IsAuthenticated(item) <==> item.Parsed? && Truthy(item.token)
    ensures item.Parsed? ==> forall u :: IsAuthenticated(Parsed(u, item.token)) == IsAuthenticated(item)
  {
  }

  /**
    * A blob with a user and no token is not authenticated, yet hasRole and
    * hasPermission still answer for its user.
    */
  lemma UserWithoutTokenStillHasRole(u: User)
    requires u.role == "admin"
    ensures !IsAuthenticated(Parsed(Some(u), None))
    ensures HasRole(Parsed(Some(u), None), "admin")
    ensures HasPermission(Parsed(Some(u), None), "delete")
  {
  }

  /** hasRole is false with no user and otherwise exact string equality. */
  lemma HasRoleIsExact(item: StoredAuth, role: string)
    ensures HasRole(item, role) <==> GetCurrentUser(item).Some? && GetCurrentUser(item).value.role == role
    ensures HasRole(DemoLogin("a@b.c"), "admin") && !HasRole(DemoLogin("a@b.c"), "ADMIN")
  {
  }

  /**
    * For any stored blob with a user, "admin" grants exactly
    * view/create/edit/delete/approve, "user" exactly view/create, other roles nothing.
    */
  lemma RolePermissionsExact(item: StoredAuth, p: string)
    requires GetCurrentUser(item).Some?
    ensures var u := GetCurrentUser(item).value;
      && (u.role == "admin" ==> (HasPermission(item, p) <==> p in {"view", "create", "edit", "delete", "approve"}))
      && (u.role == "user" ==> (HasPermission(item, p) <==> p in {"view", "create"}))
      && (u.role != "admin" && u.role != "user" ==> !HasPermission(item, p))
  {
  }

  /** Whatever a "user" session may do, any "admin" session may do too. */
  lemma UserPermissionsWithinAdmin(a: StoredAuth, b: StoredAuth, p: string)
    requires GetCurrentUser(a).Some? && GetCurrentUser(a).value.role == "user"
    requires GetCurrentUser(b).Some? && GetCurrentUser(b).value.role == "admin"
    requires HasPermission(a, p)
    ensures HasPermission(b, p)
  {
  }
}
