/**
  * The static permission catalogue and layout constants of
  * src/lib/constants.ts: every permission the application knows, the
  * permissions each catalogue role grants, and the responsive breakpoints.
  */
module Catalog {
  import opened Wrappers
  import Text
  import Collections

  const MobileBreakpoint: nat := 768
  const TabletBreakpoint: nat := 1024
  const DesktopBreakpoint: nat := 1280

  /** ALL_PERMISSIONS, in declaration order. */
  const AllPermissions: seq<string> := [
    "create", "read", "update", "delete", "approve", "ship", "close", "reopen",
    "manage_users", "manage_roles", "manage_settings"
  ]

  /** The keys of the PERMISSIONS record. */
  datatype CatalogRole = ADMIN | MANAGER | USER

  /** PERMISSIONS[role] */
  function Permissions(role: CatalogRole): seq<string> {
    match role
    case ADMIN => AllPermissions
    case MANAGER => ["create", "read", "update", "approve", "ship", "close", "reopen", "manage_settings"]
    case USER => ["read", "create"]
  }

  /** The catalogue role a role name stands for, compared without regard to case. */
  function RoleNamed(name: string): (r: Option<CatalogRole>)
    ensures r == Some(ADMIN) <==> Text.Lower(name) == "admin"
    ensures r == Some(MANAGER) <==> Text.Lower(name) == "manager"
    ensures r == Some(USER) <==> Text.Lower(name) == "user"
  {
    var n := Text.Lower(name);
    if n == "admin" then Some(ADMIN)
    else if n == "manager" then Some(MANAGER)
    else if n == "user" then Some(USER)
    else None
  }

  /** ADMIN is granted every permission there is. */
  lemma AdminHasAllPermissions()
    ensures forall p :: p in AllPermissions <==> p in Permissions(ADMIN)
  {
  }

  /** The catalogue is nested: USER within MANAGER within ALL_PERMISSIONS. */
  lemma CatalogNested(p: string)
    ensures p in Permissions(USER) ==> p in Permissions(MANAGER)
    ensures p in Permissions(MANAGER) ==> p in AllPermissions
  {
  }

  /** A manager may not delete, manage users or manage roles. */
  lemma ManagerLacksAdministration()
    ensures "delete" !in Permissions(MANAGER)
    ensures "manage_users" !in Permissions(MANAGER)
    ensures "manage_roles" !in Permissions(MANAGER)
  {
  }

  /** ALL_PERMISSIONS lists eleven different permissions. */
  lemma AllPermissionsDistinct()
    ensures |AllPermissions| == 11
    ensures Collections.Distinct(AllPermissions)
  {
  }

  /** MOBILE < TABLET < DESKTOP. */
  lemma BreakpointsOrdered()
    ensures MobileBreakpoint < TabletBreakpoint < DesktopBreakpoint
  {
  }
}
