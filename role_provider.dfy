/**
  * The role context of src/components/RoleProvider.tsx: one piece of state,
  * the current role (a name and its permission list), replaced by setRole
  * when the requested name is one of the configured roles and queried by
  * hasPermission.
  */
module RoleProvider {
  import opened Wrappers

  datatype Role = Role(name: string, permissions: seq<string>)

  /** The `roles` prop: role name to its permission list. */
  type RoleDefinitions = map<string, seq<string>>

  /** The role after handleSetRole(roleName): the configured role of that name, or unchanged. */
  function NextRole(roles: RoleDefinitions, current: Role, roleName: string): Role {
    if roleName in roles then Role(roleName, roles[roleName]) else current
  }

  class RoleState {
    const roles: RoleDefinitions
    var role: Role

    constructor (roles: RoleDefinitions, initialRole: Role)
      ensures this.roles == roles && role == initialRole
    {
      this.roles := roles;
      role := initialRole;
    }

    /** hasPermission: membership in the current role's list. */
    predicate HasPermission(permission: string)
      reads this
    {
      permission in role.permissions
    }

    /** handleSetRole */
    method SetRole(roleName: string)
      modifies this
      ensures role == NextRole(roles, old(role), roleName)
      ensures roleName in roles ==> forall p :: HasPermission(p) <==> p in roles[roleName]
      ensures roleName !in roles ==> role == old(role)
    {
      var known := roleName in roles;
      if known {
        role := Role(roleName, roles[roleName]);
      }
    }
  }

  /** After setRole(n), a permission holds exactly as n's configured list, or as before for an unknown n. */
  lemma PermissionAfterSetRole(roles: RoleDefinitions, current: Role, n: string, p: string)
    ensures p in NextRole(roles, current, n).permissions <==>
      (if n in roles then p in roles[n] else p in current.permissions)
    ensures n in roles ==> NextRole(roles, current, n) == Role(n, roles[n])
    ensures n !in roles ==> NextRole(roles, current, n) == current
  {
  }

  /** Setting the same role twice is setting it once. */
  lemma SetRoleIdempotent(roles: RoleDefinitions, current: Role, n: string)
    ensures NextRole(roles, NextRole(roles, current, n), n) == NextRole(roles, current, n)
  {
  }

  /** Switching to another role and back restores the configured role and all its answers. */
  lemma SwitchAndBackRestores(roles: RoleDefinitions, n: string, m: string)
    requires n in roles && m in roles
    ensures var start := Role(n, roles[n]);
      NextRole(roles, NextRole(roles, start, m), n) == start
  {
  }

  /** What a component can receive as `initialRole` at run time: a Role object, or a bare role name. */
  datatype InitialRole = RoleValue(role: Role) | RoleNameOnly(name: string)

  /**
    * hasPermission on the initial role as the provider is written: a bare
    * name has no `permissions`, so `undefined.includes` throws (None).
    */
  function HasPermissionAsWritten(initial: InitialRole, permission: string): (r: Option<bool>)
    ensures r.None? <==> initial.RoleNameOnly?
  {
    match initial
    case RoleValue(role) => Some(permission in role.permissions)
    case RoleNameOnly(_) => None
  }

  /** The roles configured by src/__tests__/useRole.test.tsx:6-19. */
  const UseRoleTestRoles: RoleDefinitions :=
    map["admin" := ["users.create", "users.edit", "users.delete"], "user" := ["users.view"]]

  /** The useRole test passes initialRole="user", so its first hasPermission call throws. */
  lemma UseRoleTestThrowsAsWritten()
    ensures HasPermissionAsWritten(RoleNameOnly("user"), "users.view") == None
  {
  }

  /** The initial role with a bare name resolved through `roles`, as setRole resolves names. */
  function ResolveInitialRole(roles: RoleDefinitions, initial: InitialRole): (r: Role)
    ensures initial.RoleValue? ==> r == initial.role
    ensures initial.RoleNameOnly? && initial.name in roles ==>
      r == NextRole(roles, r, initial.name) && r.permissions == roles[initial.name]
    ensures initial.RoleNameOnly? ==> r.name == initial.name
  {
    match initial
    case RoleValue(role) => role
    case RoleNameOnly(name) => NextRole(roles, Role(name, []), name)
  }

  /**
    * With the initial name resolved, src/__tests__/useRole.test.tsx:25-36
    * holds: "user" may view users but not create them, and after
    * setRole("admin") may create them.
    */
  lemma UseRoleTestExpectations()
    ensures var start := ResolveInitialRole(UseRoleTestRoles, RoleNameOnly("user"));
      && "users.view" in start.permissions
      && "users.create" !in start.permissions
      && "users.create" in NextRole(UseRoleTestRoles, start, "admin").permissions
  {
  }

  /** The roles configured by the test provider of src/__tests__/test-utils.tsx:7-10. */
  const TestUtilsRoles: RoleDefinitions :=
    map["admin" := ["users.view", "users.edit", "admin.access"], "user" := ["users.view"]]

  /**
    * src/__tests__/test-utils.tsx:5-11 with src/__tests__/RoleProvider.test.tsx:18-19:
    * the provider's initial role object answers that it can view users and cannot edit them.
    */
  lemma RoleProviderTestExpectations()
    ensures var start := ResolveInitialRole(TestUtilsRoles, RoleValue(Role("user", ["users.view"])));
      && HasPermissionAsWritten(RoleValue(start), "users.view") == Some(true)
      && HasPermissionAsWritten(RoleValue(start), "users.edit") == Some(false)
  {
  }

  /** The roles configured by src/__tests__/RoleManagement.test.tsx:40-43. */
  const RoleManagementTestRoles: RoleDefinitions :=
    map["user" := ["user.read"], "admin" := ["user.read", "admin.access"]]

  /**
    * src/__tests__/RoleManagement.test.tsx:44 also passes initialRole="user", so as
    * written the first hasPermission("admin.access") of its component throws.
    */
  lemma RoleManagementTestThrowsAsWritten()
    ensures HasPermissionAsWritten(RoleNameOnly("user"), "admin.access") == None
  {
  }

  /**
    * src/__tests__/RoleManagement.test.tsx:51-70, with the initial name of line 44
    * resolved: admin.access appears for "admin" and goes again for "user".
    */
  lemma RoleManagementTestExpectations()
    ensures var start := ResolveInitialRole(RoleManagementTestRoles, RoleNameOnly("user"));
      var asAdmin := NextRole(RoleManagementTestRoles, start, "admin");
      var back := NextRole(RoleManagementTestRoles, asAdmin, "user");
      && "admin.access" !in start.permissions
      && "admin.access" in asAdmin.permissions
      && "admin.access" !in back.permissions
      && back == start
  {
  }
}
