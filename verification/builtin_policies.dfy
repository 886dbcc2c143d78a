/** The two policies the application declares: `Authenticated` and `ManageUsers`. */
module BuiltinPolicies {
  import opened Wrappers
  import opened Metadata
  import opened AuthzTypes

  /** `AuthenticatedPolicy.handle`: passes exactly when a user is present. */
  function Authenticated(ctx: Context): (r: AuthResult)
    ensures r.result == OK <==> ctx.user.Some?
    ensures r.result == OK ==> r.failureReason == []
    ensures r.result == Error ==> r.failureReason == [Unauthorized]
  {
    if ctx.user.Some? then AuthResult(OK, [])
    else AuthResult(Error, [Unauthorized])
  }

  /** `ManageUsersPolicy.handle`: passes exactly when a user holding `"manageUsers"` is present. */
  function ManageUsers(ctx: Context): (r: AuthResult)
    ensures r.result == OK <==> ctx.user.Some? && "manageUsers" in ctx.user.value.permissions
    ensures r.result == OK ==> r.failureReason == []
    ensures r.result == Error ==> r.failureReason == [Unauthorized]
  {
    if ctx.user.Some? && "manageUsers" in ctx.user.value.permissions then AuthResult(OK, [])
    else AuthResult(Error, [Unauthorized])
  }

  /** `Authenticated` reads nothing but the presence of a user. */
  lemma AuthenticatedDependsOnlyOnPresence(c1: Context, c2: Context)
    requires c1.user.Some? <==> c2.user.Some?
    ensures Authenticated(c1) == Authenticated(c2)
  {
  }

  /** An anonymous context never passes `ManageUsers`. */
  lemma AnonymousNeverManagesUsers(ctx: Context)
    requires ctx.user.None?
    ensures ManageUsers(ctx) == AuthResult(Error, [Unauthorized])
  {
  }

  /** A signed-in user lacking the permission is reported `Unauthorized`, never `Forbidden`. */
  lemma MissingPermissionIsUnauthorized(ctx: Context)
    requires ctx.user.Some? && "manageUsers" !in ctx.user.value.permissions
    ensures ManageUsers(ctx).failureReason == [Unauthorized]
    ensures Forbidden !in ManageUsers(ctx).failureReason
  {
  }

  /** Passing `ManageUsers` implies passing `Authenticated` for the same context. */
  lemma ManageUsersImpliesAuthenticated(ctx: Context)
    ensures ManageUsers(ctx).result == OK ==> Authenticated(ctx).result == OK
  {
  }

  /** The class identities the application's `@Policy` decorators are applied to. */
  const AuthenticatedClass: ClassId := 1
  const ManageUsersClass: ClassId := 2

  /** `new cls().handle(ctx)` for the application's policy classes; any other class runs the base handler. */
  function Handle(cls: ClassId, ctx: Context): AuthResult
  {
    if cls == AuthenticatedClass then Authenticated(ctx)
    else if cls == ManageUsersClass then ManageUsers(ctx)
    else BaseHandle(ctx)
  }
}
