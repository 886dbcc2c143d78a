/** The authorization vocabulary of the framework's second generation. */
module AuthzTypes {
  import opened Wrappers
  import opened Metadata

  /** The stored user; only its permission list is read by the core. */
  datatype User = User(id: string, permissions: seq<string>)

  /** `AuthorizationContext`: the resolved user, or `null` for an anonymous request. */
  datatype Context = Context(user: Option<User>)

  /** `FailureReasonType = "Unauthorized" | "Forbidden" | PermissionType`. */
  datatype Reason = Unauthorized | Forbidden | Permission(permission: string)

  datatype Status = OK | Error

  /** `AuthorizationResult`. */
  datatype AuthResult = AuthResult(result: Status, failureReason: seq<Reason>)

  /** `PolicyDescriptor`: the policy class and the name read from its metadata. */
  datatype PolicyDescriptor = PolicyDescriptor(ctor: ClassId, name: MetaValue)

  /** The behaviour of `new cls().handle(ctx)` for every policy class. */
  type PolicyHandler = (ClassId, Context) -> AuthResult

  /** `AuthorizationPolicy.handle`, the base class every policy overrides. */
  function BaseHandle(ctx: Context): (r: AuthResult)
    ensures r.result == Error && r.failureReason == [Unauthorized]
  {
    AuthResult(Error, [Unauthorized])
  }
}
