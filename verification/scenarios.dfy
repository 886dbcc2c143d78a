/**
 * The application's own wiring, traced through the model end to end: the two shipped
 * policies decorated and mapped, `UsersController` and `UsersAdminController`
 * decorated and registered, and requests answered by their routes.
 */
module Scenarios {
  import opened Wrappers
  import opened Metadata
  import opened AuthzTypes
  import P = PolicyRegistry
  import B = BuiltinPolicies
  import D = AuthzControllerDecorators
  import C = AuthzControllers
  import A = ApiControllers

  /** `@Policy("Authenticated")` and `@Policy("ManageUsers")`, then `mapPolicies()`. */
  function Policies(): (ps: seq<PolicyDescriptor>)
    ensures ps == [PolicyDescriptor(B.AuthenticatedClass, Str("Authenticated")),
                   PolicyDescriptor(B.ManageUsersClass, Str("ManageUsers"))]
  {
    var decls := [(B.AuthenticatedClass, "Authenticated"), (B.ManageUsersClass, "ManageUsers")];
    var st := P.State(map[], [], []);
    P.DecorateThenMap(decls, st);
    P.MapPolicies(P.Decorate(decls, st)).policies
  }

  const UsersControllerClass: ClassId := 10
  const UsersAdminControllerClass: ClassId := 11

  /** The slots registration reads for one method: its verb, its route name and its requirement list. */
  predicate Routed(meta: Store, cls: ClassId, member: string, verb: string, name: string, reqs: seq<Requirement>)
  {
    && Read(meta, D.MethodSlot(cls, member)) == Str(verb)
    && Read(meta, D.NameSlot(cls, member)) == Str(name)
    && D.StoredRequirements(meta, cls, member) == reqs
  }

  /** What registration builds for a routed method. */
  lemma RoutedAction(meta: Store, cls: ClassId, member: string, v: string, n: string, reqs: seq<Requirement>)
    requires member != "constructor" && v != "" && n != "" && Routed(meta, cls, member, v, n, reqs)
    ensures C.ActionFor(meta, cls, Member(member, true)) == Some(C.Action(n, v, reqs, member))
  {
  }

  /** Decorating another method keeps this method's slots. */
  lemma HttpKeepsRouted(verb: Verb, name: Option<string>, cls: ClassId, member: string, st: D.State,
                        other: string, v: string, n: string, reqs: seq<Requirement>)
    requires other != member && Routed(st.meta, cls, other, v, n, reqs)
    ensures Routed(D.Http(verb, name, cls, member, st).meta, cls, other, v, n, reqs)
  {
    assert D.PoliciesSlot(cls, other) != D.MethodSlot(cls, member) && D.PoliciesSlot(cls, other) != D.NameSlot(cls, member);
  }

  lemma AuthorizeKeepsRouted(p: Requirement, cls: ClassId, member: string, st: D.State,
                             other: string, v: string, n: string, reqs: seq<Requirement>)
    requires other != member && Routed(st.meta, cls, other, v, n, reqs)
    ensures Routed(D.Authorize(Some(p), cls, member, st).meta, cls, other, v, n, reqs)
  {
    assert D.PoliciesSlot(cls, other) != D.PoliciesSlot(cls, member);
    assert D.MethodSlot(cls, other) != D.PoliciesSlot(cls, member);
    assert D.NameSlot(cls, other) != D.PoliciesSlot(cls, member);
  }

  lemma ControllerKeepsRouted(path: string, cls: ClassId, st: D.State, member: string, v: string, n: string, reqs: seq<Requirement>)
    requires Routed(st.meta, cls, member, v, n, reqs)
    ensures Routed(D.Controller(path, cls, st).meta, cls, member, v, n, reqs)
  {
    assert D.PathSlot(cls) != D.MethodSlot(cls, member) && D.PathSlot(cls) != D.NameSlot(cls, member);
    assert D.PathSlot(cls) != D.PoliciesSlot(cls, member);
  }

  /** The first decorators on a fresh method: one `@Authorize` (or none), then the verb. */
  lemma FirstRoute(p: Option<Requirement>, verb: Verb, name: string, cls: ClassId, member: string, st: D.State)
    requires Read(st.meta, D.PoliciesSlot(cls, member)) == Undefined
    requires p.Some? ==> D.Truthy(p)
    ensures var s1 := if p.Some? then D.Authorize(p, cls, member, st) else st;
      Routed(D.Http(verb, Some(name), cls, member, s1).meta, cls, member, VerbName(verb), name,
             if p.Some? then [p.value] else [])
  {
    var s1 := if p.Some? then D.Authorize(p, cls, member, st) else st;
    if p.Some? {
      assert |D.StoredRequirements(s1.meta, cls, member)| <= 1;
      assert p.value in D.StoredRequirements(s1.meta, cls, member);
    }
    assert D.PoliciesSlot(cls, member) != D.MethodSlot(cls, member) && D.PoliciesSlot(cls, member) != D.NameSlot(cls, member);
  }

  /**
   * `UsersController`'s decorators in evaluation order: per method bottom-up
   * (`@Authorize` before the verb), the class decorator last.
   */
  function UsersDecorated(): D.State
  {
    var u := UsersControllerClass;
    var s1 := D.Authorize(Some(PolicyName("Authenticated")), u, "GetCurrentUser", D.State(map[], []));
    var s2 := D.Http(Get, Some("CurrentUser"), u, "GetCurrentUser", s1);
    var s3 := D.Http(Post, Some("Login"), u, "LoginUser", s2);
    var s4 := D.Http(Post, Some("Register"), u, "RegisterUser", s3);
    D.Controller("/api/Users", u, s4)
  }

  lemma UsersRoutes()
    ensures Routed(UsersDecorated().meta, UsersControllerClass, "GetCurrentUser", "get", "CurrentUser", [PolicyName("Authenticated")])
  {
    var u := UsersControllerClass;
    var s0 := D.State(map[], []);
    var s1 := D.Authorize(Some(PolicyName("Authenticated")), u, "GetCurrentUser", s0);
    var s2 := D.Http(Get, Some("CurrentUser"), u, "GetCurrentUser", s1);
    FirstRoute(Some(PolicyName("Authenticated")), Get, "CurrentUser", u, "GetCurrentUser", s0);
    var s3 := D.Http(Post, Some("Login"), u, "LoginUser", s2);
    HttpKeepsRouted(Post, Some("Login"), u, "LoginUser", s2, "GetCurrentUser", "get", "CurrentUser", [PolicyName("Authenticated")]);
    var s4 := D.Http(Post, Some("Register"), u, "RegisterUser", s3);
    HttpKeepsRouted(Post, Some("Register"), u, "RegisterUser", s3, "GetCurrentUser", "get", "CurrentUser", [PolicyName("Authenticated")]);
    ControllerKeepsRouted("/api/Users", u, s4, "GetCurrentUser", "get", "CurrentUser", [PolicyName("Authenticated")]);
  }

  /** `UsersAdminController`'s decorators in evaluation order. */
  function AdminDecorated(): D.State
  {
    var c := UsersAdminControllerClass;
    var s1 := D.Authorize(Some(PolicyName("ManageUsers")), c, "AddPermissionToUser", D.State(map[], []));
    var s2 := D.Http(Post, Some("AddPermissionToUser"), c, "AddPermissionToUser", s1);
    var s3 := D.Authorize(Some(PolicyName("ManageUsers")), c, "RemovePermissionFromUser", s2);
    var s4 := D.Http(Delete, Some("RemovePermissionFromUser"), c, "RemovePermissionFromUser", s3);
    D.Controller("/api/AdminUsers", c, s4)
  }

  lemma AdminRoutes()
    ensures Routed(AdminDecorated().meta, UsersAdminControllerClass, "AddPermissionToUser", "post", "AddPermissionToUser", [PolicyName("ManageUsers")])
  {
    var c := UsersAdminControllerClass;
    var req := PolicyName("ManageUsers");
    var s0 := D.State(map[], []);
    var s1 := D.Authorize(Some(req), c, "AddPermissionToUser", s0);
    var s2 := D.Http(Post, Some("AddPermissionToUser"), c, "AddPermissionToUser", s1);
    FirstRoute(Some(req), Post, "AddPermissionToUser", c, "AddPermissionToUser", s0);
    var s3 := D.Authorize(Some(req), c, "RemovePermissionFromUser", s2);
    AuthorizeKeepsRouted(req, c, "RemovePermissionFromUser", s2, "AddPermissionToUser", "post", "AddPermissionToUser", [req]);
    var s4 := D.Http(Delete, Some("RemovePermissionFromUser"), c, "RemovePermissionFromUser", s3);
    HttpKeepsRouted(Delete, Some("RemovePermissionFromUser"), c, "RemovePermissionFromUser", s3, "AddPermissionToUser", "post", "AddPermissionToUser", [req]);
    ControllerKeepsRouted("/api/AdminUsers", c, s4, "AddPermissionToUser", "post", "AddPermissionToUser", [req]);
  }

  /** `GET /api/Users/CurrentUser` as registered. */
  function CurrentUserAction(): (a: C.Action)
    ensures a == C.Action("CurrentUser", "get", [PolicyName("Authenticated")], "GetCurrentUser")
  {
    var meta := UsersDecorated().meta;
    UsersRoutes();
    RoutedAction(meta, UsersControllerClass, "GetCurrentUser", "get", "CurrentUser", [PolicyName("Authenticated")]);
    C.ActionFor(meta, UsersControllerClass, Member("GetCurrentUser", true)).value
  }

  /** `POST /api/AdminUsers/AddPermissionToUser` as registered. */
  function AddPermissionAction(): (a: C.Action)
    ensures a == C.Action("AddPermissionToUser", "post", [PolicyName("ManageUsers")], "AddPermissionToUser")
  {
    var meta := AdminDecorated().meta;
    AdminRoutes();
    RoutedAction(meta, UsersAdminControllerClass, "AddPermissionToUser", "post", "AddPermissionToUser", [PolicyName("ManageUsers")]);
    C.ActionFor(meta, UsersAdminControllerClass, Member("AddPermissionToUser", true)).value
  }

  /** An anonymous request for the current user is refused with `["Unauthorized"]`. */
  lemma AnonymousCurrentUserForbidden(actionFails: bool)
    ensures C.HandleRequest(CurrentUserAction(), Context(None), Policies(), B.Handle, actionFails)
         == C.Status403([Unauthorized])
  {
    assert C.Registered(Policies(), "Authenticated");
  }

  /** A signed-in user reaches the action; only the action's own failure turns into a 500. */
  lemma SignedInCurrentUserRuns(u: User, actionFails: bool)
    ensures C.HandleRequest(CurrentUserAction(), Context(Some(u)), Policies(), B.Handle, actionFails)
         == if actionFails then C.Status500("Internal server error") else C.ActionResponded
  {
    assert C.Registered(Policies(), "Authenticated");
  }

  /** Adding a permission is refused, with `["Unauthorized"]`, to any user without `manageUsers`. */
  lemma AddPermissionNeedsManageUsers(ctx: Context)
    ensures var resp := C.HandleRequest(AddPermissionAction(), ctx, Policies(), B.Handle, false);
      (resp == C.ActionResponded <==> ctx.user.Some? && "manageUsers" in ctx.user.value.permissions)
      && (resp != C.ActionResponded ==> resp == C.Status403([Unauthorized]))
  {
    var ps := Policies();
    assert ps[0].name != Str("ManageUsers");
    assert C.Registered(ps, "ManageUsers");
    assert P.GetPolicy(ps, "ManageUsers") == Some(ps[1]);
  }

  /** `?limit=abc` for a required `number` argument named `limit` is a 400, whatever else the query holds. */
  lemma NonNumericLimitIsBadRequest(parseNumber: string -> Option<real>, query: A.Query)
    requires "limit" in query && query["limit"] == "abc" && parseNumber("abc").None?
    ensures A.HandleRequest(A.Action("list", "get", [A.ArgumentDescriptor("limit", "number", "query", true)], "List"),
                            query, parseNumber)
         == A.Status400("limit must be a number")
  {
    var a := A.ArgumentDescriptor("limit", "number", "query", true);
    assert A.Present(query, "limit");
    assert A.Coerce(a, query, parseNumber) == Err(A.InvalidNumber);
    var message := a.name + " must be a " + a.ty;
    assert A.Bind([a], query, parseNumber) == A.BadRequest(message);
    assert message == "limit must be a number";
  }
}
