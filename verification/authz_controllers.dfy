/**
 * The authorization-aware controller builder and request pipeline
 * (`infra/Controllers/Controllers.ts`): one action per verb-decorated method,
 * then, per request, the policy chain, the action call and the mapping of a
 * failed action to a server error.
 */
module AuthzControllers {
  import opened Wrappers
  import opened Metadata
  import opened AuthzTypes
  import D = AuthzControllerDecorators
  import opened PolicyRegistry

  /** `ActionDescriptor`; the bound `innerFunction` is identified by its member name. */
  datatype Action = Action(name: string, verb: string, requirements: seq<Requirement>, member: string)

  /** `ControllerDescriptor`; the singleton instance is identified by its class. */
  datatype ControllerDescriptor = ControllerDescriptor(cls: ClassId, path: MetaValue, actions: seq<Action>)

  /** The route name: the stored `httpMethodName` when truthy, else the member name (`name || propertyName`). */
  function RouteName(meta: Store, cls: ClassId, member: string): (n: string)
    ensures AsText(Read(meta, D.NameSlot(cls, member))).Some? ==> n == Read(meta, D.NameSlot(cls, member)).s
    ensures AsText(Read(meta, D.NameSlot(cls, member))).None? ==> n == member
  {
    match AsText(Read(meta, D.NameSlot(cls, member)))
    case Some(n) => n
    case None => member
  }

  /** The body of the `registerController` loop for one own property of the prototype. */
  function ActionFor(meta: Store, cls: ClassId, m: Member): (a: Option<Action>)
    ensures a.Some? <==> m.name != "constructor" && m.isMethod && AsText(Read(meta, D.MethodSlot(cls, m.name))).Some?
    ensures a.Some? ==> a.value == Action(RouteName(meta, cls, m.name), Read(meta, D.MethodSlot(cls, m.name)).s,
                                          D.StoredRequirements(meta, cls, m.name), m.name)
  {
    if m.name == "constructor" || !m.isMethod then None
    else
      match AsText(Read(meta, D.MethodSlot(cls, m.name)))
      case None => None
      case Some(verb) =>
        Some(Action(RouteName(meta, cls, m.name), verb, D.StoredRequirements(meta, cls, m.name), m.name))
  }

  /** The actions built from `members`, in property order. */
  function Actions(meta: Store, cls: ClassId, members: seq<Member>): (acts: seq<Action>)
    ensures |acts| <= |members|
    ensures forall i :: 0 <= i < |members| && ActionFor(meta, cls, members[i]).Some? ==>
      ActionFor(meta, cls, members[i]).value in acts
    ensures forall a :: a in acts ==> exists i :: 0 <= i < |members| && ActionFor(meta, cls, members[i]) == Some(a)
    decreases |members|
  {
    if |members| == 0 then []
    else
      var rest := Actions(meta, cls, members[1..]);
      assert forall i :: 1 <= i < |members| ==> members[i] == members[1..][i - 1];
      match ActionFor(meta, cls, members[0])
      case None => rest
      case Some(a) => [a] + rest
  }

  /** `registerController`: the stored base path and one action per verb-decorated method. */
  function RegisterController(meta: Store, shape: ClassShape): (d: ControllerDescriptor)
    ensures d.cls == shape.cls
    ensures d.path == Read(meta, D.PathSlot(shape.cls))
    ensures forall a :: a in d.actions ==> a.member != "constructor" && a.verb != ""
    ensures forall a :: a in d.actions ==> exists i :: 0 <= i < |shape.members| && shape.members[i].name == a.member && shape.members[i].isMethod
    ensures forall i :: 0 <= i < |shape.members| && ActionFor(meta, shape.cls, shape.members[i]).Some? ==>
      ActionFor(meta, shape.cls, shape.members[i]).value in d.actions
    ensures d.actions == Actions(meta, shape.cls, shape.members)
  {
    ControllerDescriptor(shape.cls, Read(meta, D.PathSlot(shape.cls)), Actions(meta, shape.cls, shape.members))
  }

  /** One property contributes its own action, or nothing. */
  lemma ActionsSingleton(meta: Store, cls: ClassId, m: Member)
    ensures Actions(meta, cls, [m]) == if ActionFor(meta, cls, m).Some? then [ActionFor(meta, cls, m).value] else []
  {
    assert [m][1..] == [];
  }

  /**
   * Actions are listed in property order: the actions of a concatenation are
   * those of the first part followed by those of the second.
   */
  lemma {:induction false} ActionsAppend(meta: Store, cls: ClassId, m1: seq<Member>, m2: seq<Member>)
    ensures Actions(meta, cls, m1 + m2) == Actions(meta, cls, m1) + Actions(meta, cls, m2)
    decreases |m1|
  {
    if |m1| == 0 {
      assert m1 + m2 == m2;
    } else {
      assert (m1 + m2)[0] == m1[0];
      assert (m1 + m2)[1..] == m1[1..] + m2;
      ActionsAppend(meta, cls, m1[1..], m2);
    }
  }

  /** `rawControllersRegistry.forEach(registerController)`. */
  function MapControllers(meta: Store, classes: seq<ClassShape>): (ds: seq<ControllerDescriptor>)
    ensures |ds| == |classes|
    ensures forall i :: 0 <= i < |classes| ==> ds[i] == RegisterController(meta, classes[i])
  {
    seq(|classes|, i requires 0 <= i < |classes| => RegisterController(meta, classes[i]))
  }

  /**
   * A method decorated with a verb, after which no decorator touches its verb or
   * name, becomes an action named after the decorator's argument or, when that is
   * absent or empty, after the method, carrying the stored requirement list.
   */
  lemma DecoratedMethodBecomesAction(verb: Verb, name: Option<string>, cls: ClassId, m: Member, st: D.State)
    requires m.name != "constructor" && m.isMethod
    ensures var meta := D.Http(verb, name, cls, m.name, st).meta;
      ActionFor(meta, cls, m) == Some(Action(
        if name.Some? && name.value != "" then name.value else m.name,
        VerbName(verb),
        D.StoredRequirements(st.meta, cls, m.name),
        m.name))
  {
    var meta := D.Http(verb, name, cls, m.name, st).meta;
    assert D.PoliciesSlot(cls, m.name) != D.MethodSlot(cls, m.name);
    assert D.PoliciesSlot(cls, m.name) != D.NameSlot(cls, m.name);
    assert Read(meta, D.PoliciesSlot(cls, m.name)) == Read(st.meta, D.PoliciesSlot(cls, m.name));
  }

  /** The constructor, non-function properties and methods without a stored verb yield no action. */
  lemma UndecoratedYieldsNoAction(meta: Store, cls: ClassId, m: Member)
    requires m.name == "constructor" || !m.isMethod || D.MethodSlot(cls, m.name) !in meta
    ensures ActionFor(meta, cls, m) == None
  {
  }

  // ---------------------------------------------------------------------
  // The per-request policy chain (lines 82-128).

  /** What the chain decides: call the action, answer 403 with reasons, or answer 500. */
  datatype Outcome = Invoke | Forbidden403(reasons: seq<Reason>) | ServerError500(message: string)

  /** The outcome with the names whose policy `handle` was called, in call order. */
  datatype Verdict = Verdict(outcome: Outcome, consulted: seq<string>)

  /** The name resolves through `getPolicy`. */
  predicate Registered(registry: seq<PolicyDescriptor>, name: string)
  {
    GetPolicy(registry, name).Some?
  }

  /** The result of `new policy.constructor().handle(ctx)` for a registered name. */
  function Check(registry: seq<PolicyDescriptor>, handle: PolicyHandler, ctx: Context, name: string): AuthResult
    requires Registered(registry, name)
  {
    handle(GetPolicy(registry, name).value.ctor, ctx)
  }

  /** The name is registered and its policy returns anything but `"Error"`. */
  predicate Passes(registry: seq<PolicyDescriptor>, handle: PolicyHandler, ctx: Context, name: string)
  {
    Registered(registry, name) && Check(registry, handle, ctx, name).result != Error
  }

  /**
   * The inner loop over a group's names (lines 108-122) from position `k` on, the
   * names before `k` having been consulted and passed; success falls through to the `break`.
   */
  function GroupFrom(names: seq<string>, k: nat, ctx: Context, registry: seq<PolicyDescriptor>, handle: PolicyHandler): (v: Verdict)
    requires k <= |names|
    ensures k <= |v.consulted| <= |names| && v.consulted == names[..|v.consulted|]
    ensures forall i :: k <= i < |v.consulted| ==> Registered(registry, names[i])
    ensures v.outcome == Invoke <==> forall i :: k <= i < |names| ==> Passes(registry, handle, ctx, names[i])
    ensures v.outcome == Invoke ==> v.consulted == names
    ensures v.outcome.Forbidden403? ==>
      && |v.consulted| > k
      && (forall i :: k <= i < |v.consulted| - 1 ==> Passes(registry, handle, ctx, names[i]))
      && Check(registry, handle, ctx, names[|v.consulted| - 1]) == AuthResult(Error, v.outcome.reasons)
    ensures v.outcome.ServerError500? ==>
      && v.outcome.message == "Internal server error"
      && |v.consulted| < |names|
      && (forall i :: k <= i < |v.consulted| ==> Passes(registry, handle, ctx, names[i]))
      && !Registered(registry, names[|v.consulted|])
    decreases |names| - k
  {
    if k == |names| then Verdict(Invoke, names)
    else if !Registered(registry, names[k]) then Verdict(ServerError500("Internal server error"), names[..k])
    else
      var r := Check(registry, handle, ctx, names[k]);
      if r.result == Error then Verdict(Forbidden403(r.failureReason), names[..k + 1])
      else GroupFrom(names, k + 1, ctx, registry, handle)
  }

  /** A whole group: which names were consulted, and whether all passed, one failed, or one was missing. */
  function EvaluateGroup(names: seq<string>, ctx: Context, registry: seq<PolicyDescriptor>, handle: PolicyHandler): (v: Verdict)
    ensures |v.consulted| <= |names| && v.consulted == names[..|v.consulted|]
    ensures forall i :: 0 <= i < |v.consulted| ==> Registered(registry, names[i])
    ensures v.outcome == Invoke <==> forall i :: 0 <= i < |names| ==> Passes(registry, handle, ctx, names[i])
    ensures v.outcome == Invoke ==> v.consulted == names
    ensures v.outcome.Forbidden403? ==>
      && |v.consulted| > 0
      && (forall i :: 0 <= i < |v.consulted| - 1 ==> Passes(registry, handle, ctx, names[i]))
      && Check(registry, handle, ctx, names[|v.consulted| - 1]) == AuthResult(Error, v.outcome.reasons)
    ensures v.outcome.ServerError500? ==>
      && v.outcome.message == "Internal server error"
      && |v.consulted| < |names|
      && (forall i :: 0 <= i < |v.consulted| ==> Passes(registry, handle, ctx, names[i]))
      && !Registered(registry, names[|v.consulted|])
  {
    GroupFrom(names, 0, ctx, registry, handle)
  }

  /** One iteration of the chain loop: the branch for a name, for an array, and for anything else. */
  function EvaluateRequirement(req: Requirement, ctx: Context, registry: seq<PolicyDescriptor>, handle: PolicyHandler): (v: Verdict)
    ensures req.PolicyName? && !Registered(registry, req.name) ==>
      v == Verdict(ServerError500("Internal server error, no policy found for " + req.name), [])
    ensures req.PolicyName? && Registered(registry, req.name) ==>
      && v.consulted == [req.name]
      && (Check(registry, handle, ctx, req.name).result == Error ==>
            v.outcome == Forbidden403(Check(registry, handle, ctx, req.name).failureReason))
      && (Check(registry, handle, ctx, req.name).result != Error ==> v.outcome == Invoke)
    ensures req.PolicyGroup? ==> v == EvaluateGroup(req.names, ctx, registry, handle)
    ensures req.NotAPolicy? ==> v == Verdict(ServerError500("Internal server error"), [])
  {
    match req
    case PolicyName(name) =>
      if !Registered(registry, name) then
        Verdict(ServerError500("Internal server error, no policy found for " + name), [])
      else
        var r := Check(registry, handle, ctx, name);
        if r.result == Error then Verdict(Forbidden403(r.failureReason), [name])
        else Verdict(Invoke, [name])
    case PolicyGroup(_, names) => EvaluateGroup(names, ctx, registry, handle)
    case NotAPolicy(_) => Verdict(ServerError500("Internal server error"), [])
  }

  /** The names a requirement refers to: one for a name, the members of a group, none otherwise. */
  function RequirementNames(req: Requirement): seq<string>
  {
    match req
    case PolicyName(name) => [name]
    case PolicyGroup(_, names) => names
    case NotAPolicy(_) => []
  }

  /** A requirement is met: its name passes, every member of its group passes; anything else never is. */
  predicate Satisfied(req: Requirement, ctx: Context, registry: seq<PolicyDescriptor>, handle: PolicyHandler)
  {
    match req
    case PolicyName(name) => Passes(registry, handle, ctx, name)
    case PolicyGroup(_, names) => forall i :: 0 <= i < |names| ==> Passes(registry, handle, ctx, names[i])
    case NotAPolicy(_) => false
  }

  /**
   * The chain (lines 82-128). Every branch of the loop body either returns a
   * response or `break`s, so only the first requirement is ever evaluated:
   * the request goes through exactly when there is none or the first is met,
   * and only names of the first requirement are consulted.
   */
  function EvaluateChain(reqs: seq<Requirement>, ctx: Context, registry: seq<PolicyDescriptor>, handle: PolicyHandler): (v: Verdict)
    ensures |reqs| == 0 ==> v == Verdict(Invoke, [])
    ensures v.outcome == Invoke <==> |reqs| == 0 || Satisfied(reqs[0], ctx, registry, handle)
    ensures |reqs| > 0 ==>
      |v.consulted| <= |RequirementNames(reqs[0])| && v.consulted == RequirementNames(reqs[0])[..|v.consulted|]
    ensures v.outcome.Forbidden403? ==>
      && |v.consulted| > 0
      && Registered(registry, v.consulted[|v.consulted| - 1])
      && Check(registry, handle, ctx, v.consulted[|v.consulted| - 1]) == AuthResult(Error, v.outcome.reasons)
  {
    if |reqs| == 0 then Verdict(Invoke, [])
    else EvaluateRequirement(reqs[0], ctx, registry, handle)
  }

  /**
   * The chain loop as the source writes it: the outer `for` over the
   * requirements, with `return` on a 500 or a 403 and `break` once a name or a
   * group has passed, and the inner `for` over a group's names in `RunGroup`.
   * The loop never reaches a second iteration.
   */
  method RunChain(reqs: seq<Requirement>, ctx: Context, registry: seq<PolicyDescriptor>, handle: PolicyHandler)
    returns (outcome: Outcome, consulted: seq<string>)
    ensures Verdict(outcome, consulted) == EvaluateChain(reqs, ctx, registry, handle)
  {
    outcome, consulted := Invoke, [];
    for i := 0 to |reqs|
      invariant i == 0 && outcome == Invoke && consulted == []
    {
      match reqs[i]
      case PolicyName(name) =>
        var policy := GetPolicy(registry, name);
        if policy.None? {
          return ServerError500("Internal server error, no policy found for " + name), [];
        }
        var result := handle(policy.value.ctor, ctx);
        if result.result == Error {
          return Forbidden403(result.failureReason), [name];
        }
        consulted := [name];
        break;
      case PolicyGroup(_, names) =>
        var groupOutcome, groupConsulted := RunGroup(names, ctx, registry, handle);
        if groupOutcome != Invoke {
          return groupOutcome, groupConsulted;
        }
        consulted := groupConsulted;
        break;
      case NotAPolicy(_) =>
        return ServerError500("Internal server error"), [];
    }
  }

  /** The inner `for` over a group's names (lines 108-122). */
  method RunGroup(names: seq<string>, ctx: Context, registry: seq<PolicyDescriptor>, handle: PolicyHandler)
    returns (outcome: Outcome, consulted: seq<string>)
    ensures Verdict(outcome, consulted) == EvaluateGroup(names, ctx, registry, handle)
  {
    consulted := [];
    var k := 0;
    while k < |names|
      invariant 0 <= k <= |names|
      invariant consulted == names[..k]
      invariant forall j :: 0 <= j < k ==> Passes(registry, handle, ctx, names[j])
    {
      var policy := GetPolicy(registry, names[k]);
      if policy.None? {
        GroupStopsAtUnregistered(names, k, ctx, registry, handle);
        return ServerError500("Internal server error"), consulted;
      }
      var result := handle(policy.value.ctor, ctx);
      consulted := consulted + [names[k]];
      if result.result == Error {
        GroupStopsAtFailure(names, k, ctx, registry, handle);
        return Forbidden403(result.failureReason), consulted;
      }
      k := k + 1;
    }
    GroupAllPass(names, ctx, registry, handle);
    outcome := Invoke;
  }

  /** A group whose members all pass ends the chain with the action invoked, every member consulted. */
  lemma GroupAllPass(names: seq<string>, ctx: Context, registry: seq<PolicyDescriptor>, handle: PolicyHandler)
    requires forall j :: 0 <= j < |names| ==> Passes(registry, handle, ctx, names[j])
    ensures EvaluateGroup(names, ctx, registry, handle) == Verdict(Invoke, names)
  {
  }

  /** Members that pass are stepped over: the group from `j` decides as the group from `k`. */
  lemma {:induction false} GroupSkipsPassing(names: seq<string>, j: nat, k: nat, ctx: Context,
                                             registry: seq<PolicyDescriptor>, handle: PolicyHandler)
    requires j <= k <= |names|
    requires forall i :: j <= i < k ==> Passes(registry, handle, ctx, names[i])
    ensures GroupFrom(names, j, ctx, registry, handle) == GroupFrom(names, k, ctx, registry, handle)
    decreases k - j
  {
    if j < k {
      GroupSkipsPassing(names, j + 1, k, ctx, registry, handle);
    }
  }

  /** In a group, the first failing member decides: 403 with its reasons, and later members are never consulted. */
  lemma GroupStopsAtFailure(names: seq<string>, k: nat, ctx: Context,
                            registry: seq<PolicyDescriptor>, handle: PolicyHandler)
    requires k < |names|
    requires forall j :: 0 <= j < k ==> Passes(registry, handle, ctx, names[j])
    requires Registered(registry, names[k]) && Check(registry, handle, ctx, names[k]).result == Error
    ensures EvaluateGroup(names, ctx, registry, handle) ==
      Verdict(Forbidden403(Check(registry, handle, ctx, names[k]).failureReason), names[..k + 1])
  {
    GroupSkipsPassing(names, 0, k, ctx, registry, handle);
  }

  /** In a group, an unregistered member reached after passing members yields the generic 500. */
  lemma GroupStopsAtUnregistered(names: seq<string>, k: nat, ctx: Context,
                                 registry: seq<PolicyDescriptor>, handle: PolicyHandler)
    requires k < |names|
    requires forall j :: 0 <= j < k ==> Passes(registry, handle, ctx, names[j])
    requires !Registered(registry, names[k])
    ensures EvaluateGroup(names, ctx, registry, handle) == Verdict(ServerError500("Internal server error"), names[..k])
  {
    GroupSkipsPassing(names, 0, k, ctx, registry, handle);
  }

  /** Requirements after the first are never evaluated: replacing them changes nothing. */
  lemma LaterRequirementsIgnored(first: Requirement, rest1: seq<Requirement>, rest2: seq<Requirement>,
                                 ctx: Context, registry: seq<PolicyDescriptor>, handle: PolicyHandler)
    ensures EvaluateChain([first] + rest1, ctx, registry, handle) == EvaluateChain([first] + rest2, ctx, registry, handle)
  {
  }

  /** A passing named policy ends the chain with the action invoked, whatever follows it. */
  lemma PassingNameEndsChain(name: string, rest: seq<Requirement>, ctx: Context,
                             registry: seq<PolicyDescriptor>, handle: PolicyHandler)
    requires Passes(registry, handle, ctx, name)
    ensures EvaluateChain([PolicyName(name)] + rest, ctx, registry, handle) == Verdict(Invoke, [name])
  {
  }

  // ---------------------------------------------------------------------
  // The request handler around the chain (lines 77-137).

  /** What the client receives: the action's own response, a 403 with reasons, or a 500 with a message. */
  datatype Response = ActionResponded | Status403(reasons: seq<Reason>) | Status500(message: string)

  /**
   * One request: run the chain, then the action. `actionFails` stands for the
   * action throwing or rejecting, which is answered with a generic 500.
   */
  function HandleRequest(action: Action, ctx: Context, registry: seq<PolicyDescriptor>, handle: PolicyHandler,
                         actionFails: bool): (resp: Response)
    ensures resp == ActionResponded <==> EvaluateChain(action.requirements, ctx, registry, handle).outcome == Invoke && !actionFails
    ensures resp.Status403? <==> EvaluateChain(action.requirements, ctx, registry, handle).outcome.Forbidden403?
    ensures resp.Status403? ==> resp.reasons == EvaluateChain(action.requirements, ctx, registry, handle).outcome.reasons
    ensures resp.Status500? && EvaluateChain(action.requirements, ctx, registry, handle).outcome == Invoke ==>
      resp.message == "Internal server error"
    ensures EvaluateChain(action.requirements, ctx, registry, handle).outcome.ServerError500? ==>
      resp == Status500(EvaluateChain(action.requirements, ctx, registry, handle).outcome.message)
  {
    match EvaluateChain(action.requirements, ctx, registry, handle).outcome
    case Forbidden403(reasons) => Status403(reasons)
    case ServerError500(msg) => Status500(msg)
    case Invoke => if actionFails then Status500("Internal server error") else ActionResponded
  }
}
