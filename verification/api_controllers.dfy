/**
 * The parameter-binding controller builder and request handler
 * (`Infra/Controllers/Controllers.ts`): type names from `design:paramtypes`,
 * query-value coercion, action construction with the one-body rule, and the
 * per-request query-binding loop.
 */
module ApiControllers {
  import opened Wrappers
  import opened Metadata
  import opened Text
  import opened ParamOrder
  import D = ApiDecorators

  /** `getPrimitiveTypeName`: a lower-case, non-empty type name for a parameter's design type. */
  function PrimitiveTypeName(t: RuntimeType): (r: string)
    ensures IsLower(r) && r != ""
    ensures t == StringCtor ==> r == "string"
    ensures t == NumberCtor ==> r == "number"
    ensures t == BooleanCtor ==> r == "boolean"
    ensures t.NamedType? && t.name != "" ==> r == Lower(t.name)
    ensures t == NoType || t == NamedType("") ==> r == "unknown"
  {
    match t
    case StringCtor => "string"
    case NumberCtor => "number"
    case BooleanCtor => "boolean"
    case NamedType(name) => if name != "" then Lower(name) else "unknown"
    case NoType => "unknown"
  }

  /** A query value before or after coercion. */
  datatype JsValue = StrV(s: string) | NumV(x: real) | BoolV(b: bool)

  datatype ParseError = InvalidNumber | InvalidBoolean

  /**
   * JavaScript's `Number(value)`. String parsing is the abstract `parseNumber`,
   * whose `None` stands for `NaN`; booleans convert to 1 and 0.
   */
  function ToNumber(v: JsValue, parseNumber: string -> Option<real>): Option<real>
  {
    match v
    case StrV(s) => parseNumber(s)
    case NumV(x) => Some(x)
    case BoolV(b) => Some(if b then 1.0 else 0.0)
  }

  /**
   * `parseQueryValue(value, type?)`: unchanged for an absent, empty, `"string"` or
   * unrecognised type; `Number(value)` failing on `NaN` for `"number"`; only
   * `"true"`/`true` and `"false"`/`false` for `"boolean"`.
   */
  function ParseQueryValue(v: JsValue, ty: Option<string>, parseNumber: string -> Option<real>): (r: Result<JsValue, ParseError>)
    ensures ty != Some("number") && ty != Some("boolean") ==> r == Ok(v)
    ensures ty == Some("number") ==>
      && (r.Err? <==> ToNumber(v, parseNumber).None?)
      && (r.Ok? ==> r.value == NumV(ToNumber(v, parseNumber).value))
    ensures ty == Some("boolean") ==>
      && (r == Ok(BoolV(true)) <==> v == StrV("true") || v == BoolV(true))
      && (r == Ok(BoolV(false)) <==> v == StrV("false") || v == BoolV(false))
      && (r.Err? <==> v !in {StrV("true"), BoolV(true), StrV("false"), BoolV(false)})
  {
    if ty.None? || ty.value == "" || ty.value == "string" then Ok(v)
    else if ty.value == "number" then
      match ToNumber(v, parseNumber)
      case None => Err(InvalidNumber)
      case Some(x) => Ok(NumV(x))
    else if ty.value == "boolean" then
      if v == StrV("true") || v == BoolV(true) then Ok(BoolV(true))
      else if v == StrV("false") || v == BoolV(false) then Ok(BoolV(false))
      else Err(InvalidBoolean)
    else Ok(v)
  }

  /** Coercion is idempotent: coercing an already coerced value gives it back. */
  lemma ParseIdempotent(v: JsValue, ty: Option<string>, parseNumber: string -> Option<real>)
    requires ParseQueryValue(v, ty, parseNumber).Ok?
    ensures var once := ParseQueryValue(v, ty, parseNumber).value;
      ParseQueryValue(once, ty, parseNumber) == Ok(once)
  {
  }

  /** A boolean coerces exactly like its string form. */
  lemma BooleanLikeItsString(b: bool, parseNumber: string -> Option<real>)
    ensures ParseQueryValue(BoolV(b), Some("boolean"), parseNumber)
         == ParseQueryValue(StrV(if b then "true" else "false"), Some("boolean"), parseNumber)
  {
  }

  /** Boolean coercion is case-sensitive: any other spelling fails. */
  lemma BooleanCaseSensitive(s: string, parseNumber: string -> Option<real>)
    requires s != "true" && s != "false"
    ensures ParseQueryValue(StrV(s), Some("boolean"), parseNumber) == Err(InvalidBoolean)
  {
  }

  /** A declared parameter type that coerces: the type names for `Number` and `Boolean` are the ones the coercion recognises. */
  lemma TypeNamesDriveCoercion(t: RuntimeType, v: JsValue, parseNumber: string -> Option<real>)
    ensures t == StringCtor ==> ParseQueryValue(v, Some(PrimitiveTypeName(t)), parseNumber) == Ok(v)
    ensures t == NumberCtor && ToNumber(v, parseNumber).Some? ==>
      ParseQueryValue(v, Some(PrimitiveTypeName(t)), parseNumber) == Ok(NumV(ToNumber(v, parseNumber).value))
    ensures t == NoType ==> ParseQueryValue(v, Some(PrimitiveTypeName(t)), parseNumber) == Ok(v)
  {
  }

  // ---------------------------------------------------------------------
  // Registration (lines 43-122).

  /** `ActionArgumentDescriptor`. */
  datatype ArgumentDescriptor = ArgumentDescriptor(name: string, ty: string, source: string, required: bool)

  /** `ActionDescriptor`; the bound `innerFunction` is identified by its member name. */
  datatype Action = Action(name: string, verb: string, arguments: seq<ArgumentDescriptor>, member: string)

  datatype ControllerDescriptor = ControllerDescriptor(cls: ClassId, path: MetaValue, actions: seq<Action>)

  /** `"Only one body argument is allowed"`, or `types[i]` read while `design:paramtypes` is missing. */
  datatype RegistrationError = MultipleBodyArguments | MissingParamTypes

  /** The design type at a position; past the end of the list it is `undefined`. */
  function TypeAt(types: seq<RuntimeType>, index: nat): RuntimeType
  {
    if index < |types| then types[index] else NoType
  }

  /** One argument descriptor per parameter entry, in the same order. */
  function BuildArguments(params: seq<ParamEntry>, types: seq<RuntimeType>): (args: seq<ArgumentDescriptor>)
    ensures |args| == |params|
    ensures forall i :: 0 <= i < |params| ==>
      args[i] == ArgumentDescriptor(params[i].name, PrimitiveTypeName(TypeAt(types, params[i].index)),
                                    params[i].source, params[i].required)
  {
    seq(|params|, i requires 0 <= i < |params| =>
      ArgumentDescriptor(params[i].name, PrimitiveTypeName(TypeAt(types, params[i].index)),
                         params[i].source, params[i].required))
  }

  /** `argumentsList.filter((arg) => arg.source === "body").length`. */
  function BodyCount(args: seq<ArgumentDescriptor>): (n: nat)
    ensures n <= |args|
    ensures n == 0 <==> forall i :: 0 <= i < |args| ==> args[i].source != "body"
    ensures n <= 1 <==> forall i, j :: 0 <= i < j < |args| && args[i].source == "body" ==> args[j].source != "body"
  {
    if |args| == 0 then 0
    else (if args[0].source == "body" then 1 else 0) + BodyCount(args[1..])
  }

  function ParamTypesSlot(cls: ClassId, member: string): Slot { Slot(Proto(cls), Some(member), "design:paramtypes") }
  function MethodSlot(cls: ClassId, member: string): Slot { Slot(Proto(cls), Some(member), "httpMethod") }
  function NameSlot(cls: ClassId, member: string): Slot { Slot(Proto(cls), Some(member), "httpMethodName") }

  /** The route name, `name || propertyName`. */
  function RouteName(meta: Store, cls: ClassId, member: string): (n: string)
    ensures AsText(Read(meta, NameSlot(cls, member))).Some? ==> n == Read(meta, NameSlot(cls, member)).s
    ensures AsText(Read(meta, NameSlot(cls, member))).None? ==> n == member
  {
    match AsText(Read(meta, NameSlot(cls, member)))
    case Some(n) => n
    case None => member
  }

  /** The stored `design:paramtypes`, or no types when the slot holds none. */
  function DesignTypes(meta: Store, cls: ClassId, member: string): seq<RuntimeType>
  {
    match Read(meta, ParamTypesSlot(cls, member))
    case ParamTypes(types) => types
    case _ => []
  }

  /** A property `registerController` turns into an action or an error: a non-constructor method with a truthy `httpMethod`. */
  predicate IsRoute(meta: Store, cls: ClassId, m: Member)
  {
    m.name != "constructor" && m.isMethod && AsText(Read(meta, MethodSlot(cls, m.name))).Some?
  }

  /**
   * The body of the `registerController` loop for one own property: no action for
   * the constructor, non-functions and members without `"httpMethod"`; otherwise the
   * parameter entries sorted by index, typed from `design:paramtypes`, and at most
   * one of them from the body.
   */
  function ActionFor(meta: Store, cls: ClassId, m: Member): (r: Result<Option<Action>, RegistrationError>)
    ensures r.Ok? && r.value.Some? ==>
      && m.name != "constructor" && m.isMethod
      && AsText(Read(meta, MethodSlot(cls, m.name))) == Some(r.value.value.verb)
      && r.value.value.member == m.name
      && r.value.value.name == RouteName(meta, cls, m.name)
      && BodyCount(r.value.value.arguments) <= 1
    ensures r == Ok(None) <==> !IsRoute(meta, cls, m)
  {
    if m.name == "constructor" || !m.isMethod then Ok(None)
    else
      match AsText(Read(meta, MethodSlot(cls, m.name)))
      case None => Ok(None)
      case Some(verb) =>
        var params := SortByIndex(D.StoredParams(meta, cls, m.name));
        match Read(meta, ParamTypesSlot(cls, m.name))
        case ParamTypes(types) => Finish(meta, cls, m.name, verb, params, types)
        case _ => if |params| == 0 then Finish(meta, cls, m.name, verb, params, []) else Err(MissingParamTypes)
  }

  /**
   * What a route property yields: the action with the index-sorted, typed
   * arguments, or `MissingParamTypes` exactly when it has parameters but no
   * `design:paramtypes`, or `MultipleBodyArguments` exactly when more than one
   * argument comes from the body.
   */
  lemma ActionForSpec(meta: Store, cls: ClassId, m: Member)
    requires IsRoute(meta, cls, m)
    ensures var args := BuildArguments(SortByIndex(D.StoredParams(meta, cls, m.name)), DesignTypes(meta, cls, m.name));
      var typesKnown := Read(meta, ParamTypesSlot(cls, m.name)).ParamTypes? || |D.StoredParams(meta, cls, m.name)| == 0;
      && (ActionFor(meta, cls, m) == Err(MissingParamTypes) <==> !typesKnown)
      && (ActionFor(meta, cls, m) == Err(MultipleBodyArguments) <==> typesKnown && BodyCount(args) > 1)
      && (ActionFor(meta, cls, m).Ok? <==> typesKnown && BodyCount(args) <= 1)
      && (ActionFor(meta, cls, m).Ok? ==>
            ActionFor(meta, cls, m) == Ok(Some(Action(RouteName(meta, cls, m.name), Read(meta, MethodSlot(cls, m.name)).s, args, m.name))))
  {
  }

  /** The tail of the loop body: build the arguments, enforce the one-body rule, describe the action. */
  function Finish(meta: Store, cls: ClassId, member: string, verb: string, params: seq<ParamEntry>,
                  types: seq<RuntimeType>): (r: Result<Option<Action>, RegistrationError>)
    ensures r.Ok? ==> r.value.Some? && BodyCount(r.value.value.arguments) <= 1
    ensures r.Ok? ==> r.value.value == Action(RouteName(meta, cls, member), verb, BuildArguments(params, types), member)
    ensures r.Err? ==> r.error == MultipleBodyArguments && BodyCount(BuildArguments(params, types)) > 1
  {
    var args := BuildArguments(params, types);
    if BodyCount(args) > 1 then Err(MultipleBodyArguments)
    else Ok(Some(Action(RouteName(meta, cls, member), verb, args, member)))
  }

  /** What the loop body yields for one property: its action, no action, or the error that aborts registration. */
  type Outcome = Result<Option<Action>, RegistrationError>

  /** The outcome of every property, in property order. */
  function Outcomes(meta: Store, cls: ClassId, members: seq<Member>): (rs: seq<Outcome>)
    ensures |rs| == |members|
    ensures forall i :: 0 <= i < |members| ==> rs[i] == ActionFor(meta, cls, members[i])
  {
    seq(|members|, i requires 0 <= i < |members| => ActionFor(meta, cls, members[i]))
  }

  /** The loop over the outcomes from position `k` on: the first error aborts, otherwise the actions are collected in order. */
  function CollectFrom(rs: seq<Outcome>, k: nat): Result<seq<Action>, RegistrationError>
    requires k <= |rs|
    decreases |rs| - k
  {
    if k == |rs| then Ok([])
    else
      match rs[k]
      case Err(e) => Err(e)
      case Ok(a) =>
        match CollectFrom(rs, k + 1)
        case Err(e) => Err(e)
        case Ok(rest) => Ok(if a.Some? then [a.value] + rest else rest)
  }

  /** From position `k` on, a success means no outcome there is an error. */
  lemma {:induction false} CollectAllOk(rs: seq<Outcome>, k: nat)
    requires k <= |rs|
    ensures CollectFrom(rs, k).Ok? ==> forall i :: k <= i < |rs| ==> rs[i].Ok?
    decreases |rs| - k
  {
    if k < |rs| {
      CollectAllOk(rs, k + 1);
    }
  }

  /** From position `k` on, a success lists every built action. */
  lemma {:induction false} CollectComplete(rs: seq<Outcome>, k: nat)
    requires k <= |rs|
    ensures CollectFrom(rs, k).Ok? ==> forall i, a :: k <= i < |rs| && rs[i] == Ok(Some(a)) ==> a in CollectFrom(rs, k).value
    decreases |rs| - k
  {
    var r := CollectFrom(rs, k);
    if k < |rs| && r.Ok? {
      CollectComplete(rs, k + 1);
      var rest := CollectFrom(rs, k + 1);
      assert rs[k].Ok? && rest.Ok?;
      forall i, a | k <= i < |rs| && rs[i] == Ok(Some(a))
        ensures a in r.value
      {
        if i > k {
          assert a in rest.value;
        }
      }
    }
  }

  /** From position `k` on, every listed action is the outcome of one of the positions. */
  lemma {:induction false} CollectSound(rs: seq<Outcome>, k: nat)
    requires k <= |rs|
    ensures CollectFrom(rs, k).Ok? ==> forall a :: a in CollectFrom(rs, k).value ==> exists i :: k <= i < |rs| && rs[i] == Ok(Some(a))
    decreases |rs| - k
  {
    var r := CollectFrom(rs, k);
    if k < |rs| && r.Ok? {
      CollectSound(rs, k + 1);
      var rest := CollectFrom(rs, k + 1);
      assert rs[k].Ok? && rest.Ok?;
      forall a | a in r.value
        ensures exists i :: k <= i < |rs| && rs[i] == Ok(Some(a))
      {
        if a !in rest.value {
          assert rs[k] == Ok(Some(a));
        }
      }
    }
  }

  /** A failure from position `k` on reports the error of the first outcome there that is one. */
  lemma {:induction false} CollectFirstError(rs: seq<Outcome>, k: nat)
    requires k <= |rs|
    ensures CollectFrom(rs, k).Err? ==>
      exists i :: && k <= i < |rs|
                  && rs[i] == Err(CollectFrom(rs, k).error)
                  && (forall j :: k <= j < i ==> rs[j].Ok?)
    decreases |rs| - k
  {
    var r := CollectFrom(rs, k);
    if r.Err? {
      if rs[k].Err? {
        assert k <= k < |rs| && rs[k] == Err(r.error);
      } else {
        var rest := CollectFrom(rs, k + 1);
        assert rest.Err? && rest.error == r.error;
        CollectFirstError(rs, k + 1);
        var i :| && k + 1 <= i < |rs|
                 && rs[i] == Err(rest.error)
                 && (forall j :: k + 1 <= j < i ==> rs[j].Ok?);
        assert forall j :: k <= j < i ==> rs[j].Ok?;
      }
    }
  }

  /** The result of registering one run of members and then the next: the first error wins, else the lists concatenate. */
  function Then(r1: Result<seq<Action>, RegistrationError>, r2: Result<seq<Action>, RegistrationError>): Result<seq<Action>, RegistrationError>
  {
    match r1
    case Err(e) => Err(e)
    case Ok(a1) =>
      match r2
      case Err(e) => Err(e)
      case Ok(a2) => Ok(a1 + a2)
  }

  /** Positions past a prefix read the suffix alone. */
  lemma {:induction false} CollectShift(p: seq<Outcome>, q: seq<Outcome>, j: nat)
    requires j <= |q|
    ensures CollectFrom(p + q, |p| + j) == CollectFrom(q, j)
    decreases |q| - j
  {
    if j < |q| {
      assert (p + q)[|p| + j] == q[j];
      CollectShift(p, q, j + 1);
    }
  }

  /** From position `k` of the first part on, collecting a concatenation collects the first part, then the second. */
  lemma {:induction false} CollectAppend(p: seq<Outcome>, q: seq<Outcome>, k: nat)
    requires k <= |p|
    ensures CollectFrom(p + q, k) == Then(CollectFrom(p, k), CollectFrom(q, 0))
    decreases |p| - k
  {
    if k == |p| {
      CollectShift(p, q, 0);
      match CollectFrom(q, 0)
      case Err(_) =>
      case Ok(a2) => assert [] + a2 == a2;
    } else {
      assert (p + q)[k] == p[k];
      CollectAppend(p, q, k + 1);
      match p[k]
      case Err(_) =>
      case Ok(a) =>
        match CollectFrom(p, k + 1)
        case Err(_) =>
        case Ok(a1) =>
          match CollectFrom(q, 0)
          case Err(_) =>
          case Ok(a2) =>
            if a.Some? {
              assert [a.value] + (a1 + a2) == ([a.value] + a1) + a2;
            }
    }
  }

  /** The `registerController` loop over the own properties; the first registration error aborts. */
  function Actions(meta: Store, cls: ClassId, members: seq<Member>): (r: Result<seq<Action>, RegistrationError>)
    ensures r.Ok? ==> forall a :: a in r.value ==> BodyCount(a.arguments) <= 1 && a.member != "constructor"
    ensures r.Ok? ==> forall i :: 0 <= i < |members| ==> ActionFor(meta, cls, members[i]).Ok?
    ensures r.Ok? ==> forall i, a :: 0 <= i < |members| && ActionFor(meta, cls, members[i]) == Ok(Some(a)) ==> a in r.value
    ensures r.Ok? ==> forall a :: a in r.value ==> exists i :: 0 <= i < |members| && ActionFor(meta, cls, members[i]) == Ok(Some(a))
    ensures r.Err? ==> exists i :: && 0 <= i < |members|
                                   && ActionFor(meta, cls, members[i]) == Err(r.error)
                                   && (forall j :: 0 <= j < i ==> ActionFor(meta, cls, members[j]).Ok?)
  {
    var rs := Outcomes(meta, cls, members);
    var r := CollectFrom(rs, 0);
    CollectAllOk(rs, 0);
    CollectComplete(rs, 0);
    CollectSound(rs, 0);
    CollectFirstError(rs, 0);
    assert r.Ok? ==> forall a :: a in r.value ==> BodyCount(a.arguments) <= 1 && a.member != "constructor" by {
      if r.Ok? {
        forall a | a in r.value ensures BodyCount(a.arguments) <= 1 && a.member != "constructor" {
          var i :| 0 <= i < |rs| && rs[i] == Ok(Some(a));
          assert ActionFor(meta, cls, members[i]) == Ok(Some(a));
        }
      }
    }
    r
  }

  /** One property contributes its own action, nothing, or its error. */
  lemma ActionsSingleton(meta: Store, cls: ClassId, m: Member)
    ensures Actions(meta, cls, [m]) ==
      match ActionFor(meta, cls, m)
      case Err(e) => Err(e)
      case Ok(None) => Ok([])
      case Ok(Some(a)) => Ok([a])
  {
    var rs := Outcomes(meta, cls, [m]);
    assert rs == [ActionFor(meta, cls, m)];
    assert CollectFrom(rs, 1) == Ok([]);
    match rs[0]
    case Err(e) =>
    case Ok(a) =>
      assert CollectFrom(rs, 0) == Ok(if a.Some? then [a.value] + [] else []);
      assert a.Some? ==> [a.value] + [] == [a.value];
  }

  /**
   * Actions are listed in property order and the first error wins: registering a
   * concatenation is registering the first part, then the second.
   */
  lemma ActionsAppend(meta: Store, cls: ClassId, m1: seq<Member>, m2: seq<Member>)
    ensures Actions(meta, cls, m1 + m2) == Then(Actions(meta, cls, m1), Actions(meta, cls, m2))
  {
    var p, q := Outcomes(meta, cls, m1), Outcomes(meta, cls, m2);
    assert Outcomes(meta, cls, m1 + m2) == p + q by {
      forall i | 0 <= i < |m1| + |m2| ensures (p + q)[i] == ActionFor(meta, cls, (m1 + m2)[i]) {
        if i < |m1| { assert (m1 + m2)[i] == m1[i]; } else { assert (m1 + m2)[i] == m2[i - |m1|]; }
      }
    }
    CollectAppend(p, q, 0);
  }

  /** `registerController`: fails if any action declares more than one body argument. */
  function RegisterController(meta: Store, shape: ClassShape): (r: Result<ControllerDescriptor, RegistrationError>)
    ensures r.Ok? ==> r.value.cls == shape.cls && r.value.path == Read(meta, D.PathSlot(shape.cls))
    ensures r.Ok? ==> forall a :: a in r.value.actions ==> BodyCount(a.arguments) <= 1
    ensures r.Ok? ==> Actions(meta, shape.cls, shape.members) == Ok(r.value.actions)
    ensures r.Ok? ==> forall i :: 0 <= i < |shape.members| && IsRoute(meta, shape.cls, shape.members[i]) ==>
      exists a :: a in r.value.actions && a.member == shape.members[i].name
    ensures r.Err? <==> exists i :: 0 <= i < |shape.members| && ActionFor(meta, shape.cls, shape.members[i]).Err?
    ensures r.Err? ==> exists i :: && 0 <= i < |shape.members|
                                   && ActionFor(meta, shape.cls, shape.members[i]) == Err(r.error)
                                   && (forall j :: 0 <= j < i ==> ActionFor(meta, shape.cls, shape.members[j]).Ok?)
  {
    match Actions(meta, shape.cls, shape.members)
    case Err(e) => Err(e)
    case Ok(actions) => Ok(ControllerDescriptor(shape.cls, Read(meta, D.PathSlot(shape.cls)), actions))
  }

  /** A method carrying only this generation's own verb decorator gets no action: the keys differ. */
  lemma ApiVerbDecoratorIsNotRead(verb: Verb, name: Option<string>, paramNames: Option<seq<string>>,
                                  cls: ClassId, m: Member, st: D.State)
    requires MethodSlot(cls, m.name) !in st.meta
    ensures ActionFor(D.Http(verb, name, paramNames, cls, m.name, st).meta, cls, m) == Ok(None)
  {
    var meta := D.Http(verb, name, paramNames, cls, m.name, st).meta;
    assert MethodSlot(cls, m.name) != D.MemberSlot(cls, m.name, D.HttpMethodKey);
    assert MethodSlot(cls, m.name) != D.MemberSlot(cls, m.name, D.HttpPathKey);
    assert MethodSlot(cls, m.name) != D.MemberSlot(cls, m.name, D.ParamNamesKey);
    assert Read(meta, MethodSlot(cls, m.name)) == Undefined;
  }

  /** `@Query` writes a key registration never reads: the registered action is the same with or without it. */
  lemma QueryIsNotRead(name: Option<string>, required: string, cls: ClassId, m: Member, index: nat, st: D.State)
    ensures ActionFor(D.Query(name, required, cls, m.name, index, st).meta, cls, m) == ActionFor(st.meta, cls, m)
  {
    var meta := D.Query(name, required, cls, m.name, index, st).meta;
    var qs := D.MemberSlot(cls, m.name, D.ParamSourcesKey);
    assert MethodSlot(cls, m.name) != qs && NameSlot(cls, m.name) != qs && ParamTypesSlot(cls, m.name) != qs;
    assert D.MemberSlot(cls, m.name, D.MethodParamsKey) != qs;
    assert D.StoredParams(meta, cls, m.name) == D.StoredParams(st.meta, cls, m.name);
    assert RouteName(meta, cls, m.name) == RouteName(st.meta, cls, m.name);
  }

  /**
   * Arguments are built in parameter-index order whatever order the `@Body`
   * decorators ran in, and entries sharing an index keep their relative order.
   */
  lemma {:induction false} ArgumentsFollowIndexOrder(meta: Store, cls: ClassId, m: Member)
    requires m.name != "constructor" && m.isMethod
    requires AsText(Read(meta, MethodSlot(cls, m.name))).Some?
    ensures var params := SortByIndex(D.StoredParams(meta, cls, m.name));
      && SortedByIndex(params)
      && multiset(params) == multiset(D.StoredParams(meta, cls, m.name))
      && (forall k: nat :: WithIndex(params, k) == WithIndex(D.StoredParams(meta, cls, m.name), k))
      && (ActionFor(meta, cls, m).Ok? ==>
            && ActionFor(meta, cls, m).value.Some?
            && ActionFor(meta, cls, m).value.value.arguments
                 == BuildArguments(params, DesignTypes(meta, cls, m.name)))
  {
    var stored := D.StoredParams(meta, cls, m.name);
    forall k: nat ensures WithIndex(SortByIndex(stored), k) == WithIndex(stored, k) {
      SortStable(stored, k);
    }
  }

  // ---------------------------------------------------------------------
  // The per-request query binding (lines 138-166).

  /** `req.query`: the raw query string values by name. */
  type Query = map<string, string>

  /** The value is truthy: present and not the empty string. */
  predicate Present(query: Query, name: string)
  {
    name in query && query[name] != ""
  }

  /** What the handler does: answer 400 with a message, or call the action with the context then `values`. */
  datatype Binding = BadRequest(error: string) | Call(values: seq<JsValue>)

  /** `args[name] = value` on an object: an existing key keeps its position, a new key goes last. */
  function Assign(fields: seq<(string, JsValue)>, name: string, v: JsValue): (r: seq<(string, JsValue)>)
    ensures |r| == |fields| || |r| == |fields| + 1
    ensures (forall i :: 0 <= i < |fields| ==> fields[i].0 != name) ==> r == fields + [(name, v)]
    ensures forall i :: 0 <= i < |fields| && fields[i].0 == name && (forall j :: 0 <= j < i ==> fields[j].0 != name) ==>
      r == fields[i := (name, v)]
    decreases |fields|
  {
    if |fields| == 0 then [(name, v)]
    else if fields[0].0 == name then [(name, v)] + fields[1..]
    else [fields[0]] + Assign(fields[1..], name, v)
  }

  /** `Object.values(args)`. */
  function Values(fields: seq<(string, JsValue)>): (vs: seq<JsValue>)
    ensures |vs| == |fields|
    ensures forall i :: 0 <= i < |fields| ==> vs[i] == fields[i].1
  {
    seq(|fields|, i requires 0 <= i < |fields| => fields[i].1)
  }

  /** The coercion of a present query value for an argument. */
  function Coerce(a: ArgumentDescriptor, query: Query, parseNumber: string -> Option<real>): Result<JsValue, ParseError>
    requires Present(query, a.name)
  {
    ParseQueryValue(StrV(query[a.name]), Some(a.ty), parseNumber)
  }

  /** The argument is bindable: a missing value is optional, a present one coerces. */
  predicate Acceptable(a: ArgumentDescriptor, query: Query, parseNumber: string -> Option<real>)
  {
    a.source != "query" ||
    (if Present(query, a.name) then Coerce(a, query, parseNumber).Ok? else !a.required)
  }

  /** The 400 message the loop gives for a query argument: missing and required, or failing coercion. */
  predicate Rejects(a: ArgumentDescriptor, query: Query, parseNumber: string -> Option<real>, error: string)
  {
    if Present(query, a.name) then Coerce(a, query, parseNumber).Err? && error == a.name + " must be a " + a.ty
    else a.required && error == a.name + " is required"
  }

  /** The query-binding loop from the point where `fields` have been assigned. */
  function BindFrom(args: seq<ArgumentDescriptor>, query: Query, parseNumber: string -> Option<real>,
                    fields: seq<(string, JsValue)>): (b: Binding)
    ensures b.Call? <==> forall i :: 0 <= i < |args| ==> Acceptable(args[i], query, parseNumber)
    ensures b.BadRequest? ==>
      exists i :: && 0 <= i < |args| && args[i].source == "query"
                  && Rejects(args[i], query, parseNumber, b.error)
                  && (forall j :: 0 <= j < i ==> Acceptable(args[j], query, parseNumber))
    decreases |args|
  {
    if |args| == 0 then Call(Values(fields))
    else
      assert forall i :: 1 <= i < |args| ==> args[i] == args[1..][i - 1];
      var a := args[0];
      if a.source != "query" then BindFrom(args[1..], query, parseNumber, fields)
      else if !Present(query, a.name) then
        if a.required then BadRequest(a.name + " is required")
        else BindFrom(args[1..], query, parseNumber, fields)
      else
        match Coerce(a, query, parseNumber)
        case Err(_) => BadRequest(a.name + " must be a " + a.ty)
        case Ok(v) => BindFrom(args[1..], query, parseNumber, Assign(fields, a.name, v))
  }

  /**
   * The handler body: each query argument in descriptor order is required or
   * skipped when missing, coerced when present; body arguments are not passed.
   */
  function Bind(args: seq<ArgumentDescriptor>, query: Query, parseNumber: string -> Option<real>): (b: Binding)
    ensures b.Call? <==> forall i :: 0 <= i < |args| ==> Acceptable(args[i], query, parseNumber)
    ensures b.BadRequest? ==>
      exists i :: && 0 <= i < |args| && args[i].source == "query"
                  && Rejects(args[i], query, parseNumber, b.error)
                  && (forall j :: 0 <= j < i ==> Acceptable(args[j], query, parseNumber))
  {
    BindFrom(args, query, parseNumber, [])
  }

  /** The coerced values of the present query arguments, in descriptor order. */
  function Expected(args: seq<ArgumentDescriptor>, query: Query, parseNumber: string -> Option<real>): seq<JsValue>
    requires forall i :: 0 <= i < |args| ==> Acceptable(args[i], query, parseNumber)
    decreases |args|
  {
    if |args| == 0 then []
    else
      assert forall i :: 1 <= i < |args| ==> args[i] == args[1..][i - 1];
      var a := args[0];
      assert Acceptable(a, query, parseNumber);
      if a.source == "query" && Present(query, a.name)
      then [Coerce(a, query, parseNumber).value] + Expected(args[1..], query, parseNumber)
      else Expected(args[1..], query, parseNumber)
  }

  /** The names of the query arguments that are present. */
  function BoundNames(args: seq<ArgumentDescriptor>, query: Query): set<string>
  {
    set i | 0 <= i < |args| && args[i].source == "query" && Present(query, args[i].name) :: args[i].name
  }

  /** Query arguments have pairwise distinct names. */
  ghost predicate DistinctQueryNames(args: seq<ArgumentDescriptor>)
  {
    forall i, j :: 0 <= i < j < |args| && args[i].source == "query" && args[j].source == "query" ==>
      args[i].name != args[j].name
  }

  /**
   * With distinct names, the action receives exactly the coerced present query
   * values in descriptor order: skipped optionals are dropped, body arguments absent.
   */
  lemma {:induction false} BindPassesExpected(args: seq<ArgumentDescriptor>, query: Query,
                                              parseNumber: string -> Option<real>, fields: seq<(string, JsValue)>)
    requires DistinctQueryNames(args)
    requires forall i :: 0 <= i < |args| ==> Acceptable(args[i], query, parseNumber)
    requires forall k :: 0 <= k < |fields| ==> fields[k].0 !in BoundNames(args, query)
    ensures BindFrom(args, query, parseNumber, fields) == Call(Values(fields) + Expected(args, query, parseNumber))
    decreases |args|
  {
    if |args| > 0 {
      assert forall i :: 1 <= i < |args| ==> args[i] == args[1..][i - 1];
      var a := args[0];
      assert DistinctQueryNames(args[1..]);
      assert BoundNames(args[1..], query) <= BoundNames(args, query) by {
        forall n | n in BoundNames(args[1..], query) ensures n in BoundNames(args, query) {
          var j :| 0 <= j < |args[1..]| && args[1..][j].source == "query" && Present(query, args[1..][j].name) && args[1..][j].name == n;
          assert args[j + 1] == args[1..][j];
        }
      }
      if a.source == "query" && Present(query, a.name) {
        var v := Coerce(a, query, parseNumber).value;
        assert a.name in BoundNames(args, query);
        var fields' := Assign(fields, a.name, v);
        assert fields' == fields + [(a.name, v)];
        forall j | 0 <= j < |args[1..]| && args[1..][j].source == "query"
          ensures args[1..][j].name != a.name
        {
          assert args[1..][j] == args[j + 1];
        }
        assert a.name !in BoundNames(args[1..], query);
        BindPassesExpected(args[1..], query, parseNumber, fields');
        assert Values(fields') == Values(fields) + [v];
      } else {
        BindPassesExpected(args[1..], query, parseNumber, fields);
      }
    }
  }

  /** The request handler's outcome: 400 with `{error}` or the call with the context then the bound values. */
  datatype Response = Status400(error: string) | Invoked(values: seq<JsValue>)

  /** With distinct query names, a successful binding passes exactly the expected values. */
  lemma BindMatchesExpected(args: seq<ArgumentDescriptor>, query: Query, parseNumber: string -> Option<real>)
    ensures Bind(args, query, parseNumber).Call? && DistinctQueryNames(args) ==>
      Bind(args, query, parseNumber).values == Expected(args, query, parseNumber)
  {
    if Bind(args, query, parseNumber).Call? && DistinctQueryNames(args) {
      BindPassesExpected(args, query, parseNumber, []);
    }
  }

  /** The handler registered for one action. */
  function HandleRequest(action: Action, query: Query, parseNumber: string -> Option<real>): (resp: Response)
    ensures resp.Invoked? <==> forall i :: 0 <= i < |action.arguments| ==> Acceptable(action.arguments[i], query, parseNumber)
    ensures resp.Invoked? && DistinctQueryNames(action.arguments) ==>
      resp.values == Expected(action.arguments, query, parseNumber)
    ensures resp.Status400? ==>
      (exists i :: 0 <= i < |action.arguments| && action.arguments[i].source == "query"
                   && Rejects(action.arguments[i], query, parseNumber, resp.error)
                   && (forall j :: 0 <= j < i ==> Acceptable(action.arguments[j], query, parseNumber)))
  {
    BindMatchesExpected(action.arguments, query, parseNumber);
    match Bind(action.arguments, query, parseNumber)
    case BadRequest(e) => Status400(e)
    case Call(vs) => Invoked(vs)
  }
}
