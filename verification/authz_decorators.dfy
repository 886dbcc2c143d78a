/**
 * The decorators of the authorization-aware generation (`infra/Controllers`):
 * `@Controller(path)`, `@Authorize(policy?)` and the four verb decorators.
 */
module AuthzControllerDecorators {
  import opened Wrappers
  import opened Metadata

  /** The metadata store together with this generation's raw controller registry. */
  datatype State = State(meta: Store, controllers: seq<ClassId>)

  /** `CONTROLLER_META_KEYS`. */
  const ControllerPathKey := "controller_path"
  const HttpMethodKey := "httpMethod"
  const HttpMethodNameKey := "httpMethodName"
  const AuthPoliciesKey := "authPolicies"

  function PathSlot(cls: ClassId): Slot { Slot(Ctor(cls), None, ControllerPathKey) }
  function MethodSlot(cls: ClassId, member: string): Slot { Slot(Proto(cls), Some(member), HttpMethodKey) }
  function NameSlot(cls: ClassId, member: string): Slot { Slot(Proto(cls), Some(member), HttpMethodNameKey) }
  function PoliciesSlot(cls: ClassId, member: string): Slot { Slot(Proto(cls), Some(member), AuthPoliciesKey) }

  /** The requirement list stored for a member; `getMetadata(...) || []`. */
  function StoredRequirements(meta: Store, cls: ClassId, member: string): seq<Requirement>
  {
    match Read(meta, PoliciesSlot(cls, member))
    case Requirements(reqs) => reqs
    case _ => []   // only `Authorize` writes this key, and it always writes a list
  }

  /** `@Controller(path)`: stores the path under `"controller_path"` and appends the class to the raw registry. */
  function Controller(path: string, cls: ClassId, st: State): (st': State)
    ensures Read(st'.meta, Slot(Ctor(cls), None, "controller_path")) == Str(path)
    ensures forall s :: s != PathSlot(cls) ==> Read(st'.meta, s) == Read(st.meta, s)
    ensures st'.controllers == st.controllers + [cls]
  {
    State(Define(st.meta, PathSlot(cls), Str(path)), st.controllers + [cls])
  }

  /** No requirement occurs twice. */
  ghost predicate Distinct(reqs: seq<Requirement>)
  {
    forall i, j :: 0 <= i < j < |reqs| ==> reqs[i] != reqs[j]
  }

  /** JavaScript truthiness of the `policy` argument: `undefined` and `""` are falsy, arrays and objects are not. */
  predicate Truthy(policy: Option<Requirement>)
  {
    policy.Some? && policy.value != PolicyName("")
  }

  /**
   * `@Authorize(policy?)`: appends a truthy policy not already in the member's
   * list (`includes` compares names by value and arrays by reference) and
   * writes the list back.
   */
  function Authorize(policy: Option<Requirement>, cls: ClassId, member: string, st: State): (st': State)
    ensures var before := StoredRequirements(st.meta, cls, member);
      var after := StoredRequirements(st'.meta, cls, member);
      && |before| <= |after| <= |before| + 1
      && after[..|before|] == before
      && (Truthy(policy) ==> policy.value in after)
      && (|after| > |before| ==> Truthy(policy) && after[|before|] == policy.value)
      && (Distinct(before) ==> Distinct(after))
    ensures Read(st'.meta, PoliciesSlot(cls, member)).Requirements?
    ensures forall s :: s != PoliciesSlot(cls, member) ==> Read(st'.meta, s) == Read(st.meta, s)
    ensures st'.controllers == st.controllers
  {
    var policies := StoredRequirements(st.meta, cls, member);
    var next := if Truthy(policy) && policy.value !in policies then policies + [policy.value] else policies;
    State(Define(st.meta, PoliciesSlot(cls, member), Requirements(next)), st.controllers)
  }

  /** `Authorize(p)` with a name not yet present appends it, keeping the earlier entries in order. */
  lemma AuthorizeAppendsNew(p: Requirement, cls: ClassId, member: string, st: State)
    requires p != PolicyName("")
    requires p !in StoredRequirements(st.meta, cls, member)
    ensures var before := StoredRequirements(st.meta, cls, member);
      var after := StoredRequirements(Authorize(Some(p), cls, member, st).meta, cls, member);
      && |after| == |before| + 1
      && after[..|before|] == before
      && after[|before|] == p
  {
  }

  /** Applying `Authorize` with the same policy twice is the same as applying it once. */
  lemma AuthorizeIdempotent(p: Option<Requirement>, cls: ClassId, member: string, st: State)
    ensures var once := Authorize(p, cls, member, st);
      Authorize(p, cls, member, once).meta == once.meta
  {
    var once := Authorize(p, cls, member, st);
    var twice := Authorize(p, cls, member, once);
    var l := StoredRequirements(once.meta, cls, member);
    assert Truthy(p) ==> p.value in l;
    assert StoredRequirements(twice.meta, cls, member) == l;
  }

  /** `Authorize()` and `Authorize("")` leave the stored list as it was. */
  lemma AuthorizeFalsyKeepsList(p: Option<Requirement>, cls: ClassId, member: string, st: State)
    requires p == None || p == Some(PolicyName(""))
    ensures StoredRequirements(Authorize(p, cls, member, st).meta, cls, member) == StoredRequirements(st.meta, cls, member)
  {
  }

  /** A freshly written array is appended even when an equal-looking array is already stored. */
  lemma FreshGroupAlwaysAppended(ref: nat, names: seq<string>, cls: ClassId, member: string, st: State)
    requires forall r :: r in StoredRequirements(st.meta, cls, member) && r.PolicyGroup? ==> r.ref != ref
    ensures var before := StoredRequirements(st.meta, cls, member);
      StoredRequirements(Authorize(Some(PolicyGroup(ref, names)), cls, member, st).meta, cls, member)
        == before + [PolicyGroup(ref, names)]
  {
  }

  /**
   * `@HttpPost(name?)`, `@HttpGet(name?)`, `@HttpPut(name?)`, `@HttpDelete(name?)`:
   * the lower-case verb under `"httpMethod"` and the route name (possibly
   * `undefined`) under `"httpMethodName"`, for `(prototype, member)` only.
   */
  function Http(verb: Verb, name: Option<string>, cls: ClassId, member: string, st: State): (st': State)
    ensures Read(st'.meta, Slot(Proto(cls), Some(member), "httpMethod")) == Str(VerbName(verb))
    ensures Read(st'.meta, Slot(Proto(cls), Some(member), "httpMethodName")) == OptionalText(name)
    ensures forall s :: s != MethodSlot(cls, member) && s != NameSlot(cls, member) ==>
      Read(st'.meta, s) == Read(st.meta, s)
    ensures st'.controllers == st.controllers
  {
    var m1 := Define(st.meta, MethodSlot(cls, member), Str(VerbName(verb)));
    State(Define(m1, NameSlot(cls, member), OptionalText(name)), st.controllers)
  }
}
