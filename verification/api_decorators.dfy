/**
 * The decorators of the parameter-binding generation (`Infra/Controllers`):
 * `@Controller(path)`, the verb decorators writing `"api:"`-prefixed keys,
 * `@Query(name?, required?)` and `@Body(name, required?)`.
 */
module ApiDecorators {
  import opened Wrappers
  import opened Metadata

  /** The metadata store together with this generation's raw controller registry. */
  datatype State = State(meta: Store, controllers: seq<ClassId>)

  const ControllerKey := "controller"
  const HttpMethodKey := "api:httpMethod"
  const HttpPathKey := "api:httpPath"
  const ParamNamesKey := "api:paramNames"
  const ParamSourcesKey := "api:paramSources"
  const MethodParamsKey := "method:params"

  function PathSlot(cls: ClassId): Slot { Slot(Ctor(cls), None, ControllerKey) }
  function MemberSlot(cls: ClassId, member: string, key: string): Slot { Slot(Proto(cls), Some(member), key) }

  /** The `paramNames` a verb decorator stored, `|| []`. */
  function StoredNames(meta: Store, cls: ClassId, member: string): seq<string>
  {
    match Read(meta, MemberSlot(cls, member, ParamNamesKey))
    case Names(names) => names
    case _ => []
  }

  /** The list `Query` stored, `|| []`. */
  function StoredSources(meta: Store, cls: ClassId, member: string): seq<SourceEntry>
  {
    match Read(meta, MemberSlot(cls, member, ParamSourcesKey))
    case ParamSources(l) => l
    case _ => []
  }

  /** The list `Body` stored, `|| []`. */
  function StoredParams(meta: Store, cls: ClassId, member: string): seq<ParamEntry>
  {
    match Read(meta, MemberSlot(cls, member, MethodParamsKey))
    case MethodParams(l) => l
    case _ => []
  }

  /** `required === "optional" ? false : true`. */
  function IsRequired(required: string): (b: bool)
    ensures !b <==> required == "optional"
  {
    required != "optional"
  }

  /** `@Controller(path)`: stores the path under `"controller"` and appends the class to the raw registry. */
  function Controller(path: string, cls: ClassId, st: State): (st': State)
    ensures Read(st'.meta, Slot(Ctor(cls), None, "controller")) == Str(path)
    ensures forall s :: s != PathSlot(cls) ==> Read(st'.meta, s) == Read(st.meta, s)
    ensures st'.controllers == st.controllers + [cls]
  {
    State(Define(st.meta, PathSlot(cls), Str(path)), st.controllers + [cls])
  }

  /** What a verb decorator stores for its optional `paramNames` argument. */
  function NamesValue(paramNames: Option<seq<string>>): MetaValue
  {
    match paramNames
    case None => Undefined
    case Some(l) => Names(l)
  }

  /**
   * `@HttpGet`, `@HttpPut`, `@HttpDelete` store the verb under `"api:httpMethod"`,
   * the name under `"api:httpPath"` and `paramNames` under `"api:paramNames"`;
   * `@HttpPost` stores the verb and the name only (its second argument is logged).
   * After `ParamsTransformer.Hydrate` the second argument at run time is an array
   * of parameter descriptors, not of names; `paramNames` models it as names. This
   * changes nothing observable: `@Query` is the only reader of this slot, and
   * parameter decorators run before the method decorator, so `@Query` always
   * finds no stored names.
   */
  function Http(verb: Verb, name: Option<string>, paramNames: Option<seq<string>>, cls: ClassId, member: string, st: State): (st': State)
    ensures Read(st'.meta, Slot(Proto(cls), Some(member), "api:httpMethod")) == Str(VerbName(verb))
    ensures Read(st'.meta, Slot(Proto(cls), Some(member), "api:httpPath")) == OptionalText(name)
    ensures verb != Post ==> Read(st'.meta, Slot(Proto(cls), Some(member), "api:paramNames")) == NamesValue(paramNames)
    ensures verb != Post ==> (StoredNames(st'.meta, cls, member) == if paramNames.Some? then paramNames.value else [])
    ensures forall s ::
      (s != MemberSlot(cls, member, HttpMethodKey) && s != MemberSlot(cls, member, HttpPathKey)
       && (verb == Post || s != MemberSlot(cls, member, ParamNamesKey)))
      ==> Read(st'.meta, s) == Read(st.meta, s)
    ensures st'.controllers == st.controllers
  {
    var m1 := Define(st.meta, MemberSlot(cls, member, HttpMethodKey), Str(VerbName(verb)));
    var m2 := Define(m1, MemberSlot(cls, member, HttpPathKey), OptionalText(name));
    if verb == Post then State(m2, st.controllers)
    else State(Define(m2, MemberSlot(cls, member, ParamNamesKey), NamesValue(paramNames)), st.controllers)
  }

  /**
   * `@Query(name?, required?)` on parameter `index`: when no source list is stored
   * yet, builds one entry per stored parameter name, marking only `index` as a query
   * source; an existing non-empty list is written back as it is. `name` is unused.
   */
  function Query(name: Option<string>, required: string, cls: ClassId, member: string, index: nat, st: State): (st': State)
    ensures var before := StoredSources(st.meta, cls, member);
      var after := StoredSources(st'.meta, cls, member);
      && Read(st'.meta, MemberSlot(cls, member, ParamSourcesKey)).ParamSources?
      && (|before| > 0 ==> after == before)
      && (|before| == 0 ==>
            var names := StoredNames(st.meta, cls, member);
            && |after| == |names|
            && forall i :: 0 <= i < |after| ==>
                 && after[i].index == i
                 && after[i].name == names[i]
                 && after[i].source == (if i == index then Some("query") else None)
                 && after[i].required == (required != "optional"))
    ensures forall s :: s != MemberSlot(cls, member, ParamSourcesKey) ==> Read(st'.meta, s) == Read(st.meta, s)
    ensures st'.controllers == st.controllers
  {
    var paramNames := StoredNames(st.meta, cls, member);
    var list := StoredSources(st.meta, cls, member);
    var list' :=
      if |list| == 0 then
        seq(|paramNames|, i requires 0 <= i < |paramNames| =>
          SourceEntry(i, paramNames[i], if i == index then Some("query") else None, IsRequired(required)))
      else list;
    var meta' := Define(st.meta, MemberSlot(cls, member, ParamSourcesKey), ParamSources(list'));
    assert StoredSources(meta', cls, member) == list';
    assert |list| == 0 ==> forall i :: 0 <= i < |list'| ==>
      list'[i] == SourceEntry(i, paramNames[i], if i == index then Some("query") else None, IsRequired(required));
    State(meta', st.controllers)
  }

  /** `@Body(name, required?)` on parameter `index`: appends one body entry to `"method:params"`. */
  function Body(name: string, required: string, cls: ClassId, member: string, index: nat, st: State): (st': State)
    ensures var before := StoredParams(st.meta, cls, member);
      StoredParams(st'.meta, cls, member) == before + [ParamEntry(index, name, "body", required != "optional")]
    ensures forall s :: s != MemberSlot(cls, member, MethodParamsKey) ==> Read(st'.meta, s) == Read(st.meta, s)
    ensures st'.controllers == st.controllers
  {
    var list := StoredParams(st.meta, cls, member);
    var entry := ParamEntry(index, name, "body", IsRequired(required));
    State(Define(st.meta, MemberSlot(cls, member, MethodParamsKey), MethodParams(list + [entry])), st.controllers)
  }
}
