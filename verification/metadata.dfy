/**
 * The reflect-metadata store shared by every decorator of the repository:
 * a process-wide map from (target, optional member, key) to a value.
 * `Reflect.defineMetadata` is `Define`, `Reflect.getMetadata` is `Read`.
 * The values are the shapes the decorators and the TypeScript compiler
 * actually store; the reflective view of a class (`Object.getOwnPropertyNames`
 * of its prototype) is given as a `ClassShape`.
 */
module Metadata {
  import opened Wrappers

  /** Identity of a class (the constructor object). */
  type ClassId = nat

  /** Class decorators receive the constructor; member decorators the prototype. */
  datatype Target = Ctor(cls: ClassId) | Proto(cls: ClassId)

  /** One metadata cell: `(target, propertyKey?, metadataKey)`. */
  datatype Slot = Slot(target: Target, member: Option<string>, key: string)

  /** `ActionMethod = "get" | "post" | "put" | "delete"`. */
  datatype Verb = Get | Post | Put | Delete

  /** The lower-case verb string the decorators store. */
  function VerbName(v: Verb): (s: string)
    ensures s in {"get", "post", "put", "delete"}
  {
    match v
    case Get => "get"
    case Post => "post"
    case Put => "put"
    case Delete => "delete"
  }

  /**
   * One authorization requirement as `Authorize` stores it: a policy name,
   * an array of names (identified by its object reference `ref`, because
   * `Array.prototype.includes` compares arrays by reference), or any other
   * object, which the request loop rejects.
   */
  datatype Requirement =
    | PolicyName(name: string)
    | PolicyGroup(ref: nat, names: seq<string>)
    | NotAPolicy(ref: nat)

  /** A constructor as it appears in `design:paramtypes`. */
  datatype RuntimeType =
    | StringCtor
    | NumberCtor
    | BooleanCtor
    | NamedType(name: string)   // any other function or object with a `name`
    | NoType                    // `undefined`, or an object without a `name`

  /** An entry `Query` writes under `"api:paramSources"`; `source` is `null` off the decorated index. */
  datatype SourceEntry = SourceEntry(index: nat, name: string, source: Option<string>, required: bool)

  /** An entry `Body` writes under `"method:params"`. */
  datatype ParamEntry = ParamEntry(index: nat, name: string, source: string, required: bool)

  /** The values stored in the metadata map. */
  datatype MetaValue =
    | Undefined
    | Str(s: string)
    | Names(names: seq<string>)
    | Requirements(reqs: seq<Requirement>)
    | ParamTypes(types: seq<RuntimeType>)
    | ParamSources(sources: seq<SourceEntry>)
    | MethodParams(params: seq<ParamEntry>)

  type Store = map<Slot, MetaValue>

  /** `Reflect.getMetadata`: a missing cell reads as `undefined`. */
  function Read(st: Store, slot: Slot): MetaValue
  {
    if slot in st then st[slot] else Undefined
  }

  /** `Reflect.defineMetadata`: overwrites exactly one cell. */
  function Define(st: Store, slot: Slot, v: MetaValue): (st': Store)
    ensures Read(st', slot) == v
    ensures forall s :: s != slot ==> Read(st', s) == Read(st, s)
    ensures st'.Keys == st.Keys + {slot}
  {
    st[slot := v]
  }

  /** JavaScript truthiness of a stored value read as a string: `""` and `undefined` are falsy. */
  function AsText(v: MetaValue): (r: Option<string>)
    ensures r.Some? ==> v == Str(r.value) && r.value != ""
    ensures r.None? ==> !(v.Str? && v.s != "")
  {
    match v
    case Str(s) => if s != "" then Some(s) else None
    case _ => None
  }

  /** The value a decorator stores for an optional string argument. */
  function OptionalText(name: Option<string>): (v: MetaValue)
    ensures name.None? <==> v == Undefined
    ensures name.Some? ==> v == Str(name.value)
  {
    match name
    case None => Undefined
    case Some(s) => Str(s)
  }

  /** One own property of a controller prototype, in `getOwnPropertyNames` order. */
  datatype Member = Member(name: string, isMethod: bool)

  /** A controller class as seen through its prototype. */
  datatype ClassShape = ClassShape(cls: ClassId, members: seq<Member>)
}
