/**
 * The oldest decorator set (lower-case `controllers` directory): a class
 * decorator recording the base path and four verb decorators recording the
 * verb and the optional route name. No builder in this model reads it.
 */
module LegacyControllerDecorators {
  import opened Wrappers
  import opened Metadata

  /** The metadata store together with this generation's raw controller registry. */
  datatype State = State(meta: Store, controllers: seq<ClassId>)

  function PathSlot(cls: ClassId): Slot { Slot(Ctor(cls), None, "controller") }
  function MethodSlot(cls: ClassId, member: string): Slot { Slot(Proto(cls), Some(member), "httpMethod") }
  function NameSlot(cls: ClassId, member: string): Slot { Slot(Proto(cls), Some(member), "httpMethodName") }

  /** `@Controller(path)`: stores the path on the class and appends it to the raw registry. */
  function Controller(path: string, cls: ClassId, st: State): (st': State)
    ensures Read(st'.meta, Slot(Ctor(cls), None, "controller")) == Str(path)
    ensures forall s :: s != PathSlot(cls) ==> Read(st'.meta, s) == Read(st.meta, s)
    ensures |st'.controllers| == |st.controllers| + 1
    ensures st'.controllers[..|st.controllers|] == st.controllers
    ensures st'.controllers[|st.controllers|] == cls
  {
    State(Define(st.meta, PathSlot(cls), Str(path)), st.controllers + [cls])
  }

  /**
   * `@HttpPost(name?)`, `@HttpGet(name?)`, `@HttpPut(name?)`, `@HttpDelete(name?)`:
   * each stores its lower-case verb and the route name (`undefined` when omitted)
   * for `(prototype, member)` and touches nothing else.
   */
  function Http(verb: Verb, name: Option<string>, cls: ClassId, member: string, st: State): (st': State)
    ensures Read(st'.meta, Slot(Proto(cls), Some(member), "httpMethod")) == Str(VerbName(verb))
    ensures Read(st'.meta, Slot(Proto(cls), Some(member), "httpMethodName")) == OptionalText(name)
    ensures forall s :: s != MethodSlot(cls, member) && s != NameSlot(cls, member) ==>
      Read(st'.meta, s) == Read(st.meta, s)
    ensures st'.controllers == st.controllers
  {
    var m1 := Define(st.meta, MethodSlot(cls, member), Str(VerbName(verb)));
    State(Define(m1, NameSlot(cls, member), OptionalText(name)), st.controllers)
  }

  /** Decorating two members never lets one member's verb leak into the other's. */
  lemma {:induction false} HttpKeepsOtherMembers(v1: Verb, n1: Option<string>, v2: Verb, n2: Option<string>,
                                                 cls: ClassId, m1: string, m2: string, st: State)
    requires m1 != m2
    ensures var st' := Http(v2, n2, cls, m2, Http(v1, n1, cls, m1, st));
      && Read(st'.meta, MethodSlot(cls, m1)) == Str(VerbName(v1))
      && Read(st'.meta, NameSlot(cls, m1)) == OptionalText(n1)
      && Read(st'.meta, MethodSlot(cls, m2)) == Str(VerbName(v2))
  {
    var st1 := Http(v1, n1, cls, m1, st);
    assert MethodSlot(cls, m1) != MethodSlot(cls, m2) && MethodSlot(cls, m1) != NameSlot(cls, m2);
    assert NameSlot(cls, m1) != MethodSlot(cls, m2) && NameSlot(cls, m1) != NameSlot(cls, m2);
  }
}
