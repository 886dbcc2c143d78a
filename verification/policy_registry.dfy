/**
 * The `@Policy(name)` decorator, the raw policy registry it fills, and the
 * name-to-policy registry that `mapPolicies` builds and `getPolicy` searches.
 */
module PolicyRegistry {
  import opened Wrappers
  import opened Metadata
  import opened AuthzTypes

  /** Metadata, the raw registry the decorator appends to, and the mapped registry. */
  datatype State = State(meta: Store, rawPolicies: seq<ClassId>, policies: seq<PolicyDescriptor>)

  function NameSlot(cls: ClassId): Slot { Slot(Ctor(cls), None, "policy_name") }

  /** `@Policy(name)`: stores the name on the class and appends the class to the raw registry, without a duplicate check. */
  function Policy(name: string, cls: ClassId, st: State): (st': State)
    ensures Read(st'.meta, Slot(Ctor(cls), None, "policy_name")) == Str(name)
    ensures forall s :: s != NameSlot(cls) ==> Read(st'.meta, s) == Read(st.meta, s)
    ensures st'.rawPolicies == st.rawPolicies + [cls]
    ensures st'.policies == st.policies
  {
    State(Define(st.meta, NameSlot(cls), Str(name)), st.rawPolicies + [cls], st.policies)
  }

  /** `registerPolicy`: appends one descriptor whose name is read from the class's metadata. */
  function RegisterPolicy(cls: ClassId, st: State): (st': State)
    ensures |st'.policies| == |st.policies| + 1
    ensures st'.policies[..|st.policies|] == st.policies
    ensures st'.policies[|st.policies|] == PolicyDescriptor(cls, Read(st.meta, NameSlot(cls)))
    ensures st'.meta == st.meta && st'.rawPolicies == st.rawPolicies
  {
    st.(policies := st.policies + [PolicyDescriptor(cls, Read(st.meta, NameSlot(cls)))])
  }

  /** `rawPoliciesRegistry.forEach(registerPolicy)` over the classes `classes`. */
  function RegisterAll(classes: seq<ClassId>, st: State): (st': State)
    ensures |st'.policies| == |st.policies| + |classes|
    ensures st'.policies[..|st.policies|] == st.policies
    ensures forall i :: 0 <= i < |classes| ==>
      st'.policies[|st.policies| + i] == PolicyDescriptor(classes[i], Read(st.meta, NameSlot(classes[i])))
    ensures st'.meta == st.meta && st'.rawPolicies == st.rawPolicies
    decreases |classes|
  {
    if |classes| == 0 then st
    else
      var st1 := RegisterPolicy(classes[0], st);
      var st' := RegisterAll(classes[1..], st1);
      assert forall i :: 1 <= i < |classes| ==> classes[1..][i - 1] == classes[i];
      st'
  }

  /** `mapPolicies`: registers every raw policy class, in raw-registry order. */
  function MapPolicies(st: State): (st': State)
    ensures |st'.policies| == |st.policies| + |st.rawPolicies|
    ensures st'.policies[..|st.policies|] == st.policies
    ensures forall i :: 0 <= i < |st.rawPolicies| ==>
      st'.policies[|st.policies| + i] == PolicyDescriptor(st.rawPolicies[i], Read(st.meta, NameSlot(st.rawPolicies[i])))
  {
    RegisterAll(st.rawPolicies, st)
  }

  /** `getPolicy(name)`: `Array.prototype.find` over the registry by exact name. */
  function GetPolicy(policies: seq<PolicyDescriptor>, name: string): Option<PolicyDescriptor>
    decreases |policies|
  {
    if |policies| == 0 then None
    else if policies[0].name == Str(name) then Some(policies[0])
    else GetPolicy(policies[1..], name)
  }

  /** A policy is found exactly when some entry carries the name, and what is found is the earliest such entry. */
  lemma {:induction false} GetPolicySpec(policies: seq<PolicyDescriptor>, name: string)
    ensures var r := GetPolicy(policies, name);
      && (r.Some? ==> exists i :: 0 <= i < |policies| && policies[i] == r.value && FirstNamed(policies, name, i))
      && (r.None? <==> forall i :: 0 <= i < |policies| ==> policies[i].name != Str(name))
    decreases |policies|
  {
    if |policies| > 0 {
      if policies[0].name == Str(name) {
        assert FirstNamed(policies, name, 0);
      } else {
        GetPolicySpec(policies[1..], name);
        ShiftFirstNamed(policies, name);
        assert forall i :: 1 <= i < |policies| ==> policies[i] == policies[1..][i - 1];
      }
    }
  }

  /** Skipping an entry that does not carry `name` shifts the first match by one. */
  lemma ShiftFirstNamed(policies: seq<PolicyDescriptor>, name: string)
    requires |policies| > 0 && policies[0].name != Str(name)
    ensures forall j :: FirstNamed(policies[1..], name, j) ==> FirstNamed(policies, name, j + 1)
  {
    forall j | FirstNamed(policies[1..], name, j)
      ensures FirstNamed(policies, name, j + 1)
    {
      assert forall k :: 1 <= k <= j ==> policies[k] == policies[1..][k - 1];
    }
  }

  /** Entry `i` carries `name` and no earlier entry does. */
  ghost predicate FirstNamed(policies: seq<PolicyDescriptor>, name: string, i: int)
  {
    && 0 <= i < |policies|
    && policies[i].name == Str(name)
    && forall j :: 0 <= j < i ==> policies[j].name != Str(name)
  }

  /** Entry `i` of the mapped registry is found by its own name unless an earlier entry shares it. */
  lemma {:induction false} GetPolicyFindsFirst(policies: seq<PolicyDescriptor>, name: string, i: nat)
    requires FirstNamed(policies, name, i)
    ensures GetPolicy(policies, name) == Some(policies[i])
  {
    if i > 0 {
      assert policies[0].name != Str(name);
      assert FirstNamed(policies[1..], name, i - 1);
      GetPolicyFindsFirst(policies[1..], name, i - 1);
    }
  }

  /** Decorating classes with `@Policy` in order, starting from nothing. */
  function Decorate(decls: seq<(ClassId, string)>, st: State): (st': State)
    ensures st'.rawPolicies == st.rawPolicies + seq(|decls|, i requires 0 <= i < |decls| => decls[i].0)
    ensures st'.policies == st.policies
    decreases |decls|
  {
    if |decls| == 0 then st
    else Decorate(decls[1..], Policy(decls[0].1, decls[0].0, st))
  }

  ghost predicate DistinctClasses(decls: seq<(ClassId, string)>)
  {
    forall i, j :: 0 <= i < j < |decls| ==> decls[i].0 != decls[j].0
  }

  /** After decorating distinct classes, each class's metadata holds the name its decorator gave it. */
  lemma {:induction false} DecorateStoresNames(decls: seq<(ClassId, string)>, st: State)
    requires DistinctClasses(decls)
    ensures forall i :: 0 <= i < |decls| ==> Read(Decorate(decls, st).meta, NameSlot(decls[i].0)) == Str(decls[i].1)
    decreases |decls|
  {
    if |decls| > 0 {
      var st1 := Policy(decls[0].1, decls[0].0, st);
      assert DistinctClasses(decls[1..]);
      DecorateStoresNames(decls[1..], st1);
      DecorateKeepsUntouched(decls[1..], st1, decls[0].0);
      forall i | 1 <= i < |decls|
        ensures Read(Decorate(decls, st).meta, NameSlot(decls[i].0)) == Str(decls[i].1)
      {
        assert decls[1..][i - 1] == decls[i];
      }
    }
  }

  /** Decorating other classes leaves a class's policy name alone. */
  lemma {:induction false} DecorateKeepsUntouched(decls: seq<(ClassId, string)>, st: State, cls: ClassId)
    requires forall i :: 0 <= i < |decls| ==> decls[i].0 != cls
    ensures Read(Decorate(decls, st).meta, NameSlot(cls)) == Read(st.meta, NameSlot(cls))
    decreases |decls|
  {
    if |decls| > 0 {
      var st1 := Policy(decls[0].1, decls[0].0, st);
      assert NameSlot(decls[0].0) != NameSlot(cls);
      DecorateKeepsUntouched(decls[1..], st1, cls);
    }
  }

  /**
   * Decorating distinct policy classes and then mapping them yields a registry
   * holding, in decoration order, each class with the name its decorator stored.
   */
  lemma DecorateThenMap(decls: seq<(ClassId, string)>, st: State)
    requires DistinctClasses(decls)
    requires st.rawPolicies == [] && st.policies == []
    ensures var reg := MapPolicies(Decorate(decls, st)).policies;
      && |reg| == |decls|
      && forall i :: 0 <= i < |decls| ==> reg[i] == PolicyDescriptor(decls[i].0, Str(decls[i].1))
  {
    var decorated := Decorate(decls, st);
    DecorateStoresNames(decls, st);
    var reg := MapPolicies(decorated).policies;
    forall i | 0 <= i < |decls|
      ensures reg[i] == PolicyDescriptor(decls[i].0, Str(decls[i].1))
    {
      assert decorated.rawPolicies[i] == decls[i].0;
    }
  }

  /**
   * Two classes decorated with the same name are both registered and the lookup
   * returns the one decorated first.
   */
  lemma DuplicateNameFindsFirst(name: string, c1: ClassId, c2: ClassId, st: State)
    requires c1 != c2
    requires st.rawPolicies == [] && st.policies == []
    ensures var reg := MapPolicies(Decorate([(c1, name), (c2, name)], st)).policies;
      && reg == [PolicyDescriptor(c1, Str(name)), PolicyDescriptor(c2, Str(name))]
      && GetPolicy(reg, name) == Some(PolicyDescriptor(c1, Str(name)))
  {
    DecorateThenMap([(c1, name), (c2, name)], st);
  }
}
