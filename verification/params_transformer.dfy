/**
 * The build-time transformer that rewrites `@HttpGet`, `@HttpPost`, `@HttpPut`
 * and `@HttpDelete` decorators so their second argument lists the decorated
 * method's parameters: name, position and the types its annotation allows.
 * TypeScript syntax trees are reduced to the node kinds the transformer inspects.
 */
module ParamsTransformer {
  import opened Wrappers
  import opened Text

  // ---------------------------------------------------------------------
  // Type annotations and the expressions emitted for them.

  /** The keyword type kinds `getPrimitiveConstructor` knows, and every other keyword. */
  datatype Keyword = StringKeyword | NumberKeyword | BooleanKeyword | BigIntKeyword | SymbolKeyword | OtherKeyword(kind: nat)

  /** `ts.EntityName`: an identifier or a qualified name `left.right`. */
  datatype EntityName = Identifier(text: string) | Qualified(left: EntityName, right: string)

  /** The type-annotation node kinds the transformer distinguishes. */
  datatype TypeNode =
    | UndefinedKw
    | NullLit                  // a literal type whose literal is `null`
    | Keyword(k: Keyword)
    | TypeRef(typeName: EntityName)
    | ArrayT(elementType: TypeNode)
    | Union(types: seq<TypeNode>)
    | Other                    // any other node (other literals, tuples, functions, parentheses, ...)

  /** An emitted allowed-type expression: a string literal or an identifier. */
  datatype TypeExpr = StrLit(s: string) | Ident(name: string)

  /** `getPrimitiveConstructor`: the constructor for a primitive keyword. */
  function PrimitiveConstructor(k: Keyword): (r: Option<string>)
    ensures r.Some? <==> !k.OtherKeyword?
    ensures r.Some? ==> r.value in {"String", "Number", "Boolean", "BigInt", "Symbol"}
    ensures r.Some? ==> Lower(r.value) == KeywordSpelling(k)
  {
    match k
    case StringKeyword => Some("String")
    case NumberKeyword => Some("Number")
    case BooleanKeyword => Some("Boolean")
    case BigIntKeyword => Some("BigInt")
    case SymbolKeyword => Some("Symbol")
    case OtherKeyword(_) => None
  }

  /** `getPrimitiveWrapper`: case-insensitive match of a referenced type name against the wrapper classes. */
  function PrimitiveWrapper(typeName: string): (r: Option<string>)
    ensures r.Some? ==> r.value in {"String", "Number", "Boolean", "BigInt", "Symbol", "Date"}
    ensures r.Some? <==> Lower(typeName) in {"string", "number", "boolean", "bigint", "symbol", "date"}
    ensures r.Some? ==> Lower(r.value) == Lower(typeName)
  {
    var lowerName := Lower(typeName);
    if lowerName == "string" then Some("String")
    else if lowerName == "number" then Some("Number")
    else if lowerName == "boolean" then Some("Boolean")
    else if lowerName == "bigint" then Some("BigInt")
    else if lowerName == "symbol" then Some("Symbol")
    else if lowerName == "date" then Some("Date")
    else None
  }

  /** The identifiers of a name, leftmost first. */
  function Parts(n: EntityName): (ps: seq<string>)
    ensures |ps| >= 1
  {
    match n
    case Identifier(t) => [t]
    case Qualified(l, r) => Parts(l) + [r]
  }

  /** `getTypeName`: the identifiers of the name joined with `"."`. */
  function TypeName(n: EntityName): (r: string)
    ensures n.Identifier? ==> r == n.text
    ensures n.Qualified? ==> |r| > |n.right| && r[|r| - |n.right| - 1..] == "." + n.right
  {
    var ps := Parts(n);
    if n.Qualified? then
      assert ps[..|ps| - 1] == Parts(n.left) && ps[|ps| - 1] == n.right;
      Join(ps, ".")
    else
      Join(ps, ".")
  }

  /** A qualified name reads as its left part, a dot, and its right identifier. */
  lemma QualifiedTypeName(l: EntityName, r: string)
    ensures TypeName(Qualified(l, r)) == TypeName(l) + "." + r
  {
    var ps := Parts(Qualified(l, r));
    assert ps[..|ps| - 1] == Parts(l);
  }

  /** `extractTypeConstructor` for one (non-union) annotation: at most one expression. */
  function ExtractTypeConstructor(t: TypeNode): (r: seq<TypeExpr>)
    ensures |r| <= 1
    ensures forall e :: e in r && e.Ident? ==> e.name in {"String", "Number", "Boolean", "BigInt", "Symbol", "Date"}
    ensures t.Union? || t == Other ==> r == []
  {
    match t
    case UndefinedKw => [StrLit("undefined")]
    case NullLit => [StrLit("null")]
    case Keyword(k) =>
      (match PrimitiveConstructor(k)
       case Some(c) => [Ident(c)]
       case None => [])
    case TypeRef(n) =>
      var name := TypeName(n);
      if name == "" then []
      else
        (match PrimitiveWrapper(name)
         case Some(w) => [Ident(w)]
         case None => [StrLit(name)])
    case ArrayT(e) => ExtractTypeConstructor(e)
    case Union(_) => []
    case Other => []
  }

  /** The concatenated extraction of a union's members, in member order. */
  function ExtractMembers(ts: seq<TypeNode>): (r: seq<TypeExpr>)
    ensures |r| <= |ts|
    ensures forall e :: e in r <==> exists i :: 0 <= i < |ts| && e in ExtractTypeConstructor(ts[i])
  {
    if |ts| == 0 then []
    else
      assert forall i :: 0 <= i < |ts| - 1 ==> ts[..|ts| - 1][i] == ts[i];
      ExtractMembers(ts[..|ts| - 1]) + ExtractTypeConstructor(ts[|ts| - 1])
  }

  /** `extractAllowedTypes(typeNode, isOptional)`. */
  function ExtractAllowedTypes(t: Option<TypeNode>, isOptional: bool): (r: seq<TypeExpr>)
    ensures isOptional ==> |r| >= 1 && r[0] == StrLit("optional")
    ensures t.None? ==> r == (if isOptional then [StrLit("optional")] else [])
    ensures t.Some? && t.value.Union? ==> |r| <= (if isOptional then 1 else 0) + |t.value.types|
    ensures t.Some? && !t.value.Union? ==> |r| <= (if isOptional then 2 else 1)
    ensures var k := if isOptional then 1 else 0;
      && |r| >= k
      && (t.Some? && !t.value.Union? ==> r[k..] == ExtractTypeConstructor(t.value))
      && (t.Some? && t.value.Union? ==> r[k..] == ExtractMembers(t.value.types))
  {
    var types := if isOptional then [StrLit("optional")] else [];
    match t
    case None => types
    case Some(Union(members)) => types + ExtractMembers(members)
    case Some(n) => types + ExtractTypeConstructor(n)
  }

  /** A union extracts as the concatenation of its parts' extractions. */
  lemma {:induction false} UnionConcatenates(a: seq<TypeNode>, b: seq<TypeNode>)
    ensures ExtractMembers(a + b) == ExtractMembers(a) + ExtractMembers(b)
    decreases |b|
  {
    if |b| == 0 {
      assert a + b == a;
    } else {
      var b' := b[..|b| - 1];
      assert (a + b)[..|a + b| - 1] == a + b';
      UnionConcatenates(a, b');
    }
  }

  /** A union of one member extracts like that member on its own. */
  lemma SingletonUnion(t: TypeNode, isOptional: bool)
    requires !t.Union?
    ensures ExtractAllowedTypes(Some(Union([t])), isOptional) == ExtractAllowedTypes(Some(t), isOptional)
  {
    assert [t][..0] == [];
  }

  /** Arrays, however nested, extract like their element type. */
  function ArrayOf(t: TypeNode, depth: nat): TypeNode
  {
    if depth == 0 then t else ArrayT(ArrayOf(t, depth - 1))
  }

  lemma {:induction false} ArraysExtractElement(t: TypeNode, depth: nat)
    ensures ExtractTypeConstructor(ArrayOf(t, depth)) == ExtractTypeConstructor(t)
    decreases depth
  {
    if depth > 0 {
      ArraysExtractElement(t, depth - 1);
    }
  }

  /** The keyword kind and the identically spelled type reference (in any case) both yield the constructor. */
  function KeywordSpelling(k: Keyword): string
    requires !k.OtherKeyword?
  {
    match k
    case StringKeyword => "string"
    case NumberKeyword => "number"
    case BooleanKeyword => "boolean"
    case BigIntKeyword => "bigint"
    case SymbolKeyword => "symbol"
  }

  lemma KeywordMatchesReference(k: Keyword, spelled: string)
    requires !k.OtherKeyword? && Lower(spelled) == KeywordSpelling(k)
    ensures ExtractTypeConstructor(Keyword(k)) == ExtractTypeConstructor(TypeRef(Identifier(spelled)))
  {
    assert Parts(Identifier(spelled)) == [spelled];
    assert spelled != "" by { assert |Lower(spelled)| > 0; }
  }

  /** The names `getPrimitiveWrapper` recognises, lower-cased. */
  const WrapperNames: set<string> := {"string", "number", "boolean", "bigint", "symbol", "date"}

  /**
   * A type reference with a non-empty name yields the wrapper identifier when its
   * name is a wrapper's in any case, and otherwise the name itself as a string literal.
   */
  lemma TypeReferenceRule(n: EntityName)
    requires TypeName(n) != ""
    ensures var r := ExtractTypeConstructor(TypeRef(n));
      && (Lower(TypeName(n)) in WrapperNames ==> |r| == 1 && r[0].Ident? && Lower(r[0].name) == Lower(TypeName(n)))
      && (Lower(TypeName(n)) !in WrapperNames ==> r == [StrLit(TypeName(n))])
  {
  }

  /** The keyword and literal kinds: `undefined` and `null` as strings, primitive keywords as their constructors. */
  lemma BasicKinds(k: Keyword)
    ensures ExtractTypeConstructor(UndefinedKw) == [StrLit("undefined")]
    ensures ExtractTypeConstructor(NullLit) == [StrLit("null")]
    ensures !k.OtherKeyword? ==>
      (&& |ExtractTypeConstructor(Keyword(k))| == 1
       && ExtractTypeConstructor(Keyword(k))[0].Ident?
       && Lower(ExtractTypeConstructor(Keyword(k))[0].name) == KeywordSpelling(k))
    ensures k.OtherKeyword? ==> ExtractTypeConstructor(Keyword(k)) == []
  {
    if !k.OtherKeyword? {
      assert Lower(PrimitiveConstructor(k).value) == KeywordSpelling(k);
    }
  }

  /** Without a question token the list can still begin with `"optional"`: a type named `optional`. */
  lemma OptionalNamedTypeLooksOptional()
    ensures ExtractAllowedTypes(Some(TypeRef(Identifier("optional"))), false) == [StrLit("optional")]
  {
    assert Parts(Identifier("optional")) == ["optional"];
    assert Lower("optional") == "optional";
  }

  // ---------------------------------------------------------------------
  // Parameter descriptors and the decorator rewrite.

  /** A parameter's name: an identifier, or a destructuring pattern. */
  datatype ParamName = IdentName(text: string) | BindingPattern

  /** A method parameter: name, `?` token, annotation. */
  datatype Param = Param(name: ParamName, questionToken: bool, ty: Option<TypeNode>)

  /** The emitted `{ index, name, AllowedTypes }` object literal. */
  datatype Descriptor = Descriptor(index: nat, name: string, allowedTypes: seq<TypeExpr>)

  /** The descriptor for a parameter at `index`, or `null` for a pattern. */
  function DescriptorAt(p: Param, index: nat): Option<Descriptor>
  {
    match p.name
    case BindingPattern => None
    case IdentName(text) => Some(Descriptor(index, text, ExtractAllowedTypes(p.ty, p.questionToken)))
  }

  /** `parameters.map(...).filter(desc => desc !== null)` over the parameters from position `k` on. */
  function DescriptorsFrom(params: seq<Param>, k: nat): (ds: seq<Descriptor>)
    requires k <= |params|
    ensures forall i :: 0 <= i < |ds| ==> k <= ds[i].index < |params|
    ensures forall i :: 0 <= i < |ds| ==> DescriptorAt(params[ds[i].index], ds[i].index) == Some(ds[i])
    ensures forall i, j :: 0 <= i < j < |ds| ==> ds[i].index < ds[j].index
    decreases |params| - k
  {
    if k == |params| then []
    else
      var rest := DescriptorsFrom(params, k + 1);
      match DescriptorAt(params[k], k)
      case None => rest
      case Some(d) => [d] + rest
  }

  /** Every identifier parameter from position `k` on gets a descriptor. */
  lemma {:induction false} DescriptorsComplete(params: seq<Param>, k: nat, p: nat)
    requires k <= p < |params| && params[p].name.IdentName?
    ensures exists i :: 0 <= i < |DescriptorsFrom(params, k)| && DescriptorsFrom(params, k)[i].index == p
    decreases p - k
  {
    var ds := DescriptorsFrom(params, k);
    if p == k {
      assert ds[0].index == p;
    } else {
      var rest := DescriptorsFrom(params, k + 1);
      DescriptorsComplete(params, k + 1, p);
      var i :| 0 <= i < |rest| && rest[i].index == p;
      if DescriptorAt(params[k], k).Some? {
        assert ds[i + 1] == rest[i];
      } else {
        assert ds[i] == rest[i];
      }
    }
  }

  /**
   * The parameter descriptors of a method: identifier parameters only, each
   * keeping its original position and its name, with its allowed types.
   */
  function ParamDescriptors(params: seq<Param>): (ds: seq<Descriptor>)
    ensures forall i :: 0 <= i < |ds| ==>
      && ds[i].index < |params|
      && params[ds[i].index].name == IdentName(ds[i].name)
      && ds[i].allowedTypes == ExtractAllowedTypes(params[ds[i].index].ty, params[ds[i].index].questionToken)
    ensures forall i, j :: 0 <= i < j < |ds| ==> ds[i].index < ds[j].index
    ensures forall k :: 0 <= k < |params| && params[k].name.IdentName? ==> exists i :: 0 <= i < |ds| && ds[i].index == k
  {
    var ds := DescriptorsFrom(params, 0);
    assert forall k :: 0 <= k < |params| && params[k].name.IdentName? ==> exists i :: 0 <= i < |ds| && ds[i].index == k by {
      forall k | 0 <= k < |params| && params[k].name.IdentName?
        ensures exists i :: 0 <= i < |ds| && ds[i].index == k
      {
        DescriptorsComplete(params, 0, k);
      }
    }
    ds
  }

  /** A decorator-call argument: `void 0`, a parameter-descriptor array, or an untouched source expression. */
  datatype Arg = VoidZero | ParamsArray(descriptors: seq<Descriptor>) | SourceArg(ref: nat)

  /** The callee of a decorator call. */
  datatype Callee = CalleeIdent(name: string) | CalleeMember(objectRef: nat, name: string) | CalleeOther(ref: nat)

  /** A decorator's expression. */
  datatype DecoratorExpr = BareIdent(name: string) | Call(callee: Callee, args: seq<Arg>) | OtherExpr(ref: nat)

  /**
   * `getDecoratorName`: a bare identifier names itself; a call is named by its
   * callee's identifier or by the property its member access reads; anything else has no name.
   */
  function DecoratorName(e: DecoratorExpr): (r: Option<string>)
    ensures r.None? <==> e.OtherExpr? || (e.Call? && e.callee.CalleeOther?)
    ensures e.BareIdent? ==> r == Some(e.name)
    ensures e.Call? && !e.callee.CalleeOther? ==> r == Some(e.callee.name)
  {
    match e
    case BareIdent(n) => Some(n)
    case Call(CalleeIdent(n), _) => Some(n)
    case Call(CalleeMember(_, n), _) => Some(n)
    case _ => None
  }

  /** `HTTP_DECORATORS`. */
  const HttpDecorators: seq<string> := ["HttpGet", "HttpPost", "HttpPut", "HttpDelete"]

  /**
   * `hydrateParamsArg`: the parameter-descriptor array becomes the second argument;
   * a missing first argument becomes `void 0`; arguments after the second are kept.
   */
  function Hydrate(e: DecoratorExpr, params: seq<Param>): (r: DecoratorExpr)
    ensures e.OtherExpr? ==> r == e
    ensures e.BareIdent? ==> r == Call(CalleeIdent(e.name), [VoidZero, ParamsArray(ParamDescriptors(params))])
    ensures e.Call? ==>
      && r.Call? && r.callee == e.callee
      && |r.args| == (if |e.args| < 2 then 2 else |e.args|)
      && r.args[0] == (if |e.args| == 0 then VoidZero else e.args[0])
      && r.args[1] == ParamsArray(ParamDescriptors(params))
      && r.args[2..] == (if |e.args| < 2 then [] else e.args[2..])
    ensures DecoratorName(r) == DecoratorName(e)
  {
    var paramsArray := ParamsArray(ParamDescriptors(params));
    match e
    case BareIdent(n) => Call(CalleeIdent(n), [VoidZero, paramsArray])
    case Call(callee, args) =>
      var newArgs :=
        if |args| == 0 then [VoidZero, paramsArray]
        else if |args| == 1 then [args[0], paramsArray]
        else [args[0], paramsArray] + args[2..];
      Call(callee, newArgs)
    case OtherExpr(_) => e
  }

  // ---------------------------------------------------------------------
  // The tree walk.

  /** The node kinds that matter to the walk: the two that enclose a decorator's method, and every other. */
  datatype NodeKind = MethodDecl(params: seq<Param>) | FunctionDecl(params: seq<Param>) | OtherKind(tag: nat)

  /** A syntax node: a decorator (a leaf here) or a node with children. */
  datatype Node = DecoratorNode(expr: DecoratorExpr) | Inner(kind: NodeKind, children: seq<Node>)

  /** The parameters of the innermost method or function on the parent stack, searched from the top. */
  function Enclosing(stack: seq<NodeKind>): (r: Option<seq<Param>>)
    ensures r.None? <==> forall i :: 0 <= i < |stack| ==> stack[i].OtherKind?
  {
    if |stack| == 0 then None
    else
      var top := stack[|stack| - 1];
      assert forall i :: 0 <= i < |stack| - 1 ==> stack[..|stack| - 1][i] == stack[i];
      if !top.OtherKind? then Some(top.params) else Enclosing(stack[..|stack| - 1])
  }

  /** The decorator is rewritten: it is named like an HTTP decorator and a method or function encloses it. */
  predicate Rewritten(e: DecoratorExpr, stack: seq<NodeKind>)
  {
    DecoratorName(e).Some? && DecoratorName(e).value in HttpDecorators && Enclosing(stack).Some?
  }

  /** `visit`: rewrites qualifying decorators, otherwise pushes the node and visits its children. */
  function Visit(n: Node, stack: seq<NodeKind>): (r: Node)
    ensures n.DecoratorNode? <==> r.DecoratorNode?
    ensures n.DecoratorNode? && Rewritten(n.expr, stack) ==> r.expr == Hydrate(n.expr, Enclosing(stack).value)
    ensures n.DecoratorNode? && !Rewritten(n.expr, stack) ==> r == n
    ensures n.Inner? ==> r.kind == n.kind && |r.children| == |n.children|
    ensures n.Inner? ==> forall i :: 0 <= i < |n.children| ==> r.children[i] == Visit(n.children[i], stack + [n.kind])
    decreases n
  {
    match n
    case DecoratorNode(e) =>
      if Rewritten(e, stack) then DecoratorNode(Hydrate(e, Enclosing(stack).value)) else n
    case Inner(k, cs) =>
      Inner(k, seq(|cs|, i requires 0 <= i < |cs| => Visit(cs[i], stack + [k])))
  }

  /** No decorator below `n` would be rewritten (names only; enclosing methods aside). */
  predicate NoHttpDecorators(n: Node)
    decreases n
  {
    match n
    case DecoratorNode(e) => !(DecoratorName(e).Some? && DecoratorName(e).value in HttpDecorators)
    case Inner(_, cs) => forall i :: 0 <= i < |cs| ==> NoHttpDecorators(cs[i])
  }

  /** A tree without HTTP decorators comes out unchanged. */
  lemma {:induction false} UntouchedWithoutHttpDecorators(n: Node, stack: seq<NodeKind>)
    requires NoHttpDecorators(n)
    ensures Visit(n, stack) == n
    decreases n
  {
    match n
    case DecoratorNode(_) =>
    case Inner(k, cs) =>
      forall i | 0 <= i < |cs| ensures Visit(cs[i], stack + [k]) == cs[i] {
        UntouchedWithoutHttpDecorators(cs[i], stack + [k]);
      }
      assert Visit(n, stack).children == cs;
  }

  /** A decorator on a method is hydrated with that method's parameters. */
  lemma MethodDecoratorGetsItsParams(params: seq<Param>, e: DecoratorExpr, others: seq<Node>, stack: seq<NodeKind>)
    requires DecoratorName(e).Some? && DecoratorName(e).value in HttpDecorators
    ensures Visit(Inner(MethodDecl(params), [DecoratorNode(e)] + others), stack).children[0]
         == DecoratorNode(Hydrate(e, params))
  {
    var k := MethodDecl(params);
    assert Enclosing(stack + [k]) == Some(params);
  }

  /** The source file's statements are visited with an empty parent stack. */
  datatype SourceFile = SourceFile(statements: seq<Node>)

  function Transform(sf: SourceFile): (r: SourceFile)
    ensures |r.statements| == |sf.statements|
    ensures forall i :: 0 <= i < |sf.statements| && NoHttpDecorators(sf.statements[i]) ==> r.statements[i] == sf.statements[i]
  {
    var out := seq(|sf.statements|, i requires 0 <= i < |sf.statements| => Visit(sf.statements[i], []));
    assert forall i :: 0 <= i < |sf.statements| && NoHttpDecorators(sf.statements[i]) ==> out[i] == sf.statements[i] by {
      forall i | 0 <= i < |sf.statements| && NoHttpDecorators(sf.statements[i]) ensures out[i] == sf.statements[i] {
        UntouchedWithoutHttpDecorators(sf.statements[i], []);
      }
    }
    SourceFile(out)
  }
}
