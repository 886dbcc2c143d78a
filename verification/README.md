# backy: decorator-driven controllers, authorization policies and repository, in Dafny

This project models the core of backy. backy is a small TypeScript web-server framework. Classes and methods are
annotated with decorators, and the decorators record routing, authorization and parameter metadata in a
reflect-metadata store. At start-up, registration code reads that metadata back. It turns each controller class
into a route table and, for every request, runs the action's authorization chain or binds query-string
arguments before it calls the action. Beside this sit a generic in-memory repository and a compile-time
transformer. The transformer rewrites `@HttpGet`/`@HttpPost`/`@HttpPut`/`@HttpDelete` decorators so that they
carry descriptors of the decorated method's parameters.

The repository contains three generations of the controller layer. They use different metadata keys and are
modelled separately, each with its keys copied literally:

- the legacy generation (`src/infra/controllers`): `LegacyControllerDecorators`;
- the authorization generation (`src/infra/Controllers` with `src/infra/AuthZ` and the two shipped policies):
  `AuthzControllerDecorators`, `PolicyRegistry`, `BuiltinPolicies`, `AuthzControllers`;
- the api generation (`src/Infra/Controllers`): `ApiDecorators`, `ParamOrder`, `ApiControllers`.

`Metadata` is the shared store. It is a map from (target, member, key) slots to values, and a missing slot reads
as `undefined`. Decorators are pure functions from one store to the next. Registration is a pure function of
the final store and of each class's own property list. `Repository` models `BaseRepository<T>` over a
sequence. `ParamsTransformer` models the TypeScript transformer over a small syntax-tree datatype. `Scenarios`
traces the application's own policies and two of its controllers through the model, from decoration to response.

The following things outside the model are parameters:
- the policy `handle` methods are a function from (policy class, context) to result;
- JavaScript `Number(value)` on a query string is `parseNumber`, and `None` stands for `NaN`;
- in the authorization generation, whether the action itself throws is a boolean.

## Model

| member | source | states |
|---|---|---|
| Metadata.Define | src/infra/Controllers/Decorators.ts:35-40 | `Reflect.defineMetadata`: afterwards the slot reads the new value, every other slot reads as before, and the key set grows by that slot only |
| Metadata.VerbName | src/infra/Controllers/Decorators.ts:44-110 | a verb is stored as one of the four lower-case names `get`, `post`, `put`, `delete` |
| Metadata.AsText | src/infra/Controllers/Controllers.ts:45-48 | only a non-empty string is truthy text; `undefined`, `""` and non-string values are not |
| Metadata.OptionalText | src/infra/Controllers/Decorators.ts:52-57 | an omitted route name is stored as `undefined`, a given one as that string |
| LegacyControllerDecorators.Controller | src/infra/controllers/decorators.ts:4-9 | the path is stored under `controller` on the class, nothing else changes, and the class is appended to the raw registry |
| LegacyControllerDecorators.Http | src/infra/controllers/decorators.ts:12-38 | `httpMethod` holds the verb and `httpMethodName` holds the optional name on that member only; the registry is untouched |
| LegacyControllerDecorators.HttpKeepsOtherMembers | src/infra/controllers/decorators.ts:12-38 | decorating a second method leaves the first method's verb and name as they were |
| AuthzTypes.BaseHandle | src/infra/AuthZ/Types.ts:21-28 | the base policy always fails, with reasons `["Unauthorized"]` |
| PolicyRegistry.Policy | src/infra/AuthZ/Decorators.ts:7-12 | the name is stored under `policy_name` on the class, and the class is appended to the raw policy registry |
| PolicyRegistry.RegisterPolicy | src/infra/AuthZ/Policies.ts:10-17 | appends one descriptor that pairs the class with whatever its `policy_name` slot holds, including `undefined` |
| PolicyRegistry.RegisterAll | src/infra/AuthZ/Policies.ts:19-22 | descriptor i is built from the i-th raw class, in order, after the existing descriptors |
| PolicyRegistry.MapPolicies | src/infra/AuthZ/Policies.ts:19-22 | the registry gains one descriptor per raw policy class, in decoration order |
| PolicyRegistry.GetPolicy | src/infra/AuthZ/Policies.ts:24-27 | `getPolicy`: the first descriptor carrying the name, or none; `GetPolicySpec` states this |
| PolicyRegistry.GetPolicySpec | src/infra/AuthZ/Policies.ts:24-27 | finds a descriptor only if one carries the name (both directions), and then it is the earliest such descriptor |
| PolicyRegistry.GetPolicyFindsFirst | src/infra/AuthZ/Policies.ts:24-27 | lookup returns exactly descriptor i when i is the first position holding the name |
| PolicyRegistry.DecorateStoresNames | src/infra/AuthZ/Decorators.ts:7-12 | after decorating distinct classes, each class's slot holds its own name and the raw registry lists the classes in order |
| PolicyRegistry.DecorateKeepsUntouched | src/infra/AuthZ/Decorators.ts:7-12 | a class that was not decorated keeps its `policy_name` slot |
| PolicyRegistry.DecorateThenMap | src/infra/AuthZ/Policies.ts:10-22 | decorating then mapping yields exactly the (class, name) pairs in decoration order |
| PolicyRegistry.DuplicateNameFindsFirst | src/infra/AuthZ/Policies.ts:24-27 | when two classes share a name, lookup resolves to the one decorated first |
| BuiltinPolicies.Authenticated | src/server/Auth/Policies/Authenticated.ts:9-26 | passes exactly when a user is present; a pass has no reasons and a failure has `["Unauthorized"]` |
| BuiltinPolicies.ManageUsers | src/server/Auth/Policies/ManageUsers.ts:10-24 | passes exactly when a user holding `manageUsers` is present; a failure has `["Unauthorized"]` |
| BuiltinPolicies.AuthenticatedDependsOnlyOnPresence | src/server/Auth/Policies/Authenticated.ts:16-26 | two contexts with the same presence of a user get the same result |
| BuiltinPolicies.AnonymousNeverManagesUsers | src/server/Auth/Policies/ManageUsers.ts:13-23 | without a user, `ManageUsers` fails |
| BuiltinPolicies.MissingPermissionIsUnauthorized | src/server/Auth/Policies/ManageUsers.ts:13-23 | a signed-in user lacking the permission fails with `Unauthorized`, not `Forbidden` |
| BuiltinPolicies.ManageUsersImpliesAuthenticated | src/server/Auth/Policies/ManageUsers.ts:13-23 | whoever passes `ManageUsers` also passes `Authenticated` |
| AuthzControllerDecorators.Controller | src/infra/Controllers/Decorators.ts:13-20 | the path is stored under `controller_path`, the class is registered, and no other slot changes |
| AuthzControllerDecorators.Authorize | src/infra/Controllers/Decorators.ts:22-42 | the stored list keeps its prefix and grows by at most one; a truthy policy is in it afterwards; any growth is exactly the new policy; distinct lists stay distinct |
| AuthzControllerDecorators.AuthorizeAppendsNew | src/infra/Controllers/Decorators.ts:31-33 | a truthy policy not yet listed is appended at the end |
| AuthzControllerDecorators.AuthorizeIdempotent | src/infra/Controllers/Decorators.ts:31-33 | applying the same `@Authorize` twice stores the same list as applying it once |
| AuthzControllerDecorators.AuthorizeFalsyKeepsList | src/infra/Controllers/Decorators.ts:24-33 | `undefined` or `""` leaves the list unchanged, and an absent list becomes `[]` |
| AuthzControllerDecorators.FreshGroupAlwaysAppended | src/infra/Controllers/Decorators.ts:31-33 | a newly built array of names is never `includes`-equal to a stored one, so it is always appended, even when empty |
| AuthzControllerDecorators.Http | src/infra/Controllers/Decorators.ts:44-110 | `httpMethod` and `httpMethodName` are written on that member and no policy list changes |
| AuthzControllers.RouteName | src/infra/Controllers/Controllers.ts:39-48 | the route name is the stored name when it is non-empty text, otherwise the property name |
| AuthzControllers.ActionFor | src/infra/Controllers/Controllers.ts:27-60 | a property yields an action exactly when it is a non-constructor method with a truthy stored verb; the action carries the route name, verb and stored requirements |
| AuthzControllers.Actions | src/infra/Controllers/Controllers.ts:27-60 | an action is listed for a property exactly when one exists for it, and the constructor never yields one |
| AuthzControllers.RegisterController | src/infra/Controllers/Controllers.ts:12-64 | the descriptor keeps the stored `controller_path` value; its actions are exactly those built for the properties, in property order, so every action built for a property is listed and every listed action comes from a method of the class |
| AuthzControllers.ActionsSingleton | src/infra/Controllers/Controllers.ts:27-60 | a single property contributes exactly its own action or nothing |
| AuthzControllers.ActionsAppend | src/infra/Controllers/Controllers.ts:27-60 | actions are listed in property order: the actions of a concatenation are the first part's actions followed by the second's |
| AuthzControllers.MapControllers | src/infra/Controllers/Controllers.ts:66-67 | one descriptor per raw controller class, in registration order |
| AuthzControllers.DecoratedMethodBecomesAction | src/infra/Controllers/Decorators.ts:44-59 | a method decorated with a verb becomes an action with that verb, named by the decorator's name or else the method's |
| AuthzControllers.UndecoratedYieldsNoAction | src/infra/Controllers/Controllers.ts:28-45 | the constructor, non-functions and methods without a verb produce no route |
| AuthzControllers.GroupFrom | src/infra/Controllers/Controllers.ts:108-124 | from any position whose earlier names passed, the rest of the group allows the request exactly when every remaining member passes; otherwise it stops at the first unregistered (500) or failing (403) member |
| AuthzControllers.GroupSkipsPassing | src/infra/Controllers/Controllers.ts:108-124 | stepping over members that pass does not change the group's verdict |
| AuthzControllers.EvaluateGroup | src/infra/Controllers/Controllers.ts:106-124 | the group calls its policies in order and stops at the first unregistered one (500) or failing one (403 with its reasons); it allows the request only when every member passes |
| AuthzControllers.EvaluateRequirement | src/infra/Controllers/Controllers.ts:83-127 | a single name gives 500 "no policy found for" it when unregistered, else 403 with its reasons or pass; a non-policy value gives 500 |
| AuthzControllers.EvaluateChain | src/infra/Controllers/Controllers.ts:82-128 | an empty chain allows the request; otherwise it is allowed exactly when the first requirement is met, only names of the first requirement are consulted, and a 403 carries the reasons of the last policy consulted |
| AuthzControllers.RunChain | src/infra/Controllers/Controllers.ts:82-128 | the outer `for` as written, returning on a 500 or a 403 and breaking after a passing name or group, yields the same outcome and trace of consulted policies as the chain rule |
| AuthzControllers.RunGroup | src/infra/Controllers/Controllers.ts:106-124 | the inner loop computes the same outcome and trace of consulted policies as the group rule |
| AuthzControllers.GroupAllPass | src/infra/Controllers/Controllers.ts:108-124 | when every member is registered and passes, the group allows the request after consulting all of them |
| AuthzControllers.GroupStopsAtFailure | src/infra/Controllers/Controllers.ts:116-121 | the first failing member ends the group with 403 and its reasons, and later members are never consulted |
| AuthzControllers.GroupStopsAtUnregistered | src/infra/Controllers/Controllers.ts:109-114 | the first unregistered member ends the group with 500 "Internal server error" |
| AuthzControllers.LaterRequirementsIgnored | src/infra/Controllers/Controllers.ts:82-128 | two chains with the same first requirement have the same outcome, whatever follows |
| AuthzControllers.PassingNameEndsChain | src/infra/Controllers/Controllers.ts:100-105 | a passing single policy lets the request through even when a later requirement would fail |
| AuthzControllers.HandleRequest | src/infra/Controllers/Controllers.ts:77-137 | the action runs only when the chain allows it; its failure becomes 500 "Internal server error"; a chain 500 reaches the client with the chain's message; a 403 carries the policy's reasons |
| ParamOrder.Insert | src/Infra/Controllers/Controllers.ts:87-90 | inserting into an index-sorted list keeps it sorted and is a permutation of the list plus the item |
| ParamOrder.SortByIndex | src/Infra/Controllers/Controllers.ts:87-90 | the result is sorted by index and is a permutation of the input |
| ParamOrder.SortStable | src/Infra/Controllers/Controllers.ts:87-90 | entries sharing an index keep their relative order, as `Array.prototype.sort` guarantees |
| ParamOrder.SortKeepsSorted | src/Infra/Controllers/Controllers.ts:87-90 | an already sorted list is left as it is |
| ApiDecorators.IsRequired | src/Infra/Controllers/Decorators.ts:105 | a parameter is optional only when the literal `"optional"` was passed |
| ApiDecorators.Controller | src/Infra/Controllers/Decorators.ts:4-9 | the path is stored under `controller` and the class is appended to the raw registry |
| ApiDecorators.Http | src/Infra/Controllers/Decorators.ts:23-71 | the verb goes under `api:httpMethod` and the name under `api:httpPath`; every verb except POST also stores its name list under `api:paramNames` |
| ApiDecorators.Query | src/Infra/Controllers/Decorators.ts:73-93 | an empty source list is rebuilt from the names, with `query` only at the decorated index; a non-empty list stays as it is |
| ApiDecorators.Body | src/Infra/Controllers/Decorators.ts:95-110 | one `body` entry with the decorator's index, name and requiredness is appended to `method:params` |
| ApiControllers.PrimitiveTypeName | src/Infra/Controllers/Controllers.ts:13-19 | always a non-empty lower-case name: the three primitives by name, other classes by their lower-cased name, else `unknown` |
| ApiControllers.ParseQueryValue | src/Infra/Controllers/Controllers.ts:21-39 | numbers parse or fail as invalid; booleans accept only exact `true`/`false`; any other type passes the value through |
| ApiControllers.ParseIdempotent | src/Infra/Controllers/Controllers.ts:21-39 | parsing an already parsed value again gives it back unchanged |
| ApiControllers.BooleanLikeItsString | src/Infra/Controllers/Controllers.ts:32-35 | a boolean and its string spelling parse to the same boolean |
| ApiControllers.BooleanCaseSensitive | src/Infra/Controllers/Controllers.ts:32-35 | any other string, `"TRUE"` included, is an invalid boolean |
| ApiControllers.TypeNamesDriveCoercion | src/Infra/Controllers/Controllers.ts:13-39 | the registered type name selects the coercion: `String` and unknown types pass through and `Number` parses |
| ApiControllers.BuildArguments | src/Infra/Controllers/Controllers.ts:92-102 | one argument per stored parameter, typed by the design type at that parameter's index |
| ApiControllers.BodyCount | src/Infra/Controllers/Controllers.ts:104 | counts body arguments: zero exactly when none is a body, and at most one exactly when no two arguments come from the body |
| ApiControllers.RouteName | src/Infra/Controllers/Controllers.ts:69-111 | the route name is the stored `httpMethodName` when it is non-empty text, otherwise the property name |
| ApiControllers.ActionFor | src/Infra/Controllers/Controllers.ts:57-118 | no action exactly for the constructor, non-methods and members without text in `httpMethod`; a built action carries that verb, the route name and the method, with at most one body argument |
| ApiControllers.ActionForSpec | src/Infra/Controllers/Controllers.ts:74-113 | for a verb-carrying method: `MissingParamTypes` exactly when it has parameters but no `design:paramtypes`; `MultipleBodyArguments` exactly when more than one argument comes from the body; otherwise the action with the index-sorted, typed arguments |
| ApiControllers.Finish | src/Infra/Controllers/Controllers.ts:87-117 | an action has at most one body argument; two or more abort registration |
| ApiControllers.CollectAllOk | src/Infra/Controllers/Controllers.ts:57-119 | from any position on, a successful loop met no failing member there |
| ApiControllers.CollectComplete | src/Infra/Controllers/Controllers.ts:57-119 | from any position on, a successful loop lists the action of every member there that has one |
| ApiControllers.CollectSound | src/Infra/Controllers/Controllers.ts:57-119 | from any position on, every action a successful loop lists is the action of a member there |
| ApiControllers.CollectFirstError | src/Infra/Controllers/Controllers.ts:57-119 | from any position on, a failed loop reports the error of the first failing member there, every earlier member having succeeded |
| ApiControllers.CollectShift | src/Infra/Controllers/Controllers.ts:57-119 | the loop from a position past a prefix runs over the suffix alone |
| ApiControllers.CollectAppend | src/Infra/Controllers/Controllers.ts:57-119 | the loop over a concatenation runs the first part and then the second: the first error wins, else the action lists concatenate |
| ApiControllers.Actions | src/Infra/Controllers/Controllers.ts:57-119 | a failure is the error of the first failing member in property order; on success no member failed, every built action is listed and every listed action was built from a member, with at most one body argument |
| ApiControllers.ActionsSingleton | src/Infra/Controllers/Controllers.ts:57-119 | a single property contributes exactly its own action, nothing, or its error |
| ApiControllers.ActionsAppend | src/Infra/Controllers/Controllers.ts:57-119 | actions are listed in property order and the first error wins: registering a concatenation is registering the first part, then the second |
| ApiControllers.RegisterController | src/Infra/Controllers/Controllers.ts:43-122 | the descriptor keeps the stored `controller` path and lists the actions of all members in property order, so every verb-carrying method has an action; registration fails exactly when some member fails, with the first failing member's error |
| ApiControllers.ApiVerbDecoratorIsNotRead | src/Infra/Controllers/Controllers.ts:63-75 | a method decorated only with this generation's own verb decorators yields no action, because the keys differ |
| ApiControllers.QueryIsNotRead | src/Infra/Controllers/Controllers.ts:87-90 | `@Query` leaves registration unchanged: `api:paramSources` is never read |
| ApiControllers.ArgumentsFollowIndexOrder | src/Infra/Controllers/Controllers.ts:87-102 | the arguments appear in parameter-index order, stably, and the stored multiset is kept |
| ApiControllers.Assign | src/Infra/Controllers/Controllers.ts:162 | a new key is added at the end; an existing key keeps its position and only its value changes |
| ApiControllers.Values | src/Infra/Controllers/Controllers.ts:166 | `Object.values` lists the values in key-insertion order |
| ApiControllers.BindFrom | src/Infra/Controllers/Controllers.ts:141-163 | the call goes ahead exactly when every query argument is present or optional and parses; otherwise the 400 message is that of the first query argument, in descriptor order, that is missing and required or fails to parse |
| ApiControllers.Bind | src/Infra/Controllers/Controllers.ts:138-166 | the request is bound exactly when every argument is acceptable, and a 400 carries the message of the first offending query argument in descriptor order |
| ApiControllers.BindPassesExpected | src/Infra/Controllers/Controllers.ts:141-166 | with distinct names, the action receives exactly the parsed values of the present query arguments, in order |
| ApiControllers.BindMatchesExpected | src/Infra/Controllers/Controllers.ts:141-166 | a successful binding passes the reference list of parsed query values |
| ApiControllers.HandleRequest | src/Infra/Controllers/Controllers.ts:131-167 | the action runs exactly when every argument is acceptable, with the parsed values; otherwise the response is 400 with the error of the first offending query argument |
| ParamsTransformer.PrimitiveConstructor | src/Infra/Transformers/ReflectMethodNamesTransformer.ts:206-221 | `string`, `number`, `boolean`, `bigint` and `symbol` map to the constructor spelled like the keyword (`String`, `Number`, `Boolean`, `BigInt`, `Symbol`); other keywords map to nothing |
| ParamsTransformer.PrimitiveWrapper | src/Infra/Transformers/ReflectMethodNamesTransformer.ts:223-241 | a type name is matched case-insensitively against the six wrapper names, and the result is the capitalised constructor |
| Text.Join | src/Infra/Transformers/ReflectMethodNamesTransformer.ts:259 | joining no parts gives the empty string and one part gives that part |
| Text.JoinAppend | src/Infra/Transformers/ReflectMethodNamesTransformer.ts:259 | joining a concatenation of non-empty part lists joins each side with one separator between them |
| ParamsTransformer.TypeName | src/Infra/Transformers/ReflectMethodNamesTransformer.ts:243-281 | an identifier's name is its text; a qualified name ends in a dot followed by its right-hand identifier |
| ParamsTransformer.DecoratorName | src/Infra/Transformers/ReflectMethodNamesTransformer.ts:283-292 | a bare identifier names itself and a call names its callee identifier or property; any other expression has no name |
| ParamsTransformer.Parts | src/Infra/Transformers/ReflectMethodNamesTransformer.ts:243-281 | a type name has at least one identifier part |
| ParamsTransformer.QualifiedTypeName | src/Infra/Transformers/ReflectMethodNamesTransformer.ts:246-259 | the name of `A.B` is the name of `A`, a dot, then `B` |
| ParamsTransformer.ExtractTypeConstructor | src/Infra/Transformers/ReflectMethodNamesTransformer.ts:150-204 | a type gives at most one expression; identifiers are only built-in constructors; a union or an unrecognised type gives nothing |
| ParamsTransformer.ExtractMembers | src/Infra/Transformers/ReflectMethodNamesTransformer.ts:131-138 | an expression is extracted from a union exactly when some member yields it, with at most one per member; `UnionConcatenates` gives the order |
| ParamsTransformer.ExtractAllowedTypes | src/Infra/Transformers/ReflectMethodNamesTransformer.ts:115-148 | `"optional"` leads when the parameter has `?`; a missing type adds nothing; after it, a single type adds exactly its own extraction and a union adds exactly its members' extractions |
| ParamsTransformer.UnionConcatenates | src/Infra/Transformers/ReflectMethodNamesTransformer.ts:131-138 | extracting a union of two member lists is the concatenation of the two extractions |
| ParamsTransformer.SingletonUnion | src/Infra/Transformers/ReflectMethodNamesTransformer.ts:131-145 | a one-member union allows the same types as that member alone |
| ParamsTransformer.ArraysExtractElement | src/Infra/Transformers/ReflectMethodNamesTransformer.ts:196-200 | an array type of any depth allows what its element type allows |
| ParamsTransformer.KeywordMatchesReference | src/Infra/Transformers/ReflectMethodNamesTransformer.ts:170-193 | a primitive keyword and a reference spelled with it in any case yield the same constructor |
| ParamsTransformer.TypeReferenceRule | src/Infra/Transformers/ReflectMethodNamesTransformer.ts:178-192 | a named type reference yields the wrapper constructor when its name matches one case-insensitively, and otherwise its own (dot-joined) name as a string literal |
| ParamsTransformer.BasicKinds | src/Infra/Transformers/ReflectMethodNamesTransformer.ts:157-175 | `undefined` and `null` become the strings `"undefined"` and `"null"`; each primitive keyword becomes the constructor spelled like it; other keywords yield nothing |
| ParamsTransformer.OptionalNamedTypeLooksOptional | src/Infra/Transformers/ReflectMethodNamesTransformer.ts:122-124 | a required parameter whose type is named `optional` also gets `"optional"` first, so the leading literal alone does not reveal optionality |
| ParamsTransformer.DescriptorsFrom | src/Infra/Transformers/ReflectMethodNamesTransformer.ts:44-72 | descriptors keep each parameter's original position as its index, in increasing order |
| ParamsTransformer.DescriptorsComplete | src/Infra/Transformers/ReflectMethodNamesTransformer.ts:44-72 | every parameter with a plain identifier name has a descriptor |
| ParamsTransformer.ParamDescriptors | src/Infra/Transformers/ReflectMethodNamesTransformer.ts:44-72 | exactly the identifier-named parameters get descriptors, in order and indexed by their original position, so destructured ones leave gaps |
| ParamsTransformer.Hydrate | src/Infra/Transformers/ReflectMethodNamesTransformer.ts:82-112 | the descriptor array becomes the second argument; a missing name becomes `void 0`; arguments after the second are kept |
| ParamsTransformer.Enclosing | src/Infra/Transformers/ReflectMethodNamesTransformer.ts:14-22 | the parameters come from the innermost enclosing method or function declaration |
| ParamsTransformer.Visit | src/Infra/Transformers/ReflectMethodNamesTransformer.ts:9-32 | an HTTP decorator with an enclosing method is hydrated and any other decorator is kept; every other node keeps its kind and each child is the visit of the original child with the node pushed on the parent stack |
| ParamsTransformer.UntouchedWithoutHttpDecorators | src/Infra/Transformers/ReflectMethodNamesTransformer.ts:9-32 | a tree without HTTP decorators comes back unchanged |
| ParamsTransformer.MethodDecoratorGetsItsParams | src/Infra/Transformers/ReflectMethodNamesTransformer.ts:14-20 | an HTTP decorator on a method receives that method's own parameter descriptors |
| ParamsTransformer.Transform | src/Infra/Transformers/ReflectMethodNamesTransformer.ts:34 | the file keeps its statement count, and a top-level statement without HTTP decorators comes back unchanged |
| Scenarios.Policies | src/infra/AuthZ/Policies.ts:19-22 | after the two shipped policies are decorated and mapped, the registry is exactly `Authenticated` then `ManageUsers` |
| Scenarios.RoutedAction | src/infra/Controllers/Controllers.ts:27-60 | a method whose verb, route name and requirement slots are set is registered as the action those slots describe |
| Scenarios.HttpKeepsRouted | src/infra/Controllers/Decorators.ts:44-110 | a verb decorator on another method leaves this method's verb, name and requirements in place |
| Scenarios.AuthorizeKeepsRouted | src/infra/Controllers/Decorators.ts:22-42 | `@Authorize` on another method leaves this method's verb, name and requirements in place |
| Scenarios.ControllerKeepsRouted | src/infra/Controllers/Decorators.ts:13-20 | the class decorator leaves every method's verb, name and requirements in place |
| Scenarios.FirstRoute | src/infra/Controllers/Decorators.ts:22-59 | a fresh method decorated `@Authorize(p)` then with a verb holds that verb, that name and exactly `[p]` |
| Scenarios.UsersRoutes | src/server/controllers/UsersController.ts:15-53 | after all of `UsersController`'s decorators, `GetCurrentUser` is routed as `get CurrentUser` behind `["Authenticated"]` |
| Scenarios.AdminRoutes | src/server/controllers/UsersAdminController.ts:14-43 | after all of `UsersAdminController`'s decorators, `AddPermissionToUser` is routed as `post AddPermissionToUser` behind `["ManageUsers"]` |
| Scenarios.CurrentUserAction | src/server/controllers/UsersController.ts:22-24 | registration turns `GetCurrentUser` into the route `get CurrentUser` guarded by `["Authenticated"]` |
| Scenarios.AddPermissionAction | src/server/controllers/UsersAdminController.ts:23-25 | registration turns `AddPermissionToUser` into the route `post AddPermissionToUser` guarded by `["ManageUsers"]` |
| Scenarios.AnonymousCurrentUserForbidden | src/infra/Controllers/Controllers.ts:82-101 | an anonymous `GET /api/Users/CurrentUser` is answered 403 with `["Unauthorized"]` |
| Scenarios.SignedInCurrentUserRuns | src/infra/Controllers/Controllers.ts:82-137 | a signed-in user reaches the action, and only the action's own failure becomes a 500 |
| Scenarios.AddPermissionNeedsManageUsers | src/server/Auth/Policies/ManageUsers.ts:13-23 | adding a permission runs exactly for a signed-in user holding `manageUsers`; everyone else gets 403 with `["Unauthorized"]` |
| Scenarios.NonNumericLimitIsBadRequest | src/Infra/Controllers/Controllers.ts:153-160 | a required `number` query argument `limit` that does not parse is answered 400 `limit must be a number` |
| Repository.FindIndex | src/Infra/Respository/BaseRepository.ts:28 | -1 exactly when no record has the id; otherwise the first position holding it |
| Repository.GetById | src/Infra/Respository/BaseRepository.ts:6-8 | `undefined` exactly when no record has the id; otherwise the first record with that id |
| Repository.Filter | src/Infra/Respository/BaseRepository.ts:15 | the result holds exactly the matching records, no more of them than the input |
| Repository.FilterSingleton | src/Infra/Respository/BaseRepository.ts:15 | a single record is kept exactly when it matches |
| Repository.FilterAppend | src/Infra/Respository/BaseRepository.ts:15 | filtering a concatenation concatenates the filtered parts, so matches keep their order and multiplicity |
| Repository.Slice | src/Infra/Respository/BaseRepository.ts:15 | for non-negative bounds, the sub-list between the bounds clamped to the length, and nothing when the end is not past the start |
| Repository.SliceNegativeStart | src/Infra/Respository/BaseRepository.ts:15 | a negative start counts back from the end of the list, stopping at its front |
| Repository.SliceNegativeEnd | src/Infra/Respository/BaseRepository.ts:15 | a negative end counts back from the end of the list, stopping at its front |
| Repository.Query | src/Infra/Respository/BaseRepository.ts:10-16 | results all match the filter; for non-negative `skip` and `limit`, at most `limit` of them, the matches from position `skip` on; nothing when a negative `limit` leaves `skip + limit` between zero and `skip` |
| Repository.QueryNegativeSkip | src/Infra/Respository/BaseRepository.ts:10-16 | a negative `skip` counts back from the end of the matches, and the query still ends where `skip + limit` puts it |
| Repository.QueryNegativeEnd | src/Infra/Respository/BaseRepository.ts:10-16 | a negative `skip + limit` makes the query end that far back from the end of the matches (or at the front) |
| Repository.QueryDefaultsFirstTen | src/Infra/Respository/BaseRepository.ts:12-13 | with the defaults, a query returns the first ten matches |
| Repository.Create | src/Infra/Respository/BaseRepository.ts:18-25 | fails with `ItemAlreadyExists` exactly when the id is taken; otherwise the record is appended and returned |
| Repository.Update | src/Infra/Respository/BaseRepository.ts:27-37 | fails with `ItemNotFound` exactly when the id is absent; otherwise only the first matching position is replaced |
| Repository.Delete | src/Infra/Respository/BaseRepository.ts:39-46 | fails with `ItemNotFound` exactly when the id is absent; otherwise only the first matching record is removed, and order is kept |
| Repository.CreatePreservesDistinct | src/Infra/Respository/BaseRepository.ts:18-25 | a successful create keeps ids pairwise distinct |
| Repository.UpdatePreservesDistinct | src/Infra/Respository/BaseRepository.ts:27-37 | a successful update keeps ids pairwise distinct |
| Repository.DeletePreservesDistinct | src/Infra/Respository/BaseRepository.ts:39-46 | a successful delete keeps ids pairwise distinct |
| Repository.CreateThenGet | src/Infra/Respository/BaseRepository.ts:6-25 | after a create, a lookup of the id returns the created record |
| Repository.UpdateThenGet | src/Infra/Respository/BaseRepository.ts:6-37 | after an update, a lookup of the id returns the new record |
| Repository.DeleteThenGet | src/Infra/Respository/BaseRepository.ts:6-46 | with distinct ids, a deleted id is no longer found |

## Left out

- HTTP wiring is not modelled: Express routing, `path.posix.join` of controller path and route name, response
  serialisation and the `console.log` output. Each request handler is modelled as a function from its inputs to
  a status.
- `GetAuthContext` (how the user is read from the request) is left out. The authorization context is a parameter.
- The dependency-injection container (`DIContainer.bind`/`get`) and the bound `innerFunction` are left out.
  They are outside the core; the model keeps the member name instead of the bound function.
- Asynchrony (`async`/`await`, promises) is left out. A policy's `handle` is a pure function parameter. In the
  authorization generation a rejected action is the boolean `actionFails`.
- ApiControllers.HandleRequest: ends at `Invoked`, the call of the action. The api generation's handler awaits the
  action with no `try` or `.catch` (src/Infra/Controllers/Controllers.ts:166), so a throwing action is not turned
  into a response there; what Express then does with the rejected promise is outside the model.
- JavaScript number semantics are left out. `Number(value)` is the parameter `parseNumber`, and numbers are
  `real`, with no `NaN`, infinities or float rounding.
- The api generation's debug line `new types[4]()` in `registerController` is left out. It throws when the
  method has fewer than five parameters, or when `design:paramtypes` is absent, which stops registration
  before any action is built. The model behaves as if the line were not there.
- `getPrimitiveTypeName` lower-cases with `toLowerCase`. The model lower-cases ASCII letters only, since the
  Unicode case mapping is not modelled.
- `Object.values` lists integer-like keys first in numeric order. The model lists keys in insertion order,
  which matches the source only for non-numeric argument names.
- `req.query` values that are arrays or objects (repeated or bracketed parameters) are left out. Query values
  are strings.
- Reflect-metadata lookups through the prototype chain are left out: `getMetadata` on a subclass would see a
  parent's metadata. Each class's metadata is read from its own slots.
- A decorator nested inside another decorator's expression is left out. The transformer visits a decorator's
  children only when it is not rewritten, and the model does not descend into decorator expressions.
- Truthiness of non-string values stored under `httpMethod`/`httpMethodName` is not modelled. Any stored value
  other than non-empty text counts as absent.
- `getTypeName`'s branch for property-access names is left out. A type reference's name is an identifier or a
  qualified name in TypeScript's syntax tree, so only those two are modelled.
- The class `Repository.BaseRepository` wraps the pure operations with `modifies` contracts. These restate the
  pure functions and are not listed in the table above.
- In the authorization generation, only the first entry of an action's requirement list is ever evaluated,
  and a group stops at its first failing member. The model follows the code, as
  `EvaluateChain`, `LaterRequirementsIgnored` and `GroupStopsAtFailure` state.
