# Role-based authorization directives, modelled in Dafny

This project models the `@allow` / `@deny` GraphQL schema directives of
`roles-schema-directives` (`directives.js`). The directives attach a role rule
`{ roles, group }` to an object type or an output field. They wrap the type's
field resolvers so that each call is checked against the caller's roles
before the original resolver runs.

The model has two phases.

* **Schema build** (`directives.dfy`). `VisitObject` and `VisitFieldDefinition`
  check the `{ roles, group }` arguments. Both absent, or `roles` absent and
  `group` the empty string, throw `InvalidArgs`. A present list of roles
  counts as given even when it is empty, as in JavaScript. Otherwise the rule
  is stored under the directive's polarity on the type or field, and
  `EnsureFieldsWrapped` runs for the owning type. That function keeps one
  marker per (type, polarity). The first call for a polarity puts one wrapper
  layer of that polarity around every field the type has at that moment. A
  field with no `resolve` is wrapped around `defaultFieldResolver`. Later calls
  for the same polarity change nothing. `Build` runs a whole schema build as a
  sequence of directive uses. The first invalid use aborts the build.
* **Request time** (`enforcement.dfy`). A field's resolver is a chain of
  wrapper layers around a base resolver; the layer installed last is
  outermost. `Invoke` runs the chain. Each layer does four things in order.
  First it reads `context.userId`; with no context at all this is a
  TypeError (`NoContext`), and a falsy `userId` is refused (`NotAuthorized`).
  Then it takes the field's rule of its polarity, or the type's rule when the
  field has none. Then it asks the role oracle once. Last, it refuses if the
  caller is in the role under DENY, or not in the role under ALLOW. A layer
  that finds no rule of its polarity on the field or on its type fails with
  `NoRule`. This is the TypeError the code raises when it destructures
  `undefined`. When every layer lets the call through, the base resolver
  gets the call's own arguments and its result is returned unchanged. `Invoke`
  also returns the oracle questions the call asked, in order.

`scenarios.dfy` states what a build means for later calls. `salary.dfy` works
one build through by hand: a type-level `@deny` plus a field-level `@allow`.

The model follows the code where it differs from how such a layer is usually
described:

* A field that ends up wrapped but has no rule of a layer's polarity, on
  itself or on its type, never passes a call through. An identified caller
  who reaches that layer fails with `NoRule`. An anonymous caller, or one an
  outer layer refuses, fails with `NotAuthorized`. A directive
  on one field therefore locks every sibling field that has no rule of that
  polarity. This is `Scenarios.SiblingFieldsRefused`, and `currency` in
  `SalaryExample.CurrencyUnreadable` shows it.
* Wrapping is once per (type, polarity), not once per field. A field can carry
  one ALLOW layer and one DENY layer, and the outermost one is checked first.
* Only object types and output fields are handled. The code has no
  input-field or mutation-argument protection and does no de-duplication of
  role checks, so the model has none either.

The role oracle (`Roles.userIsInRole`) and the base resolvers are parameters:
`Oracle` is any function of `(userId, roles, group)`, and `base` is any
function of `(resolver, arguments)`.

## Model

| member | source | states |
|---|---|---|
| Polarities.DirectiveFor | directives.js:79-84 | the `directives` table maps a directive name to a polarity whose name it is, and only `allow` and `deny` map to anything |
| Polarities.DirectiveForName | directives.js:81-84 | each directive class is registered under its own name, so looking up a polarity's name gives that polarity back |
| Polarities.KeysSeparate | directives.js:31-47 | the properties `_allow`, `_deny`, `allowFieldsWrapped` and `denyFieldsWrapped` are pairwise distinct, so the two polarities never overwrite each other's rules or markers |
| Polarities.DeniedIffMembershipMismatch | directives.js:64-71 | a layer lets a caller through exactly when role membership matches the polarity: ALLOW admits members only, DENY admits non-members only |
| Polarities.Denied | directives.js:65-67 | no contract of its own: the `notAuthorized` decision of a layer given the oracle's membership answer; `DeniedIffMembershipMismatch` and `PolaritiesOpposite` characterise it |
| Polarities.PolaritiesOpposite | directives.js:65-67 | ALLOW and DENY reach opposite decisions for every membership answer |
| Directives.EnsureFieldsWrapped | directives.js:44-54 | the marker for the polarity is set; if it was not set before, every field of the type gains one outermost layer of that polarity over the same base resolver, `defaultFieldResolver` when it had none; if it was set, the type is unchanged; stored rules are never touched |
| Directives.VisitObject | directives.js:28-33 | no contract of its own: `visitObject` checks the arguments, stores the rule on the type and wraps its fields; `ApplyDirective`, `ReapplyToObjectOverwrites` and `Scenarios.TypeRuleGuardsFields` characterise it |
| Directives.VisitFieldDefinition | directives.js:37-42 | no contract of its own: `visitFieldDefinition` checks the arguments, stores the rule on the field and wraps its owning type's fields; `ApplyDirective`, `ReapplyToFieldOverwrites` and `Scenarios.FieldRuleGuardsField` characterise it |
| Directives.ApplyDirective | directives.js:28-42 | invalid arguments fail and record nothing; valid ones store exactly `{ roles, group }` under the polarity on the target, leave every other stored rule and every other type as they were, keep the schema's shape, and wrap the owning type's fields for the polarity at most once |
| Directives.Build | directives.js:28-42 | a build fails exactly when one of its directive uses has invalid arguments, and a successful build keeps the schema's types and fields |
| Directives.ApplyKeepsLayersMatch | directives.js:44-53 | one directive application keeps every field's layers equal to its type's marked polarities, each once |
| Directives.BuildKeepsLayersMatch | directives.js:44-47 | over a whole build, every field keeps exactly one layer per polarity whose marker its type has and no other layer |
| Directives.BuildWrapsOncePerPolarity | directives.js:44-54 | after any build from an unwrapped schema, a field has at most two layers, never two of one polarity, and has a layer of a polarity exactly when its type's marker for it is set |
| Directives.ApplyIdempotent | directives.js:28-47 | applying the same directive twice gives the same schema as applying it once |
| Directives.ReapplyOverwrites | directives.js:28-47 | applying a polarity to an element a second time gives the same schema as applying only the second use: the rule is overwritten, not accumulated, and no second layer appears |
| Directives.ReapplyToObjectOverwrites | directives.js:28-33 | the same, for a use on an object type |
| Directives.ReapplyToFieldOverwrites | directives.js:37-42 | the same, for a use on a field |
| Directives.BuildMarkers | directives.js:32-47 | after a successful build, a type is marked for a polarity exactly when it was before or some use of that polarity is on the type or one of its fields |
| Directives.BuildLastWriteWins | directives.js:31-40 | after a successful build, each element holds for each polarity the arguments of the last use of that polarity on it, or its initial rule when no use wrote one |
| Directives.BuildWrapsTargetedTypes | directives.js:32-54 | after a build from an unwrapped schema, a field has a layer of a polarity exactly when some use of that polarity is on its type or one of the type's fields |
| Enforcement.EffectiveRule | directives.js:61-62 | no contract of its own: the field's rule of the polarity, else the type's, else none; `FieldRulesOverrideType`, `InvokeNoRuleIff` and `InvokeQueriesInOrder` characterise it |
| Enforcement.Invoke | directives.js:54-74 | no contract of its own: the installed resolver chain run on one call; `InvokeSucceedsIff`, `InvokeNotAuthorizedIff`, `InvokeNoRuleIff`, `InvokeFailsOnlyTwoWays`, `InvokeQueriesInOrder` and `NoUserRefused` characterise it |
| Enforcement.FieldRulesOverrideType | directives.js:59-62 | each layer resolves its rule on its own, field before type: two types that agree on every polarity the field is wrapped with but has no rule of give the same result for every call, so a field's own rule always overrides its type's (as `Salary.amount`, which owns an ALLOW rule and falls back to the type for DENY) |
| Enforcement.InvokeSucceedsIff | directives.js:54-74 | a call succeeds exactly when the resolver has no layers, or the caller has a truthy `userId` and every layer finds a rule that admits them; a successful call returns the base resolver's result for the same arguments after one oracle question per layer |
| Enforcement.NoUserRefused | directives.js:55-57 | a wrapped resolver called without a truthy `userId` fails with `NotAuthorized`, asks no oracle question and does not reach its resolver, whatever the rules |
| Enforcement.InvokeNoRuleIff | directives.js:59-62 | a call fails with `NoRule` exactly when the caller is identified and the first layer that does not let it through is one that finds no rule on the field or the type |
| Enforcement.InvokeFailsOnlyTwoWays | directives.js:54-74 | a call through a resolver chain fails only with `NotAuthorized` (`throwNotAuthorized`) or `NoRule` (the destructuring TypeError) |
| Enforcement.InvokeNotAuthorizedIff | directives.js:55-70 | a call fails with `NotAuthorized` exactly when the resolver is wrapped and either the caller has no truthy `userId`, or the first layer that does not let them through found a rule and its decision refused them |
| Enforcement.InvokeQueriesInOrder | directives.js:61-73 | the oracle is asked at most once per layer, from the outermost layer inwards, each time with the caller's id and the `roles` and `group` of the rule that layer resolved; an anonymous call asks nothing; for an identified caller the questions stop at the first layer that does not let them through, which asks one question if it found a rule and none if not |
| Enforcement.ResolveField | directives.js:53-57 | a field that was never wrapped passes the call to its resolver with no identity needed; a wrapped field refuses an anonymous call |
| Enforcement.CallField | directives.js:54-57 | a wrapped field called with no context value fails with `NoContext` before any other check; an unwrapped field ignores the context and passes the call through; with a context the outcome is decided by its `userId` |
| Scenarios.SiblingFieldsRefused | directives.js:37-62 | after the first directive of a polarity on one field, a sibling field with no rule of that polarity, on a type with none, fails every call before any oracle question |
| Scenarios.SuccessPassedRule | directives.js:54-73 | on a type marked for a polarity, a successful call of any field was made by an identified caller admitted by the rule of that polarity the field resolves to |
| Scenarios.TypeRuleGuardsFields | directives.js:28-71 | after a directive on a type, a field without its own rule of that polarity is served only to identified callers that the type's `roles` and `group` admit |
| Scenarios.FieldRuleGuardsField | directives.js:37-71 | after a directive on a field, that field is served only to identified callers its own `roles` and `group` admit, whatever the type's rule says |
| SalaryExample.DenyStep | directives.js:28-33 | a type-level `@deny` stores its rule on the type and wraps both fields with one DENY layer |
| SalaryExample.AllowStep | directives.js:37-42 | a later field-level `@allow` stores its rule on the field only, yet wraps both fields with an outer ALLOW layer |
| SalaryExample.SalaryBuild | directives.js:28-54 | the two uses in visiting order build exactly that schema |
| SalaryExample.SalaryLayers | directives.js:44-54 | both fields end up with an ALLOW layer outside a DENY layer |
| SalaryExample.FinanceReadsAmount | directives.js:54-73 | a `finance` caller who is not an intern reads `amount` through to its own resolver after two oracle questions |
| SalaryExample.InternRefusedAmount | directives.js:64-71 | an intern is refused `amount` even when also in `finance` |
| SalaryExample.CurrencyUnreadable | directives.js:55-62 | `currency` fails with `NoRule` for every identified caller and with `NotAuthorized` for anonymous ones |

## Left out

- `Roles.userIsInRole` (from `meteor/alanning:roles`) is a foreign call. It is the `Oracle` parameter, a pure function of `(userId, roles, group)`; its own semantics, including what an absent `roles` means to it, are not modelled.
- The graphql-tools visitor (`SchemaDirectiveVisitor`) is not modelled. Its traversal is replaced by `Build` over an explicit sequence of directive uses, which covers every visiting order.
- `defaultFieldResolver` and the schema's own resolvers are abstract. The `base` parameter stands for what they compute, so they cannot throw in the model.
- The `this` binding of `resolve.apply(this, args)` is left out. The arguments are one opaque value, passed on unchanged; the context (`args[2]`) is passed in beside it, and a context that is present but is not an object is not modelled.
- Error message texts are not modelled; the errors are the constructors `InvalidArgs`, `NotAuthorized`, `NoRule` and `NoContext`.
- Fields added to a type after it was wrapped are not modelled: the fields of every type are fixed during a build. This is the case the TODO at directives.js:6-12 is about.
- Directive classes registered under names other than `allow` and `deny` are not modelled. Under any other name, the decision at directives.js:65-67 would never refuse.
- Interface types as `details.objectType` are not modelled. Only object types with output fields are.
- Argument values of other JavaScript types (a `roles` string, a numeric `group`) are not modelled. `roles` is an optional list of strings and `group` an optional string.
- `package.js` (package metadata) and `directiveDefinitions.js` (SDL text for unrelated directives) contain no logic and are not modelled.
