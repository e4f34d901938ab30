/**
 The schema metadata that the directives read and write: rules stored on
 object types and fields, the per-type wrapped-markers, and each field's
 installed resolver.
 */
module SchemaState {
  import opened Wrappers
  import opened Polarities

  /** The `{ roles, group }` arguments of one `@allow`/`@deny` use; an argument
      the schema leaves out is `None`. */
  datatype DirectiveArgs = DirectiveArgs(roles: Option<seq<string>>, group: Option<string>)

  /** The rule object `{ roles, group }` stored on a type or field, exactly as
      the directive received it. */
  datatype Rule = Rule(roles: Option<seq<string>>, group: Option<string>)

  /** A resolver that is not one of the directive's wrappers: graphql's
      `defaultFieldResolver`, or one supplied with the schema. */
  datatype BaseResolver = DefaultFieldResolver | Custom(name: string)

  /** A field's resolver: a base resolver, or a wrapper closure of one
      polarity around the resolver the field had when it was wrapped. */
  datatype Resolver = Plain(base: BaseResolver) | Guarded(polarity: Polarity, inner: Resolver)

  /** An output field: its stored rules (`field._allow`, `field._deny`) and its
      `resolve` property, which may be missing. */
  datatype Field = Field(rules: map<Polarity, Rule>, resolve: Option<Resolver>)

  /** An object type: its stored rules, the polarities whose
      `<name>FieldsWrapped` marker is set, and `getFields()`. */
  datatype ObjectType = ObjectType(rules: map<Polarity, Rule>, wrapped: set<Polarity>, fields: map<string, Field>)

  /** The object types of a schema by name. */
  datatype Schema = Schema(types: map<string, ObjectType>)

  /** The rule of polarity `p` held in a rule map (`_allow` or `_deny`), if any. */
  function Lookup(rules: map<Polarity, Rule>, p: Polarity): Option<Rule> {
    if p in rules then Some(rules[p]) else None
  }

  /** The resolver graphql runs for a field: its own, or `defaultFieldResolver`
      when it has none. */
  function Installed(f: Field): Resolver {
    f.resolve.GetOr(Plain(DefaultFieldResolver))
  }

  /** The polarities of a resolver's wrapper layers, outermost first. */
  function Layers(r: Resolver): seq<Polarity> {
    match r
    case Plain(_) => []
    case Guarded(p, inner) => [p] + Layers(inner)
  }

  /** The base resolver at the centre of a chain of wrappers. */
  function Core(r: Resolver): BaseResolver {
    match r
    case Plain(b) => b
    case Guarded(_, inner) => Core(inner)
  }

  /** The outermost layer of a wrapped resolver is the first of its layers. */
  lemma OutermostLayer(r: Resolver)
    requires Layers(r) != []
    ensures r.Guarded? && r.polarity == Layers(r)[0]
  {
  }

  /** No polarity occurs twice among a resolver's layers. */
  predicate NoRepeats(ps: seq<Polarity>) {
    forall i, j :: 0 <= i < j < |ps| ==> ps[i] != ps[j]
  }

  /** A schema before any directive is applied: no marker is set and no field
      carries a wrapper. */
  predicate Pristine(s: Schema) {
    forall tn :: tn in s.types ==>
      && s.types[tn].wrapped == {}
      && forall fn :: fn in s.types[tn].fields ==> Layers(Installed(s.types[tn].fields[fn])) == []
  }

  /** The types and their fields are the same in both schemas. */
  predicate SameShape(s: Schema, s': Schema) {
    && s.types.Keys == s'.types.Keys
    && forall tn :: tn in s.types ==> s.types[tn].fields.Keys == s'.types[tn].fields.Keys
  }
}
