/**
 Schema-build time: `visitObject`, `visitFieldDefinition` and
 `ensureFieldsWrapped` of the roles directive, and a whole build as a
 sequence of directive applications.
 */
module Directives {
  import opened Wrappers
  import opened Polarities
  import opened SchemaState

  /** The error `throwInvalidArgs` raises; it aborts schema construction. */
  datatype BuildError = InvalidArgs

  /** The schema element a directive is written on. */
  datatype Target = OnObject(typeName: string) | OnField(typeName: string, fieldName: string)

  /** One directive use met while the schema is visited. */
  datatype Application = Application(polarity: Polarity, args: DirectiveArgs, target: Target)

  /** The visitor is only ever called on elements the schema has. */
  predicate ValidTarget(s: Schema, target: Target) {
    match target
    case OnObject(tn) => tn in s.types
    case OnField(tn, fn) => tn in s.types && fn in s.types[tn].fields
  }

  /** JavaScript truthiness of `roles || group`: a present list of roles is
      truthy even when empty; a missing or empty group string is falsy. */
  predicate ArgsGiven(args: DirectiveArgs) {
    args.roles.Some? || (args.group.Some? && args.group.value != "")
  }

  /** The argument check shared by both visitor methods. */
  function RuleOf(args: DirectiveArgs): (r: Result<Rule, BuildError>)
    ensures r.Failure? <==> !ArgsGiven(args)
    ensures r.Success? ==> r.value.roles == args.roles && r.value.group == args.group
  {
    if !ArgsGiven(args) then Failure(InvalidArgs) else Success(Rule(args.roles, args.group))
  }

  /** The rule of polarity `p` stored on a schema element, if any. */
  function RuleAt(s: Schema, target: Target, p: Polarity): Option<Rule>
    requires ValidTarget(s, target)
  {
    match target
    case OnObject(tn) => Lookup(s.types[tn].rules, p)
    case OnField(tn, fn) => Lookup(s.types[tn].fields[fn].rules, p)
  }

  /** One wrapper closure of polarity `p` installed around a field's current
      resolver (`defaultFieldResolver` when it has none). */
  function Wrap(f: Field, p: Polarity): Field {
    f.(resolve := Some(Guarded(p, Installed(f))))
  }

  /** How `t'` relates to `t` after `ensureFieldsWrapped` for `p`: the marker
      for `p` is set, and every field gained one outermost layer of `p` unless
      the marker was already set, over the same base resolver. */
  ghost predicate WrappedFor(t: ObjectType, t': ObjectType, p: Polarity) {
    && t'.wrapped == t.wrapped + {p}
    && t'.fields.Keys == t.fields.Keys
    && forall fn :: fn in t.fields ==>
      && Core(Installed(t'.fields[fn])) == Core(Installed(t.fields[fn]))
      && Layers(Installed(t'.fields[fn])) == (if p in t.wrapped then [] else [p]) + Layers(Installed(t.fields[fn]))
  }

  /** `ensureFieldsWrapped`: the first call for a polarity wraps every field
      the type has at that moment; later calls change nothing. */
  function EnsureFieldsWrapped(t: ObjectType, p: Polarity): (r: ObjectType)
    ensures WrappedFor(t, r, p)
    ensures r.rules == t.rules
    ensures forall fn :: fn in t.fields ==> r.fields[fn].rules == t.fields[fn].rules
    ensures p in t.wrapped ==> r == t
  {
    if p in t.wrapped then t
    else t.(wrapped := t.wrapped + {p}, fields := map fn | fn in t.fields :: Wrap(t.fields[fn], p))
  }

  /** `visitObject`: store the rule on the type, then wrap its fields. */
  function VisitObject(s: Schema, p: Polarity, args: DirectiveArgs, tn: string): Result<Schema, BuildError>
    requires tn in s.types
  {
    match RuleOf(args)
    case Failure(e) => Failure(e)
    case Success(rule) =>
      var t := s.types[tn];
      Success(Schema(s.types[tn := EnsureFieldsWrapped(t.(rules := t.rules[p := rule]), p)]))
  }

  /** Type `t` with the stored rules of its field `fn` replaced. */
  function WithFieldRules(t: ObjectType, fn: string, rules: map<Polarity, Rule>): ObjectType
    requires fn in t.fields
  {
    t.(fields := t.fields[fn := t.fields[fn].(rules := rules)])
  }

  /** `visitFieldDefinition`: store the rule on the field, then wrap the
      fields of the field's object type. */
  function VisitFieldDefinition(s: Schema, p: Polarity, args: DirectiveArgs, tn: string, fn: string): Result<Schema, BuildError>
    requires tn in s.types && fn in s.types[tn].fields
  {
    match RuleOf(args)
    case Failure(e) => Failure(e)
    case Success(rule) =>
      var t := s.types[tn];
      Success(Schema(s.types[tn := EnsureFieldsWrapped(WithFieldRules(t, fn, t.fields[fn].rules[p := rule]), p)]))
  }

  /** One directive application, dispatched as the schema visitor does.
      Invalid arguments throw before anything is recorded; otherwise exactly
      the given `{ roles, group }` replaces the target's rule of that polarity,
      every other stored rule and every other type is left alone, and the
      owning type's fields are wrapped for the polarity at most once. */
  function ApplyDirective(s: Schema, p: Polarity, args: DirectiveArgs, target: Target): (r: Result<Schema, BuildError>)
    requires ValidTarget(s, target)
    ensures r.Failure? <==> !ArgsGiven(args)
    ensures r.Success? ==> SameShape(s, r.value)
    ensures r.Success? ==> RuleAt(r.value, target, p) == Some(Rule(args.roles, args.group))
    ensures r.Success? ==> forall e: Target, q: Polarity ::
      ValidTarget(s, e) && (e != target || q != p) ==> RuleAt(r.value, e, q) == RuleAt(s, e, q)
    ensures r.Success? ==> forall tn :: tn in s.types && tn != target.typeName ==> r.value.types[tn] == s.types[tn]
    ensures r.Success? ==> WrappedFor(s.types[target.typeName], r.value.types[target.typeName], p)
  {
    match target
    case OnObject(tn) => VisitObject(s, p, args, tn)
    case OnField(tn, fn) => VisitFieldDefinition(s, p, args, tn, fn)
  }

  lemma SameShapeKeepsTargets(s: Schema, s': Schema, target: Target)
    requires SameShape(s, s') && ValidTarget(s, target)
    ensures ValidTarget(s', target)
  {
  }

  /** A whole schema build: the directive uses in visiting order. The first
      invalid use throws and aborts the build. */
  function Build(s: Schema, apps: seq<Application>): (r: Result<Schema, BuildError>)
    requires forall i :: 0 <= i < |apps| ==> ValidTarget(s, apps[i].target)
    ensures r.Failure? <==> exists i :: 0 <= i < |apps| && !ArgsGiven(apps[i].args)
    ensures r.Success? ==> SameShape(s, r.value)
    decreases |apps|
  {
    if |apps| == 0 then Success(s)
    else
      match ApplyDirective(s, apps[0].polarity, apps[0].args, apps[0].target)
      case Failure(e) => Failure(e)
      case Success(s1) =>
        forall i | 0 <= i < |apps[1..]|
          ensures ValidTarget(s1, apps[1..][i].target)
        {
          SameShapeKeepsTargets(s, s1, apps[1..][i].target);
        }
        var r := Build(s1, apps[1..]);
        assert r.Failure? <==> exists i :: 0 <= i < |apps| && !ArgsGiven(apps[i].args) by {
          if r.Failure? {
            var i :| 0 <= i < |apps[1..]| && !ArgsGiven(apps[1..][i].args);
            assert !ArgsGiven(apps[i + 1].args);
          } else {
            forall i | 0 <= i < |apps|
              ensures ArgsGiven(apps[i].args)
            {
              if i > 0 {
                assert apps[i] == apps[1..][i - 1];
              }
            }
          }
        }
        r
  }

  /** A build applies its first directive use and continues with the rest. */
  lemma BuildStep(s: Schema, apps: seq<Application>)
    requires forall i :: 0 <= i < |apps| ==> ValidTarget(s, apps[i].target)
    requires |apps| > 0 && ApplyDirective(s, apps[0].polarity, apps[0].args, apps[0].target).Success?
    ensures var s1 := ApplyDirective(s, apps[0].polarity, apps[0].args, apps[0].target).value;
      && (forall i :: 0 <= i < |apps[1..]| ==> ValidTarget(s1, apps[1..][i].target))
      && Build(s, apps) == Build(s1, apps[1..])
  {
    var s1 := ApplyDirective(s, apps[0].polarity, apps[0].args, apps[0].target).value;
    forall i | 0 <= i < |apps[1..]|
      ensures ValidTarget(s1, apps[1..][i].target)
    {
      SameShapeKeepsTargets(s, s1, apps[1..][i].target);
    }
  }

  /** A build of two directive uses is the second applied to the result of
      the first. */
  lemma BuildTwo(s: Schema, first: Application, second: Application)
    requires ValidTarget(s, first.target) && ValidTarget(s, second.target)
    requires ApplyDirective(s, first.polarity, first.args, first.target).Success?
    ensures var s1 := ApplyDirective(s, first.polarity, first.args, first.target).value;
      ValidTarget(s1, second.target) &&
      Build(s, [first, second]) == ApplyDirective(s1, second.polarity, second.args, second.target)
  {
    var s1 := ApplyDirective(s, first.polarity, first.args, first.target).value;
    BuildStep(s, [first, second]);
    assert [first, second][1..] == [second];
    SameShapeKeepsTargets(s, s1, second.target);
    if ApplyDirective(s1, second.polarity, second.args, second.target).Success? {
      BuildStep(s1, [second]);
      assert [second][1..] == [];
    }
  }

  /** Each field's layers are exactly the polarities whose marker its type
      carries, each once. */
  ghost predicate LayersMatch(ps: seq<Polarity>, wrapped: set<Polarity>) {
    NoRepeats(ps) && forall q :: q in ps <==> q in wrapped
  }

  ghost predicate LayersMatchMarkers(s: Schema) {
    forall tn, fn :: tn in s.types && fn in s.types[tn].fields ==>
      LayersMatch(Layers(Installed(s.types[tn].fields[fn])), s.types[tn].wrapped)
  }

  lemma PristineMatches(s: Schema)
    requires Pristine(s)
    ensures LayersMatchMarkers(s)
  {
  }

  /** One application keeps every field at one layer per marked polarity. */
  lemma ApplyKeepsLayersMatch(s: Schema, p: Polarity, args: DirectiveArgs, target: Target)
    requires ValidTarget(s, target) && LayersMatchMarkers(s)
    ensures ApplyDirective(s, p, args, target).Success? ==> LayersMatchMarkers(ApplyDirective(s, p, args, target).value)
  {
    var r := ApplyDirective(s, p, args, target);
    if r.Success? {
      var s' := r.value;
      var owner := target.typeName;
      forall tn, fn | tn in s'.types && fn in s'.types[tn].fields
        ensures LayersMatch(Layers(Installed(s'.types[tn].fields[fn])), s'.types[tn].wrapped)
      {
        if tn == owner {
          var t, t' := s.types[owner], s'.types[owner];
          assert LayersMatch(Layers(Installed(t.fields[fn])), t.wrapped);
          if p !in t.wrapped {
            NewLayerKeepsMatch(p, Layers(Installed(t.fields[fn])), t.wrapped);
          }
        } else {
          assert s'.types[tn] == s.types[tn];
        }
      }
    }
  }

  /** A new outermost layer of a polarity not yet marked keeps the layers
      matching the markers once that polarity is marked. */
  lemma NewLayerKeepsMatch(p: Polarity, ps: seq<Polarity>, wrapped: set<Polarity>)
    requires LayersMatch(ps, wrapped) && p !in wrapped
    ensures LayersMatch([p] + ps, wrapped + {p})
  {
    var ps' := [p] + ps;
    forall i, j | 0 <= i < j < |ps'|
      ensures ps'[i] != ps'[j]
    {
      assert ps'[j] == ps[j - 1];
      if i > 0 {
        assert ps'[i] == ps[i - 1];
      }
    }
  }

  /** Across a whole build from an untouched schema, every field carries at
      most one wrapper layer per polarity, and exactly one for each polarity
      whose marker its type has: the markers prevent compounding wrappers. */
  lemma {:induction false} BuildKeepsLayersMatch(s: Schema, apps: seq<Application>)
    requires forall i :: 0 <= i < |apps| ==> ValidTarget(s, apps[i].target)
    requires LayersMatchMarkers(s)
    ensures Build(s, apps).Success? ==> LayersMatchMarkers(Build(s, apps).value)
    decreases |apps|
  {
    if |apps| > 0 {
      var r := ApplyDirective(s, apps[0].polarity, apps[0].args, apps[0].target);
      if r.Success? {
        ApplyKeepsLayersMatch(s, apps[0].polarity, apps[0].args, apps[0].target);
        forall i | 0 <= i < |apps[1..]|
          ensures ValidTarget(r.value, apps[1..][i].target)
        {
          SameShapeKeepsTargets(s, r.value, apps[1..][i].target);
        }
        BuildKeepsLayersMatch(r.value, apps[1..]);
      }
    }
  }

  /** With only two polarities, any three layers repeat one. */
  lemma ThreeLayersRepeat(ps: seq<Polarity>)
    requires |ps| >= 3
    ensures !NoRepeats(ps)
  {
    if ps[0] != ps[1] && ps[0] != ps[2] {
      assert ps[1] == ps[2];
    }
  }

  /** After any build from a schema with no directives applied, every field
      has at most two wrapper layers, never two of the same polarity, and one
      for each polarity exactly when its type's marker for it is set. */
  lemma BuildWrapsOncePerPolarity(s: Schema, apps: seq<Application>, tn: string, fn: string)
    requires forall i :: 0 <= i < |apps| ==> ValidTarget(s, apps[i].target)
    requires Pristine(s)
    requires Build(s, apps).Success?
    requires tn in s.types && fn in s.types[tn].fields
    ensures var t := Build(s, apps).value.types[tn];
      && NoRepeats(Layers(Installed(t.fields[fn])))
      && |Layers(Installed(t.fields[fn]))| <= 2
      && forall q :: q in Layers(Installed(t.fields[fn])) <==> q in t.wrapped
  {
    PristineMatches(s);
    BuildKeepsLayersMatch(s, apps);
    var t := Build(s, apps).value.types[tn];
    if |Layers(Installed(t.fields[fn]))| >= 3 {
      ThreeLayersRepeat(Layers(Installed(t.fields[fn])));
    }
  }

  /** Applying the same directive a second time changes nothing: the rule is
      overwritten with itself and the marker stops a second wrap. */
  lemma ApplyIdempotent(s: Schema, p: Polarity, args: DirectiveArgs, target: Target)
    requires ValidTarget(s, target)
    requires ApplyDirective(s, p, args, target).Success?
    ensures ValidTarget(ApplyDirective(s, p, args, target).value, target)
    ensures ApplyDirective(ApplyDirective(s, p, args, target).value, p, args, target)
      == ApplyDirective(s, p, args, target)
  {
    var s1 := ApplyDirective(s, p, args, target).value;
    SameShapeKeepsTargets(s, s1, target);
    var tn := target.typeName;
    var t1 := s1.types[tn];
    assert p in t1.wrapped;
    match target {
      case OnObject(_) =>
        assert t1.rules[p := Rule(args.roles, args.group)] == t1.rules;
        assert s1.types[tn := t1] == s1.types;
      case OnField(_, fn) =>
        var f1 := t1.fields[fn];
        assert f1.rules[p := Rule(args.roles, args.group)] == f1.rules;
        assert t1.fields[fn := f1] == t1.fields;
        assert s1.types[tn := t1] == s1.types;
    }
  }

  /** Wrapping a type's fields never looks at the type's rules. */
  lemma WrapIgnoresTypeRules(t: ObjectType, p: Polarity, rules: map<Polarity, Rule>)
    ensures EnsureFieldsWrapped(t.(rules := rules), p) == EnsureFieldsWrapped(t, p).(rules := rules)
  {
  }

  /** Wrapping a type's fields never looks at a field's rules. */
  lemma WrapIgnoresFieldRules(t: ObjectType, p: Polarity, fn: string, rules: map<Polarity, Rule>)
    requires fn in t.fields
    ensures fn in EnsureFieldsWrapped(t, p).fields
    ensures EnsureFieldsWrapped(WithFieldRules(t, fn, rules), p) == WithFieldRules(EnsureFieldsWrapped(t, p), fn, rules)
  {
    var t' := WithFieldRules(t, fn, rules);
    var w, w' := EnsureFieldsWrapped(t, p), EnsureFieldsWrapped(t', p);
    if p !in t.wrapped {
      var expected := WithFieldRules(w, fn, rules).fields;
      assert w'.fields.Keys == expected.Keys;
      forall n | n in w'.fields
        ensures w'.fields[n] == expected[n]
      {
        if n == fn {
          assert w'.fields[n] == Wrap(t.fields[fn].(rules := rules), p);
        }
      }
      assert w'.fields == expected;
    }
  }

  /** Re-applying a polarity to a type gives the same schema as applying only
      the second use: nothing of the first rule or its wrapping accumulates. */
  lemma ReapplyToObjectOverwrites(s: Schema, p: Polarity, first: DirectiveArgs, second: DirectiveArgs, tn: string)
    requires tn in s.types
    requires ApplyDirective(s, p, first, OnObject(tn)).Success?
    ensures tn in ApplyDirective(s, p, first, OnObject(tn)).value.types
    ensures ApplyDirective(ApplyDirective(s, p, first, OnObject(tn)).value, p, second, OnObject(tn))
      == ApplyDirective(s, p, second, OnObject(tn))
  {
    var s1 := ApplyDirective(s, p, first, OnObject(tn)).value;
    if ArgsGiven(second) {
      var t := s.types[tn];
      var r1, r2 := Rule(first.roles, first.group), Rule(second.roles, second.group);
      var t1 := s1.types[tn];
      WrapIgnoresTypeRules(t, p, t.rules[p := r1]);
      WrapIgnoresTypeRules(t, p, t.rules[p := r2]);
      assert t1.rules[p := r2] == t.rules[p := r2];
      assert EnsureFieldsWrapped(t1.(rules := t1.rules[p := r2]), p) == EnsureFieldsWrapped(t.(rules := t.rules[p := r2]), p);
      assert s1.types[tn := EnsureFieldsWrapped(t1.(rules := t1.rules[p := r2]), p)]
        == s.types[tn := EnsureFieldsWrapped(t.(rules := t.rules[p := r2]), p)];
    }
  }

  lemma VisitFieldTwice(s: Schema, p: Polarity, first: DirectiveArgs, second: DirectiveArgs, tn: string, fn: string)
    requires tn in s.types && fn in s.types[tn].fields
    requires ArgsGiven(first) && ArgsGiven(second)
    ensures var s1 := VisitFieldDefinition(s, p, first, tn, fn);
      && s1.Success? && tn in s1.value.types && fn in s1.value.types[tn].fields
      && VisitFieldDefinition(s1.value, p, second, tn, fn) == VisitFieldDefinition(s, p, second, tn, fn)
  {
    var t := s.types[tn];
    var x := t.fields[fn].rules[p := Rule(first.roles, first.group)];
    var w := EnsureFieldsWrapped(t, p);
    WrapIgnoresFieldRules(t, p, fn, x);
    var t1 := WithFieldRules(w, fn, x);
    var s1 := Schema(s.types[tn := t1]);
    assert VisitFieldDefinition(s, p, first, tn, fn) == Success(s1);
    var y := x[p := Rule(second.roles, second.group)];
    assert y == t.fields[fn].rules[p := Rule(second.roles, second.group)];
    WrapIgnoresFieldRules(t, p, fn, y);
    var t2 := WithFieldRules(t1, fn, y);
    assert t2 == WithFieldRules(w, fn, y);
    assert EnsureFieldsWrapped(t2, p) == t2;
    assert VisitFieldDefinition(s1, p, second, tn, fn) == Success(Schema(s1.types[tn := t2]));
    assert s1.types[tn := t2] == s.types[tn := t2];
  }

  /** Re-applying a polarity to a field gives the same schema as applying only
      the second use: nothing of the first rule or its wrapping accumulates. */
  lemma ReapplyToFieldOverwrites(s: Schema, p: Polarity, first: DirectiveArgs, second: DirectiveArgs, tn: string, fn: string)
    requires tn in s.types && fn in s.types[tn].fields
    requires ApplyDirective(s, p, first, OnField(tn, fn)).Success?
    ensures var s1 := ApplyDirective(s, p, first, OnField(tn, fn)).value;
      tn in s1.types && fn in s1.types[tn].fields
    ensures ApplyDirective(ApplyDirective(s, p, first, OnField(tn, fn)).value, p, second, OnField(tn, fn))
      == ApplyDirective(s, p, second, OnField(tn, fn))
  {
    if ArgsGiven(second) {
      VisitFieldTwice(s, p, first, second, tn, fn);
    } else {
      var s1 := ApplyDirective(s, p, first, OnField(tn, fn)).value;
      assert ValidTarget(s1, OnField(tn, fn));
    }
  }

  /** Re-applying a polarity to an element gives the same schema as applying
      only the second use: the rule is overwritten, never accumulated, and no
      second layer appears. */
  lemma ReapplyOverwrites(s: Schema, p: Polarity, first: DirectiveArgs, second: DirectiveArgs, target: Target)
    requires ValidTarget(s, target)
    requires ApplyDirective(s, p, first, target).Success?
    ensures ValidTarget(ApplyDirective(s, p, first, target).value, target)
    ensures ApplyDirective(ApplyDirective(s, p, first, target).value, p, second, target)
      == ApplyDirective(s, p, second, target)
  {
    match target
    case OnObject(tn) => ReapplyToObjectOverwrites(s, p, first, second, tn);
    case OnField(tn, fn) => ReapplyToFieldOverwrites(s, p, first, second, tn, fn);
  }

  /** Use `a` stores a rule of polarity `p` on element `e`. */
  predicate Writes(a: Application, e: Target, p: Polarity) {
    a.target == e && a.polarity == p
  }

  /** Use `a` runs `ensureFieldsWrapped` for polarity `p` on type `tn`. */
  predicate Marks(a: Application, tn: string, p: Polarity) {
    a.target.typeName == tn && a.polarity == p
  }

  /** Use `k` is the last one in `apps` that stores a rule of `p` on `e`. */
  predicate LastWrite(apps: seq<Application>, e: Target, p: Polarity, k: int) {
    && 0 <= k < |apps|
    && Writes(apps[k], e, p)
    && forall j :: k < j < |apps| ==> !Writes(apps[j], e, p)
  }

  /** The first use of a successful build, seen through what it changes:
      the marks and rules it sets, and the build of the remaining uses. */
  lemma FirstUse(s: Schema, apps: seq<Application>) returns (s1: Schema)
    requires forall i :: 0 <= i < |apps| ==> ValidTarget(s, apps[i].target)
    requires |apps| > 0 && Build(s, apps).Success?
    ensures SameShape(s, s1)
    ensures forall i :: 0 <= i < |apps[1..]| ==> ValidTarget(s1, apps[1..][i].target)
    ensures Build(s1, apps[1..]) == Build(s, apps)
    ensures forall tn, p :: tn in s.types ==>
      (p in s1.types[tn].wrapped <==> p in s.types[tn].wrapped || Marks(apps[0], tn, p))
    ensures forall e, p :: ValidTarget(s, e) ==>
      RuleAt(s1, e, p) == if Writes(apps[0], e, p) then Some(Rule(apps[0].args.roles, apps[0].args.group)) else RuleAt(s, e, p)
  {
    assert ArgsGiven(apps[0].args);
    s1 := ApplyDirective(s, apps[0].polarity, apps[0].args, apps[0].target).value;
    BuildStep(s, apps);
  }

  /** Some use in `apps` marks type `tn` for `p`. */
  predicate SomeMarks(apps: seq<Application>, tn: string, p: Polarity) {
    exists i :: 0 <= i < |apps| && Marks(apps[i], tn, p)
  }

  lemma SomeMarksSplit(apps: seq<Application>, tn: string, p: Polarity)
    requires |apps| > 0
    ensures SomeMarks(apps, tn, p) <==> Marks(apps[0], tn, p) || SomeMarks(apps[1..], tn, p)
  {
    if SomeMarks(apps, tn, p) {
      var i :| 0 <= i < |apps| && Marks(apps[i], tn, p);
      if i > 0 {
        assert apps[1..][i - 1] == apps[i];
      }
    }
    if SomeMarks(apps[1..], tn, p) {
      var i :| 0 <= i < |apps[1..]| && Marks(apps[1..][i], tn, p);
      assert apps[i + 1] == apps[1..][i];
    }
  }

  /** After a successful build, type `tn` is marked for polarity `p` exactly
      when it was before or some use of `p` is on `tn` or one of its fields. */
  lemma {:induction false} BuildMarkers(s: Schema, apps: seq<Application>, tn: string, p: Polarity)
    requires forall i :: 0 <= i < |apps| ==> ValidTarget(s, apps[i].target)
    requires Build(s, apps).Success? && tn in s.types
    ensures tn in Build(s, apps).value.types
    ensures p in Build(s, apps).value.types[tn].wrapped <==> (p in s.types[tn].wrapped || SomeMarks(apps, tn, p))
    decreases |apps|
  {
    if |apps| > 0 {
      var s1 := FirstUse(s, apps);
      BuildMarkers(s1, apps[1..], tn, p);
      SomeMarksSplit(apps, tn, p);
    }
  }

  /** No use in `apps` stores a rule of `p` on `e`. */
  predicate NoWrite(apps: seq<Application>, e: Target, p: Polarity) {
    forall i :: 0 <= i < |apps| ==> !Writes(apps[i], e, p)
  }

  lemma NoWriteSplit(apps: seq<Application>, e: Target, p: Polarity)
    requires |apps| > 0
    ensures NoWrite(apps, e, p) <==> !Writes(apps[0], e, p) && NoWrite(apps[1..], e, p)
  {
    if !Writes(apps[0], e, p) && NoWrite(apps[1..], e, p) {
      forall i | 0 < i < |apps| ensures !Writes(apps[i], e, p) {
        assert apps[i] == apps[1..][i - 1];
      }
    }
  }

  lemma LastWriteSplit(apps: seq<Application>, e: Target, p: Polarity, k: int)
    requires LastWrite(apps, e, p, k)
    ensures k == 0 ==> NoWrite(apps[1..], e, p)
    ensures k > 0 ==> LastWrite(apps[1..], e, p, k - 1)
  {
    var rest := apps[1..];
    forall j | k - 1 < j < |rest| ensures !Writes(rest[j], e, p) {
      assert rest[j] == apps[j + 1];
    }
    if k > 0 {
      assert rest[k - 1] == apps[k];
    }
  }

  /** After a successful build, each element holds, for each polarity, the
      arguments of the last use of that polarity on it, or the rule it started
      with when no use wrote it. */
  lemma {:induction false} BuildLastWriteWins(s: Schema, apps: seq<Application>, e: Target, p: Polarity)
    requires forall i :: 0 <= i < |apps| ==> ValidTarget(s, apps[i].target)
    requires Build(s, apps).Success? && ValidTarget(s, e)
    ensures ValidTarget(Build(s, apps).value, e)
    ensures NoWrite(apps, e, p) ==> RuleAt(Build(s, apps).value, e, p) == RuleAt(s, e, p)
    ensures forall k :: LastWrite(apps, e, p, k) ==>
      RuleAt(Build(s, apps).value, e, p) == Some(Rule(apps[k].args.roles, apps[k].args.group))
    decreases |apps|
  {
    SameShapeKeepsTargets(s, Build(s, apps).value, e);
    if |apps| > 0 {
      var s1 := FirstUse(s, apps);
      SameShapeKeepsTargets(s, s1, e);
      BuildLastWriteWins(s1, apps[1..], e, p);
      NoWriteSplit(apps, e, p);
      forall k | LastWrite(apps, e, p, k)
        ensures RuleAt(Build(s, apps).value, e, p) == Some(Rule(apps[k].args.roles, apps[k].args.group))
      {
        LastWriteSplit(apps, e, p, k);
      }
    }
  }

  /** From a schema with no directives applied, a build leaves a layer of
      polarity `p` on every field of every type that some use of `p` targets,
      directly or through one of its fields. */
  lemma BuildWrapsTargetedTypes(s: Schema, apps: seq<Application>, tn: string, fn: string, p: Polarity)
    requires forall i :: 0 <= i < |apps| ==> ValidTarget(s, apps[i].target)
    requires Pristine(s) && Build(s, apps).Success?
    requires tn in s.types && fn in s.types[tn].fields
    ensures tn in Build(s, apps).value.types && fn in Build(s, apps).value.types[tn].fields
    ensures p in Layers(Installed(Build(s, apps).value.types[tn].fields[fn])) <==> SomeMarks(apps, tn, p)
  {
    BuildMarkers(s, apps, tn, p);
    PristineMatches(s);
    BuildKeepsLayersMatch(s, apps);
  }
}
