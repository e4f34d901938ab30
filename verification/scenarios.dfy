/**
 Consequences of a build for later calls: what a directive application
 makes every field of its type do at request time.
 */
module Scenarios {
  import opened Wrappers
  import opened Polarities
  import opened SchemaState
  import opened Directives
  import opened Enforcement

  /** Because the first application of a polarity wraps every field of the
      type, a directive on one field locks its siblings: a sibling with no rule
      of that polarity, on a type with none either, fails every call, with
      `NotAuthorized` when anonymous and `NoRule` otherwise, before any oracle
      question and without reaching its resolver. */
  lemma SiblingFieldsRefused<A, R>(s: Schema, p: Polarity, args: DirectiveArgs, tn: string, fn: string, g: string,
                                   userId: Option<string>, oracle: Oracle, base: (BaseResolver, A) -> R, a: A)
    requires tn in s.types && fn in s.types[tn].fields && g in s.types[tn].fields && g != fn
    requires p !in s.types[tn].wrapped && p !in s.types[tn].rules && p !in s.types[tn].fields[g].rules
    requires ApplyDirective(s, p, args, OnField(tn, fn)).Success?
    ensures var s' := ApplyDirective(s, p, args, OnField(tn, fn)).value;
      tn in s'.types && g in s'.types[tn].fields &&
      ResolveField(s', tn, g, userId, oracle, base, a) == Call([], Failure(if UserPresent(userId) then NoRule else NotAuthorized))
  {
    var s' := ApplyDirective(s, p, args, OnField(tn, fn)).value;
    assert ValidTarget(s, OnField(tn, g)) && ValidTarget(s, OnObject(tn));
    assert RuleAt(s', OnField(tn, g), p) == None;
    assert RuleAt(s', OnObject(tn), p) == None;
    var t' := s'.types[tn];
    OutermostLayer(Installed(t'.fields[g]));
  }

  /** Whenever a type carries a layer of polarity `p` on every field, a
      successful call of any of its fields was made by an identified caller
      who passed the rule of polarity `p` that the field resolves to. */
  lemma SuccessPassedRule<A, R>(s: Schema, p: Polarity, tn: string, fn: string,
                                userId: Option<string>, oracle: Oracle, base: (BaseResolver, A) -> R, a: A)
    requires LayersMatchMarkers(s)
    requires tn in s.types && fn in s.types[tn].fields && p in s.types[tn].wrapped
    requires ResolveField(s, tn, fn, userId, oracle, base, a).outcome.Success?
    ensures UserPresent(userId)
    ensures EffectiveRule(s.types[tn], s.types[tn].fields[fn], p).Some?
    ensures var rule := EffectiveRule(s.types[tn], s.types[tn].fields[fn], p).value;
      !Denied(p, oracle(userId.value, rule.roles, rule.group))
  {
    var t := s.types[tn];
    var f := t.fields[fn];
    var L := Layers(Installed(f));
    assert p in L;
    var i :| 0 <= i < |L| && L[i] == p;
    InvokeSucceedsIff(t, f, Installed(f), userId, oracle, base, a);
  }

  /** After `@allow`/`@deny` on a type, a call of any field without its own
      rule of that polarity succeeds only for an identified caller whose
      membership in the type's `roles`/`group` the polarity admits. */
  lemma TypeRuleGuardsFields<A, R>(s: Schema, p: Polarity, args: DirectiveArgs, tn: string, g: string,
                                   userId: Option<string>, oracle: Oracle, base: (BaseResolver, A) -> R, a: A)
    requires LayersMatchMarkers(s)
    requires tn in s.types && g in s.types[tn].fields && p !in s.types[tn].fields[g].rules
    requires ApplyDirective(s, p, args, OnObject(tn)).Success?
    ensures var s' := ApplyDirective(s, p, args, OnObject(tn)).value;
      tn in s'.types && g in s'.types[tn].fields &&
      (ResolveField(s', tn, g, userId, oracle, base, a).outcome.Success? ==>
         UserPresent(userId) && !Denied(p, oracle(userId.value, args.roles, args.group)))
  {
    var s' := ApplyDirective(s, p, args, OnObject(tn)).value;
    ApplyKeepsLayersMatch(s, p, args, OnObject(tn));
    assert ValidTarget(s, OnField(tn, g));
    assert RuleAt(s', OnField(tn, g), p) == None;
    assert RuleAt(s', OnObject(tn), p) == Some(Rule(args.roles, args.group));
    if ResolveField(s', tn, g, userId, oracle, base, a).outcome.Success? {
      SuccessPassedRule(s', p, tn, g, userId, oracle, base, a);
    }
  }

  /** After `@allow`/`@deny` on a field, a call of that field succeeds only for
      an identified caller whose membership in the field's own `roles`/`group`
      the polarity admits, whatever rule its type holds. */
  lemma FieldRuleGuardsField<A, R>(s: Schema, p: Polarity, args: DirectiveArgs, tn: string, fn: string,
                                   userId: Option<string>, oracle: Oracle, base: (BaseResolver, A) -> R, a: A)
    requires LayersMatchMarkers(s)
    requires tn in s.types && fn in s.types[tn].fields
    requires ApplyDirective(s, p, args, OnField(tn, fn)).Success?
    ensures var s' := ApplyDirective(s, p, args, OnField(tn, fn)).value;
      tn in s'.types && fn in s'.types[tn].fields &&
      (ResolveField(s', tn, fn, userId, oracle, base, a).outcome.Success? ==>
         UserPresent(userId) && !Denied(p, oracle(userId.value, args.roles, args.group)))
  {
    var s' := ApplyDirective(s, p, args, OnField(tn, fn)).value;
    ApplyKeepsLayersMatch(s, p, args, OnField(tn, fn));
    assert RuleAt(s', OnField(tn, fn), p) == Some(Rule(args.roles, args.group));
    if ResolveField(s', tn, fn, userId, oracle, base, a).outcome.Success? {
      SuccessPassedRule(s', p, tn, fn, userId, oracle, base, a);
    }
  }
}
