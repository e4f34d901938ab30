/**
 Request time: the resolver closure `ensureFieldsWrapped` installs. Each
 wrapper layer checks the caller's `userId`, resolves its rule (the field's
 first, the type's as fallback), asks the role oracle, and either refuses
 or calls the resolver it wraps with the same arguments.
 */
module Enforcement {
  import opened Wrappers
  import opened Polarities
  import opened SchemaState

  /** `NotAuthorized` is `throwNotAuthorized`; `NoRule` is the TypeError of
      destructuring `undefined` when neither the field nor its type holds a
      rule of the layer's polarity; `NoContext` is the TypeError of reading
      `userId` from a missing context. */
  datatype CallError = NotAuthorized | NoRule | NoContext

  /** The graphql context value passed to a resolver as its third argument;
      the wrappers read only its `userId`. */
  datatype Context = Context(userId: Option<string>)

  /** One question put to the role oracle (`Roles.userIsInRole`). */
  datatype Query = Query(userId: string, roles: Option<seq<string>>, group: Option<string>)

  /** What one call of a field's resolver does: the oracle questions it asks,
      in order, and its outcome. */
  datatype Call<R> = Call(queries: seq<Query>, outcome: Result<R, CallError>)

  /** The role oracle, `userIsInRole(userId, roles, group)`. */
  type Oracle = (string, Option<seq<string>>, Option<string>) -> bool

  /** `context.userId` is truthy: present and not the empty string. */
  predicate UserPresent(userId: Option<string>) {
    userId.Some? && userId.value != ""
  }

  /** `field._<name> || objectType._<name>`. */
  function EffectiveRule(t: ObjectType, f: Field, p: Polarity): Option<Rule> {
    if p in f.rules then Lookup(f.rules, p) else Lookup(t.rules, p)
  }

  /** The oracle question a layer of polarity `p` asks, if it finds a rule. */
  function QueryOf(t: ObjectType, f: Field, p: Polarity, userId: string): Option<Query> {
    match EffectiveRule(t, f, p)
    case None => None
    case Some(rule) => Some(Query(userId, rule.roles, rule.group))
  }

  /** A layer of polarity `p` lets the caller through: it finds a rule and the
      caller's membership does not trigger a refusal. */
  predicate Passes(t: ObjectType, f: Field, p: Polarity, userId: string, oracle: Oracle) {
    match EffectiveRule(t, f, p)
    case None => false
    case Some(rule) => !Denied(p, oracle(userId, rule.roles, rule.group))
  }

  /** Calling resolver `r` of field `f` on type `t`. A wrapper layer checks
      `userId`, then looks its rule up, then asks the oracle, then refuses or
      calls the resolver it wraps; the base resolver at the centre receives
      the call's arguments `args` unchanged and its result is returned as is. */
  function Invoke<A, R>(t: ObjectType, f: Field, r: Resolver, userId: Option<string>,
                        oracle: Oracle, base: (BaseResolver, A) -> R, args: A): Call<R>
    decreases r
  {
    match r
    case Plain(b) => Call([], Success(base(b, args)))
    case Guarded(p, inner) =>
      if !UserPresent(userId) then Call([], Failure(NotAuthorized))
      else
        match EffectiveRule(t, f, p)
        case None => Call([], Failure(NoRule))
        case Some(rule) =>
          var q := Query(userId.value, rule.roles, rule.group);
          if Denied(p, oracle(userId.value, rule.roles, rule.group)) then Call([q], Failure(NotAuthorized))
          else
            var c := Invoke(t, f, inner, userId, oracle, base, args);
            Call([q] + c.queries, c.outcome)
  }

  /** A call succeeds exactly when the resolver has no layers, or the caller
      is identified and every layer passes; a successful call returns what
      the base resolver returns for the same arguments, after one oracle
      question per layer. */
  lemma {:induction false} InvokeSucceedsIff<A, R>(t: ObjectType, f: Field, r: Resolver, userId: Option<string>,
                                                  oracle: Oracle, base: (BaseResolver, A) -> R, args: A)
    ensures var c := Invoke(t, f, r, userId, oracle, base, args);
      c.outcome.Success? <==>
        (Layers(r) == [] ||
         (UserPresent(userId) && forall i :: 0 <= i < |Layers(r)| ==> Passes(t, f, Layers(r)[i], userId.value, oracle)))
    ensures var c := Invoke(t, f, r, userId, oracle, base, args);
      c.outcome.Success? ==> c.outcome.value == base(Core(r), args) && |c.queries| == |Layers(r)|
    decreases r
  {
    match r
    case Plain(_) =>
    case Guarded(p, inner) =>
      if UserPresent(userId) && Passes(t, f, p, userId.value, oracle) {
        var u := userId.value;
        var rule := EffectiveRule(t, f, p).value;
        var c := Invoke(t, f, inner, userId, oracle, base, args);
        assert Invoke(t, f, r, userId, oracle, base, args) == Call([Query(u, rule.roles, rule.group)] + c.queries, c.outcome);
        InvokeSucceedsIff(t, f, inner, userId, oracle, base, args);
        var L, LI := Layers(r), Layers(inner);
        assert L == [p] + LI;
        if forall i :: 0 <= i < |LI| ==> Passes(t, f, LI[i], u, oracle) {
          forall i | 0 <= i < |L|
            ensures Passes(t, f, L[i], u, oracle)
          {
            if i > 0 {
              assert L[i] == LI[i - 1];
            }
          }
        } else {
          var j :| 0 <= j < |LI| && !Passes(t, f, LI[j], u, oracle);
          assert L[j + 1] == LI[j];
          assert !Passes(t, f, L[j + 1], u, oracle);
        }
      } else if UserPresent(userId) {
        assert !Passes(t, f, Layers(r)[0], userId.value, oracle);
      }
  }

  /** A field-level rule always wins over the type-level rule of the same
      polarity, and each layer resolves its rule on its own: two types that
      agree on every polarity the field is wrapped with but holds no rule
      of give the same result for every call. In particular, when the field
      holds its own rule of every such polarity, the type plays no part. */
  lemma {:induction false} FieldRulesOverrideType<A, R>(t: ObjectType, t': ObjectType, f: Field, r: Resolver,
                                                       userId: Option<string>, oracle: Oracle,
                                                       base: (BaseResolver, A) -> R, args: A)
    requires forall q :: q in Layers(r) && q !in f.rules ==>
      (q in t.rules <==> q in t'.rules) && (q in t.rules ==> t.rules[q] == t'.rules[q])
    ensures Invoke(t, f, r, userId, oracle, base, args) == Invoke(t', f, r, userId, oracle, base, args)
    decreases r
  {
    match r
    case Plain(_) =>
    case Guarded(p, inner) =>
      assert Layers(r) == [p] + Layers(inner);
      assert EffectiveRule(t, f, p) == EffectiveRule(t', f, p);
      FieldRulesOverrideType(t, t', f, inner, userId, oracle, base, args);
  }

  /** A call with a falsy `userId` to a wrapped resolver is refused before any
      rule lookup or oracle question, whatever the rules say. */
  lemma NoUserRefused<A, R>(t: ObjectType, f: Field, r: Resolver, userId: Option<string>,
                            oracle: Oracle, base: (BaseResolver, A) -> R, args: A)
    requires Layers(r) != [] && !UserPresent(userId)
    ensures Invoke(t, f, r, userId, oracle, base, args) == Call([], Failure(NotAuthorized))
  {
  }

  /** Layer `k` is the first that does not pass, and it fails for lack of
      any rule of its polarity. */
  predicate StopsForLackOfRule(t: ObjectType, f: Field, ps: seq<Polarity>, userId: string, oracle: Oracle, k: int) {
    && 0 <= k < |ps|
    && EffectiveRule(t, f, ps[k]).None?
    && forall i :: 0 <= i < k ==> Passes(t, f, ps[i], userId, oracle)
  }

  /** A call fails with `NoRule` exactly when the caller is identified and the
      first layer that does not pass is one that finds no rule at all. */
  lemma {:induction false} InvokeNoRuleIff<A, R>(t: ObjectType, f: Field, r: Resolver, userId: Option<string>,
                                                oracle: Oracle, base: (BaseResolver, A) -> R, args: A)
    ensures Invoke(t, f, r, userId, oracle, base, args).outcome == Failure(NoRule) <==>
      (UserPresent(userId) && exists k :: StopsForLackOfRule(t, f, Layers(r), userId.value, oracle, k))
    decreases r
  {
    match r
    case Plain(_) =>
    case Guarded(p, inner) =>
      var L, LI := Layers(r), Layers(inner);
      assert L == [p] + LI;
      if UserPresent(userId) {
        var u := userId.value;
        if EffectiveRule(t, f, p).None? {
          assert StopsForLackOfRule(t, f, L, u, oracle, 0);
          assert exists k :: StopsForLackOfRule(t, f, Layers(r), userId.value, oracle, k);
        } else if Passes(t, f, p, u, oracle) {
          InvokeNoRuleIff(t, f, inner, userId, oracle, base, args);
          assert Invoke(t, f, r, userId, oracle, base, args).outcome == Invoke(t, f, inner, userId, oracle, base, args).outcome;
          if exists k :: StopsForLackOfRule(t, f, LI, u, oracle, k) {
            var k :| StopsForLackOfRule(t, f, LI, u, oracle, k);
            assert L[k + 1] == LI[k];
            forall i | 0 <= i < k + 1
              ensures Passes(t, f, L[i], u, oracle)
            {
              if i > 0 {
                assert L[i] == LI[i - 1];
              }
            }
            assert StopsForLackOfRule(t, f, L, u, oracle, k + 1);
            assert exists k :: StopsForLackOfRule(t, f, Layers(r), userId.value, oracle, k);
          } else {
            forall k
              ensures !StopsForLackOfRule(t, f, L, u, oracle, k)
            {
              if 0 < k < |L| && EffectiveRule(t, f, L[k]).None? && forall i :: 0 <= i < k ==> Passes(t, f, L[i], u, oracle) {
                assert L[k] == LI[k - 1];
                forall i | 0 <= i < k - 1
                  ensures Passes(t, f, LI[i], u, oracle)
                {
                  assert L[i + 1] == LI[i];
                }
                assert StopsForLackOfRule(t, f, LI, u, oracle, k - 1);
              }
            }
          }
        } else {
          forall k
            ensures !StopsForLackOfRule(t, f, L, u, oracle, k)
          {
            assert !Passes(t, f, L[0], u, oracle);
          }
        }
      }
  }

  /** Layer `k` is the first that does not let an identified caller through. */
  predicate FirstRefusal(t: ObjectType, f: Field, ps: seq<Polarity>, userId: string, oracle: Oracle, k: int) {
    && 0 <= k < |ps|
    && !Passes(t, f, ps[k], userId, oracle)
    && forall i :: 0 <= i < k ==> Passes(t, f, ps[i], userId, oracle)
  }

  /** A call fails in only two ways: `NotAuthorized` (a falsy `userId`, or a
      refusal by a layer's decision) and `NoRule` (a layer that finds no
      rule); a resolver chain never produces `NoContext`. */
  lemma {:induction false} InvokeFailsOnlyTwoWays<A, R>(t: ObjectType, f: Field, r: Resolver, userId: Option<string>,
                                                        oracle: Oracle, base: (BaseResolver, A) -> R, args: A)
    ensures var c := Invoke(t, f, r, userId, oracle, base, args);
      c.outcome.Failure? ==> c.outcome.error == NotAuthorized || c.outcome.error == NoRule
    decreases r
  {
    match r
    case Plain(_) =>
    case Guarded(p, inner) =>
      InvokeFailsOnlyTwoWays(t, f, inner, userId, oracle, base, args);
      if UserPresent(userId) && Passes(t, f, p, userId.value, oracle) {
        var rule := EffectiveRule(t, f, p).value;
        var c := Invoke(t, f, inner, userId, oracle, base, args);
        assert Invoke(t, f, r, userId, oracle, base, args) == Call([Query(userId.value, rule.roles, rule.group)] + c.queries, c.outcome);
      }
  }

  /** A call fails with `NotAuthorized` exactly when the resolver is wrapped
      and either the caller is anonymous or the first layer that does not let
      the caller through found a rule, so that its decision refused them. */
  lemma InvokeNotAuthorizedIff<A, R>(t: ObjectType, f: Field, r: Resolver, userId: Option<string>,
                                     oracle: Oracle, base: (BaseResolver, A) -> R, args: A)
    ensures Invoke(t, f, r, userId, oracle, base, args).outcome == Failure(NotAuthorized) <==>
      (Layers(r) != [] &&
       (!UserPresent(userId) ||
        exists k :: FirstRefusal(t, f, Layers(r), userId.value, oracle, k) && EffectiveRule(t, f, Layers(r)[k]).Some?))
  {
    var L := Layers(r);
    var o := Invoke(t, f, r, userId, oracle, base, args).outcome;
    InvokeSucceedsIff(t, f, r, userId, oracle, base, args);
    InvokeNoRuleIff(t, f, r, userId, oracle, base, args);
    InvokeFailsOnlyTwoWays(t, f, r, userId, oracle, base, args);
    if L != [] && UserPresent(userId) {
      var u := userId.value;
      if o.Failure? {
        // Some layer refuses, so there is a first one.
        var j :| 0 <= j < |L| && !Passes(t, f, L[j], u, oracle);
        var k := FirstFailing(t, f, L, u, oracle, j);
        if EffectiveRule(t, f, L[k]).None? {
          assert StopsForLackOfRule(t, f, L, u, oracle, k);
        } else {
          forall k' | FirstRefusal(t, f, L, u, oracle, k')
            ensures EffectiveRule(t, f, L[k']).Some?
          {
            assert k' == k;
          }
          forall m | 0 <= m < |L|
            ensures !StopsForLackOfRule(t, f, L, u, oracle, m)
          {
            if m < k {
              assert Passes(t, f, L[m], u, oracle);
            } else if k < m {
              assert !Passes(t, f, L[k], u, oracle);
            }
          }
        }
      }
    }
  }

  /** The first failing layer at or before a known failing one. */
  lemma FirstFailing(t: ObjectType, f: Field, ps: seq<Polarity>, userId: string, oracle: Oracle, j: int)
      returns (k: int)
    requires 0 <= j < |ps| && !Passes(t, f, ps[j], userId, oracle)
    ensures FirstRefusal(t, f, ps, userId, oracle, k) && k <= j
    decreases j
  {
    if forall i :: 0 <= i < j ==> Passes(t, f, ps[i], userId, oracle) {
      k := j;
    } else {
      var i :| 0 <= i < j && !Passes(t, f, ps[i], userId, oracle);
      k := FirstFailing(t, f, ps, userId, oracle, i);
    }
  }

  /** The oracle is asked at most once per layer, in order from the outermost
      layer inwards, each time with the caller and the rule that layer finds.
      The questions stop at the first layer that refuses: that layer asks
      one when it finds a rule and none when it does not, and no layer inside
      it is reached. */
  lemma {:induction false} InvokeQueriesInOrder<A, R>(t: ObjectType, f: Field, r: Resolver, userId: Option<string>,
                                                     oracle: Oracle, base: (BaseResolver, A) -> R, args: A)
    ensures var c := Invoke(t, f, r, userId, oracle, base, args);
      && |c.queries| <= |Layers(r)|
      && (!UserPresent(userId) ==> c.queries == [])
      && (UserPresent(userId) ==> forall i :: 0 <= i < |c.queries| ==>
            QueryOf(t, f, Layers(r)[i], userId.value) == Some(c.queries[i]))
    ensures var c := Invoke(t, f, r, userId, oracle, base, args);
      UserPresent(userId) ==> forall k :: FirstRefusal(t, f, Layers(r), userId.value, oracle, k) ==>
        |c.queries| == (if EffectiveRule(t, f, Layers(r)[k]).None? then k else k + 1)
    decreases r
  {
    match r
    case Plain(_) =>
    case Guarded(p, inner) =>
      InvokeQueriesInOrder(t, f, inner, userId, oracle, base, args);
      var L, LI := Layers(r), Layers(inner);
      assert L == [p] + LI;
      assert forall i :: 0 < i < |L| ==> L[i] == LI[i - 1];
      if UserPresent(userId) {
        var u := userId.value;
        forall k | FirstRefusal(t, f, L, u, oracle, k)
          ensures |Invoke(t, f, r, userId, oracle, base, args).queries|
                  == (if EffectiveRule(t, f, L[k]).None? then k else k + 1)
        {
          if k > 0 {
            assert Passes(t, f, L[0], u, oracle);
            forall i | 0 <= i < k - 1
              ensures Passes(t, f, LI[i], u, oracle)
            {
              assert L[i + 1] == LI[i];
            }
            assert FirstRefusal(t, f, LI, u, oracle, k - 1);
            var rule := EffectiveRule(t, f, p).value;
            var c := Invoke(t, f, inner, userId, oracle, base, args);
            assert Invoke(t, f, r, userId, oracle, base, args) == Call([Query(u, rule.roles, rule.group)] + c.queries, c.outcome);
          }
        }
      }
  }

  /** graphql calling field `fn` of type `tn`: whatever resolver the field
      holds, or `defaultFieldResolver` when it holds none. A field that was
      never wrapped passes the call straight to its resolver with no identity
      required; a wrapped one refuses a call without `userId`. */
  function ResolveField<A, R>(s: Schema, tn: string, fn: string, userId: Option<string>,
                              oracle: Oracle, base: (BaseResolver, A) -> R, args: A): (c: Call<R>)
    requires tn in s.types && fn in s.types[tn].fields
    ensures var r := Installed(s.types[tn].fields[fn]);
      Layers(r) == [] ==> c == Call([], Success(base(Core(r), args)))
    ensures Layers(Installed(s.types[tn].fields[fn])) != [] && !UserPresent(userId) ==>
      c == Call([], Failure(NotAuthorized))
  {
    var t := s.types[tn];
    var f := t.fields[fn];
    InvokeSucceedsIff(t, f, Installed(f), userId, oracle, base, args);
    InvokeQueriesInOrder(t, f, Installed(f), userId, oracle, base, args);
    Invoke(t, f, Installed(f), userId, oracle, base, args)
  }

  /** graphql calling field `fn` of type `tn` with context value `context`,
      absent when the server was given none. A wrapped field reads
      `context.userId` first, so without a context it fails with the
      `NoContext` TypeError before any other check; an unwrapped field never
      looks at the context. With a context, the call is the one `userId`
      decides. */
  function CallField<A, R>(s: Schema, tn: string, fn: string, context: Option<Context>,
                           oracle: Oracle, base: (BaseResolver, A) -> R, args: A): (c: Call<R>)
    requires tn in s.types && fn in s.types[tn].fields
    ensures var r := Installed(s.types[tn].fields[fn]);
      Layers(r) == [] ==> c == Call([], Success(base(Core(r), args)))
    ensures Layers(Installed(s.types[tn].fields[fn])) != [] && context.None? ==>
      c == Call([], Failure(NoContext))
    ensures context.Some? ==> c == ResolveField(s, tn, fn, context.value.userId, oracle, base, args)
  {
    if Layers(Installed(s.types[tn].fields[fn])) != [] && context.None? then Call([], Failure(NoContext))
    else ResolveField(s, tn, fn, if context.Some? then context.value.userId else None, oracle, base, args)
  }
}
