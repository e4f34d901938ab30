/**
 The two directive names, `allow` and `deny`, and the one place where they
 behave differently: the decision whether a caller is refused.
 */
module Polarities {
  import opened Wrappers

  /** `POLARITY.ALLOW` and `POLARITY.DENY`. Both directives are the same class;
      the polarity is the name the class is registered under. */
  datatype Polarity = Allow | Deny

  /** The directive name, i.e. `this.name` inside the directive instance. */
  function Name(p: Polarity): string {
    match p
    case Allow => "allow"
    case Deny => "deny"
  }

  /** The exported `directives` table: directive name to directive class. */
  function DirectiveFor(name: string): (r: Option<Polarity>)
    ensures r.Some? ==> Name(r.value) == name
    ensures r.None? ==> forall p: Polarity :: Name(p) != name
  {
    if name == "allow" then Some(Allow)
    else if name == "deny" then Some(Deny)
    else None
  }

  /** The table is keyed by each class's own name, so looking up a directive's
      name gives back that directive. */
  lemma DirectiveForName(p: Polarity)
    ensures DirectiveFor(Name(p)) == Some(p)
  {
  }

  /** Property under which a rule of polarity `p` is stored on a type or field. */
  function RuleKey(p: Polarity): string {
    "_" + Name(p)
  }

  /** Property marking that a type's fields carry a layer of polarity `p`. */
  function MarkerKey(p: Polarity): string {
    Name(p) + "FieldsWrapped"
  }

  /** The per-polarity properties never collide: a rule of one polarity never
      overwrites the rule of the other, the two wrapped-markers are separate,
      and no rule property doubles as a marker. This is why the model keeps
      rules and markers in maps and sets keyed by `Polarity`. */
  lemma KeysSeparate(p: Polarity, q: Polarity)
    ensures p != q ==> RuleKey(p) != RuleKey(q) && MarkerKey(p) != MarkerKey(q)
    ensures RuleKey(p) != MarkerKey(q)
  {
    assert RuleKey(p)[0] == '_';
    assert MarkerKey(q)[0] != '_';
    if p != q {
      assert RuleKey(p)[1] != RuleKey(q)[1];
      assert MarkerKey(p)[0] != MarkerKey(q)[0];
    }
  }

  /** `notAuthorized`: whether a layer of polarity `p` refuses a caller whose
      role membership is `userIsInRole`. */
  predicate Denied(p: Polarity, userIsInRole: bool) {
    (p == Deny && userIsInRole) || (p == Allow && !userIsInRole)
  }

  /** A layer lets a caller through exactly when membership matches the
      polarity: ALLOW admits members only, DENY admits non-members only. */
  lemma DeniedIffMembershipMismatch(p: Polarity, userIsInRole: bool)
    ensures !Denied(p, userIsInRole) <==> (userIsInRole <==> p == Allow)
  {
  }

  /** The ALLOW and DENY directives reach opposite decisions on every caller. */
  lemma PolaritiesOpposite(userIsInRole: bool)
    ensures Denied(Allow, userIsInRole) <==> !Denied(Deny, userIsInRole)
  {
  }
}
