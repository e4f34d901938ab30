/**
 A worked build: type `Salary` with fields `amount` and `currency`,
 `@deny(roles: ["intern"])` on the type and then
 `@allow(roles: ["finance"])` on `amount`.
 */
module SalaryExample {
  import opened Wrappers
  import opened Polarities
  import opened SchemaState
  import opened Directives
  import opened Enforcement

  const amountResolver := Custom("amount")

  const salary := Schema(map["Salary" := ObjectType(map[], {}, map[
    "amount" := Field(map[], Some(Plain(amountResolver))),
    "currency" := Field(map[], None)])])

  const denyInterns := DirectiveArgs(Some(["intern"]), None)
  const allowFinance := DirectiveArgs(Some(["finance"]), None)

  /** The two directive uses in visiting order: the type's, then the field's. */
  const uses := [
    Application(Deny, denyInterns, OnObject("Salary")),
    Application(Allow, allowFinance, OnField("Salary", "amount"))]

  /** A role oracle for single-role rules, in which every caller holds the
      roles `held`. */
  function Holds(held: set<string>): Oracle {
    (u: string, roles: Option<seq<string>>, g: Option<string>) =>
      roles.Some? && |roles.value| == 1 && roles.value[0] in held
  }

  const internRule := Rule(Some(["intern"]), None)
  const financeRule := Rule(Some(["finance"]), None)

  /** The schema after the type's `@deny`: both fields wrapped once. */
  const afterDeny := Schema(map["Salary" := ObjectType(map[Deny := internRule], {Deny}, map[
    "amount" := Field(map[], Some(Guarded(Deny, Plain(amountResolver)))),
    "currency" := Field(map[], Some(Guarded(Deny, Plain(DefaultFieldResolver))))])])

  /** The schema after the field's `@allow` too: an ALLOW layer outside the
      DENY layer on both fields, though only `amount` has an ALLOW rule. */
  const built := Schema(map["Salary" := ObjectType(map[Deny := internRule], {Deny, Allow}, map[
    "amount" := Field(map[Allow := financeRule], Some(Guarded(Allow, Guarded(Deny, Plain(amountResolver))))),
    "currency" := Field(map[], Some(Guarded(Allow, Guarded(Deny, Plain(DefaultFieldResolver)))))])])

  lemma DenyStep()
    ensures ApplyDirective(salary, Deny, denyInterns, OnObject("Salary")) == Success(afterDeny)
  {
    var t := salary.types["Salary"].(rules := map[Deny := internRule]);
    var w := EnsureFieldsWrapped(t, Deny);
    assert w.fields.Keys == afterDeny.types["Salary"].fields.Keys;
    assert w.fields["amount"] == afterDeny.types["Salary"].fields["amount"];
    assert w.fields["currency"] == afterDeny.types["Salary"].fields["currency"];
    assert w.fields == afterDeny.types["Salary"].fields;
    assert w == afterDeny.types["Salary"];
    assert salary.types["Salary" := w] == afterDeny.types;
    assert VisitObject(salary, Deny, denyInterns, "Salary") == Success(Schema(salary.types["Salary" := w]));
  }

  lemma AllowStep()
    ensures ApplyDirective(afterDeny, Allow, allowFinance, OnField("Salary", "amount")) == Success(built)
  {
    var t := afterDeny.types["Salary"];
    var t' := t.(fields := t.fields["amount" := Field(map[Allow := financeRule], t.fields["amount"].resolve)]);
    var w := EnsureFieldsWrapped(t', Allow);
    assert w.fields.Keys == built.types["Salary"].fields.Keys;
    assert w.fields["amount"] == built.types["Salary"].fields["amount"];
    assert w.fields["currency"] == built.types["Salary"].fields["currency"];
    assert w.fields == built.types["Salary"].fields;
    assert w == built.types["Salary"];
    assert afterDeny.types["Salary" := w] == built.types;
    assert VisitFieldDefinition(afterDeny, Allow, allowFinance, "Salary", "amount") == Success(Schema(afterDeny.types["Salary" := w]));
  }

  /** The build of the two uses yields `built`. */
  lemma SalaryBuild()
    ensures Build(salary, uses) == Success(built)
  {
    DenyStep();
    AllowStep();
    assert ValidTarget(salary, uses[0].target) && ValidTarget(salary, uses[1].target);
    BuildTwo(salary, uses[0], uses[1]);
    assert uses == [uses[0], uses[1]];
  }

  /** Both fields carry an ALLOW layer outside a DENY layer, outermost first. */
  lemma SalaryLayers()
    ensures Layers(Installed(built.types["Salary"].fields["amount"])) == [Allow, Deny]
    ensures Layers(Installed(built.types["Salary"].fields["currency"])) == [Allow, Deny]
  {
  }

  /** A caller in `finance` but not `intern` reads `amount` through to its own
      resolver after two oracle questions, outermost layer first. */
  lemma FinanceReadsAmount<A, R>(base: (BaseResolver, A) -> R, a: A)
    ensures ResolveField(built, "Salary", "amount", Some("u1"), Holds({"finance"}), base, a)
      == Call([Query("u1", Some(["finance"]), None), Query("u1", Some(["intern"]), None)], Success(base(amountResolver, a)))
  {
    assert Holds({"finance"})("u1", Some(["finance"]), None);
    assert !Holds({"finance"})("u1", Some(["intern"]), None);
  }

  /** An intern is refused `amount` even when also in `finance`. */
  lemma InternRefusedAmount<A, R>(base: (BaseResolver, A) -> R, a: A)
    ensures ResolveField(built, "Salary", "amount", Some("u1"), Holds({"finance", "intern"}), base, a).outcome
      == Failure(NotAuthorized)
  {
    assert Holds({"finance", "intern"})("u1", Some(["finance"]), None);
    assert Holds({"finance", "intern"})("u1", Some(["intern"]), None);
  }

  /** `currency` has no ALLOW rule on the field or the type, so every
      identified caller, intern or not, hits the `NoRule` failure of its
      outer layer, and an anonymous one is refused first. */
  lemma CurrencyUnreadable<A, R>(base: (BaseResolver, A) -> R, a: A, oracle: Oracle, u: string)
    requires u != ""
    ensures ResolveField(built, "Salary", "currency", Some(u), oracle, base, a) == Call([], Failure(NoRule))
    ensures ResolveField(built, "Salary", "currency", None, oracle, base, a) == Call([], Failure(NotAuthorized))
  {
  }
}
