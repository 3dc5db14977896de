/**
 * Choosing the rate-limit configuration at start-up from the
 * `HIBP_SUBSCRIPTION_PLAN` environment variable, and the warning `main()`
 * logs for an unknown plan name.
 */
module PlanSelection {
  import opened Wrappers
  import opened RateLimiting

  const DefaultPlan: string := "Pwned 1"

  /** `process.env.HIBP_SUBSCRIPTION_PLAN || "Pwned 1"`: unset and empty both select the default. */
  function PlanName(env: Option<string>): string {
    if env.Some? && env.value != "" then env.value else DefaultPlan
  }

  /** The configuration the limiter is built with, and whether `main()` warns about the name. */
  datatype Selection = Selection(name: string, config: RateLimitConfig, warned: bool)

  /**
   * Plan resolution with fallback, looking the name up among the table's own
   * keys: a known name selects its entry silently; any other name selects the
   * "Pwned 1" entry and is reported.
   */
  function SelectPlan(env: Option<string>): (sel: Selection)
    ensures sel.name == PlanName(env)
    ensures sel.warned <==> sel.name !in SubscriptionPlans
    ensures sel.name in SubscriptionPlans ==> sel.config == SubscriptionPlans[sel.name]
    ensures sel.name !in SubscriptionPlans ==> sel.config == SubscriptionPlans[DefaultPlan]
    ensures sel.config in SubscriptionPlans.Values && sel.config.requestsPerMinute >= 10
    ensures env.None? || env == Some("") ==> sel == Selection(DefaultPlan, SubscriptionPlans[DefaultPlan], false)
  {
    var name := PlanName(env);
    if name in SubscriptionPlans then Selection(name, SubscriptionPlans[name], false)
    else Selection(name, SubscriptionPlans[DefaultPlan], true)
  }

  // ---------------------------------------------------------------------------
  // The lookup as the source writes it

  /**
   * Property names every JavaScript object literal inherits from
   * `Object.prototype`; reading any of them from `SUBSCRIPTION_PLANS` yields a
   * function or an object, which is truthy.
   */
  const ObjectPrototypeMembers: set<string> := {
    "constructor", "hasOwnProperty", "isPrototypeOf", "propertyIsEnumerable",
    "toLocaleString", "toString", "valueOf", "__proto__",
    "__defineGetter__", "__defineSetter__", "__lookupGetter__", "__lookupSetter__"
  }

  /** What `SUBSCRIPTION_PLANS[name]` evaluates to. */
  datatype Lookup = PlanEntry(config: RateLimitConfig) | InheritedMember(member: string) | Undefined

  function LookupAsWritten(name: string): (r: Lookup)
    ensures r.PlanEntry? <==> name in SubscriptionPlans
    ensures r.PlanEntry? ==> r.config == SubscriptionPlans[name]
    ensures r.Undefined? <==> name !in SubscriptionPlans && name !in ObjectPrototypeMembers
  {
    if name in SubscriptionPlans then PlanEntry(SubscriptionPlans[name])
    else if name in ObjectPrototypeMembers then InheritedMember(name)
    else Undefined
  }

  /** The value handed to `new RateLimiter(...)`, and whether `main()` warns. */
  datatype SelectionAsWritten = SelectionAsWritten(name: string, chosen: Lookup, warned: bool)

  /**
   * `SUBSCRIPTION_PLANS[name] || SUBSCRIPTION_PLANS["Pwned 1"]` and
   * `if (!SUBSCRIPTION_PLANS[name]) logger.warn(...)`.
   */
  function SelectPlanAsWritten(env: Option<string>): (w: SelectionAsWritten)
    ensures w.name == PlanName(env)
    ensures w.warned <==> LookupAsWritten(w.name).Undefined?
    ensures !w.chosen.Undefined?
    ensures w.warned ==> w.chosen == PlanEntry(SubscriptionPlans[DefaultPlan])
    ensures !w.warned ==> w.chosen == LookupAsWritten(w.name)
  {
    var name := PlanName(env);
    var found := LookupAsWritten(name);
    if found.Undefined? then SelectionAsWritten(name, PlanEntry(SubscriptionPlans[DefaultPlan]), true)
    else SelectionAsWritten(name, found, false)
  }

  /**
   * On every name that is not an inherited member, the written lookup agrees
   * with `SelectPlan`: same configuration, same warning.
   */
  lemma AsWrittenAgreesOnOrdinaryNames(env: Option<string>)
    requires PlanName(env) !in ObjectPrototypeMembers
    ensures var w := SelectPlanAsWritten(env);
      w.chosen == PlanEntry(SelectPlan(env).config) && w.warned == SelectPlan(env).warned
  {
  }

  /**
   * The discrepancy: `HIBP_SUBSCRIPTION_PLAN=toString` is not a plan, yet it
   * selects no "Pwned 1" fallback and produces no warning; the limiter is
   * handed a function whose `requestsPerMinute` is undefined.
   */
  lemma InheritedNameEscapesFallback()
    ensures var w := SelectPlanAsWritten(Some("toString"));
      && "toString" !in SubscriptionPlans
      && w.chosen == InheritedMember("toString")
      && !w.warned
      && SelectPlan(Some("toString")) == Selection("toString", SubscriptionPlans[DefaultPlan], true)
  {
  }
}
