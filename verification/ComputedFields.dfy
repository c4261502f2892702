/** Secrets generated once and fields derived from the rest of the configuration. */
module ComputedFields {
  import opened Wrappers
  import opened ConfigTree

  /** Where each field lives. */
  function PathOf(f: Field): (p: Path)
    ensures Shaped(p, f)
  {
    Sections(f) + [Leaf(f)]
  }

  function Sections(f: Field): (p: Path)
    ensures forall i :: 0 <= i < |p| ==> p[i].Section?
  {
    match f
    case JwtSecret | CookieSecrets | HmacSecret => [Section(Security), Section(Secrets)]
    case PairwiseSalt => [Section(Oidc), Section(Secrets)]
    case Issuer | OidcPath | IssuerUrl => [Section(Oidc)]
    case OpPolicyUri | OpTosUri | ServiceDocumentation => [Section(Oidc), Section(Discovery)]
    case IssuerName => [Section(Security), Section(Authentication), Section(MultiFactor), Section(Totp)]
    case RpName | RpId => [Section(Security), Section(Authentication), Section(MultiFactor), Section(Webauthn)]
    case Website | PrivacyPolicy | TermsOfService | Contact => [Section(Integrations), Section(Urls)]
    case DeploymentUrl => [Section(Deployment)]
    case CompanyName => [Section(Branding)]
    case TenantDomain => []
  }

  /** Sections first, and the field's own name at the end. */
  predicate Shaped(p: Path, f: Field) {
    p != [] && p[|p| - 1] == Leaf(f) && forall i :: 0 <= i < |p| - 1 ==> p[i].Section?
  }

  lemma {:induction false} ShapedApart(p: Path, f: Field, q: Path, g: Field)
    requires Shaped(p, f) && Shaped(q, g) && f != g
    ensures Apart(p, q)
    decreases |p|
  {
    if p[0] == q[0] {
      assert |p| > 1 && |q| > 1;
      ShapedApart(p[1..], f, q[1..], g);
    }
  }

  lemma {:induction false} PathsApart(f: Field, g: Field)
    requires f != g
    ensures Apart(PathOf(f), PathOf(g))
  {
    ShapedApart(PathOf(f), f, PathOf(g), g);
  }

  // ---------- Rules ----------

  predicate Truthy(v: Option<Value>) {
    match v
    case None => false
    case Some(Null) => false
    case Some(Text(text)) => text != ""
    case Some(Flag(flag)) => flag
    case Some(Num(num)) => num != 0.0
    case Some(_) => true
  }

  /** `isSecretMissing`: an empty string is a corrupted secret, not a missing one. */
  predicate Missing(v: Option<Value>) {
    match v
    case None => true
    case Some(Null) => true
    case Some(List(items, _)) => items == []
    case Some(_) => false
  }

  /** When a rule overwrites what is there. */
  datatype Guard = Always | WhenMissing | WhenFalsy | WhenFalsyOr(text: string)

  predicate Fires(guard: Guard, existing: Option<Value>) {
    match guard
    case Always => true
    case WhenMissing => Missing(existing)
    case WhenFalsy => !Truthy(existing)
    case WhenFalsyOr(text) => !Truthy(existing) || existing == Some(Text(text))
  }

  datatype Source = Fixed(value: Value) | Secret(bytes: nat) | SecretPair(bytes: nat)

  datatype Rule = Rule(field: Field, guard: Guard, source: Source)

  /** The `n`-th random secret of a run, of the given length. */
  type Draw = (nat, nat) -> string

  function Fresh(source: Source, draw: Draw, n: nat): Value {
    match source
    case Fixed(value) => value
    case Secret(bytes) => Text(draw(n, bytes))
    case SecretPair(bytes) => List([Text(draw(n, bytes)), Text(draw(n + 1, bytes))], map[])
  }

  function Cost(source: Source): nat {
    match source
    case Fixed(_) => 0
    case Secret(_) => 1
    case SecretPair(_) => 2
  }

  /** The tree so far, and how many secrets were drawn for it. */
  datatype Progress = Progress(tree: Value, drawn: nat)

  function Step(state: Progress, rule: Rule, draw: Draw): Progress {
    if Fires(rule.guard, Get(state.tree, PathOf(rule.field))) then
      Progress(Set(state.tree, PathOf(rule.field), Fresh(rule.source, draw, state.drawn)), state.drawn + Cost(rule.source))
    else state
  }

  function ApplyRules(state: Progress, rules: seq<Rule>, draw: Draw): Progress {
    if rules == [] then state
    else Step(ApplyRules(state, rules[..|rules| - 1], draw), rules[|rules| - 1], draw)
  }

  // ---------- The rules of `applyComputedDefaults` ----------

  /** The tenant the call runs for, string coercion, and the host name of a URL. */
  datatype Context = Context(tenant: Option<string>, coerce: Value -> string, hostname: string -> string)

  const DEFAULT_TENANT_ID: string := "default"

  datatype Inputs = Inputs(url: string, oidcPath: Value, companyName: Value, issuerUrl: Option<Value>, tenantDomain: Option<Value>)

  predicate InTenantContext(ctx: Context) {
    ctx.tenant.Some? && ctx.tenant.value != DEFAULT_TENANT_ID
  }

  function Show(ctx: Context, v: Value): string {
    if v.Text? then v.text else ctx.coerce(v)
  }

  /** `.replace(/\/+$/, '')`. */
  function TrimSlashes(url: string): string {
    if url != "" && url[|url| - 1] == '/' then TrimSlashes(url[..|url| - 1]) else url
  }

  const HTTPS: string := "https://"
  const HTTP: string := "http://"

  function Protocol(url: string): string {
    if HTTPS <= url then HTTPS else HTTP
  }

  /** `.replace(/^https?:\/\//, '')`. */
  function WithoutProtocol(url: string): string {
    if HTTPS <= url then url[|HTTPS|..] else if HTTP <= url then url[|HTTP|..] else url
  }

  /** `None` when calling `replace` on a value that is not a string throws. */
  function ReadUrl(existing: Option<Value>): Option<string> {
    if !Truthy(existing) then Some("")
    else if existing.value.Text? then Some(TrimSlashes(existing.value.text))
    else None
  }

  function OrElse(existing: Option<Value>, fallback: string): Value {
    if Truthy(existing) then existing.value else Text(fallback)
  }

  function InputsFrom(url: Option<Value>, oidcPath: Option<Value>, companyName: Option<Value>, issuerUrl: Option<Value>, tenantDomain: Option<Value>): Option<Inputs> {
    var base := ReadUrl(url);
    if base.None? then None
    else Some(Inputs(base.value, OrElse(oidcPath, "/oidc/v1"), OrElse(companyName, "Parako.ID"), issuerUrl, tenantDomain))
  }

  function ReadInputs(tree: Value): Option<Inputs> {
    InputsFrom(Get(tree, PathOf(DeploymentUrl)), Get(tree, PathOf(OidcPath)), Get(tree, PathOf(CompanyName)),
               Get(tree, PathOf(IssuerUrl)), Get(tree, PathOf(TenantDomain)))
  }

  /** `effectiveBaseUrl`. */
  function BaseUrl(inputs: Inputs, ctx: Context): string {
    if InTenantContext(ctx) && inputs.url != "" then
      if Truthy(inputs.tenantDomain) then Protocol(inputs.url) + Show(ctx, inputs.tenantDomain.value)
      else Protocol(inputs.url) + (ctx.tenant.value + "." + WithoutProtocol(inputs.url))
    else inputs.url
  }

  const SECRET_RULES: seq<Rule> := [
    Rule(JwtSecret, WhenMissing, Secret(64)),
    Rule(CookieSecrets, WhenMissing, SecretPair(64)),
    Rule(HmacSecret, WhenMissing, Secret(64)),
    Rule(PairwiseSalt, WhenMissing, Secret(32))]

  function IssuerOf(inputs: Inputs, ctx: Context): Value {
    if Truthy(inputs.issuerUrl) then inputs.issuerUrl.value
    else Text(BaseUrl(inputs, ctx) + Show(ctx, inputs.oidcPath))
  }

  function DiscoveryRules(inputs: Inputs, ctx: Context, base: string): seq<Rule> {
    [Rule(Issuer, Always, Fixed(IssuerOf(inputs, ctx))),
     Rule(OpPolicyUri, WhenFalsy, Fixed(Text(base + "/privacy"))),
     Rule(OpTosUri, WhenFalsy, Fixed(Text(base + "/terms"))),
     Rule(ServiceDocumentation, WhenFalsy, Fixed(Text(base + "/docs")))]
  }

  function IntegrationRules(base: string): seq<Rule> {
    [Rule(Website, WhenFalsy, Fixed(Text(base))),
     Rule(PrivacyPolicy, WhenFalsy, Fixed(Text(base + "/privacy"))),
     Rule(TermsOfService, WhenFalsy, Fixed(Text(base + "/terms"))),
     Rule(Contact, WhenFalsy, Fixed(Text(base + "/contact")))]
  }

  function UrlRules(inputs: Inputs, ctx: Context): seq<Rule> {
    var base := BaseUrl(inputs, ctx);
    if base == "" then [] else DiscoveryRules(inputs, ctx, base) + IntegrationRules(base)
  }

  function RelyingPartyId(inputs: Inputs, ctx: Context): Value {
    if InTenantContext(ctx) && Truthy(inputs.tenantDomain) then inputs.tenantDomain.value
    else Text(ctx.hostname(inputs.url))
  }

  function MfaRules(inputs: Inputs, ctx: Context): seq<Rule> {
    [Rule(IssuerName, WhenFalsyOr("OIDC Provider"), Fixed(inputs.companyName)),
     Rule(RpName, WhenFalsyOr("OIDC Provider"), Fixed(inputs.companyName))]
    + (if BaseUrl(inputs, ctx) == "" && inputs.url == "" then []
       else [Rule(RpId, WhenFalsyOr("localhost"), Fixed(RelyingPartyId(inputs, ctx)))])
  }

  function Rules(inputs: Inputs, ctx: Context): seq<Rule> {
    SECRET_RULES + UrlRules(inputs, ctx) + MfaRules(inputs, ctx)
  }

  /** The whole of `applyComputedDefaults`; `None` is the thrown error. */
  function Computed(config: Value, ctx: Context, draw: Draw): Option<Progress> {
    var tree := Clone(config);
    var inputs := ReadInputs(tree);
    if inputs.None? then None else Some(ApplyRules(Progress(tree, 0), Rules(inputs.value, ctx), draw))
  }

  /** Position of a field in the rules. */
  function Rank(f: Field): nat {
    match f
    case JwtSecret => 0 case CookieSecrets => 1 case HmacSecret => 2 case PairwiseSalt => 3
    case Issuer => 4 case OpPolicyUri => 5 case OpTosUri => 6 case ServiceDocumentation => 7
    case Website => 8 case PrivacyPolicy => 9 case TermsOfService => 10 case Contact => 11
    case IssuerName => 12 case RpName => 13 case RpId => 14
    case _ => 15
  }

  predicate Written(f: Field) {
    Rank(f) < 15
  }

  ghost predicate Ranked(rules: seq<Rule>) {
    && (forall i :: 0 <= i < |rules| ==> Written(rules[i].field))
    && (forall i, j :: 0 <= i < j < |rules| ==> Rank(rules[i].field) < Rank(rules[j].field))
  }

  lemma {:induction false} RulesRanked(inputs: Inputs, ctx: Context)
    ensures Ranked(Rules(inputs, ctx))
  {
    var a, b, c := SECRET_RULES, UrlRules(inputs, ctx), MfaRules(inputs, ctx);
    assert forall i :: 0 <= i < |a| ==> Rank(a[i].field) == i;
    assert forall i :: 0 <= i < |b| ==> Rank(b[i].field) == 4 + i;
    assert forall i :: 0 <= i < |c| ==> Rank(c[i].field) == 12 + i;
  }

  // ---------- What a list of rules does, field by field ----------

  ghost predicate AvoidsAll(q: Path, rules: seq<Rule>) {
    forall i :: 0 <= i < |rules| ==> Apart(PathOf(rules[i].field), q)
  }

  lemma {:induction false} RulesFrame(state: Progress, rules: seq<Rule>, draw: Draw, q: Path)
    requires AvoidsAll(q, rules)
    ensures Get(ApplyRules(state, rules, draw).tree, q) == Get(state.tree, q)
    ensures ThroughArray(ApplyRules(state, rules, draw).tree, q) == ThroughArray(state.tree, q)
  {
    if rules != [] {
      var before, rule := ApplyRules(state, rules[..|rules| - 1], draw), rules[|rules| - 1];
      RulesFrame(state, rules[..|rules| - 1], draw, q);
      var x := Fresh(rule.source, draw, before.drawn);
      GetSetApart(before.tree, PathOf(rule.field), q, x);
      ArraysStay(before.tree, PathOf(rule.field), x, q);
    }
  }

  lemma {:induction false} OthersAvoid(rules: seq<Rule>, f: Field)
    requires forall i :: 0 <= i < |rules| ==> rules[i].field != f
    ensures AvoidsAll(PathOf(f), rules)
  {
    forall i | 0 <= i < |rules| ensures Apart(PathOf(rules[i].field), PathOf(f)) {
      PathsApart(rules[i].field, f);
    }
  }
}
