/** What the computed fields hold afterwards, field by field, in terms of the configuration before. */
module ComputedValues {
  import opened Wrappers
  import opened ConfigTree
  import opened ComputedFields
  import opened ComputedDefaults

  /** What a field held before, and holds after. */
  function Old(config: Value, f: Field): Option<Value> {
    Get(Clone(config), PathOf(f))
  }

  function New(config: Value, ctx: Context, draw: Draw, f: Field): Option<Value>
    requires Computed(config, ctx, draw).Some?
  {
    Get(Computed(config, ctx, draw).value.tree, PathOf(f))
  }

  predicate Falsy(v: Option<Value>) {
    v == None || v == Some(Null) || v == Some(Text("")) || v == Some(Flag(false)) || v == Some(Num(0.0))
  }

  lemma {:induction false} FalsyMeans(v: Option<Value>)
    ensures Truthy(v) <==> !Falsy(v)
  {
  }

  // ---------- The rule of a field decides ----------

  lemma {:induction false} DecidedBy(config: Value, ctx: Context, draw: Draw, rule: Rule)
    requires Computed(config, ctx, draw).Some? && rule in Rules(ReadInputs(Clone(config)).value, ctx) && rule.source.Fixed?
    ensures New(config, ctx, draw, rule.field) ==
      if Fires(rule.guard, Old(config, rule.field)) then Some(rule.source.value) else Old(config, rule.field)
  {
    var inputs := ReadInputs(Clone(config)).value;
    var rules := Rules(inputs, ctx);
    RulesRanked(inputs, ctx);
    var i :| 0 <= i < |rules| && rules[i] == rule;
    var n := RuleDecides(Progress(Clone(config), 0), rules, draw, i);
  }

  lemma {:induction false} LeftAlone(config: Value, ctx: Context, draw: Draw, f: Field)
    requires Computed(config, ctx, draw).Some?
    ensures (forall rule :: rule in Rules(ReadInputs(Clone(config)).value, ctx) ==> rule.field != f) ==>
      New(config, ctx, draw, f) == Old(config, f)
  {
    var rules := Rules(ReadInputs(Clone(config)).value, ctx);
    if forall rule :: rule in rules ==> rule.field != f {
      forall i | 0 <= i < |rules|
        ensures rules[i].field != f
      {
        assert rules[i] in rules;
      }
      OthersAvoid(rules, f);
      RulesFrame(Progress(Clone(config), 0), rules, draw, PathOf(f));
    }
  }

  // ---------- The base URL ----------

  /** `url` is `raw` without the slashes at its end. */
  predicate Trimmed(raw: string, url: string) {
    && url <= raw && (forall i :: |url| <= i < |raw| ==> raw[i] == '/')
    && (url == "" || url[|url| - 1] != '/')
  }

  /** The scheme a tenant's URL gets, and what follows the scheme in the platform's. */
  predicate Parts(url: string, scheme: string, host: string) {
    || (url == "https://" + host && scheme == "https://")
    || (url == "http://" + host && scheme == "http://")
    || (url == host && !("https://" <= url) && !("http://" <= url) && scheme == "http://")
  }

  /** A text counts as it is, anything else as the engine shows it. */
  predicate Shown(ctx: Context, v: Value, text: string) {
    if v.Text? then text == v.text else text == ctx.coerce(v)
  }

  predicate ForTenant(ctx: Context) {
    ctx.tenant != None && ctx.tenant != Some("default")
  }

  /** The platform's URL; for a tenant its own domain, or its subdomain of the platform's host. */
  ghost predicate IsBase(config: Value, ctx: Context, url: string, base: string) {
    && (exists raw :: Old(config, DeploymentUrl) == Some(Text(raw)) && Trimmed(raw, url))
    && url != ""
    && (!ForTenant(ctx) ==> base == url)
    && (ForTenant(ctx) && !Falsy(Old(config, TenantDomain)) ==>
          exists scheme, host, domain ::
            Parts(url, scheme, host) && Shown(ctx, Old(config, TenantDomain).value, domain) && base == scheme + domain)
    && (ForTenant(ctx) && Falsy(Old(config, TenantDomain)) ==>
          exists scheme, host :: Parts(url, scheme, host) && base == scheme + (ctx.tenant.value + "." + host))
  }

  lemma {:induction false} TrimMeans(raw: string, url: string)
    requires Trimmed(raw, url)
    ensures TrimSlashes(raw) == url
    decreases |raw|
  {
    if |url| < |raw| {
      assert raw[|raw| - 1] == '/';
      TrimMeans(raw[..|raw| - 1], url);
    }
  }

  lemma {:induction false} PartsMean(url: string, scheme: string, host: string)
    requires Parts(url, scheme, host)
    ensures Protocol(url) == scheme && WithoutProtocol(url) == host
  {
    if url == "http://" + host {
      assert url[4] == ':';
      assert !(HTTPS <= url) by {
        assert HTTPS[4] == 's';
      }
    }
  }

  lemma {:induction false} BaseIs(config: Value, ctx: Context, url: string, base: string)
    requires IsBase(config, ctx, url, base)
    ensures ReadInputs(Clone(config)).Some? && ReadInputs(Clone(config)).value.url == url
    ensures BaseUrl(ReadInputs(Clone(config)).value, ctx) == base
  {
    var raw :| Old(config, DeploymentUrl) == Some(Text(raw)) && Trimmed(raw, url);
    TrimMeans(raw, url);
    FalsyMeans(Old(config, TenantDomain));
    FalsyMeans(Old(config, DeploymentUrl));
    if ForTenant(ctx) && !Falsy(Old(config, TenantDomain)) {
      var scheme, host, domain :|
        Parts(url, scheme, host) && Shown(ctx, Old(config, TenantDomain).value, domain) && base == scheme + domain;
      PartsMean(url, scheme, host);
    } else if ForTenant(ctx) {
      var scheme, host :| Parts(url, scheme, host) && base == scheme + (ctx.tenant.value + "." + host);
      PartsMean(url, scheme, host);
    }
  }

  // ---------- URLs ----------

  /** What follows the base in the default of each URL field. */
  function Suffix(f: Field): string
    requires UrlField(f)
  {
    match f
    case OpPolicyUri => "/privacy" case OpTosUri => "/terms" case ServiceDocumentation => "/docs"
    case Website => "" case PrivacyPolicy => "/privacy" case TermsOfService => "/terms" case Contact => "/contact"
  }

  predicate UrlField(f: Field) {
    f in {OpPolicyUri, OpTosUri, ServiceDocumentation, Website, PrivacyPolicy, TermsOfService, Contact}
  }

  lemma {:induction false} UrlRuleOf(inputs: Inputs, ctx: Context, f: Field)
    requires BaseUrl(inputs, ctx) != "" && UrlField(f)
    ensures Rule(f, WhenFalsy, Fixed(Text(BaseUrl(inputs, ctx) + Suffix(f)))) in UrlRules(inputs, ctx)
  {
    var base, rules := BaseUrl(inputs, ctx), UrlRules(inputs, ctx);
    assert rules == DiscoveryRules(inputs, ctx, base) + IntegrationRules(base);
    assert base + "" == base;
    var i := match f
      case OpPolicyUri => 1 case OpTosUri => 2 case ServiceDocumentation => 3
      case Website => 4 case PrivacyPolicy => 5 case TermsOfService => 6 case Contact => 7;
    assert rules[i] == Rule(f, WhenFalsy, Fixed(Text(base + Suffix(f))));
  }

  lemma {:induction false} InRules(inputs: Inputs, ctx: Context, rule: Rule)
    requires rule in SECRET_RULES || rule in UrlRules(inputs, ctx) || rule in MfaRules(inputs, ctx)
    ensures rule in Rules(inputs, ctx)
  {
  }

  /** A discovery or integration URL that was set survives unchanged; any other is built on the base. */
  lemma {:induction false} UrlIs(config: Value, ctx: Context, draw: Draw, url: string, base: string, f: Field)
    requires IsBase(config, ctx, url, base) && UrlField(f)
    ensures Computed(config, ctx, draw).Some?
    ensures New(config, ctx, draw, f) == if Falsy(Old(config, f)) then Some(Text(base + Suffix(f))) else Old(config, f)
  {
    BaseIs(config, ctx, url, base);
    BaseNotEmpty(config, ctx, url, base);
    var inputs := ReadInputs(Clone(config)).value;
    var rule := Rule(f, WhenFalsy, Fixed(Text(base + Suffix(f))));
    UrlRuleOf(inputs, ctx, f);
    InRules(inputs, ctx, rule);
    DecidedBy(config, ctx, draw, rule);
    FalsyMeans(Old(config, f));
  }

  lemma {:induction false} BaseNotEmpty(config: Value, ctx: Context, url: string, base: string)
    requires IsBase(config, ctx, url, base)
    ensures base != ""
  {
    if ForTenant(ctx) && !Falsy(Old(config, TenantDomain)) {
      var scheme, host, domain :|
        Parts(url, scheme, host) && Shown(ctx, Old(config, TenantDomain).value, domain) && base == scheme + domain;
      assert |scheme| > 0;
    } else if ForTenant(ctx) {
      var scheme, host :| Parts(url, scheme, host) && base == scheme + (ctx.tenant.value + "." + host);
      assert |scheme| > 0;
    }
  }

  /** The path of the OIDC endpoints. */
  ghost predicate IsPath(config: Value, ctx: Context, path: string) {
    if Falsy(Old(config, OidcPath)) then path == "/oidc/v1" else Shown(ctx, Old(config, OidcPath).value, path)
  }

  /** The issuer: the explicit one if there is any, and the base with the OIDC path otherwise. */
  lemma {:induction false} IssuerIs(config: Value, ctx: Context, draw: Draw, url: string, base: string, path: string)
    requires IsBase(config, ctx, url, base) && IsPath(config, ctx, path)
    ensures Computed(config, ctx, draw).Some?
    ensures New(config, ctx, draw, Issuer) ==
      if Falsy(Old(config, IssuerUrl)) then Some(Text(base + path)) else Old(config, IssuerUrl)
  {
    BaseIs(config, ctx, url, base);
    BaseNotEmpty(config, ctx, url, base);
    var inputs := ReadInputs(Clone(config)).value;
    FalsyMeans(Old(config, IssuerUrl));
    FalsyMeans(Old(config, OidcPath));
    assert IssuerOf(inputs, ctx) == if Falsy(Old(config, IssuerUrl)) then Text(base + path) else Old(config, IssuerUrl).value;
    var rule := Rule(Issuer, Always, Fixed(IssuerOf(inputs, ctx)));
    assert UrlRules(inputs, ctx)[0] == rule;
    InRules(inputs, ctx, rule);
    DecidedBy(config, ctx, draw, rule);
  }

  // ---------- MFA ----------

  /** The TOTP issuer and the relying party's name replace nothing but the placeholder. */
  lemma {:induction false} NameIs(config: Value, ctx: Context, draw: Draw, f: Field)
    requires Computed(config, ctx, draw).Some? && (f == IssuerName || f == RpName)
    ensures New(config, ctx, draw, f) ==
      if !Falsy(Old(config, f)) && Old(config, f) != Some(Text("OIDC Provider")) then Old(config, f)
      else if Falsy(Old(config, CompanyName)) then Some(Text("Parako.ID"))
      else Old(config, CompanyName)
  {
    var inputs := ReadInputs(Clone(config)).value;
    var rule := Rule(f, WhenFalsyOr("OIDC Provider"), Fixed(inputs.companyName));
    assert MfaRules(inputs, ctx)[if f == IssuerName then 0 else 1] == rule;
    InRules(inputs, ctx, rule);
    DecidedBy(config, ctx, draw, rule);
    FalsyMeans(Old(config, f));
    FalsyMeans(Old(config, CompanyName));
  }

  /** The relying party is the tenant's own domain, or the platform's host, unless one was set. */
  lemma {:induction false} RelyingPartyIs(config: Value, ctx: Context, draw: Draw, url: string, base: string)
    requires IsBase(config, ctx, url, base)
    ensures Computed(config, ctx, draw).Some?
    ensures New(config, ctx, draw, RpId) ==
      if !Falsy(Old(config, RpId)) && Old(config, RpId) != Some(Text("localhost")) then Old(config, RpId)
      else if ForTenant(ctx) && !Falsy(Old(config, TenantDomain)) then Old(config, TenantDomain)
      else Some(Text(ctx.hostname(url)))
  {
    BaseIs(config, ctx, url, base);
    var inputs := ReadInputs(Clone(config)).value;
    FalsyMeans(Old(config, RpId));
    FalsyMeans(Old(config, TenantDomain));
    var rule := Rule(RpId, WhenFalsyOr("localhost"), Fixed(RelyingPartyId(inputs, ctx)));
    assert MfaRules(inputs, ctx)[2] == rule;
    InRules(inputs, ctx, rule);
    DecidedBy(config, ctx, draw, rule);
  }

  // ---------- Without a platform URL ----------

  /** No text at all, or nothing but slashes. */
  predicate NoUrl(config: Value) {
    var v := Old(config, DeploymentUrl);
    Falsy(v) || (v.value.Text? && forall i :: 0 <= i < |v.value.text| ==> v.value.text[i] == '/')
  }

  /** Then no URL and no relying party is written. */
  lemma {:induction false} NoUrlNoFields(config: Value, ctx: Context, draw: Draw, f: Field)
    requires NoUrl(config) && (UrlField(f) || f == Issuer || f == RpId)
    ensures Computed(config, ctx, draw).Some? && New(config, ctx, draw, f) == Old(config, f)
  {
    var v := Old(config, DeploymentUrl);
    FalsyMeans(v);
    if !Falsy(v) {
      TrimMeans(v.value.text, "");
    }
    var inputs := ReadInputs(Clone(config)).value;
    assert inputs.url == "" && BaseUrl(inputs, ctx) == "";
    var rules := Rules(inputs, ctx);
    assert rules == SECRET_RULES + MfaRules(inputs, ctx) && |MfaRules(inputs, ctx)| == 2;
    forall rule | rule in rules
      ensures rule.field != f
    {
      assert rule in SECRET_RULES || rule in MfaRules(inputs, ctx);
    }
    LeftAlone(config, ctx, draw, f);
  }

  /** The call throws exactly for a URL that is truthy and no text. */
  lemma {:induction false} ThrowsIff(config: Value, ctx: Context, draw: Draw)
    ensures Computed(config, ctx, draw).None? <==>
      !Falsy(Old(config, DeploymentUrl)) && !Old(config, DeploymentUrl).value.Text?
  {
    FalsyMeans(Old(config, DeploymentUrl));
  }

  // ---------- Secrets ----------

  /** Never set, or an empty list of secrets; an empty text is kept. */
  predicate Unset(v: Option<Value>) {
    v == None || v == Some(Null) || (v.Some? && v.value.List? && |v.value.items| == 0)
  }

  /** The secrets, in the order of their turns. */
  function SecretField(i: nat): Field
    requires i < 4
  {
    if i == 0 then JwtSecret else if i == 1 then CookieSecrets else if i == 2 then HmacSecret else PairwiseSalt
  }

  /** How many secrets were drawn before turn `i`; the cookies take two. */
  function DrawnBefore(config: Value, i: nat): nat
    requires i <= 4
  {
    if i == 0 then 0
    else DrawnBefore(config, i - 1) + (if !Unset(Old(config, SecretField(i - 1))) then 0 else if i == 2 then 2 else 1)
  }

  /** What turn `i` draws: 64 bytes each, a pair for cookies, 32 bytes for the salt. */
  function Drawn(draw: Draw, i: nat, n: nat): Value {
    if i == 1 then List([Text(draw(n, 64)), Text(draw(n + 1, 64))], map[])
    else if i == 3 then Text(draw(n, 32))
    else Text(draw(n, 64))
  }

  lemma {:induction false} UnsetMeans(v: Option<Value>)
    ensures Missing(v) <==> Unset(v)
  {
  }

  /** The rule of each turn. */
  lemma {:induction false} SecretRuleOf(i: nat)
    requires i < 4
    ensures SECRET_RULES[i].field == SecretField(i) && SECRET_RULES[i].guard == WhenMissing
    ensures Cost(SECRET_RULES[i].source) == if i == 1 then 2 else 1
    ensures forall draw, n :: Fresh(SECRET_RULES[i].source, draw, n) == Drawn(draw, i, n)
  {
  }

  lemma {:induction false} OneRuleMore(state: Progress, rules: seq<Rule>, i: nat, draw: Draw)
    requires Ranked(rules) && i < |rules|
    ensures ApplyRules(state, rules[..i + 1], draw).drawn ==
      ApplyRules(state, rules[..i], draw).drawn + (if Fires(rules[i].guard, Get(state.tree, PathAt(rules, i))) then Cost(rules[i].source) else 0)
  {
    var before := rules[..i];
    assert rules[..i + 1][..i] == before && rules[..i + 1][i] == rules[i];
    OthersAvoid(before, rules[i].field);
    RulesFrame(state, before, draw, PathAt(rules, i));
  }

  lemma {:induction false} DrawnBeforeIs(config: Value, rules: seq<Rule>, draw: Draw, i: nat)
    requires Ranked(rules) && i <= 4 <= |rules| && forall j :: 0 <= j < 4 ==> rules[j] == SECRET_RULES[j]
    ensures ApplyRules(Progress(Clone(config), 0), rules[..i], draw).drawn == DrawnBefore(config, i)
    decreases i
  {
    if i > 0 {
      DrawnBeforeIs(config, rules, draw, i - 1);
      OneRuleMore(Progress(Clone(config), 0), rules, i - 1, draw);
      SecretRuleOf(i - 1);
      UnsetMeans(Old(config, SecretField(i - 1)));
    }
  }

  /** A secret that was set stays; a missing one is drawn, and no two secrets share a draw. */
  lemma {:induction false} SecretIs(config: Value, ctx: Context, draw: Draw, i: nat)
    requires Computed(config, ctx, draw).Some? && i < 4
    ensures New(config, ctx, draw, SecretField(i)) ==
      if Unset(Old(config, SecretField(i))) then Some(Drawn(draw, i, DrawnBefore(config, i))) else Old(config, SecretField(i))
  {
    var inputs := ReadInputs(Clone(config)).value;
    var rules := Rules(inputs, ctx);
    RulesRanked(inputs, ctx);
    SecretsFirst(inputs, ctx);
    DrawnBeforeIs(config, rules, draw, i);
    SecretRuleOf(i);
    UnsetMeans(Old(config, SecretField(i)));
    var n := RuleDecidesAt(Progress(Clone(config), 0), rules, draw, i);
  }

  lemma {:induction false} SecretsFirst(inputs: Inputs, ctx: Context)
    ensures |Rules(inputs, ctx)| >= 4 && forall j :: 0 <= j < 4 ==> Rules(inputs, ctx)[j] == SECRET_RULES[j]
  {
    var rest := UrlRules(inputs, ctx) + MfaRules(inputs, ctx);
    assert Rules(inputs, ctx) == SECRET_RULES + rest;
  }

  // ---------- Where the fields live ----------

  /** The paths of the registered fields: four secrets and seven derived ones. */
  lemma {:induction false} RegisteredPaths()
    ensures PathOf(JwtSecret) == [Section(Security), Section(Secrets), Leaf(JwtSecret)]
    ensures PathOf(CookieSecrets) == [Section(Security), Section(Secrets), Leaf(CookieSecrets)]
    ensures PathOf(HmacSecret) == [Section(Security), Section(Secrets), Leaf(HmacSecret)]
    ensures PathOf(PairwiseSalt) == [Section(Oidc), Section(Secrets), Leaf(PairwiseSalt)]
    ensures PathOf(Issuer) == [Section(Oidc), Leaf(Issuer)]
    ensures PathOf(OpPolicyUri) == [Section(Oidc), Section(Discovery), Leaf(OpPolicyUri)]
    ensures PathOf(OpTosUri) == [Section(Oidc), Section(Discovery), Leaf(OpTosUri)]
    ensures PathOf(ServiceDocumentation) == [Section(Oidc), Section(Discovery), Leaf(ServiceDocumentation)]
    ensures PathOf(IssuerName) == [Section(Security), Section(Authentication), Section(MultiFactor), Section(Totp), Leaf(IssuerName)]
    ensures PathOf(RpName) == [Section(Security), Section(Authentication), Section(MultiFactor), Section(Webauthn), Leaf(RpName)]
    ensures PathOf(RpId) == [Section(Security), Section(Authentication), Section(MultiFactor), Section(Webauthn), Leaf(RpId)]
  {
  }

  /** Those of the integration URLs, and of the fields that are only read. */
  lemma {:induction false} OtherPaths()
    ensures PathOf(Website) == [Section(Integrations), Section(Urls), Leaf(Website)]
    ensures PathOf(PrivacyPolicy) == [Section(Integrations), Section(Urls), Leaf(PrivacyPolicy)]
    ensures PathOf(TermsOfService) == [Section(Integrations), Section(Urls), Leaf(TermsOfService)]
    ensures PathOf(Contact) == [Section(Integrations), Section(Urls), Leaf(Contact)]
    ensures PathOf(DeploymentUrl) == [Section(Deployment), Leaf(DeploymentUrl)]
    ensures PathOf(OidcPath) == [Section(Oidc), Leaf(OidcPath)]
    ensures PathOf(CompanyName) == [Section(Branding), Leaf(CompanyName)]
    ensures PathOf(IssuerUrl) == [Section(Oidc), Leaf(IssuerUrl)]
    ensures PathOf(TenantDomain) == [Leaf(TenantDomain)]
  {
    assert Sections(TenantDomain) == [] && [] + [Leaf(TenantDomain)] == [Leaf(TenantDomain)];
  }

  // ---------- Tenants with their own domains ----------

  /** A tenant with a text as its domain and no explicit issuer. */
  ghost predicate OnDomain(config: Value, ctx: Context, url: string, domain: string, path: string) {
    && ForTenant(ctx) && Old(config, TenantDomain) == Some(Text(domain)) && domain != ""
    && (exists raw :: Old(config, DeploymentUrl) == Some(Text(raw)) && Trimmed(raw, url)) && url != ""
    && Falsy(Old(config, IssuerUrl)) && IsPath(config, ctx, path)
  }

  lemma {:induction false} HasParts(url: string) returns (scheme: string, host: string)
    ensures Parts(url, scheme, host) && (scheme == "https://" || scheme == "http://")
  {
    if "https://" <= url {
      scheme, host := "https://", url[8..];
      assert url == "https://" + host;
    } else if "http://" <= url {
      scheme, host := "http://", url[7..];
      assert url == "http://" + host;
    } else {
      scheme, host := "http://", url;
    }
  }

  lemma {:induction false} DomainBase(config: Value, ctx: Context, url: string, domain: string, path: string, scheme: string, host: string)
    requires OnDomain(config, ctx, url, domain, path) && Parts(url, scheme, host)
    ensures IsBase(config, ctx, url, scheme + domain)
  {
    assert Shown(ctx, Old(config, TenantDomain).value, domain);
  }

  /** The issuer of such a tenant is on its domain. */
  lemma {:induction false} DomainIssuer(config: Value, ctx: Context, draw: Draw, url: string, domain: string, path: string) returns (scheme: string)
    requires OnDomain(config, ctx, url, domain, path)
    ensures (scheme == "https://" && "https://" <= url) || (scheme == "http://" && !("https://" <= url))
    ensures Computed(config, ctx, draw).Some? && New(config, ctx, draw, Issuer) == Some(Text(scheme + domain + path))
  {
    var host: string;
    scheme, host := HasParts(url);
    SchemeOf(url, scheme, host);
    DomainBase(config, ctx, url, domain, path, scheme, host);
    IssuerIs(config, ctx, draw, url, scheme + domain, path);
  }

  lemma {:induction false} SchemeOf(url: string, scheme: string, host: string)
    requires Parts(url, scheme, host)
    ensures (scheme == "https://" && "https://" <= url) || (scheme == "http://" && !("https://" <= url))
  {
    if url == "http://" + host {
      assert url[4] == ':';
      assert "https://"[4] == 's';
    }
  }

  lemma {:induction false} FirstSlash(a: string, x: string, b: string, y: string)
    requires '/' !in a && '/' !in b && x != "" && y != "" && x[0] == '/' && y[0] == '/' && a + x == b + y
    ensures a == b
  {
    var s := a + x;
    assert s[|a|] == '/' && s[|b|] == '/';
    assert forall i :: 0 <= i < |a| ==> s[i] == a[i];
    assert forall i :: 0 <= i < |b| ==> s[i] == b[i];
    assert |a| == |b|;
    assert a == s[..|a|] && b == s[..|b|];
  }

  /** Different slash-free domains get different issuers, when the OIDC paths begin with a slash. */
  lemma {:induction false} DomainIssuersDiffer(config: Value, ctx: Context, draw: Draw, url: string, domain: string, path: string,
                                               config': Value, ctx': Context, draw': Draw, url': string, domain': string, path': string)
    requires OnDomain(config, ctx, url, domain, path) && OnDomain(config', ctx', url', domain', path')
    requires domain != domain' && '/' !in domain && '/' !in domain'
    requires path != "" && path[0] == '/' && path' != "" && path'[0] == '/'
    ensures Computed(config, ctx, draw).Some? && Computed(config', ctx', draw').Some?
    ensures New(config, ctx, draw, Issuer) != New(config', ctx', draw', Issuer)
  {
    var scheme := DomainIssuer(config, ctx, draw, url, domain, path);
    var scheme' := DomainIssuer(config', ctx', draw', url', domain', path');
    DomainsTellApart(scheme, domain, path, scheme', domain', path');
  }

  lemma {:induction false} DomainsTellApart(scheme: string, domain: string, path: string, scheme': string, domain': string, path': string)
    requires (scheme == "https://" || scheme == "http://") && (scheme' == "https://" || scheme' == "http://")
    requires domain != domain' && '/' !in domain && '/' !in domain'
    requires path != "" && path[0] == '/' && path' != "" && path'[0] == '/'
    ensures scheme + domain + path != scheme' + domain' + path'
  {
    assert scheme + domain + path == scheme + (domain + path);
    assert scheme' + domain' + path' == scheme' + (domain' + path');
    if scheme + (domain + path) == scheme' + (domain' + path') {
      SameScheme(scheme, domain + path, scheme', domain' + path');
      FirstSlash(domain, path, domain', path');
      assert false;
    }
  }

  lemma {:induction false} SameScheme(a: string, x: string, b: string, y: string)
    requires (a == "https://" || a == "http://") && (b == "https://" || b == "http://") && a + x == b + y
    ensures x == y
  {
    var s := a + x;
    assert s[4] == a[4] && s[4] == b[4];
    assert "https://"[4] == 's' && "http://"[4] == ':';
    assert a == b;
    assert x == s[|a|..] && y == s[|b|..];
  }

  /** On one platform, the issuers of two such tenants are equal exactly when domain and path run together the same. */
  lemma {:induction false} DomainIssuersEqualIff(config: Value, ctx: Context, draw: Draw, domain: string, path: string,
                                                 config': Value, ctx': Context, draw': Draw, domain': string, path': string, url: string)
    requires OnDomain(config, ctx, url, domain, path) && OnDomain(config', ctx', url, domain', path')
    ensures Computed(config, ctx, draw).Some? && Computed(config', ctx', draw').Some?
    ensures New(config, ctx, draw, Issuer) == New(config', ctx', draw', Issuer) <==> domain + path == domain' + path'
  {
    var scheme := DomainIssuer(config, ctx, draw, url, domain, path);
    var scheme' := DomainIssuer(config', ctx', draw', url, domain', path');
    SchemeCancels(scheme, domain, path, domain', path');
  }

  lemma {:induction false} SchemeCancels(scheme: string, domain: string, path: string, domain': string, path': string)
    ensures scheme + domain + path == scheme + domain' + path' <==> domain + path == domain' + path'
  {
    var s, s' := scheme + domain + path, scheme + domain' + path';
    assert s == scheme + (domain + path) && s' == scheme + (domain' + path');
    assert s[|scheme|..] == domain + path && s'[|scheme|..] == domain' + path';
  }

  /** So they can collide where a path does not begin with a slash. */
  lemma {:induction false} DomainsCanCollide()
    ensures "a.io" != "a.iom" && "a.io" + "mx" == "a.iom" + "x"
  {
  }
}
