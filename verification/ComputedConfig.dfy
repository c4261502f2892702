/** `applyComputedDefaults` as the sequence of guarded assignments that the program makes. */
module ComputedConfig {
  import opened Wrappers
  import opened ConfigTree
  import opened ComputedFields
  import opened ComputedDefaults

  lemma {:induction false} OneMore(state: Progress, rules: seq<Rule>, rule: Rule, draw: Draw)
    ensures ApplyRules(state, rules + [rule], draw) == Step(ApplyRules(state, rules, draw), rule, draw)
  {
    assert (rules + [rule])[..|rules|] == rules;
  }

  lemma {:induction false} ApplyAppend(state: Progress, a: seq<Rule>, b: seq<Rule>, draw: Draw)
    ensures ApplyRules(state, a + b, draw) == ApplyRules(ApplyRules(state, a, draw), b, draw)
    decreases |b|
  {
    if b == [] {
      assert a + b == a;
    } else {
      var init, last := b[..|b| - 1], b[|b| - 1];
      assert a + b == (a + init) + [last];
      OneMore(state, a + init, last, draw);
      ApplyAppend(state, a, init, draw);
    }
  }

  /** The states between the assignments. */
  ghost predicate Trace(states: seq<Progress>, rules: seq<Rule>, draw: Draw) {
    |states| == |rules| + 1 && forall i :: 0 <= i < |rules| ==> states[i + 1] == Step(states[i], rules[i], draw)
  }

  lemma {:induction false} TraceRuns(states: seq<Progress>, rules: seq<Rule>, draw: Draw)
    requires Trace(states, rules, draw)
    ensures states[|rules|] == ApplyRules(states[0], rules, draw)
  {
    if rules != [] {
      var n := |rules| - 1;
      assert Trace(states[..n + 1], rules[..n], draw) by {
        forall i | 0 <= i < n ensures states[..n + 1][i + 1] == Step(states[..n + 1][i], rules[..n][i], draw) {
          assert states[i + 1] == Step(states[i], rules[i], draw);
        }
      }
      TraceRuns(states[..n + 1], rules[..n], draw);
    }
  }

  /** Draws one secret for a field that has none. */
  method EnsureSecret(state: Progress, f: Field, bytes: nat, draw: Draw) returns (r: Progress)
    ensures r == Step(state, Rule(f, WhenMissing, Secret(bytes)), draw)
  {
    r := state;
    if Missing(Get(r.tree, PathOf(f))) {
      r := Progress(Set(r.tree, PathOf(f), Text(draw(r.drawn, bytes))), r.drawn + 1);
    }
  }

  method EnsureSecretPair(state: Progress, f: Field, bytes: nat, draw: Draw) returns (r: Progress)
    ensures r == Step(state, Rule(f, WhenMissing, SecretPair(bytes)), draw)
  {
    r := state;
    if Missing(Get(r.tree, PathOf(f))) {
      var pair := List([Text(draw(r.drawn, bytes)), Text(draw(r.drawn + 1, bytes))], map[]);
      r := Progress(Set(r.tree, PathOf(f), pair), r.drawn + 2);
    }
  }

  /** Sets a text unless the field holds something truthy. */
  method DefaultText(state: Progress, f: Field, text: string, ghost draw: Draw) returns (r: Progress)
    ensures r == Step(state, Rule(f, WhenFalsy, Fixed(Text(text))), draw)
  {
    r := state;
    if !Truthy(Get(r.tree, PathOf(f))) {
      r := r.(tree := Set(r.tree, PathOf(f), Text(text)));
    }
  }

  /** Sets a value unless the field holds something truthy other than the given placeholder. */
  method ReplacePlaceholder(state: Progress, f: Field, placeholder: string, value: Value, ghost draw: Draw) returns (r: Progress)
    ensures r == Step(state, Rule(f, WhenFalsyOr(placeholder), Fixed(value)), draw)
  {
    r := state;
    var existing := Get(r.tree, PathOf(f));
    if !Truthy(existing) || existing == Some(Text(placeholder)) {
      r := r.(tree := Set(r.tree, PathOf(f), value));
    }
  }

  method Overwrite(state: Progress, f: Field, value: Value, ghost draw: Draw) returns (r: Progress)
    ensures r == Step(state, Rule(f, Always, Fixed(value)), draw)
  {
    r := state.(tree := Set(state.tree, PathOf(f), value));
  }

  method GenerateSecrets(state: Progress, draw: Draw) returns (r: Progress)
    ensures r == ApplyRules(state, SECRET_RULES, draw)
  {
    var s1 := EnsureSecret(state, JwtSecret, 64, draw);
    var s2 := EnsureSecretPair(s1, CookieSecrets, 64, draw);
    var s3 := EnsureSecret(s2, HmacSecret, 64, draw);
    r := EnsureSecret(s3, PairwiseSalt, 32, draw);
    TraceRuns([state, s1, s2, s3, r], SECRET_RULES, draw);
  }

  method DeriveDiscovery(state: Progress, inputs: Inputs, ctx: Context, base: string, ghost draw: Draw) returns (r: Progress)
    requires base == BaseUrl(inputs, ctx)
    ensures r == ApplyRules(state, DiscoveryRules(inputs, ctx, base), draw)
  {
    var issuer := if Truthy(inputs.issuerUrl) then inputs.issuerUrl.value else Text(base + Show(ctx, inputs.oidcPath));
    var s1 := Overwrite(state, Issuer, issuer, draw);
    var s2 := DefaultText(s1, OpPolicyUri, base + "/privacy", draw);
    var s3 := DefaultText(s2, OpTosUri, base + "/terms", draw);
    r := DefaultText(s3, ServiceDocumentation, base + "/docs", draw);
    TraceRuns([state, s1, s2, s3, r], DiscoveryRules(inputs, ctx, base), draw);
  }

  method DeriveIntegrations(state: Progress, base: string, ghost draw: Draw) returns (r: Progress)
    ensures r == ApplyRules(state, IntegrationRules(base), draw)
  {
    var s1 := DefaultText(state, Website, base, draw);
    var s2 := DefaultText(s1, PrivacyPolicy, base + "/privacy", draw);
    var s3 := DefaultText(s2, TermsOfService, base + "/terms", draw);
    r := DefaultText(s3, Contact, base + "/contact", draw);
    TraceRuns([state, s1, s2, s3, r], IntegrationRules(base), draw);
  }

  method DeriveUrls(state: Progress, inputs: Inputs, ctx: Context, ghost draw: Draw) returns (r: Progress)
    ensures r == ApplyRules(state, UrlRules(inputs, ctx), draw)
  {
    r := state;
    var base := BaseUrl(inputs, ctx);
    if base != "" {
      r := DeriveDiscovery(r, inputs, ctx, base, draw);
      r := DeriveIntegrations(r, base, draw);
      ApplyAppend(state, DiscoveryRules(inputs, ctx, base), IntegrationRules(base), draw);
    }
  }

  method DeriveMfa(state: Progress, inputs: Inputs, ctx: Context, ghost draw: Draw) returns (r: Progress)
    ensures r == ApplyRules(state, MfaRules(inputs, ctx), draw)
  {
    var s1 := ReplacePlaceholder(state, IssuerName, "OIDC Provider", inputs.companyName, draw);
    var s2 := ReplacePlaceholder(s1, RpName, "OIDC Provider", inputs.companyName, draw);
    if BaseUrl(inputs, ctx) != "" || inputs.url != "" {
      r := ReplacePlaceholder(s2, RpId, "localhost", RelyingPartyId(inputs, ctx), draw);
      TraceRuns([state, s1, s2, r], MfaRules(inputs, ctx), draw);
    } else {
      r := s2;
      TraceRuns([state, s1, s2], MfaRules(inputs, ctx), draw);
    }
  }

  /**
   * The program reads the issuer and domain settings only after writing secrets; the outcome is
   * that of the rules for the inputs as they were at the start.
   */
  method ApplyComputedDefaults(config: Value, ctx: Context, draw: Draw) returns (result: Option<Progress>)
    ensures result == Computed(config, ctx, draw)
  {
    var tree := Clone(config);
    var url := ReadUrl(Get(tree, PathOf(DeploymentUrl)));
    if url.None? {
      return None;
    }
    var oidcPath := OrElse(Get(tree, PathOf(OidcPath)), "/oidc/v1");
    var companyName := OrElse(Get(tree, PathOf(CompanyName)), "Parako.ID");
    var secured := GenerateSecrets(Progress(tree, 0), draw);
    var issuerUrl, tenantDomain := Get(secured.tree, PathOf(IssuerUrl)), Get(secured.tree, PathOf(TenantDomain));
    InputsAside(tree, draw);
    var inputs := Inputs(url.value, oidcPath, companyName, issuerUrl, tenantDomain);
    var derived := DeriveUrls(secured, inputs, ctx, draw);
    var final := DeriveMfa(derived, inputs, ctx, draw);
    RulesInOrder(Progress(tree, 0), inputs, ctx, draw);
    return Some(final);
  }

  lemma {:induction false} InputsAside(tree: Value, draw: Draw)
    ensures var secured := ApplyRules(Progress(tree, 0), SECRET_RULES, draw).tree;
      && Get(secured, PathOf(IssuerUrl)) == Get(tree, PathOf(IssuerUrl))
      && Get(secured, PathOf(TenantDomain)) == Get(tree, PathOf(TenantDomain))
  {
    SecretsAside(tree, draw, IssuerUrl);
    SecretsAside(tree, draw, TenantDomain);
  }

  lemma {:induction false} RulesInOrder(start: Progress, inputs: Inputs, ctx: Context, draw: Draw)
    ensures ApplyRules(start, Rules(inputs, ctx), draw) ==
      ApplyRules(ApplyRules(ApplyRules(start, SECRET_RULES, draw), UrlRules(inputs, ctx), draw), MfaRules(inputs, ctx), draw)
  {
    var a, b, c := SECRET_RULES, UrlRules(inputs, ctx), MfaRules(inputs, ctx);
    ApplyAppend(start, a, b, draw);
    ApplyAppend(start, a + b, c, draw);
  }

  lemma {:induction false} SecretsAside(tree: Value, draw: Draw, f: Field)
    requires !Written(f)
    ensures Get(ApplyRules(Progress(tree, 0), SECRET_RULES, draw).tree, PathOf(f)) == Get(tree, PathOf(f))
  {
    OthersAvoid(SECRET_RULES, f);
    RulesFrame(Progress(tree, 0), SECRET_RULES, draw, PathOf(f));
  }
}
