/** `applyComputedDefaults` as a whole: its frame, its idempotence and the issuers it hands out. */
module ComputedDefaults {
  import opened Wrappers
  import opened ConfigTree
  import opened ComputedFields

  function PathAt(rules: seq<Rule>, i: nat): Path
    requires i < |rules|
  {
    PathOf(rules[i].field)
  }

  // ---------- One run ----------

  /** Each rule looks at the original value of its own field, and nothing later disturbs its answer. */
  lemma {:induction false} RuleDecidesAt(state: Progress, rules: seq<Rule>, draw: Draw, i: nat) returns (n: nat)
    requires Ranked(rules) && i < |rules|
    ensures n == ApplyRules(state, rules[..i], draw).drawn
    ensures var existing, p := Get(state.tree, PathAt(rules, i)), PathAt(rules, i);
            Get(ApplyRules(state, rules, draw).tree, p) ==
              if Fires(rules[i].guard, existing) then Some(Fresh(rules[i].source, draw, n)) else existing
    ensures ThroughArray(ApplyRules(state, rules, draw).tree, PathAt(rules, i)) == ThroughArray(state.tree, PathAt(rules, i))
  {
    var init, last := rules[..|rules| - 1], rules[|rules| - 1];
    var before := ApplyRules(state, init, draw);
    var p, x := PathAt(rules, i), Fresh(last.source, draw, before.drawn);
    if i == |rules| - 1 {
      OthersAvoid(init, last.field);
      RulesFrame(state, init, draw, p);
      GetSet(before.tree, p, x);
      ArraysStay(before.tree, p, x, p);
      n := before.drawn;
    } else {
      n := RuleDecidesAt(state, init, draw, i);
      assert init[..i] == rules[..i];
      PathsApart(last.field, rules[i].field);
      GetSetApart(before.tree, PathOf(last.field), p, x);
      ArraysStay(before.tree, PathOf(last.field), x, p);
    }
  }

  lemma {:induction false} RuleDecides(state: Progress, rules: seq<Rule>, draw: Draw, i: nat) returns (n: nat)
    requires Ranked(rules) && i < |rules|
    ensures var existing, p := Get(state.tree, PathAt(rules, i)), PathAt(rules, i);
            Get(ApplyRules(state, rules, draw).tree, p) ==
              if Fires(rules[i].guard, existing) then Some(Fresh(rules[i].source, draw, n)) else existing
    ensures ThroughArray(ApplyRules(state, rules, draw).tree, PathAt(rules, i)) == ThroughArray(state.tree, PathAt(rules, i))
  {
    n := RuleDecidesAt(state, rules, draw, i);
  }

  /** Rule `i` would draw a secret for this tree. */
  predicate Draws(tree: Value, rules: seq<Rule>, i: nat)
    requires i < |rules|
  {
    Cost(rules[i].source) > 0 && Fires(rules[i].guard, Get(tree, PathAt(rules, i)))
  }

  /** The last rule draws exactly when its own secret was missing at the start. */
  lemma {:induction false} LastDraws(state: Progress, rules: seq<Rule>, draw: Draw)
    requires Ranked(rules) && rules != []
    ensures var init := ApplyRules(state, rules[..|rules| - 1], draw).drawn;
      && ApplyRules(state, rules, draw).drawn >= init
      && (ApplyRules(state, rules, draw).drawn == init <==> !Draws(state.tree, rules, |rules| - 1))
  {
    var init, last := rules[..|rules| - 1], rules[|rules| - 1];
    OthersAvoid(init, last.field);
    RulesFrame(state, init, draw, PathOf(last.field));
  }

  lemma {:induction false} DrawsInPrefix(tree: Value, rules: seq<Rule>, i: nat)
    requires i < |rules| - 1
    ensures Draws(tree, rules[..|rules| - 1], i) == Draws(tree, rules, i)
  {
  }

  /** Secrets are drawn exactly when a secret was missing at the start. */
  lemma {:induction false} DrawnIff(state: Progress, rules: seq<Rule>, draw: Draw)
    requires Ranked(rules)
    ensures ApplyRules(state, rules, draw).drawn >= state.drawn
    ensures ApplyRules(state, rules, draw).drawn == state.drawn <==> forall i :: 0 <= i < |rules| ==> !Draws(state.tree, rules, i)
  {
    if rules != [] {
      var init := rules[..|rules| - 1];
      DrawnIff(state, init, draw);
      LastDraws(state, rules, draw);
      forall i | 0 <= i < |init|
        ensures Draws(state.tree, init, i) == Draws(state.tree, rules, i)
      {
        DrawsInPrefix(state.tree, rules, i);
      }
    }
  }

  // ---------- A run as plain writes of its own outcome ----------

  function WriteAll(v: Value, rules: seq<Rule>, x: Field -> Value): Value {
    if rules == [] then v
    else
      var last := rules[|rules| - 1];
      Set(WriteAll(v, rules[..|rules| - 1], x), PathOf(last.field), x(last.field))
  }

  /** `x` gives the value that every rule's field ends up with. */
  ghost predicate Outcome(v: Value, rules: seq<Rule>, x: Field -> Value) {
    forall i :: 0 <= i < |rules| ==> Get(v, PathAt(rules, i)) == Some(x(rules[i].field))
  }

  lemma {:induction false} NodeStays(state: Progress, rules: seq<Rule>, draw: Draw)
    requires state.tree.Node?
    ensures ApplyRules(state, rules, draw).tree.Node?
  {
    if rules != [] {
      NodeStays(state, rules[..|rules| - 1], draw);
    }
  }

  lemma {:induction false} WrittenNode(v: Value, rules: seq<Rule>, x: Field -> Value)
    requires v.Node?
    ensures WriteAll(v, rules, x).Node?
  {
    if rules != [] {
      WrittenNode(v, rules[..|rules| - 1], x);
    }
  }

  lemma {:induction false} RunIsWrites(state: Progress, rules: seq<Rule>, draw: Draw, x: Field -> Value)
    requires Ranked(rules) && state.tree.Node?
    requires Outcome(ApplyRules(state, rules, draw).tree, rules, x)
    ensures ApplyRules(state, rules, draw).tree == WriteAll(state.tree, rules, x)
  {
    if rules != [] {
      var init, last := rules[..|rules| - 1], rules[|rules| - 1];
      var before := ApplyRules(state, init, draw);
      var p := PathOf(last.field);
      var value := Fresh(last.source, draw, before.drawn);
      forall i | 0 <= i < |init| ensures Get(before.tree, PathAt(init, i)) == Some(x(init[i].field)) {
        assert rules[i] == init[i] && PathAt(rules, i) == PathAt(init, i);
        PathsApart(last.field, init[i].field);
        GetSetApart(before.tree, p, PathAt(init, i), value);
      }
      RunIsWrites(state, init, draw, x);
      NodeStays(state, init, draw);
      assert PathAt(rules, |rules| - 1) == p;
      if Fires(last.guard, Get(before.tree, p)) {
        GetSet(before.tree, p, value);
      } else {
        SetGot(before.tree, p);
      }
    }
  }

  lemma {:induction false} WriteAllAfter(v: Value, f: Field, rules: seq<Rule>, x: Field -> Value)
    ensures WriteAll(Set(v, PathOf(f), x(f)), rules, x) == Set(WriteAll(v, rules, x), PathOf(f), x(f))
  {
    if rules != [] {
      var init, g := rules[..|rules| - 1], rules[|rules| - 1].field;
      WriteAllAfter(v, f, init, x);
      if f != g {
        PathsApart(f, g);
        SetsCommute(WriteAll(v, init, x), PathOf(f), x(f), PathOf(g), x(g));
      }
    }
  }

  lemma {:induction false} WriteAllGet(v: Value, rules: seq<Rule>, x: Field -> Value, i: nat)
    requires i < |rules|
    ensures Get(WriteAll(v, rules, x), PathAt(rules, i)) == Some(x(rules[i].field))
  {
    var init, g := rules[..|rules| - 1], rules[|rules| - 1].field;
    if rules[i].field == g {
      GetSet(WriteAll(v, init, x), PathOf(g), x(g));
    } else {
      WriteAllGet(v, init, x, i);
      PathsApart(g, rules[i].field);
      GetSetApart(WriteAll(v, init, x), PathOf(g), PathAt(rules, i), x(g));
    }
  }

  /** A write that the list makes anyway is absorbed. */
  lemma {:induction false} WriteAllAbsorbs(v: Value, rules: seq<Rule>, x: Field -> Value, i: nat)
    requires i < |rules| && v.Node?
    ensures WriteAll(Set(v, PathAt(rules, i), x(rules[i].field)), rules, x) == WriteAll(v, rules, x)
  {
    WriteAllAfter(v, rules[i].field, rules, x);
    WriteAllGet(v, rules, x, i);
    WrittenNode(v, rules, x);
    SetGot(WriteAll(v, rules, x), PathAt(rules, i));
  }

  /** Copying a written tree may lose writes, but writing again brings them all back. */
  lemma {:induction false} WritesSurviveClone(v: Value, k: nat, rules: seq<Rule>, x: Field -> Value)
    requires v.Node? && k <= |rules|
    requires forall i :: 0 <= i < |rules| ==> Plain(x(rules[i].field))
    ensures WriteAll(Clone(WriteAll(v, rules[..k], x)), rules, x) == WriteAll(Clone(v), rules, x)
    decreases k
  {
    if k > 0 {
      var init, f := rules[..k - 1], rules[k - 1].field;
      var w := WriteAll(v, init, x);
      assert rules[..k][..k - 1] == init;
      assert WriteAll(v, rules[..k], x) == Set(w, PathOf(f), x(f));
      WrittenNode(v, init, x);
      CloneSet(w, PathOf(f), x(f));
      WriteAllAbsorbs(Clone(w), rules, x, k - 1);
      WritesSurviveClone(v, k - 1, rules, x);
    }
  }

  // ---------- A second run ----------

  /** Only plain values are written, and a secret only where one is missing. */
  ghost predicate Tidy(rules: seq<Rule>) {
    forall i :: 0 <= i < |rules| ==>
      match rules[i].source
      case Fixed(value) => Plain(value)
      case _ => rules[i].guard == WhenMissing
  }

  function ValueAt(v: Value, f: Field): Value {
    if Get(v, PathOf(f)).Some? then Get(v, PathOf(f)).value else Null
  }

  lemma {:induction false} PlainGet(v: Value, p: Path)
    requires v.Node? && Plain(v) && p != []
    ensures Get(v, p).Some? ==> Plain(Get(v, p).value)
    ensures ThroughArray(v, p) ==> Get(v, p) == None
  {
    GetClone(v, p);
    if Get(v, p).Some? {
      CloneIsPlain(Get(v, p).value);
    }
  }

  lemma {:induction false} FreshIsPlain(rules: seq<Rule>, i: nat, draw: Draw, n: nat)
    requires Tidy(rules) && i < |rules|
    ensures Plain(Fresh(rules[i].source, draw, n))
    ensures rules[i].source != Fixed(Fresh(rules[i].source, draw, n)) ==> !Fires(rules[i].guard, Some(Fresh(rules[i].source, draw, n)))
  {
  }

  /** What the second run finds in a field: the first run's outcome, unless an array swallowed it. */
  lemma {:induction false} Reread(tree: Value, rules: seq<Rule>, draw: Draw, i: nat)
    requires tree.Node? && Plain(tree) && Ranked(rules) && Tidy(rules) && i < |rules|
    ensures var first, p := ApplyRules(Progress(tree, 0), rules, draw).tree, PathAt(rules, i);
      && Get(first, p).Some? && Plain(Get(first, p).value)
      && Get(Clone(first), p) == (if ThroughArray(tree, p) then None else Get(first, p))
      && (rules[i].source.Fixed? ==>
            Get(first, p) == Some(rules[i].source.value) || (!ThroughArray(tree, p) && !Fires(rules[i].guard, Get(first, p))))
      && (!rules[i].source.Fixed? ==> !Fires(rules[i].guard, Get(first, p)))
  {
    var start := Progress(tree, 0);
    var first, p := ApplyRules(start, rules, draw).tree, PathAt(rules, i);
    var n := RuleDecides(start, rules, draw, i);
    FreshIsPlain(rules, i, draw, n);
    PlainGet(tree, p);
    NodeStays(start, rules, draw);
    GetClone(first, p);
  }

  /**
   * Running the rules again on a copy of the result: no secret is drawn exactly when no secret
   * lies below an array, and then nothing changes.
   */
  lemma {:induction false} SecondRunStable(tree: Value, rules: seq<Rule>, draw: Draw, draw': Draw)
    requires tree.Node? && Plain(tree) && Ranked(rules) && Tidy(rules)
    requires forall i :: 0 <= i < |rules| && Cost(rules[i].source) > 0 ==> !ThroughArray(tree, PathAt(rules, i))
    ensures var first := ApplyRules(Progress(tree, 0), rules, draw).tree;
            ApplyRules(Progress(Clone(first), 0), rules, draw').tree == first
  {
    var start := Progress(tree, 0);
    var first := ApplyRules(start, rules, draw).tree;
    var again := Progress(Clone(first), 0);
    var x := (f: Field) => ValueAt(first, f);
    NodeStays(start, rules, draw);
    forall i | 0 <= i < |rules|
      ensures Get(first, PathAt(rules, i)) == Some(x(rules[i].field)) && Plain(x(rules[i].field))
      ensures Get(ApplyRules(again, rules, draw').tree, PathAt(rules, i)) == Some(x(rules[i].field))
    {
      Reread(tree, rules, draw, i);
      var n := RuleDecides(again, rules, draw', i);
    }
    RunIsWrites(start, rules, draw, x);
    RunIsWrites(again, rules, draw', x);
    WritesSurviveClone(tree, |rules|, rules, x);
    assert rules[..|rules|] == rules;
  }

  lemma {:induction false} SecondRunDraws(tree: Value, rules: seq<Rule>, draw: Draw, draw': Draw)
    requires tree.Node? && Plain(tree) && Ranked(rules) && Tidy(rules)
    ensures var first := ApplyRules(Progress(tree, 0), rules, draw).tree;
            ApplyRules(Progress(Clone(first), 0), rules, draw').drawn == 0 <==>
              forall i :: 0 <= i < |rules| && Cost(rules[i].source) > 0 ==> !ThroughArray(tree, PathAt(rules, i))
  {
    var first := ApplyRules(Progress(tree, 0), rules, draw).tree;
    DrawnIff(Progress(Clone(first), 0), rules, draw');
    forall i | 0 <= i < |rules| && Cost(rules[i].source) > 0
      ensures Draws(Clone(first), rules, i) <==> ThroughArray(tree, PathAt(rules, i))
    {
      Reread(tree, rules, draw, i);
    }
  }

  // ---------- The whole operation ----------

  lemma {:induction false} TidyAppend(a: seq<Rule>, b: seq<Rule>)
    requires Tidy(a) && Tidy(b)
    ensures Tidy(a + b)
  {
  }

  lemma {:induction false} UrlRulesTidy(inputs: Inputs, ctx: Context)
    requires Plain(IssuerOf(inputs, ctx))
    ensures Tidy(UrlRules(inputs, ctx))
  {
    var rules := UrlRules(inputs, ctx);
    forall i | 0 <= i < |rules| ensures rules[i].source.Fixed? && Plain(rules[i].source.value) {
      assert i == 0 || rules[i].source.value.Text?;
    }
  }

  lemma {:induction false} MfaRulesTidy(inputs: Inputs, ctx: Context)
    requires Plain(inputs.companyName) && Plain(RelyingPartyId(inputs, ctx))
    ensures Tidy(MfaRules(inputs, ctx))
  {
  }

  lemma {:induction false} RulesTidy(tree: Value, ctx: Context)
    requires tree.Node? && Plain(tree) && ReadInputs(tree).Some?
    ensures Tidy(Rules(ReadInputs(tree).value, ctx))
  {
    PlainGet(tree, PathOf(CompanyName));
    PlainGet(tree, PathOf(IssuerUrl));
    PlainGet(tree, PathOf(TenantDomain));
    var inputs := ReadInputs(tree).value;
    UrlRulesTidy(inputs, ctx);
    MfaRulesTidy(inputs, ctx);
    TidyAppend(SECRET_RULES, UrlRules(inputs, ctx));
    TidyAppend(SECRET_RULES + UrlRules(inputs, ctx), MfaRules(inputs, ctx));
  }

  /** Only the registered fields and the four integration URLs are written. */
  lemma {:induction false} ComputedFrame(config: Value, ctx: Context, draw: Draw, q: Path)
    requires Computed(config, ctx, draw).Some?
    requires forall f :: Written(f) ==> Apart(PathOf(f), q)
    ensures Get(Computed(config, ctx, draw).value.tree, q) == Get(Clone(config), q)
  {
    var tree := Clone(config);
    var rules := Rules(ReadInputs(tree).value, ctx);
    RulesRanked(ReadInputs(tree).value, ctx);
    RulesFrame(Progress(tree, 0), rules, draw, q);
  }

  /** The first run leaves what the second run reads as it was. */
  lemma {:induction false} InputStays(tree: Value, rules: seq<Rule>, draw: Draw, f: Field)
    requires tree.Node? && Plain(tree) && Ranked(rules) && !Written(f)
    ensures Get(Clone(ApplyRules(Progress(tree, 0), rules, draw).tree), PathOf(f)) == Get(tree, PathOf(f))
  {
    var start, p := Progress(tree, 0), PathOf(f);
    OthersAvoid(rules, f);
    RulesFrame(start, rules, draw, p);
    NodeStays(start, rules, draw);
    GetClone(ApplyRules(start, rules, draw).tree, p);
    GetClone(tree, p);
  }

  lemma {:induction false} InputsStay(tree: Value, rules: seq<Rule>, draw: Draw)
    requires tree.Node? && Plain(tree) && Ranked(rules)
    ensures ReadInputs(Clone(ApplyRules(Progress(tree, 0), rules, draw).tree)) == ReadInputs(tree)
  {
    InputStays(tree, rules, draw, DeploymentUrl);
    InputStays(tree, rules, draw, OidcPath);
    InputStays(tree, rules, draw, CompanyName);
    InputStays(tree, rules, draw, IssuerUrl);
    InputStays(tree, rules, draw, TenantDomain);
  }

  predicate IsSecret(f: Field) {
    f == JwtSecret || f == CookieSecrets || f == HmacSecret || f == PairwiseSalt
  }

  /** Some section that holds a secret is an array. */
  ghost predicate SecretUnderArray(config: Value) {
    exists f :: IsSecret(f) && ThroughArray(config, PathOf(f))
  }

  lemma {:induction false} CloneKeepsArrays(v: Value, p: Path)
    requires v.Node?
    ensures ThroughArray(Clone(v), p) == ThroughArray(v, p)
    decreases |p|
  {
    if |p| > 1 {
      CloneKeys(v);
      if p[0] in v.fields {
        CloneKeys(v.fields[p[0]]);
      }
      if Child(v, p[0]).Node? {
        CloneKeepsArrays(Child(v, p[0]), p[1..]);
      }
    }
  }

  /** The secret rules come first, and the others draw nothing. */
  lemma {:induction false} SecretRulesFirst(inputs: Inputs, ctx: Context)
    ensures var rules := Rules(inputs, ctx);
      && |rules| >= 4
      && (forall i :: 0 <= i < |rules| ==> (Cost(rules[i].source) > 0 <==> i < 4))
      && rules[0].field == JwtSecret && rules[1].field == CookieSecrets
      && rules[2].field == HmacSecret && rules[3].field == PairwiseSalt
  {
    var a, b, c := SECRET_RULES, UrlRules(inputs, ctx), MfaRules(inputs, ctx);
    assert forall i :: 0 <= i < |a| ==> Cost(a[i].source) > 0;
    assert forall i :: 0 <= i < |b| ==> b[i].source.Fixed?;
    assert forall i :: 0 <= i < |c| ==> c[i].source.Fixed?;
  }

  lemma {:induction false} SecretRulesOnly(inputs: Inputs, ctx: Context, tree: Value)
    ensures var rules := Rules(inputs, ctx);
      (forall i :: 0 <= i < |rules| && Cost(rules[i].source) > 0 ==> !ThroughArray(tree, PathAt(rules, i)))
      <==> !SecretUnderArray(tree)
  {
    SecretRulesFirst(inputs, ctx);
    var rules := Rules(inputs, ctx);
    assert PathAt(rules, 0) == PathOf(JwtSecret) && PathAt(rules, 1) == PathOf(CookieSecrets);
    assert PathAt(rules, 2) == PathOf(HmacSecret) && PathAt(rules, 3) == PathOf(PairwiseSalt);
  }

  /**
   * Applying the defaults again, in the same tenant context and with any other random source, draws
   * no secret exactly when no section that holds a secret is an array; and then it changes nothing.
   */
  lemma {:induction false} ComputedIsIdempotent(config: Value, ctx: Context, draw: Draw, draw': Draw)
    requires config.Node? && Computed(config, ctx, draw).Some?
    ensures var first := Computed(config, ctx, draw).value.tree;
      && Computed(first, ctx, draw').Some?
      && (Computed(first, ctx, draw').value.drawn == 0 <==> !SecretUnderArray(config))
      && (!SecretUnderArray(config) ==> Computed(first, ctx, draw').value.tree == first)
  {
    var tree := Clone(config);
    var inputs := ReadInputs(tree).value;
    var rules := Rules(inputs, ctx);
    CloneIsPlain(config);
    RulesRanked(inputs, ctx);
    RulesTidy(tree, ctx);
    InputsStay(tree, rules, draw);
    SecretRulesOnly(inputs, ctx, tree);
    SecondRunDraws(tree, rules, draw, draw');
    assert SecretUnderArray(tree) <==> SecretUnderArray(config) by {
      forall f ensures ThroughArray(tree, PathOf(f)) == ThroughArray(config, PathOf(f)) {
        CloneKeepsArrays(config, PathOf(f));
      }
    }
    if !SecretUnderArray(tree) {
      SecondRunStable(tree, rules, draw, draw');
    }
  }

  /** A configuration whose `security.secrets` is an empty list. */
  const SECRETS_AS_LIST: Value := Node(map[Section(Security) := Node(map[Section(Secrets) := List([], map[])])])

  lemma {:induction false} SecretsAsList()
    ensures ThroughArray(SECRETS_AS_LIST, PathOf(JwtSecret)) && SecretUnderArray(SECRETS_AS_LIST)
    ensures ReadInputs(Clone(SECRETS_AS_LIST)).Some?
  {
    var v, p := SECRETS_AS_LIST, PathOf(JwtSecret);
    assert p == [Section(Security), Section(Secrets), Leaf(JwtSecret)];
    assert Child(v, p[0]) == v.fields[Section(Security)] && Child(Child(v, p[0]), p[1]).List?;
    assert p[1..][0] == p[1];
    assert ThroughArray(Child(v, p[0]), p[1..]);
    var d := PathOf(DeploymentUrl);
    assert d[0] == Section(Deployment) && Section(Deployment) !in Clone(v).fields;
    assert Get(Clone(v), d) == None;
  }

  /** The second run of any configuration applies the same rules to a copy of the first result. */
  lemma {:induction false} SecondRun(config: Value, ctx: Context, draw: Draw, draw': Draw)
    requires config.Node? && Computed(config, ctx, draw).Some?
    ensures var inputs, first := ReadInputs(Clone(config)).value, Computed(config, ctx, draw).value.tree;
      Computed(first, ctx, draw') == Some(ApplyRules(Progress(Clone(first), 0), Rules(inputs, ctx), draw'))
  {
    var tree := Clone(config);
    CloneIsPlain(config);
    RulesRanked(ReadInputs(tree).value, ctx);
    InputsStay(tree, Rules(ReadInputs(tree).value, ctx), draw);
  }

  /** It gets a new JWT secret on every run. */
  lemma {:induction false} ListIsRedrawn(ctx: Context, draw: Draw, draw': Draw)
    requires forall n, m :: draw(n, 64) != draw'(m, 64)
    ensures Computed(SECRETS_AS_LIST, ctx, draw).Some?
    ensures var first := Computed(SECRETS_AS_LIST, ctx, draw).value.tree;
      && Computed(first, ctx, draw').Some? && Computed(first, ctx, draw').value.drawn > 0
      && Get(Computed(first, ctx, draw').value.tree, PathOf(JwtSecret)) != Get(first, PathOf(JwtSecret))
  {
    SecretsAsList();
    ArrayIsRedrawn(SECRETS_AS_LIST, ctx, draw, draw');
  }

  lemma {:induction false} ArrayIsRedrawn(config: Value, ctx: Context, draw: Draw, draw': Draw)
    requires config.Node? && ThroughArray(config, PathOf(JwtSecret)) && Computed(config, ctx, draw).Some?
    requires forall n, m :: draw(n, 64) != draw'(m, 64)
    ensures var first := Computed(config, ctx, draw).value.tree;
      && Computed(first, ctx, draw').Some? && Computed(first, ctx, draw').value.drawn > 0
      && Get(Computed(first, ctx, draw').value.tree, PathOf(JwtSecret)) != Get(first, PathOf(JwtSecret))
  {
    var tree := Clone(config);
    assert SecretUnderArray(config);
    ComputedIsIdempotent(config, ctx, draw, draw');
    SecondRun(config, ctx, draw, draw');
    CloneIsPlain(config);
    CloneKeepsArrays(config, PathOf(JwtSecret));
    RulesTidy(tree, ctx);
    JwtRedrawn(tree, ReadInputs(tree).value, ctx, draw, draw');
  }

  lemma {:induction false} JwtRedrawn(tree: Value, inputs: Inputs, ctx: Context, draw: Draw, draw': Draw)
    requires tree.Node? && Plain(tree) && ThroughArray(tree, PathOf(JwtSecret))
    requires Tidy(Rules(inputs, ctx)) && forall n, m :: draw(n, 64) != draw'(m, 64)
    ensures Ranked(Rules(inputs, ctx))
    ensures var rules := Rules(inputs, ctx);
      var first := ApplyRules(Progress(tree, 0), rules, draw).tree;
      Get(ApplyRules(Progress(Clone(first), 0), rules, draw').tree, PathOf(JwtSecret)) != Get(first, PathOf(JwtSecret))
  {
    var rules := Rules(inputs, ctx);
    RulesRanked(inputs, ctx);
    assert rules[0] == Rule(JwtSecret, WhenMissing, Secret(64));
    assert PathAt(rules, 0) == PathOf(JwtSecret);
    PlainGet(tree, PathOf(JwtSecret));
    var first := ApplyRules(Progress(tree, 0), rules, draw).tree;
    var n := RuleDecides(Progress(tree, 0), rules, draw, 0);
    Reread(tree, rules, draw, 0);
    var m := RuleDecides(Progress(Clone(first), 0), rules, draw', 0);
  }

  // ---------- Issuers ----------

  lemma {:induction false} FirstDot(a: string, x: string, b: string, y: string)
    requires '.' !in a && '.' !in b && a + "." + x == b + "." + y
    ensures a == b
  {
    var s := a + "." + x;
    assert s[|a|] == '.' && s[|b|] == '.';
    assert forall i :: 0 <= i < |a| ==> s[i] == a[i];
    assert forall i :: 0 <= i < |b| ==> s[i] == b[i];
    assert |a| == |b|;
    assert a == s[..|a|] && b == s[..|b|];
  }

  lemma {:induction false} SameProtocol(u: string, x: string, w: string, y: string)
    requires Protocol(u) + x == Protocol(w) + y
    ensures x == y
  {
    var s := Protocol(u) + x;
    assert s[4] == (if HTTPS <= u then 's' else ':');
    assert s[4] == (if HTTPS <= w then 's' else ':');
    assert Protocol(u) == Protocol(w);
    assert x == s[|Protocol(u)|..] && y == s[|Protocol(w)|..];
  }

  /** A tenant reached by subdomain, whose issuer is not set explicitly. */
  ghost predicate OnSubdomain(config: Value, ctx: Context) {
    && InTenantContext(ctx) && '.' !in ctx.tenant.value
    && ReadInputs(Clone(config)).Some?
    && var inputs := ReadInputs(Clone(config)).value;
       inputs.url != "" && !Truthy(inputs.issuerUrl) && !Truthy(inputs.tenantDomain)
  }

  /** The value written to `oidc.issuer`. */
  lemma {:induction false} IssuerWritten(config: Value, ctx: Context, draw: Draw)
    requires OnSubdomain(config, ctx)
    ensures Computed(config, ctx, draw).Some?
    ensures Get(Computed(config, ctx, draw).value.tree, PathOf(Issuer)) == Some(IssuerOf(ReadInputs(Clone(config)).value, ctx))
  {
    var tree := Clone(config);
    var inputs := ReadInputs(tree).value;
    var rules := Rules(inputs, ctx);
    RulesRanked(inputs, ctx);
    assert BaseUrl(inputs, ctx) != "";
    assert rules[4] == UrlRules(inputs, ctx)[0] == Rule(Issuer, Always, Fixed(IssuerOf(inputs, ctx)));
    var n := RuleDecides(Progress(tree, 0), rules, draw, 4);
    assert PathAt(rules, 4) == PathOf(Issuer);
  }

  lemma {:induction false} IssuerText(config: Value, ctx: Context) returns (u: string, rest: string)
    requires OnSubdomain(config, ctx)
    ensures IssuerOf(ReadInputs(Clone(config)).value, ctx) == Text(Protocol(u) + (ctx.tenant.value + "." + rest))
  {
    var inputs := ReadInputs(Clone(config)).value;
    u := inputs.url;
    var path := Show(ctx, inputs.oidcPath);
    rest := WithoutProtocol(u) + path;
    var t := ctx.tenant.value;
    assert Protocol(u) + (t + "." + WithoutProtocol(u)) + path == Protocol(u) + (t + "." + rest);
  }

  /** Tenants with different dot-free ids get different issuers, whatever their URLs and OIDC paths. */
  lemma {:induction false} IssuersDiffer(config: Value, ctx: Context, draw: Draw, config': Value, ctx': Context, draw': Draw)
    requires OnSubdomain(config, ctx) && OnSubdomain(config', ctx')
    requires ctx.tenant != ctx'.tenant
    ensures Computed(config, ctx, draw).Some? && Computed(config', ctx', draw').Some?
    ensures Get(Computed(config, ctx, draw).value.tree, PathOf(Issuer)) != Get(Computed(config', ctx', draw').value.tree, PathOf(Issuer))
  {
    IssuerWritten(config, ctx, draw);
    IssuerWritten(config', ctx', draw');
    var u, rest := IssuerText(config, ctx);
    var u', rest' := IssuerText(config', ctx');
    var t, t' := ctx.tenant.value, ctx'.tenant.value;
    if Protocol(u) + (t + "." + rest) == Protocol(u') + (t' + "." + rest') {
      SameProtocol(u, t + "." + rest, u', t' + "." + rest');
      FirstDot(t, rest, t', rest');
      assert false;
    }
  }
}
