/** Configuration values as trees: reading and writing a nested path, and the JSON deep copy. */
module ConfigTree {
  import opened Wrappers

  /** The property names that the computed fields read and write; anything else is `Other`. */
  datatype Key = Section(section: SectionName) | Leaf(field: Field) | Other(name: string)

  datatype SectionName =
    | Security | Secrets | Oidc | Discovery | Integrations | Urls
    | Authentication | MultiFactor | Totp | Webauthn | Deployment | Branding

  datatype Field =
    // registered computed fields
    | JwtSecret | CookieSecrets | HmacSecret | PairwiseSalt
    | Issuer | OpPolicyUri | OpTosUri | ServiceDocumentation
    | IssuerName | RpName | RpId
    // integration URLs
    | Website | PrivacyPolicy | TermsOfService | Contact
    // inputs
    | DeploymentUrl | OidcPath | CompanyName | IssuerUrl | TenantDomain

  type Path = seq<Key>

  /**
   * A JavaScript value. An array is an object too, so a property can be written on it; such extra
   * properties can be read back, but JSON does not carry them.
   */
  datatype Value =
    | Null
    | Text(text: string)
    | Flag(flag: bool)
    | Num(num: real)
    | List(items: seq<Value>, extras: map<Key, Value>)
    | Node(fields: map<Key, Value>)

  predicate IsObject(v: Value) {
    v.List? || v.Node?
  }

  function Properties(v: Value): map<Key, Value> {
    match v
    case Node(fields) => fields
    case List(_, extras) => extras
    case _ => map[]
  }

  /** `v[k] = x`, where anything but an object has first been replaced by `{}`. */
  function Put(v: Value, k: Key, x: Value): (r: Value)
    ensures IsObject(r) && Properties(r) == Properties(v)[k := x] && (v.List? <==> r.List?)
  {
    match v
    case Node(fields) => Node(fields[k := x])
    case List(items, extras) => List(items, extras[k := x])
    case _ => Node(map[k := x])
  }

  /** `getNestedValue`: `None` is `undefined`. */
  function Get(v: Value, path: Path): Option<Value>
    decreases |path|
  {
    if path == [] then Some(v)
    else if path[0] in Properties(v) then Get(Properties(v)[path[0]], path[1..])
    else None
  }

  /** The object that a write goes on into. */
  function Child(v: Value, k: Key): (r: Value)
    ensures IsObject(r)
  {
    if k in Properties(v) && IsObject(Properties(v)[k]) then Properties(v)[k] else Node(map[])
  }

  /** `setNestedValue`. */
  function Set(v: Value, path: Path, x: Value): Value
    requires path != []
    ensures IsObject(Set(v, path, x))
    decreases |path|
  {
    Put(v, path[0], if |path| == 1 then x else Set(Child(v, path[0]), path[1..], x))
  }

  /** `JSON.parse(JSON.stringify(v))`. */
  function Clone(v: Value): Value {
    match v
    case Node(fields) => Node(map k | k in fields :: Clone(fields[k]))
    case List(items, extras) => List(seq(|items|, i requires 0 <= i < |items| => Clone(items[i])), map[])
    case _ => v
  }

  /** A value that JSON carries whole. */
  ghost predicate Plain(v: Value) {
    Clone(v) == v
  }

  lemma {:induction false} CloneIsPlain(v: Value)
    ensures Plain(Clone(v))
    decreases v
  {
    match v
    case Node(fields) =>
      forall k | k in fields ensures Plain(Clone(fields[k])) { CloneIsPlain(fields[k]); }
      assert Clone(Clone(v)).fields == Clone(v).fields;
    case List(items, extras) =>
      forall i | 0 <= i < |items| ensures Plain(Clone(items[i])) { CloneIsPlain(items[i]); }
      assert Clone(Clone(v)).items == Clone(v).items;
    case _ =>
  }

  lemma {:induction false} CloneKeys(v: Value)
    ensures IsObject(v) <==> IsObject(Clone(v))
    ensures v.List? <==> Clone(v).List?
    ensures !v.List? ==> Properties(Clone(v)).Keys == Properties(v).Keys
    ensures v.Node? ==> forall k :: k in v.fields ==> Clone(v).fields[k] == Clone(v.fields[k])
  {
  }

  // ---------- Laws of reading and writing ----------

  /** Neither path leads to the other. */
  predicate Apart(p: Path, q: Path)
    decreases |p|
  {
    p != [] && q != [] && (p[0] != q[0] || Apart(p[1..], q[1..]))
  }

  /** What a write stores under the first key. */
  function Stored(v: Value, p: Path, x: Value): Value
    requires p != []
  {
    if |p| == 1 then x else Set(Child(v, p[0]), p[1..], x)
  }

  lemma {:induction false} SetStores(v: Value, p: Path, x: Value)
    requires p != []
    ensures Set(v, p, x) == Put(v, p[0], Stored(v, p, x))
  {
  }

  lemma {:induction false} ChildOfPut(v: Value, k: Key, x: Value, k': Key)
    ensures Child(Put(v, k, x), k') == if k' != k then Child(v, k') else if IsObject(x) then x else Node(map[])
  {
  }

  lemma {:induction false} PutsCommute(v: Value, k: Key, x: Value, k': Key, y: Value)
    ensures k != k' ==> Put(Put(v, k, x), k', y) == Put(Put(v, k', y), k, x)
    ensures Put(Put(v, k, x), k, y) == Put(v, k, y)
  {
    assert k != k' ==> Properties(v)[k := x][k' := y] == Properties(v)[k' := y][k := x];
    assert Properties(v)[k := x][k := y] == Properties(v)[k := y];
    assert k != k' ==> (map[k := x])[k' := y] == (map[k' := y])[k := x];
    assert (map[k := x])[k := y] == map[k := y];
  }

  lemma {:induction false} GetSet(v: Value, p: Path, x: Value)
    requires p != []
    ensures Get(Set(v, p, x), p) == Some(x)
    decreases |p|
  {
    if |p| > 1 {
      GetSet(Child(v, p[0]), p[1..], x);
    }
  }

  /** Writing what is already there changes nothing. */
  lemma {:induction false} SetGot(v: Value, p: Path)
    requires p != [] && IsObject(v) && Get(v, p).Some?
    ensures Set(v, p, Get(v, p).value) == v
    decreases |p|
  {
    var c := Properties(v)[p[0]];
    assert Properties(v)[p[0] := c] == Properties(v);
    if |p| > 1 {
      assert Get(c, p[1..]).Some?;
      assert IsObject(c);
      SetGot(c, p[1..]);
    }
  }

  lemma {:induction false} GetSetApart(v: Value, p: Path, q: Path, x: Value)
    requires Apart(p, q)
    ensures Get(Set(v, p, x), q) == Get(v, q)
    decreases |p|
  {
    SetStores(v, p, x);
    if p[0] == q[0] {
      assert |p| > 1 && q[1..] != [];
      GetSetApart(Child(v, p[0]), p[1..], q[1..], x);
      GetBelow(v, q);
      GetBelow(Set(v, p, x), q);
    }
  }

  lemma {:induction false} GetBelow(v: Value, q: Path)
    requires |q| > 1
    ensures Get(v, q) == Get(Child(v, q[0]), q[1..])
  {
  }

  lemma {:induction false} SetsCommuteAtRoot(v: Value, p: Path, x: Value, q: Path, y: Value)
    requires p != [] && q != [] && p[0] != q[0]
    ensures Set(Set(v, p, x), q, y) == Set(Set(v, q, y), p, x)
  {
    var a, b := Stored(v, p, x), Stored(v, q, y);
    ChildOfPut(v, p[0], a, q[0]);
    ChildOfPut(v, q[0], b, p[0]);
    SetStores(v, p, x);
    SetStores(v, q, y);
    SetStores(Put(v, p[0], a), q, y);
    SetStores(Put(v, q[0], b), p, x);
    PutsCommute(v, p[0], a, q[0], b);
  }

  lemma {:induction false} SetTwiceBelow(v: Value, p: Path, x: Value, q: Path, y: Value)
    requires |p| > 1 && |q| > 1 && p[0] == q[0]
    ensures Set(Set(v, p, x), q, y) == Put(v, p[0], Set(Set(Child(v, p[0]), p[1..], x), q[1..], y))
  {
    var a := Set(Child(v, p[0]), p[1..], x);
    SetStores(v, p, x);
    ChildOfPut(v, p[0], a, p[0]);
    SetStores(Put(v, p[0], a), q, y);
    PutsCommute(v, p[0], a, p[0], Set(a, q[1..], y));
  }

  lemma {:induction false} SetsCommute(v: Value, p: Path, x: Value, q: Path, y: Value)
    requires Apart(p, q)
    ensures Set(Set(v, p, x), q, y) == Set(Set(v, q, y), p, x)
    decreases |p|
  {
    if p[0] != q[0] {
      SetsCommuteAtRoot(v, p, x, q, y);
    } else {
      assert |p| > 1 && |q| > 1;
      SetTwiceBelow(v, p, x, q, y);
      SetTwiceBelow(v, q, y, p, x);
      SetsCommute(Child(v, p[0]), p[1..], x, q[1..], y);
    }
  }

  // ---------- Arrays on the way ----------

  /** A write to `p` would go through an array below the root. */
  predicate ThroughArray(v: Value, p: Path)
    decreases |p|
  {
    |p| > 1 && (Child(v, p[0]).List? || ThroughArray(Child(v, p[0]), p[1..]))
  }

  lemma {:induction false} KindStays(v: Value, p: Path, x: Value)
    requires p != []
    ensures Set(v, p, x).List? <==> v.List?
  {
  }

  /** Writing does not change where the arrays are. */
  lemma {:induction false} ArraysStay(v: Value, p: Path, x: Value, q: Path)
    requires (p == q && p != []) || Apart(p, q)
    ensures ThroughArray(Set(v, p, x), q) == ThroughArray(v, q)
    decreases |p|
  {
    SetStores(v, p, x);
    ChildOfPut(v, p[0], Stored(v, p, x), q[0]);
    if p[0] == q[0] && |p| > 1 {
      ArraysStay(Child(v, p[0]), p[1..], x, q[1..]);
      KindStays(Child(v, p[0]), p[1..], x);
    }
  }

  /** The copy drops a write that went through an array and keeps any other. */
  lemma {:induction false} CloneSet(v: Value, p: Path, x: Value)
    requires p != [] && v.Node? && Plain(x)
    ensures Clone(Set(v, p, x)) == if ThroughArray(v, p) then Clone(v) else Set(Clone(v), p, x)
    decreases |p|
  {
    var k := p[0];
    if |p| > 1 {
      var c := Child(v, k);
      if c.Node? {
        CloneSet(c, p[1..], x);
        CloneKeys(c);
        assert Child(Clone(v), k) == Clone(c);
      }
      ClonePut(v, k, Set(c, p[1..], x));
      if ThroughArray(v, p) {
        assert k in v.fields && v.fields[k] == c && Clone(Set(c, p[1..], x)) == Clone(c);
        assert Clone(v).fields[k := Clone(c)] == Clone(v).fields;
      }
    } else {
      ClonePut(v, k, x);
    }
  }

  lemma {:induction false} ClonePut(v: Value, k: Key, x: Value)
    requires v.Node?
    ensures Clone(Put(v, k, x)) == Put(Clone(v), k, Clone(x))
  {
  }

  /** The copy reads the same, except below an array. */
  lemma {:induction false} GetClone(v: Value, p: Path)
    requires p != [] && v.Node?
    ensures Get(Clone(v), p) ==
      if ThroughArray(v, p) || Get(v, p).None? then None else Some(Clone(Get(v, p).value))
    decreases |p|
  {
    var k := p[0];
    CloneKeys(v);
    if |p| > 1 && k in v.fields {
      CloneKeys(v.fields[k]);
      if v.fields[k].Node? {
        GetClone(v.fields[k], p[1..]);
      }
    }
  }
}
