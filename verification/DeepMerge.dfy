/** The deep merge of `src/db/utils.ts` on values, and its laws. */
module DeepMerge {
  import opened Wrappers

  /**
   * A value that merging never looks into: a primitive, or an object held by reference, such as a
   * date, a class instance, or whatever an array holds.
   */
  datatype Identity = Primitive(value: int) | Reference(obj: object)

  datatype Json =
    | Leaf(id: Identity)
    | Arr(items: seq<Identity>)
    | Obj(props: map<string, Json>)

  type Props = map<string, Json>

  predicate Safe(key: string) {
    key != "__proto__" && key != "constructor" && key != "prototype"
  }

  /** The keys of a source that `merge` copies. */
  function SafeKeys(source: Props): set<string> {
    set k | k in source && Safe(k)
  }

  /** The properties to merge into: those of a plain object, and none for anything else. */
  function BaseOf(target: Props, k: string): Props {
    if k in target && target[k].Obj? then target[k].props else map[]
  }

  /** What `merge` stores for one source value, given what it merges into. */
  function MergeValue(base: Props, value: Json): Json
    decreases value
  {
    match value
    case Obj(source) =>
      Obj(map k | k in base.Keys + SafeKeys(source) ::
        if k in SafeKeys(source) then MergeValue(BaseOf(base, k), source[k]) else base[k])
    case _ => value
  }

  /** `merge(target, source)` for two objects. */
  function Merge(target: Props, source: Props): Props {
    MergeValue(target, Obj(source)).props
  }

  /** The merged object, one key at a time. */
  lemma MergeAt(target: Props, source: Props, k: string)
    ensures k in Merge(target, source) <==> k in target || k in SafeKeys(source)
    ensures k in SafeKeys(source) ==> Merge(target, source)[k] == MergeValue(BaseOf(target, k), source[k])
    ensures k in target && k !in SafeKeys(source) ==> Merge(target, source)[k] == target[k]
  {
  }

  /** The three names that reach a prototype are never merged; every other key of the source is. */
  lemma MergedKeys(target: Props, source: Props, k: string)
    ensures k == "__proto__" || k == "constructor" || k == "prototype" ==>
      (k in Merge(target, source) <==> k in target) && (k in target ==> Merge(target, source)[k] == target[k])
    ensures !(k == "__proto__" || k == "constructor" || k == "prototype") ==>
      (k in Merge(target, source) <==> k in target || k in source)
  {
    MergeAt(target, source, k);
  }

  // ---------- Override and frame ----------

  function Get(value: Json, path: seq<string>): Option<Json>
    decreases |path|
  {
    if path == [] then Some(value)
    else if value.Obj? && path[0] in value.props then Get(value.props[path[0]], path[1..])
    else None
  }

  /** A path leads through objects that have its keys, and nowhere else. */
  lemma GetMeans(value: Json, path: seq<string>, k: string)
    ensures Get(value, []) == Some(value)
    ensures value.Obj? && k in value.props ==> Get(value, [k] + path) == Get(value.props[k], path)
    ensures !(value.Obj? && k in value.props) ==> Get(value, [k] + path) == None
  {
    assert ([k] + path)[1..] == path;
  }

  /** Every safe leaf or array of the source wins. */
  lemma {:induction false} SourceLeafWins(target: Props, source: Json, path: seq<string>)
    requires source.Obj? && forall k :: k in path ==> Safe(k)
    requires Get(source, path).Some? && !Get(source, path).value.Obj?
    ensures Get(Obj(Merge(target, source.props)), path) == Get(source, path)
    decreases |path|
  {
    var k := path[0];
    MergeAt(target, source.props, k);
    if source.props[k].Obj? {
      SourceLeafWins(BaseOf(target, k), source.props[k], path[1..]);
    }
  }

  /** Following `path`, the source stops at an object that has no safe property of the next name. */
  predicate Untouched(source: Json, path: seq<string>)
    decreases |path|
  {
    && source.Obj? && path != []
    && (path[0] in SafeKeys(source.props) ==> Untouched(source.props[path[0]], path[1..]))
  }

  /** Every path the source does not touch keeps what the target had there. */
  lemma {:induction false} UntouchedPathKept(target: Props, source: Json, path: seq<string>)
    requires Untouched(source, path)
    ensures Get(Obj(Merge(target, source.props)), path) == Get(Obj(target), path)
    decreases |path|
  {
    var k := path[0];
    MergeAt(target, source.props, k);
    if k in SafeKeys(source.props) {
      UntouchedPathKept(BaseOf(target, k), source.props[k], path[1..]);
    }
  }

  // ---------- What is shared ----------

  ghost function Held(items: seq<Identity>): set<object> {
    set i | 0 <= i < |items| && items[i].Reference? :: items[i].obj
  }

  /** The objects a tree holds by reference, at any depth. */
  ghost function Refs(value: Json): set<object> {
    match value
    case Leaf(id) => Held([id])
    case Arr(items) => Held(items)
    case Obj(props) => set k, o | k in props && o in Refs(props[k]) :: o
  }

  /** Those that a merge gets to see: the ones below safe keys only. */
  ghost function SafeRefs(value: Json): set<object> {
    match value
    case Leaf(id) => Held([id])
    case Arr(items) => Held(items)
    case Obj(props) => set k, o | k in SafeKeys(props) && o in SafeRefs(props[k]) :: o
  }

  /** A merge holds everything its source holds below safe keys, and otherwise only what the target held. */
  lemma {:induction false} MergeShares(base: Props, value: Json)
    ensures SafeRefs(value) <= Refs(MergeValue(base, value)) <= Refs(Obj(base)) + SafeRefs(value)
    decreases value
  {
    if value.Obj? {
      var merged := MergeValue(base, value);
      forall o | o in SafeRefs(value)
        ensures o in Refs(merged)
      {
        var k :| k in SafeKeys(value.props) && o in SafeRefs(value.props[k]);
        MergeShares(BaseOf(base, k), value.props[k]);
        assert o in Refs(merged.props[k]);
      }
      forall o | o in Refs(merged)
        ensures o in Refs(Obj(base)) + SafeRefs(value)
      {
        var k :| k in merged.props && o in Refs(merged.props[k]);
        if k in SafeKeys(value.props) {
          MergeShares(BaseOf(base, k), value.props[k]);
          assert o in Refs(Obj(BaseOf(base, k))) ==> o in Refs(Obj(base)) by {
            if k in base && base[k].Obj? {
              assert Refs(Obj(BaseOf(base, k))) == Refs(base[k]);
            }
          }
        }
      }
    }
  }

  // ---------- Idempotence ----------

  lemma {:induction false} MergeIdempotent(target: Props, source: Json)
    requires source.Obj?
    ensures Merge(Merge(target, source.props), source.props) == Merge(target, source.props)
    decreases source
  {
    var once := Merge(target, source.props);
    var twice := Merge(once, source.props);
    forall k | k in once
      ensures twice[k] == once[k]
    {
      MergeAt(target, source.props, k);
      MergeAt(once, source.props, k);
      if k in SafeKeys(source.props) && source.props[k].Obj? {
        MergeIdempotent(BaseOf(target, k), source.props[k]);
        assert BaseOf(once, k) == Merge(BaseOf(target, k), source.props[k].props);
      }
    }
    assert twice.Keys == once.Keys;
    assert twice == once;
  }

  // ---------- Associativity, exactly ----------

  /** Merging `c` into `a` leaves no trace of `a`: every property of `a` is overwritten. */
  predicate Overwritten(a: Props, c: Json)
    requires c.Obj?
    decreases c
  {
    && a.Keys <= SafeKeys(c.props)
    && forall k | k in a :: c.props[k].Obj? && a[k].Obj? ==> Overwritten(a[k].props, c.props[k])
  }

  /**
   Where `c` has an object over a non-object of `b`, whatever object `a` has there is
   overwritten by `c` anyway.
   */
  predicate CompatibleAt(a: Props, b: Props, c: Json, k: string)
    requires c.Obj?
    decreases c, 0
  {
    k in SafeKeys(b) && k in SafeKeys(c.props) && c.props[k].Obj? ==>
      if b[k].Obj? then Compatible(BaseOf(a, k), b[k].props, c.props[k])
      else Overwritten(BaseOf(a, k), c.props[k])
  }

  predicate Compatible(a: Props, b: Props, c: Json)
    requires c.Obj?
    decreases c, 1
  {
    forall k | k in SafeKeys(c.props) :: CompatibleAt(a, b, c, k)
  }

  /** Stripping unsafe keys from a source first makes no difference. */
  lemma {:induction false} CleanSource(a: Props, c: Json)
    requires c.Obj?
    ensures Merge(a, Merge(map[], c.props)) == Merge(a, c.props)
    decreases c
  {
    var clean := Merge(map[], c.props);
    var left, right := Merge(a, clean), Merge(a, c.props);
    forall k | k in SafeKeys(c.props)
      ensures MergeValue(BaseOf(a, k), clean[k]) == MergeValue(BaseOf(a, k), c.props[k])
    {
      MergeAt(map[], c.props, k);
      if c.props[k].Obj? {
        CleanSource(BaseOf(a, k), c.props[k]);
        assert clean[k] == Obj(Merge(map[], c.props[k].props));
      }
    }
    assert SafeKeys(clean) == SafeKeys(c.props);
    assert left == right;
  }

  lemma {:induction false} OverwrittenIff(a: Props, c: Json)
    requires c.Obj?
    ensures Overwritten(a, c) <==> Merge(a, c.props) == Merge(map[], c.props)
    decreases c
  {
    var left, right := Merge(a, c.props), Merge(map[], c.props);
    forall k | k in SafeKeys(c.props)
      ensures left[k] == right[k] <==>
              (k in a && c.props[k].Obj? && a[k].Obj? ==> Overwritten(a[k].props, c.props[k]))
    {
      MergeAt(a, c.props, k);
      MergeAt(map[], c.props, k);
      if c.props[k].Obj? {
        OverwrittenIff(BaseOf(a, k), c.props[k]);
      }
    }
    assert right.Keys == SafeKeys(c.props) && left.Keys == a.Keys + SafeKeys(c.props);
    if Overwritten(a, c) {
      assert left == right;
    }
    if left == right {
      assert forall k :: k in a ==> k in right;
    }
  }

  /** Both ways of merging three objects, at one key that the last one sets. */
  lemma BothWaysAt(a: Props, b: Props, c: Json, k: string)
    requires c.Obj? && k in SafeKeys(c.props)
    requires k in SafeKeys(b) && b[k].Obj? && c.props[k].Obj? ==>
               (Associates(BaseOf(a, k), b[k].props, c.props[k].props) <==> Compatible(BaseOf(a, k), b[k].props, c.props[k]))
    ensures k in Merge(Merge(a, b), c.props) && k in Merge(a, Merge(b, c.props))
    ensures Merge(Merge(a, b), c.props)[k] == Merge(a, Merge(b, c.props))[k] <==> CompatibleAt(a, b, c, k)
  {
    var ab, bc := Merge(a, b), Merge(b, c.props);
    MergeAt(a, b, k);
    MergeAt(b, c.props, k);
    MergeAt(ab, c.props, k);
    MergeAt(a, bc, k);
    if c.props[k].Obj? {
      var ck := c.props[k];
      if k !in SafeKeys(b) {
        assert BaseOf(b, k) == map[];
        CleanSource(BaseOf(a, k), ck);
      } else if !b[k].Obj? {
        CleanSource(BaseOf(a, k), ck);
        OverwrittenIff(BaseOf(a, k), ck);
      }
    }
  }

  ghost predicate Associates(a: Props, b: Props, c: Props) {
    Merge(Merge(a, b), c) == Merge(a, Merge(b, c))
  }

  /** Where the last object sets nothing, both ways agree. */
  lemma BothWaysElsewhere(a: Props, b: Props, c: Props, k: string)
    requires k !in SafeKeys(c)
    ensures k in Merge(Merge(a, b), c) <==> k in Merge(a, Merge(b, c))
    ensures k in Merge(Merge(a, b), c) ==> Merge(Merge(a, b), c)[k] == Merge(a, Merge(b, c))[k]
  {
    MergeAt(a, b, k);
    MergeAt(b, c, k);
    MergeAt(Merge(a, b), c, k);
    MergeAt(a, Merge(b, c), k);
  }

  lemma AssociatesByKey(a: Props, b: Props, c: Json)
    requires c.Obj?
    requires forall k :: k in SafeKeys(c.props) ==>
               k in Merge(Merge(a, b), c.props) && k in Merge(a, Merge(b, c.props))
    requires forall k :: k in SafeKeys(c.props) ==>
               (Merge(Merge(a, b), c.props)[k] == Merge(a, Merge(b, c.props))[k] <==> CompatibleAt(a, b, c, k))
    ensures Associates(a, b, c.props) <==> Compatible(a, b, c)
  {
    var left, right := Merge(Merge(a, b), c.props), Merge(a, Merge(b, c.props));
    forall k | k !in SafeKeys(c.props)
      ensures k in left <==> k in right
      ensures k in left ==> left[k] == right[k]
    {
      BothWaysElsewhere(a, b, c.props, k);
    }
    assert left.Keys == right.Keys;
    if Compatible(a, b, c) {
      assert forall k :: k in left ==> left[k] == right[k];
    }
  }

  /** Merging three objects is associative exactly when their shapes are compatible. */
  lemma {:induction false} AssociativeIff(a: Props, b: Props, c: Json)
    requires c.Obj?
    ensures Associates(a, b, c.props) <==> Compatible(a, b, c)
    decreases c
  {
    forall k | k in SafeKeys(c.props)
      ensures k in Merge(Merge(a, b), c.props) && k in Merge(a, Merge(b, c.props))
      ensures Merge(Merge(a, b), c.props)[k] == Merge(a, Merge(b, c.props))[k] <==> CompatibleAt(a, b, c, k)
    {
      if k in SafeKeys(b) && b[k].Obj? && c.props[k].Obj? {
        AssociativeIff(BaseOf(a, k), b[k].props, c.props[k]);
      }
      BothWaysAt(a, b, c, k);
    }
    AssociatesByKey(a, b, c);
  }

  /** Associativity fails when a scalar in the middle hides an object. */
  lemma NotAssociative(x: Identity, y: Identity)
    ensures var a := map["k" := Obj(map["x" := Leaf(x)])];
            var b := map["k" := Leaf(Primitive(5))];
            var c := map["k" := Obj(map["y" := Leaf(y)])];
            !Associates(a, b, c)
  {
    var a := map["k" := Obj(map["x" := Leaf(x)])];
    var b := map["k" := Leaf(Primitive(5))];
    var c := Obj(map["k" := Obj(map["y" := Leaf(y)])]);
    assert "k" in SafeKeys(b) && "k" in SafeKeys(c.props);
    assert "x" in BaseOf(a, "k") && "x" !in c.props["k"].props;
    assert !Overwritten(BaseOf(a, "k"), c.props["k"]);
    assert !CompatibleAt(a, b, c, "k");
    AssociativeIff(a, b, c);
  }
}
