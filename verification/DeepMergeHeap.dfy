/** The deep merge as it runs: objects with identity, updated in place. */
module DeepMergeHeap {
  import opened DeepMerge

  class JsArray {
    var items: seq<Identity>

    constructor (items: seq<Identity>)
      ensures this.items == items
    {
      this.items := items;
    }
  }

  /** A property: a primitive or a reference, an array, or a plain object. */
  datatype JsValue = LeafValue(id: Identity) | ArrayRef(arr: JsArray) | ObjectRef(obj: JsObject)

  /**
   * A plain object of an acyclic structure; `repr` holds the plain objects it consists of and the
   * arrays in them. What the arrays hold, or the properties by reference, is not part of it.
   */
  class JsObject {
    var props: map<string, JsValue>
    ghost var repr: set<object>

    ghost predicate Valid()
      reads this, repr
      decreases repr
    {
      && this in repr
      && (forall k :: k in props && props[k].ArrayRef? ==> props[k].arr in repr)
      && (forall k :: k in props && props[k].ObjectRef? ==>
            && props[k].obj in repr && props[k].obj.repr < repr && this !in props[k].obj.repr
            && props[k].obj.Valid())
    }

    /** The value the structure stands for. */
    ghost function Value(): Props
      requires Valid()
      reads this, repr
      decreases repr
    {
      map k | k in props ::
        if props[k].LeafValue? then Leaf(props[k].id)
        else if props[k].ArrayRef? then Arr(props[k].arr.items)
        else Obj(props[k].obj.Value())
    }

    /** The structure, and every object it holds by reference. */
    ghost function Reached(): set<object>
      requires Valid()
      reads this, repr
    {
      repr + Refs(Obj(Value()))
    }

    constructor Empty()
      ensures Valid() && repr == {this} && Value() == map[]
    {
      props, repr := map[], {this};
    }

    /** `{ ...original }`: a new object that shares the children of the original. */
    constructor SpreadOf(original: JsObject)
      requires original.Valid()
      ensures Valid() && repr == original.repr + {this}
      ensures Value() == original.Value()
    {
      props, repr := original.props, original.repr + {this};
    }

    method AssignLeaf(key: string, id: Identity)
      requires Valid()
      modifies this
      ensures Valid() && repr == old(repr)
      ensures Value() == old(Value())[key := Leaf(id)]
    {
      props := props[key := LeafValue(id)];
    }

    method AssignArray(key: string, a: JsArray)
      requires Valid()
      modifies this
      ensures Valid() && repr == old(repr) + {a}
      ensures Value() == old(Value())[key := Arr(a.items)]
    {
      props := props[key := ArrayRef(a)];
      repr := repr + {a};
    }

    /** The assigned object must not reach this one. */
    method AssignObject(key: string, o: JsObject)
      requires Valid() && o.Valid() && this !in o.repr
      modifies this
      ensures Valid() && repr == old(repr) + o.repr
      ensures Value() == old(Value())[key := Obj(o.Value())]
    {
      props := props[key := ObjectRef(o)];
      repr := repr + o.repr;
    }

    /**
     `merge(this, source)`. Only this object changes. Every object and array of the structure that
     it did not have before is new; what the source holds by reference below safe keys, in arrays
     or as a property, is shared, and nothing else of the source is.
     */
    method MergeFrom(source: JsObject)
      requires Valid() && source.Valid() && this !in source.repr
      modifies this
      ensures Valid() && fresh(repr - old(repr))
      ensures source.Valid() && source.Value() == old(source.Value())
      ensures Value() == Merge(old(Value()), source.Value())
      ensures SafeRefs(Obj(source.Value())) <= Reached()
      ensures fresh(Reached() - old(Reached()) - SafeRefs(Obj(source.Value())))
      decreases source.repr, 1
    {
      ghost var target, done := Value(), {};
      var keys := source.props.Keys;
      while keys != {}
        invariant keys <= source.props.Keys && done == source.props.Keys - keys
        invariant Valid() && fresh(repr - old(repr))
        invariant source.Valid() && source.Value() == old(source.Value())
        invariant Value() == Merge(target, Restrict(source.Value(), done))
        decreases keys
      {
        var key :| key in keys;
        keys := keys - {key};
        RestrictStep(target, source.Value(), done, key);
        done := done + {key};
        if Safe(key) {
          MergeKey(source, key);
        }
      }
      assert Restrict(source.Value(), done) == source.Value();
      MergeShares(target, Obj(source.Value()));
    }

    /** One turn of the key loop, for a safe key. */
    method MergeKey(source: JsObject, key: string)
      requires Valid() && source.Valid() && this !in source.repr && key in source.props
      modifies this
      ensures Valid() && fresh(repr - old(repr))
      ensures Value() == old(Value())[key := MergeValue(BaseOf(old(Value()), key), old(source.Value()[key]))]
      decreases source.repr, 0
    {
      var value := source.props[key];
      if value.ArrayRef? {
        var copy := new JsArray(value.arr.items);
        AssignArray(key, copy);
      } else if value.ObjectRef? {
        var copy := MergedChild(key, value.obj);
        AssignObject(key, copy);
      } else {
        AssignLeaf(key, value.id);
      }
    }

    /**
     * Merges a source object into a copy of the property's object, or into a new one. The copy
     * consists of new objects and of objects below this one, never of the source's.
     */
    method MergedChild(key: string, source: JsObject) returns (copy: JsObject)
      requires Valid() && source.Valid() && this !in source.repr
      ensures copy.Valid() && this !in copy.repr && fresh(copy) && fresh(copy.repr - repr)
      ensures copy.Value() == Merge(BaseOf(Value(), key), source.Value())
      decreases source.repr, 2
    {
      copy := ChildCopy(key);
      copy.MergeFrom(source);
    }

    /** `{ ...tgtVal }` where the property is a plain object, and `{}` where it is not. */
    method ChildCopy(key: string) returns (copy: JsObject)
      requires Valid()
      ensures fresh(copy) && copy.Valid() && copy.repr <= repr + {copy} && this !in copy.repr
      ensures copy.Value() == BaseOf(Value(), key)
    {
      if key in props && props[key].ObjectRef? {
        copy := new JsObject.SpreadOf(props[key].obj);
      } else {
        copy := new JsObject.Empty();
      }
    }
  }

  ghost function Restrict(source: Props, keys: set<string>): Props {
    map k | k in source && k in keys :: source[k]
  }

  lemma RestrictElsewhere(target: Props, source: Props, done: set<string>, key: string, k: string)
    requires key in source && key !in done && (k != key || !Safe(key))
    ensures k in Merge(target, Restrict(source, done + {key})) <==> k in Merge(target, Restrict(source, done))
    ensures k in Merge(target, Restrict(source, done)) ==>
              Merge(target, Restrict(source, done + {key}))[k] == Merge(target, Restrict(source, done))[k]
  {
    var part, more := Restrict(source, done), Restrict(source, done + {key});
    assert k in SafeKeys(part) <==> k in SafeKeys(more);
    assert k in SafeKeys(part) ==> part[k] == more[k];
    MergeAt(target, part, k);
    MergeAt(target, more, k);
  }

  /** Merging one more key of the source is one more assignment. */
  lemma RestrictStep(target: Props, source: Props, done: set<string>, key: string)
    requires key in source && key !in done
    ensures Safe(key) ==>
              var m := Merge(target, Restrict(source, done));
              Merge(target, Restrict(source, done + {key})) == m[key := MergeValue(BaseOf(m, key), source[key])]
    ensures !Safe(key) ==> Merge(target, Restrict(source, done + {key})) == Merge(target, Restrict(source, done))
  {
    var part, more := Restrict(source, done), Restrict(source, done + {key});
    var m, m' := Merge(target, part), Merge(target, more);
    forall k | k != key || !Safe(key)
      ensures k in m' <==> k in m
      ensures k in m ==> m'[k] == m[k]
    {
      RestrictElsewhere(target, source, done, key, k);
    }
    if Safe(key) {
      MergeAt(target, part, key);
      MergeAt(target, more, key);
      assert BaseOf(m, key) == BaseOf(target, key);
      assert m' == m[key := MergeValue(BaseOf(m, key), source[key])];
    } else {
      assert m'.Keys == m.Keys;
    }
  }
}
