/**
 * The collection cast: reading wraps the stored value in a one-element
 * collection, writing turns a value back into a one-property patch that holds
 * its JSON text under the same key.
 */
module AsCollection {
  import opened Objects
  import opened Models

  /** The read-only wrapper that reading a collection-cast attribute produces. */
  datatype Collection = Collection(items: seq<Value>)

  /**
   * `JSON.stringify`, left uninterpreted: a deterministic function of the value
   * alone. Its result is a `Value` because it is `undefined` for some inputs.
   */
  type Stringify = Value -> Value

  /**
   * The caster that `castUsing` returns. It keeps no state, so there is exactly
   * one of it, whatever options `castUsing` received.
   */
  datatype CollectionCaster = CollectionCaster
  {
    /** Reading: the raw value as the sole item of a new collection. */
    function GetAttribute(model: Model, key: Key, value: Value, attributes: Object): (c: Collection)
      ensures |c.items| == 1 && c.items[0] == value
    {
      Collection([value])
    }

    /** Writing: a patch with the one property `key`, holding the serialised value. */
    function SetAttribute(stringify: Stringify, model: Model, key: Key, value: Value, attributes: Object): (patch: Object)
      ensures patch.keys == [key]
      ensures key in patch.vals && patch.vals[key] == stringify(value)
      ensures forall k | k in patch.vals :: k == key
    {
      RawObject([key], map[key := stringify(value)])
    }
  }

  /** `castUsing(...args)`: the options are accepted and ignored. */
  function CastUsing(options: seq<string>): (c: CollectionCaster)
    ensures c == CollectionCaster
  {
    CollectionCaster
  }

  /** The caster reads and writes the same way whatever options it was made with. */
  lemma CastUsingIgnoresOptions(o1: seq<string>, o2: seq<string>, stringify: Stringify, model: Model, key: Key,
                                value: Value, attributes: Object)
    ensures CastUsing(o1).GetAttribute(model, key, value, attributes)
         == CastUsing(o2).GetAttribute(model, key, value, attributes)
    ensures CastUsing(o1).SetAttribute(stringify, model, key, value, attributes)
         == CastUsing(o2).SetAttribute(stringify, model, key, value, attributes)
  {
  }

  /** Neither the model, the key nor the other attributes influence a read or a write. */
  lemma ContextIgnored(c: CollectionCaster, m1: Model, m2: Model, k1: Key, k2: Key, key: Key, value: Value,
                       a1: Object, a2: Object, stringify: Stringify)
    ensures c.GetAttribute(m1, k1, value, a1) == c.GetAttribute(m2, k2, value, a2)
    ensures c.SetAttribute(stringify, m1, key, value, a1)
         == c.SetAttribute(stringify, m2, key, value, a2)
  {
  }

  /**
   * Overlaying a written patch: the key reads back as the serialised value, every
   * other property is left as it was, and the key keeps its place or comes last.
   */
  lemma SetAttributeOverlay(c: CollectionCaster, stringify: Stringify, model: Model, key: Key, value: Value, attributes: Object)
    ensures var after := Spread(attributes, c.SetAttribute(stringify, model, key, value, attributes));
      && Lookup(after, key) == stringify(value)
      && (forall k | k != key :: Lookup(after, k) == Lookup(attributes, k))
      && after.keys == if key in attributes.vals then attributes.keys else attributes.keys + [key]
  {
    SpreadSingle(attributes, key, stringify(value));
    SetKeys(attributes, key, stringify(value));
    SetLookup(attributes, key, stringify(value));
  }

  /** Overlaying the same written patch twice is the same as overlaying it once. */
  lemma SetAttributeIdempotent(c: CollectionCaster, stringify: Stringify, model: Model, key: Key, value: Value, attributes: Object)
    ensures var patch := c.SetAttribute(stringify, model, key, value, attributes);
            Spread(Spread(attributes, patch), patch) == Spread(attributes, patch)
  {
    SpreadIdempotent(attributes, c.SetAttribute(stringify, model, key, value, attributes));
  }

  /** The collection cast's writing as a cache writer for the merge of cached cast values. */
  function Writer(model: Model, stringify: Stringify): CastWriter
  {
    (spec, key, value, attributes) => CastUsing([]).SetAttribute(stringify, model, key, value, attributes)
  }

  /**
   * Merging cached collection values into the attributes a second time changes
   * nothing, whatever writer the other cache uses as long as it ignores the
   * attributes too.
   */
  lemma MergeCollectionsIdempotent(attributes: Object, collectionCache: seq<Entry>, otherCache: seq<Entry>,
                                   casts: map<Key, string>, model: Model, stringify: Stringify, other: CastWriter)
    requires IgnoresAttributes(other)
    ensures var w := Writer(model, stringify);
            var once := MergeCache(MergeCache(attributes, collectionCache, casts, w), otherCache, casts, other);
            MergeCache(MergeCache(once, collectionCache, casts, w), otherCache, casts, other) == once
  {
    var w := Writer(model, stringify);
    assert IgnoresAttributes(w) by {
      forall spec, key, value, a
        ensures w(spec, key, value, a) == w(spec, key, value, Empty)
      {
      }
    }
    MergeIdempotent(attributes, collectionCache, otherCache, casts, w, other);
  }
}
