/**
 * The attribute store of a record (`Model`): the original and the current
 * attributes, dirty tracking between them, the mass-assignment guard, and the
 * merge of cached cast values back into the current attributes.
 */
module Models {
  import opened Wrappers
  import opened Objects
  import opened Specifiers

  /**
   * What a cached cast value flattens back to: given the key's parsed cast
   * specifier (None when it has none), the key, the cached value and the
   * current attributes, the raw properties to overlay onto the attributes.
   * It stands for constructing the caster the specifier names and calling its
   * reverse conversion; that dispatch is not part of this model.
   */
  type CastWriter = (Option<CastSpec>, Key, Value, Object) -> Object

  /** A writer whose patch does not depend on the current attributes. */
  ghost predicate IgnoresAttributes(writer: CastWriter)
  {
    forall spec, key, value, attributes :: writer(spec, key, value, attributes) == writer(spec, key, value, Empty)
  }

  // ---------------------------------------------------------------------------
  // Cast resolution and the merge of cached cast values

  /**
   * The string part of `resolveCasterClass`: the key's specifier parsed into
   * its type and options, or None when the key has no specifier or an empty
   * one (a falsy value is not parsed).
   */
  function ResolveCasterClass(casts: map<Key, string>, key: Key): (r: Option<CastSpec>)
    ensures r.Some? <==> key in casts && casts[key] != ""
    ensures r.Some? ==> r.value == ParseSpecifier(casts[key])
  {
    if key in casts && casts[key] != "" then Some(ParseSpecifier(casts[key])) else None
  }

  /**
   * For each cached entry in order, overlays (object spread) the writer's patch
   * onto the attributes as they stand after the previous entries.
   */
  function MergeCache(attributes: Object, cache: seq<Entry>, casts: map<Key, string>, writer: CastWriter): Object
    decreases |cache|
  {
    if cache == [] then attributes
    else
      var before := MergeCache(attributes, cache[..|cache| - 1], casts, writer);
      var key := cache[|cache| - 1].0;
      Spread(before, writer(ResolveCasterClass(casts, key), key, cache[|cache| - 1].1, before))
  }

  lemma MergeCacheStep(attributes: Object, cache: seq<Entry>, casts: map<Key, string>, writer: CastWriter, i: nat,
                        before: Object)
    requires i < |cache| && before == MergeCache(attributes, cache[..i], casts, writer)
    ensures MergeCache(attributes, cache[..i + 1], casts, writer)
              == Spread(before, writer(ResolveCasterClass(casts, cache[i].0), cache[i].0, cache[i].1, before))
  {
    assert cache[..i + 1][..i] == cache[..i];
  }

  lemma MergeCacheAll(attributes: Object, cache: seq<Entry>, casts: map<Key, string>, writer: CastWriter, i: int)
    requires i == |cache|
    ensures MergeCache(attributes, cache[..i], casts, writer) == MergeCache(attributes, cache, casts, writer)
  {
    assert cache[..i] == cache;
  }

  /** All the patches of a writer that ignores the attributes, later ones winning. */
  function Patches(cache: seq<Entry>, casts: map<Key, string>, writer: CastWriter): map<Key, Value>
    decreases |cache|
  {
    if cache == [] then map[]
    else
      var key := cache[|cache| - 1].0;
      Patches(cache[..|cache| - 1], casts, writer)
        + writer(ResolveCasterClass(casts, key), key, cache[|cache| - 1].1, Empty).vals
  }

  /** Merging with a writer that ignores the attributes overlays the union of its patches. */
  lemma {:induction false} MergeCacheVals(attributes: Object, cache: seq<Entry>, casts: map<Key, string>, writer: CastWriter)
    requires IgnoresAttributes(writer)
    ensures MergeCache(attributes, cache, casts, writer).vals == attributes.vals + Patches(cache, casts, writer)
    decreases |cache|
  {
    if cache != [] {
      var init := cache[..|cache| - 1];
      var key := cache[|cache| - 1].0;
      var before := MergeCache(attributes, init, casts, writer);
      var patch := writer(ResolveCasterClass(casts, key), key, cache[|cache| - 1].1, before);
      MergeCacheVals(attributes, init, casts, writer);
      SpreadSpec(before, patch);
      assert patch == writer(ResolveCasterClass(casts, key), key, cache[|cache| - 1].1, Empty);
      UnionAssoc(attributes.vals, Patches(init, casts, writer), patch.vals);
    }
  }

  /** When every patched key is already present, merging does not change the enumeration order. */
  lemma {:induction false} MergeCacheKeys(attributes: Object, cache: seq<Entry>, casts: map<Key, string>, writer: CastWriter)
    requires IgnoresAttributes(writer)
    requires Patches(cache, casts, writer).Keys <= attributes.vals.Keys
    ensures MergeCache(attributes, cache, casts, writer).keys == attributes.keys
    decreases |cache|
  {
    if cache != [] {
      var init := cache[..|cache| - 1];
      var key := cache[|cache| - 1].0;
      var before := MergeCache(attributes, init, casts, writer);
      var patch := writer(ResolveCasterClass(casts, key), key, cache[|cache| - 1].1, before);
      MergeCacheKeys(attributes, init, casts, writer);
      MergeCacheVals(attributes, init, casts, writer);
      SpreadSpec(before, patch);
      OmitPresent(patch.keys, before.vals.Keys);
    }
  }

  /**
   * Merging the factory-cast cache and then the attribute-cast cache, with
   * writers that ignore the attributes, is idempotent: a second merge with no
   * change to the caches leaves the attributes as the first one left them.
   */
  lemma MergeIdempotent(attributes: Object, classCache: seq<Entry>, attributeCache: seq<Entry>,
                        casts: map<Key, string>, classWriter: CastWriter, attributeWriter: CastWriter)
    requires IgnoresAttributes(classWriter) && IgnoresAttributes(attributeWriter)
    ensures var once := MergeCache(MergeCache(attributes, classCache, casts, classWriter), attributeCache, casts, attributeWriter);
            MergeCache(MergeCache(once, classCache, casts, classWriter), attributeCache, casts, attributeWriter) == once
  {
    var p1 := Patches(classCache, casts, classWriter);
    var p2 := Patches(attributeCache, casts, attributeWriter);
    var mid := MergeCache(attributes, classCache, casts, classWriter);
    var once := MergeCache(mid, attributeCache, casts, attributeWriter);
    var mid2 := MergeCache(once, classCache, casts, classWriter);
    var twice := MergeCache(mid2, attributeCache, casts, attributeWriter);
    MergeCacheVals(attributes, classCache, casts, classWriter);
    MergeCacheVals(mid, attributeCache, casts, attributeWriter);
    MergeCacheVals(once, classCache, casts, classWriter);
    MergeCacheVals(mid2, attributeCache, casts, attributeWriter);
    assert p1.Keys <= once.vals.Keys;
    MergeCacheKeys(once, classCache, casts, classWriter);
    assert p2.Keys <= mid2.vals.Keys;
    MergeCacheKeys(mid2, attributeCache, casts, attributeWriter);
    UnionAbsorb(attributes.vals, p1, p2);
  }

  // ---------------------------------------------------------------------------
  // Dirty tracking

  /**
   * `originalIsEquivalent`: a key the original lacks counts as changed;
   * otherwise the current value must be strictly equal to the original one.
   */
  function OriginalIsEquivalent(original: Object, attributes: Object, key: Key): (r: bool)
    ensures r <==> key in original.vals && Lookup(attributes, key) == original.vals[key]
  {
    if key !in original.vals then false
    else
      var attribute := Lookup(attributes, key);
      var originalValue := original.vals[key];
      if attribute == originalValue then true
      else if attribute == Undefined || attribute == Null then false
      else false
  }

  /** The entries among `es` whose key is not equivalent to the original, in their order. */
  function DirtyAmong(original: Object, attributes: Object, es: seq<Entry>): (r: seq<Entry>)
    ensures forall e :: e in r <==> e in es && !OriginalIsEquivalent(original, attributes, e.0)
    decreases |es|
  {
    if es == [] then []
    else
      var init := DirtyAmong(original, attributes, es[..|es| - 1]);
      if OriginalIsEquivalent(original, attributes, es[|es| - 1].0) then init else init + [es[|es| - 1]]
  }

  lemma DirtyAmongSnoc(original: Object, attributes: Object, es: seq<Entry>, i: nat)
    requires i < |es|
    ensures DirtyAmong(original, attributes, es[..i + 1]) ==
      if OriginalIsEquivalent(original, attributes, es[i].0) then DirtyAmong(original, attributes, es[..i])
      else DirtyAmong(original, attributes, es[..i]) + [es[i]]
  {
    assert es[..i + 1][..i] == es[..i];
  }

  lemma DirtyAmongAll(original: Object, attributes: Object, es: seq<Entry>, i: int)
    requires i == |es|
    ensures DirtyAmong(original, attributes, es[..i]) == DirtyAmong(original, attributes, es)
  {
    assert es[..i] == es;
  }

  /** What `getDirty` returns once the attributes are merged. */
  function Dirty(original: Object, attributes: Object): seq<Entry>
  {
    DirtyAmong(original, attributes, Entries(attributes))
  }

  /** The current keys whose value is strictly equal to the original one. */
  function Unchanged(original: Object, attributes: Object): set<Key>
  {
    set k | k in attributes.vals && k in original.vals && attributes.vals[k] == original.vals[k]
  }

  lemma {:induction false} DirtyAmongKeys(original: Object, attributes: Object, ks: seq<Key>)
    requires forall k | k in ks :: k in attributes.vals
    ensures KeysOf(DirtyAmong(original, attributes, Pick(attributes, ks))) == Omit(ks, Unchanged(original, attributes))
    decreases |ks|
  {
    if ks != [] {
      var init := ks[..|ks| - 1];
      assert Pick(attributes, ks)[..|ks| - 1] == Pick(attributes, init);
      DirtyAmongKeys(original, attributes, init);
    }
  }

  /**
   * `getDirty` lists exactly the current attributes that are not equivalent to
   * the original, each with its current value, in the attributes' enumeration
   * order; so a key the original lacks is always listed.
   */
  lemma DirtySpec(original: Object, attributes: Object)
    ensures forall k, v :: (k, v) in Dirty(original, attributes) <==>
      && k in attributes.vals && v == attributes.vals[k]
      && !(k in original.vals && attributes.vals[k] == original.vals[k])
    ensures KeysOf(Dirty(original, attributes)) == Omit(attributes.keys, Unchanged(original, attributes))
  {
    DirtyAmongKeys(original, attributes, attributes.keys);
    EntriesMembers(attributes);
  }

  /** Nothing is dirty when the original equals the current attributes. */
  lemma SyncedIsClean(attributes: Object)
    ensures Dirty(attributes, attributes) == []
  {
    DirtySpec(attributes, attributes);
    OmitPresent(attributes.keys, Unchanged(attributes, attributes));
  }

  // ---------------------------------------------------------------------------
  // The mass-assignment guard

  /**
   * `getFillableAttributes`: with a non-empty `fillable` set and the guard on,
   * the input's entries whose key is fillable; otherwise all of them. Either
   * way in the input's enumeration order.
   */
  function FillableAttributes(fillable: set<Key>, unguarded: bool, input: Object): (r: seq<Entry>)
    ensures |r| <= |input.keys|
    ensures |fillable| == 0 || unguarded ==> r == Entries(input)
  {
    if |fillable| > 0 && !unguarded then SelectEntries(Entries(input), fillable) else Entries(input)
  }

  /**
   * The fillable attributes are exactly the input's properties, restricted to
   * `fillable` when the guard applies, in the input's order.
   */
  lemma FillableAttributesSpec(fillable: set<Key>, unguarded: bool, input: Object)
    ensures var es := FillableAttributes(fillable, unguarded, input);
      && (forall e :: e in es <==>
            e.0 in input.vals && e.1 == input.vals[e.0] && (|fillable| > 0 && !unguarded ==> e.0 in fillable))
      && KeysOf(es) == if |fillable| > 0 && !unguarded then Select(input.keys, fillable) else input.keys
  {
    PickMembers(input, input.keys);
    EntriesSpec(input);
    SelectEntriesKeys(Entries(input), fillable);
  }

  /** The properties of `input` whose key is fillable. */
  function FillableInput(input: Object, fillable: set<Key>): map<Key, Value>
  {
    map k | k in input.vals && k in fillable :: input.vals[k]
  }

  /** The attributes after `fill`: each fillable entry of the input that passes the check again, assigned in order. */
  function Filled(attributes: Object, fillable: set<Key>, unguarded: bool, input: Object): Object
  {
    Assign(attributes, SelectEntries(FillableAttributes(fillable, unguarded, input), fillable))
  }

  /**
   * What `fill` assigns: the input's values for exactly the keys that are both
   * in the input and in `fillable`, whatever `unguarded` is, new keys being
   * enumerated after the existing ones in the input's order.
   */
  lemma FillAssigns(attributes: Object, fillable: set<Key>, unguarded: bool, input: Object)
    ensures var after := Filled(attributes, fillable, unguarded, input);
      && after.vals == attributes.vals + FillableInput(input, fillable)
      && after.keys == attributes.keys + Omit(Select(input.keys, fillable), attributes.vals.Keys)
  {
    var es := SelectEntries(FillableAttributes(fillable, unguarded, input), fillable);
    if |fillable| > 0 && !unguarded {
      SelectEntriesTwice(Entries(input), fillable);
    }
    assert es == SelectEntries(Entries(input), fillable);
    AssignVals(attributes, es);
    SelectEntriesMap(Entries(input), fillable);
    EntriesMap(input);
    EntriesSpec(input);
    SelectEntriesKeys(Entries(input), fillable);
    SelectDistinct(input.keys, fillable);
    AssignKeys(attributes, es);
  }

  /** With an empty `fillable` set, `fill` assigns nothing at all, guarded or not. */
  lemma EmptyFillableAssignsNothing(attributes: Object, unguarded: bool, input: Object)
    ensures Filled(attributes, {}, unguarded, input) == attributes
  {
  }

  // ---------------------------------------------------------------------------
  // Syncing the original

  /**
   * Copying the named current values into the original sets exactly those
   * keys (an absent current value is copied as `undefined`) and leaves every
   * other property of the original, and its enumeration order, as it was.
   */
  lemma SyncAttributesSpec(original: Object, attributes: Object, ks: seq<Key>)
    ensures var after := Assign(original, Pick(attributes, ks));
      && (forall k | k in ks :: k in after.vals && after.vals[k] == Lookup(attributes, k))
      && (forall k | k !in ks :: (k in after.vals <==> k in original.vals) && Lookup(after, k) == Lookup(original, k))
      && original.keys <= after.keys
  {
    AssignVals(original, Pick(attributes, ks));
    PickMap(attributes, ks);
    AssignExtends(original, Pick(attributes, ks));
  }

  // ---------------------------------------------------------------------------
  // The record

  class Model {
    /** The baseline: the attributes as of the last sync. */
    var original: Object
    /** The current attributes. */
    var attributes: Object
    /** The dirty entries as of the last `SyncChanges`. */
    var changes: seq<Entry>
    /** The keys that may be mass assigned. */
    var fillable: set<Key>
    /** Whether the mass-assignment guard is off. */
    var unguarded: bool
    /** The cast specifier of each key. */
    var casts: map<Key, string>
    /** Values cast through caster classes, waiting to be flattened back. */
    var classCastCache: Object
    /** Values cast through attribute mutators, waiting to be flattened back. */
    var attributeCastCache: Object
    /** How a value of each cache flattens back (see `CastWriter`). */
    const classCastWriter: CastWriter
    const attributeCastWriter: CastWriter

    /**
     * Seeds the original and the current attributes with the same value.
     * The other parameters are what a subclass declares; the base class's own
     * defaults are an empty `fillable` set, the guard on, no casts and empty caches.
     */
    constructor(attributes: Object, fillable: set<Key>, unguarded: bool, casts: map<Key, string>,
                classCastCache: Object, attributeCastCache: Object,
                classCastWriter: CastWriter, attributeCastWriter: CastWriter)
      ensures this.original == attributes && this.attributes == attributes && changes == []
      ensures this.fillable == fillable && this.unguarded == unguarded && this.casts == casts
      ensures this.classCastCache == classCastCache && this.attributeCastCache == attributeCastCache
      ensures this.classCastWriter == classCastWriter && this.attributeCastWriter == attributeCastWriter
    {
      this.original := attributes;
      this.attributes := attributes;
      this.changes := [];
      this.fillable := fillable;
      this.unguarded := unguarded;
      this.casts := casts;
      this.classCastCache := classCastCache;
      this.attributeCastCache := attributeCastCache;
      this.classCastWriter := classCastWriter;
      this.attributeCastWriter := attributeCastWriter;
    }

    /** The attributes `a` once both caches are merged into them. */
    function Merged(a: Object): Object
      reads this`casts, this`classCastCache, this`attributeCastCache
    {
      MergeCache(MergeCache(a, Entries(classCastCache), casts, classCastWriter),
                 Entries(attributeCastCache), casts, attributeCastWriter)
    }

    /** Flattens every entry of `cache` back into the attributes, one entry after the other. */
    method MergeCachedCasts(cache: Object, writer: CastWriter)
      modifies this`attributes
      ensures attributes == MergeCache(old(attributes), Entries(cache), casts, writer)
    {
      var entries := Entries(cache);
      ghost var start, specs := attributes, casts;
      for i := 0 to |entries|
        invariant casts == specs
        invariant attributes == MergeCache(start, entries[..i], specs, writer)
      {
        var key, value := entries[i].0, entries[i].1;
        var caster := ResolveCasterClass(casts, key);
        MergeCacheStep(start, entries, specs, writer, i, attributes);
        attributes := Spread(attributes, writer(caster, key, value, attributes));
      }
      MergeCacheAll(start, entries, specs, writer, |entries|);
    }

    method MergeAttributesFromClassCasts()
      modifies this`attributes
      ensures attributes == MergeCache(old(attributes), Entries(classCastCache), casts, classCastWriter)
    {
      MergeCachedCasts(classCastCache, classCastWriter);
    }

    method MergeAttributesFromAttributeCasts()
      modifies this`attributes
      ensures attributes == MergeCache(old(attributes), Entries(attributeCastCache), casts, attributeCastWriter)
    {
      MergeCachedCasts(attributeCastCache, attributeCastWriter);
    }

    /** Factory casts first, then attribute casts. */
    method MergeAttributesFromCachedCasts()
      modifies this`attributes
      ensures attributes == Merged(old(attributes))
    {
      MergeAttributesFromClassCasts();
      MergeAttributesFromAttributeCasts();
    }

    method GetAttributes() returns (current: Object)
      modifies this`attributes
      ensures attributes == Merged(old(attributes)) && current == attributes
    {
      MergeAttributesFromCachedCasts();
      current := attributes;
    }

    /** The merged attributes become the new baseline. */
    method SyncOriginal()
      modifies this`attributes, this`original
      ensures attributes == Merged(old(attributes))
      ensures original == attributes
    {
      var current := GetAttributes();
      original := current;
    }

    method SyncOriginalAttribute(key: Key)
      modifies this`attributes, this`original
      ensures attributes == Merged(old(attributes))
      ensures key in original.vals && original.vals[key] == Lookup(attributes, key)
      ensures forall k | k != key :: (k in original.vals <==> k in old(original).vals)
                                     && Lookup(original, k) == Lookup(old(original), k)
    {
      SyncOriginalAttributes([key]);
      SyncAttributesSpec(old(original), attributes, [key]);
    }

    /** Merges the caches, then copies the named merged values into the original, one key after the other. */
    method SyncOriginalAttributes(keys: seq<Key>)
      modifies this`attributes, this`original
      ensures attributes == Merged(old(attributes))
      ensures original == Assign(old(original), Pick(attributes, keys))
    {
      var modelAttributes := GetAttributes();
      ghost var start := original;
      ghost var picks := Pick(modelAttributes, keys);
      for i := 0 to |keys|
        invariant attributes == modelAttributes
        invariant original == Assign(start, picks[..i])
      {
        AssignSnoc(start, picks, i);
        original := Set(original, keys[i], Lookup(modelAttributes, keys[i]));
      }
      AssignAll(start, picks, |keys|);
    }

    /** Stores the current dirty entries; the stored value does not follow later edits. */
    method SyncChanges()
      modifies this`attributes, this`changes
      ensures attributes == Merged(old(attributes))
      ensures changes == Dirty(original, attributes)
    {
      changes := GetDirty();
    }

    /** `isFillable`: membership in `fillable`, whatever `unguarded` is. */
    predicate IsFillable(key: Key)
      reads this
      ensures IsFillable(key) <==> key in fillable
    {
      key in fillable
    }

    /**
     * Assigns each fillable entry of `input`; since every key is checked
     * against `fillable` again, only keys in `fillable` are ever assigned.
     */
    method Fill(input: Object)
      modifies this`attributes
      ensures attributes == Filled(old(attributes), old(fillable), old(unguarded), input)
    {
      var fillableAttributes := FillableAttributes(fillable, unguarded, input);
      ghost var start, allowed := attributes, fillable;
      for i := 0 to |fillableAttributes|
        invariant fillable == allowed
        invariant attributes == Assign(start, SelectEntries(fillableAttributes[..i], allowed))
      {
        var key, value := fillableAttributes[i].0, fillableAttributes[i].1;
        AssignSelectSnoc(start, fillableAttributes, allowed, i);
        if IsFillable(key) {
          attributes := Set(attributes, key, value);
        }
      }
      SelectEntriesAll(fillableAttributes, allowed, |fillableAttributes|);
    }

    /** Merges the caches, then collects the entries that differ from the original, in order. */
    method GetDirty() returns (dirty: seq<Entry>)
      modifies this`attributes
      ensures attributes == Merged(old(attributes))
      ensures dirty == Dirty(original, attributes)
    {
      dirty := [];
      var current := GetAttributes();
      var entries := Entries(current);
      for i := 0 to |entries|
        invariant attributes == current
        invariant dirty == DirtyAmong(original, current, entries[..i])
      {
        var key, value := entries[i].0, entries[i].1;
        DirtyAmongSnoc(original, current, entries, i);
        if !OriginalIsEquivalent(original, attributes, key) {
          dirty := dirty + [(key, value)];
        }
      }
      DirtyAmongAll(original, current, entries, |entries|);
    }
  }

  // ---------------------------------------------------------------------------
  // Clients

  /**
   * After `SyncOriginal`, `GetDirty` finds nothing, when both cast caches are
   * empty or the cast writers ignore the attributes.
   */
  method SyncOriginalThenGetDirty(m: Model) returns (dirty: seq<Entry>)
    requires (m.classCastCache == Empty && m.attributeCastCache == Empty)
          || (IgnoresAttributes(m.classCastWriter) && IgnoresAttributes(m.attributeCastWriter))
    modifies m
    ensures dirty == []
  {
    if m.classCastCache == Empty && m.attributeCastCache == Empty {
      m.SyncOriginal();
      dirty := m.GetDirty();
      SyncedIsClean(m.original);
    } else {
      m.SyncOriginal();
      MergeIdempotent(old(m.attributes), Entries(m.classCastCache), Entries(m.attributeCastCache),
                      m.casts, m.classCastWriter, m.attributeCastWriter);
      dirty := m.GetDirty();
      SyncedIsClean(m.original);
    }
  }

  /** The stored changes are a snapshot: later fills and syncs of the original leave them alone. */
  method ChangesAreASnapshot(m: Model, input: Object) returns (snapshot: seq<Entry>)
    modifies m
    ensures snapshot == m.changes
  {
    m.SyncChanges();
    snapshot := m.changes;
    m.Fill(input);
    m.SyncOriginal();
  }
}
