# Attribute store of an active-record `Model`, in Dafny

This project models the attribute-state engine of the TypeScript `Model` base
class and the collection cast that comes with it:

- **Plain objects** (`objects.dfy`, module `Objects`). An attribute map is a
  JavaScript object: a key order (`keys`) plus the properties (`vals`). The
  subset type `Object` makes them agree: keys are distinct and are exactly the
  domain of the map. On top of that sit `Object.entries` (`Entries`), property
  assignment `o[k] = v` (`Set`: a new key goes last, an existing key keeps its
  place), assignment of an entry list in order (`Assign`) and object spread
  `{...a, ...b}` (`Spread`). Values are `undefined`, `null`, booleans,
  numbers, strings and references; strict equality `===` is datatype
  equality, a reference being equal only to itself.
- **Cast specifiers** (`specifiers.dfy`, module `Specifiers`). These are
  `String.prototype.split` and `join` on one separator character, with their
  round trips, and the parsing of a `"type:opt1,opt2"` specifier that
  `resolveCasterClass` performs (`ParseSpecifier`).
- **The record** (`models.dfy`, module `Models`).
  - The class `Model` has the source's fields: `original`, `attributes`,
    `changes`, `fillable`, `unguarded`, `casts` and the two cast caches. Each
    method updates them in place with a loop where the source has one:
    - `GetDirty` pushes onto a local list;
    - `SyncOriginalAttributes` writes into `original`;
    - `Fill` assigns into `attributes`;
    - the cache merge overlays patches one after the other.
  - Each method's `ensures` ties the new state to a specification function:
    `Merged`, `MergeCache`, `Dirty`, `Filled`, `Assign`/`Pick`.
  - Lemmas prove what those functions mean:
    - exactly which entries are dirty, and in which order;
    - what `fill` assigns;
    - what a partial sync changes;
    - that merging the caches a second time changes nothing.
  - `IsFillable` is the membership test on `fillable` that `Fill` repeats for
    every entry.
- **The collection cast** (`as_collection.dfy`, module `AsCollection`).
  - Reading wraps the value in a one-element `Collection`.
  - Writing returns the one-key patch `{[key]: JSON.stringify(value)}`.
  - `JSON.stringify` is an uninterpreted function parameter (`Stringify`).

`Wrappers` holds the `Option` type.

Where the code does something other than what it evidently intends, the
model follows the code:

- **An empty `fillable` set, and `unguarded`.** `getFillableAttributes`
  returns every entry of the input when `fillable` is empty or `unguarded` is
  set (src/Model.ts:257-263), and the field comment on `unguarded` calls it
  the flag that enables all mass assignment (src/Model.ts:38-43). But `fill`
  then re-checks `isFillable` for each entry (src/Model.ts:189). So only keys
  in `fillable` are ever assigned, whatever `unguarded` is (`FillAssigns`),
  and with an empty set nothing is (`EmptyFillableAssignsNothing`).
- **The constructor** stores one object as both `original` and `attributes`.
  The model holds two equal values, so a later in-place write to one is not
  seen through the other.

## Model

| member | source | states |
|---|---|---|
| Models.ResolveCasterClass | src/Model.ts:112-124 | a key has a parsed specifier exactly when it has a non-empty specifier string, and then it is that string's parse |
| Models.Model.IsFillable | src/Model.ts:203-208 | a key may be mass assigned exactly when it is in `fillable`, whatever `unguarded` is |
| Models.FillableAttributes | src/Model.ts:256-264 | with an empty `fillable` or the guard off, every entry of the input; never more entries than the input has (the exact content is `FillableAttributesSpec`) |
| AsCollection.CastUsing | src/casts/AsCollection.ts:10-11 | whatever the options, the one stateless collection caster |
| Objects.EntriesSpec | src/Model.ts:218 | `Object.entries` lists the object's keys in enumeration order, each paired with its property value |
| Objects.EntriesMembers | src/Model.ts:218 | a pair is among the entries exactly when its key is a property and its value is that property's value |
| Objects.EntriesMap | src/Model.ts:258-263 | rebuilding an object from its entries gives back exactly its properties |
| Objects.SelectEntries | src/Model.ts:258-260 | the `filter` on keys keeps exactly the entries whose key is in the set |
| Objects.SelectEntriesTwice | src/Model.ts:189 | filtering the entries by `fillable` a second time keeps them all |
| Objects.AssignVals | src/Model.ts:188-192 | assigning entries in order leaves the old properties overridden by the entries, a later entry winning |
| Objects.AssignKeys | src/Model.ts:188-192 | assigning entries with distinct keys keeps the old key order and appends the new keys in entry order |
| Objects.SetLookup | src/Model.ts:165 | after `o[k] = v`, `o[k]` reads `v` and every other property reads as before |
| Objects.SpreadSpec | src/Model.ts:103-108 | `{...a, ...b}` has the properties of `a` overridden by those of `b`, and the keys of `a` followed by the keys of `b` that `a` lacks |
| Objects.SpreadSingle | src/Model.ts:103-106 | spreading the one-key object `{[key]: value}` is the assignment `a[key] = value` |
| Objects.SpreadIdempotent | src/Model.ts:103-108 | spreading the same object twice gives the same result as spreading it once |
| Specifiers.IndexOf | src/Model.ts:118 | the position of the first occurrence of a character, or the length when `includes` is false |
| Specifiers.SplitPieces | src/Model.ts:123 | no piece of a split contains the separator |
| Specifiers.JoinSplit | src/Model.ts:123 | joining the pieces of a split with the separator gives back the string |
| Specifiers.SplitJoin | src/Model.ts:119-123 | splitting a join of at least one piece, none containing the separator, gives back the pieces (no pieces join to `""`, which splits to `[""]`) |
| Specifiers.ParseSpecifier | src/Model.ts:113-124 | without `':'` the specifier is the type and there are no options; with `':'` the type is the text before the first `':'`, and the options are non-empty, free of `','` and join back to the text between the first and the second `':'` |
| Specifiers.ParseSpecifierOptions | src/Model.ts:117-124 | a specifier written as a type free of `':'`, then `':'`, then at least one option joined with `','`, each option free of `','` and `':'`, parses back to that type and those options |
| Models.MergeCacheVals | src/Model.ts:99-110 | with writers that ignore the attributes, the merge overlays the union of all patches, later ones winning |
| Models.MergeCacheKeys | src/Model.ts:99-110 | with writers that ignore the attributes, a merge whose patches only touch existing keys keeps the enumeration order |
| Models.MergeIdempotent | src/Model.ts:86-110 | merging the class-cast cache and then the attribute-cast cache a second time leaves the attributes as the first merge left them |
| Models.OriginalIsEquivalent | src/Model.ts:232-247 | a key is equivalent exactly when the original has it and the current value is strictly equal to the original one; an absent key and the null/undefined branch give false |
| Models.DirtyAmong | src/Model.ts:218-222 | the collected entries are exactly those of the list whose key is not equivalent |
| Models.DirtySpec | src/Model.ts:213-225 | the dirty list holds exactly the current properties with their current values whose key the original lacks or holds with a different value, in the attributes' enumeration order |
| Models.SyncedIsClean | src/Model.ts:141-145 | when the original equals the attributes, nothing is dirty |
| Models.FillableAttributesSpec | src/Model.ts:256-264 | with a non-empty `fillable` and the guard on, exactly the input's entries with a fillable key, otherwise all of them, in the input's order both ways |
| Models.FillAssigns | src/Model.ts:185-208 | `fill` sets exactly the keys in both the input and `fillable` to the input's values, whatever `unguarded` is; other properties keep their values and places, and new keys follow in the input's order |
| Models.EmptyFillableAssignsNothing | src/Model.ts:185-208 | with an empty `fillable`, `fill` leaves the attributes unchanged, guarded or not |
| Models.SyncAttributesSpec | src/Model.ts:161-169 | copying named keys sets each of them in the original to its current value, and leaves every other key of the original and its order as they were |
| Models.Model.constructor | src/Model.ts:66-70 | the original and the current attributes both start as the given attributes, with no changes recorded |
| Models.Model.MergeCachedCasts | src/Model.ts:99-110 | the loop over the cache's entries leaves the attributes as the merge function of the old attributes and the entries |
| Models.Model.MergeAttributesFromClassCasts | src/Model.ts:99-110 | the class-cast cache is merged into the attributes, and nothing else changes |
| Models.Model.MergeAttributesFromAttributeCasts | src/Model.ts:88 | the attribute-cast cache is merged into the attributes in the same way |
| Models.Model.MergeAttributesFromCachedCasts | src/Model.ts:86-89 | the class-cast cache is merged first, then the attribute-cast cache |
| Models.Model.GetAttributes | src/Model.ts:75-79 | the caches are merged, and the result is the merged attributes |
| Models.Model.SyncOriginal | src/Model.ts:141-145 | after the merge, the original equals the current attributes |
| Models.Model.SyncOriginalAttribute | src/Model.ts:152-154 | the key is set in the original to its current value, and every other key of the original is unchanged |
| Models.Model.SyncOriginalAttributes | src/Model.ts:161-169 | after the merge, the original is the old original with each named key assigned its merged value, in order |
| Models.Model.SyncChanges | src/Model.ts:174-178 | `changes` becomes the dirty list of the merged attributes against the original |
| Models.Model.Fill | src/Model.ts:185-195 | the attributes become the old ones with the fillable input entries that pass the re-check assigned in order, and only the attributes change |
| Models.Model.GetDirty | src/Model.ts:213-225 | after the merge, the returned list is the dirty list of the merged attributes |
| Models.SyncOriginalThenGetDirty | src/Model.ts:141-145 | right after `syncOriginal`, `getDirty` returns nothing, when both cast caches are empty or the cast writers ignore the attributes |
| Models.ChangesAreASnapshot | src/Model.ts:174-178 | the stored changes are unaffected by a later `fill` and `syncOriginal` |
| AsCollection.CollectionCaster.GetAttribute | src/casts/AsCollection.ts:12-14 | the read value is a collection whose items are exactly `[value]` |
| AsCollection.CollectionCaster.SetAttribute | src/casts/AsCollection.ts:16-20 | the patch has the single key `key`, holding the serialised value |
| AsCollection.CastUsingIgnoresOptions | src/casts/AsCollection.ts:10-11 | casters made with any two option lists read and write alike |
| AsCollection.ContextIgnored | src/casts/AsCollection.ts:12-20 | neither reading nor writing depends on the model or the other attributes, nor reading on the key |
| AsCollection.SetAttributeOverlay | src/casts/AsCollection.ts:16-20 | overlaying the patch makes the key read back as the serialised value; every other property is unchanged; the key keeps its place or comes last |
| AsCollection.SetAttributeIdempotent | src/casts/AsCollection.ts:18 | overlaying the same patch twice is the same as overlaying it once |
| AsCollection.MergeCollectionsIdempotent | src/casts/AsCollection.ts:16-20 | merging a cache of collection values (next to any attribute-independent cache) a second time changes nothing |

## Left out

- Models.ResolveCasterClass: keeps only the "empty or missing specifier" test and the string parsing. The runtime dispatch is left out: `typeof`, `instanceof Caster`, `castUsing` and `new castType(...options)` (src/Model.ts:126-135) are JavaScript reflection and construction. So are the exceptions this path throws as written: `casts` holds strings (src/Model.ts:50), a string is neither a function nor an object, so every key reaches `new (castType)(...options)` with a string or `undefined` (src/Model.ts:135), which throws a `TypeError`. The parsed options therefore never reach a caster in the source as it stands, and `AsCollection` (which implements `Castable` but does not extend `Caster`) cannot be reached through this dispatch either; `AsCollection.Writer` and `AsCollection.MergeCollectionsIdempotent` describe the merge the dispatch is evidently meant to perform, not a path the source can run today.
- The class-cast merge calls `CastsInboundAttributes`, `normalizeCastClassResponse` and `caster.set` (src/Model.ts:105-107), and `mergeAttributesFromAttributeCasts` (src/Model.ts:88). None of these is defined in the source. Each cache is merged with a writer function (`CastWriter`) that the record is built with, and nothing more is assumed about it.
- Models.MergeCacheVals, Models.MergeCacheKeys, Models.MergeIdempotent, AsCollection.MergeCollectionsIdempotent and (when a cache is not empty) Models.SyncOriginalThenGetDirty: assume that the writers ignore the current attributes. That holds for the collection cast. A writer that reads the attributes may produce a different patch the second time.
- Models.Model.SyncOriginalAttributes: its `ensures` states the new original as an assignment of the picked entries. The per-key reading is stated in `SyncAttributesSpec`.
- Models.Model.constructor: the two fields are equal values, not one shared object. Aliasing between `original` and `attributes`, and reference semantics in general, are not modelled.
- The caches are filled by no code in the source. They are constructor parameters, like `fillable`, `unguarded` and `casts`, which a subclass declares.
- `fill` calls `setAttribute` (src/Model.ts:190), which `Model` does not define. It is modelled as the plain assignment `attributes[key] = value`.
- `getCasts` and `getSpecialCast` (src/Model.ts:91-97) are plain field reads. They are used directly as the `casts` map.
- Methods return nothing: the `return this` of the source only enables chaining.
- The `Caster` class and the `Castable` interface (src/Model.ts:1-7), and the cast contracts under src/contracts, declare types only.
- src/casts/AsDate.ts is not part of this model. Its reading depends on the system clock.
- `JSON.stringify` is uninterpreted: a deterministic function of the value alone.
- Numbers are mathematical integers: floating point, `NaN` (never `===` to itself) and `-0` are not modelled.
- `key in this.original` (src/Model.ts:233) is modelled as an own-property test. The prototype chain is not modelled.
- `Object.entries` is modelled in insertion order. JavaScript enumerates integer-like keys first, in ascending order; that is not modelled.
