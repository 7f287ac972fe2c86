/**
 * Plain JavaScript objects as the attribute store sees them: string keys,
 * own enumerable properties enumerated in insertion order, property
 * assignment `o[k] = v` and object spread `{...a, ...b}`.
 */
module Objects {

  type Key = string

  /**
   * A JavaScript value as far as the store observes it. Objects, arrays and
   * functions are references: strict equality (`===`) compares their identity,
   * so `Ref(id) == Ref(id')` exactly when they are the same reference.
   */
  datatype Value = Undefined | Null | Bool(b: bool) | Num(n: int) | Str(s: string) | Ref(id: nat)

  /** One `[key, value]` pair as produced by `Object.entries`. */
  type Entry = (Key, Value)

  /** `keys` is the enumeration order, `vals` the properties themselves. */
  datatype RawObject = RawObject(keys: seq<Key>, vals: map<Key, Value>)
  {
    predicate Wf()
    {
      && Distinct(keys)
      && (forall i | 0 <= i < |keys| :: keys[i] in vals)
      && (forall k | k in vals :: k in keys)
    }
  }

  type Object = o: RawObject | o.Wf() witness RawObject([], map[])

  const Empty: Object := RawObject([], map[])

  predicate Distinct(ks: seq<Key>)
  {
    forall i, j | 0 <= i < j < |ks| :: ks[i] != ks[j]
  }

  /** `o[k]`: an absent property reads as `undefined`. */
  function Lookup(o: Object, k: Key): Value
  {
    if k in o.vals then o.vals[k] else Undefined
  }

  // ---------------------------------------------------------------------------
  // Key lists and entry lists

  /** The keys of `ks` that are in `s`, in their order in `ks`. */
  function Select(ks: seq<Key>, s: set<Key>): (r: seq<Key>)
    ensures forall k :: k in r <==> k in ks && k in s
    decreases |ks|
  {
    if ks == [] then []
    else
      var init := Select(ks[..|ks| - 1], s);
      if ks[|ks| - 1] in s then init + [ks[|ks| - 1]] else init
  }

  /** The keys of `ks` that are not in `s`, in their order in `ks`. */
  function Omit(ks: seq<Key>, s: set<Key>): (r: seq<Key>)
    ensures forall k :: k in r <==> k in ks && k !in s
    decreases |ks|
  {
    if ks == [] then []
    else
      var init := Omit(ks[..|ks| - 1], s);
      if ks[|ks| - 1] in s then init else init + [ks[|ks| - 1]]
  }

  function KeysOf(es: seq<Entry>): (ks: seq<Key>)
    ensures |ks| == |es|
    ensures forall i | 0 <= i < |es| :: ks[i] == es[i].0
    decreases |es|
  {
    if es == [] then [] else KeysOf(es[..|es| - 1]) + [es[|es| - 1].0]
  }

  /** The object that assigning the entries one after the other would build: a later entry wins. */
  function MapOf(es: seq<Entry>): (m: map<Key, Value>)
    ensures forall k :: k in m <==> k in KeysOf(es)
    decreases |es|
  {
    if es == [] then map[]
    else MapOf(es[..|es| - 1])[es[|es| - 1].0 := es[|es| - 1].1]
  }

  /** The entries of `es` whose key is in `s`, in their order in `es` (an array `filter`). */
  function SelectEntries(es: seq<Entry>, s: set<Key>): (r: seq<Entry>)
    ensures forall e :: e in r <==> e in es && e.0 in s
    ensures |r| <= |es|
    decreases |es|
  {
    if es == [] then []
    else
      var init := SelectEntries(es[..|es| - 1], s);
      if es[|es| - 1].0 in s then init + [es[|es| - 1]] else init
  }

  /** The pairs `[k, o[k]]` for the keys `ks`, in that order. */
  function Pick(o: Object, ks: seq<Key>): (es: seq<Entry>)
    ensures |es| == |ks|
    ensures forall i | 0 <= i < |ks| :: es[i] == (ks[i], Lookup(o, ks[i]))
    decreases |ks|
  {
    if ks == [] then [] else Pick(o, ks[..|ks| - 1]) + [(ks[|ks| - 1], Lookup(o, ks[|ks| - 1]))]
  }

  /** `Object.entries(o)`. */
  function Entries(o: Object): seq<Entry>
  {
    Pick(o, o.keys)
  }

  /** `Object.entries(o)` lists every property of `o` with its value, in enumeration order. */
  lemma EntriesSpec(o: Object)
    ensures KeysOf(Entries(o)) == o.keys
    ensures forall e | e in Entries(o) :: e.0 in o.vals && e.1 == o.vals[e.0]
  {
    assert KeysOf(Entries(o)) == o.keys;
  }

  // ---------------------------------------------------------------------------
  // Assignment and spread

  /** `o[k] = v`: a new key is enumerated after the existing ones, an existing key keeps its place. */
  function Set(o: Object, k: Key, v: Value): (r: Object)
  {
    if k in o.vals then RawObject(o.keys, o.vals[k := v])
    else RawObject(o.keys + [k], o.vals[k := v])
  }

  /** Assigns the entries to `o` one after the other. */
  function Assign(o: Object, es: seq<Entry>): Object
    decreases |es|
  {
    if es == [] then o
    else Set(Assign(o, es[..|es| - 1]), es[|es| - 1].0, es[|es| - 1].1)
  }

  /** `{...a, ...b}`: a copy of `a` onto which the properties of `b` are assigned in order. */
  function Spread(a: Object, b: Object): Object
  {
    Assign(a, Entries(b))
  }

  // ---------------------------------------------------------------------------
  // Lemmas

  /** Assigning one more entry is one more assignment. */
  lemma AssignSnoc(o: Object, es: seq<Entry>, i: nat)
    requires i < |es|
    ensures Assign(o, es[..i + 1]) == Set(Assign(o, es[..i]), es[i].0, es[i].1)
  {
    assert es[..i + 1][..i] == es[..i];
  }

  lemma AssignAll(o: Object, es: seq<Entry>, i: int)
    requires i == |es|
    ensures Assign(o, es[..i]) == Assign(o, es)
  {
    assert es[..i] == es;
  }

  lemma AssignAppend(o: Object, es: seq<Entry>, e: Entry)
    ensures Assign(o, es + [e]) == Set(Assign(o, es), e.0, e.1)
  {
    assert (es + [e])[..|es|] == es;
  }

  /** After the assignments, every key holds the value of its last entry, or its old value. */
  lemma {:induction false} AssignVals(o: Object, es: seq<Entry>)
    ensures Assign(o, es).vals == o.vals + MapOf(es)
    decreases |es|
  {
    if es != [] {
      var init := es[..|es| - 1];
      AssignVals(o, init);
      UnionUpdate(o.vals, MapOf(init), es[|es| - 1].0, es[|es| - 1].1);
    }
  }

  lemma SetKeys(o: Object, k: Key, v: Value)
    ensures Set(o, k, v).keys == o.keys + if k in o.vals then [] else [k]
  {
    assert o.keys + [] == o.keys;
  }

  lemma AppendAssoc(a: seq<Key>, b: seq<Key>, c: seq<Key>)
    ensures a + b + c == a + (b + c)
  {
  }

  lemma UnionAssoc(a: map<Key, Value>, b: map<Key, Value>, c: map<Key, Value>)
    ensures (a + b) + c == a + (b + c)
  {
  }

  lemma UnionUpdate(a: map<Key, Value>, b: map<Key, Value>, k: Key, v: Value)
    ensures (a + b)[k := v] == a + b[k := v]
  {
  }

  lemma UnionAbsorb(a: map<Key, Value>, b: map<Key, Value>, c: map<Key, Value>)
    ensures a + b + c + b + c == a + b + c
  {
  }

  /** Assignments only ever append keys: the old enumeration order is a prefix of the new one. */
  lemma {:induction false} AssignExtends(o: Object, es: seq<Entry>)
    ensures o.keys <= Assign(o, es).keys
    decreases |es|
  {
    if es != [] {
      AssignExtends(o, es[..|es| - 1]);
    }
  }

  lemma OmitAppend(ks: seq<Key>, k: Key, s: set<Key>)
    ensures Omit(ks + [k], s) == Omit(ks, s) + (if k in s then [] else [k])
  {
    assert (ks + [k])[..|ks|] == ks;
  }

  /** Dropping the last entry keeps the keys distinct, and that entry's key is not among the rest. */
  lemma DistinctInit(es: seq<Entry>)
    requires es != [] && Distinct(KeysOf(es))
    ensures Distinct(KeysOf(es[..|es| - 1])) && es[|es| - 1].0 !in KeysOf(es[..|es| - 1])
  {
    var init := es[..|es| - 1];
    var ks, ki := KeysOf(es), KeysOf(init);
    forall i | 0 <= i < |ki|
      ensures ki[i] == ks[i]
    {
      assert init[i] == es[i];
    }
  }

  /**
   * Assigning one more entry whose key is new to the entries so far: the key is
   * appended exactly when the object did not have it to begin with.
   */
  lemma AssignKeysStep(o: Object, init: seq<Entry>, before: Object, e: Entry)
    requires e.0 !in KeysOf(init)
    requires before.vals == o.vals + MapOf(init)
    requires before.keys == o.keys + Omit(KeysOf(init), o.vals.Keys)
    ensures Set(before, e.0, e.1).keys == o.keys + Omit(KeysOf(init) + [e.0], o.vals.Keys)
  {
    var omitted := Omit(KeysOf(init), o.vals.Keys);
    var added: seq<Key> := if e.0 in o.vals then [] else [e.0];
    assert e.0 !in MapOf(init);
    assert e.0 in before.vals <==> e.0 in o.vals;
    SetKeys(before, e.0, e.1);
    OmitAppend(KeysOf(init), e.0, o.vals.Keys);
    AppendAssoc(o.keys, omitted, added);
  }

  /** With distinct keys, the keys not yet present are appended in the entries' order. */
  lemma {:induction false} AssignKeys(o: Object, es: seq<Entry>)
    requires Distinct(KeysOf(es))
    ensures Assign(o, es).keys == o.keys + Omit(KeysOf(es), o.vals.Keys)
    decreases |es|
  {
    if es != [] {
      var init, e := es[..|es| - 1], es[|es| - 1];
      DistinctInit(es);
      AssignKeys(o, init);
      AssignVals(o, init);
      AssignKeysStep(o, init, Assign(o, init), e);
    }
  }

  lemma {:induction false} PickMap(o: Object, ks: seq<Key>)
    ensures MapOf(Pick(o, ks)) == map k | k in ks :: Lookup(o, k)
    decreases |ks|
  {
    if ks != [] {
      var init := ks[..|ks| - 1];
      assert Pick(o, ks)[..|ks| - 1] == Pick(o, init);
      PickMap(o, init);
    }
  }

  lemma PickMembers(o: Object, ks: seq<Key>)
    ensures forall e :: e in Pick(o, ks) <==> e.0 in ks && e.1 == Lookup(o, e.0)
  {
    forall e: Entry | e.0 in ks && e.1 == Lookup(o, e.0)
      ensures e in Pick(o, ks)
    {
      var i :| 0 <= i < |ks| && ks[i] == e.0;
      assert Pick(o, ks)[i] == e;
    }
  }

  /** An entry is listed exactly when it is a property of `o` with its value. */
  lemma EntriesMembers(o: Object)
    ensures forall e :: e in Entries(o) <==> e.0 in o.vals && e.1 == o.vals[e.0]
  {
    PickMembers(o, o.keys);
    assert forall k :: k in o.keys <==> k in o.vals;
  }

  lemma EntriesMap(b: Object)
    ensures MapOf(Entries(b)) == b.vals
  {
    var m := MapOf(Entries(b));
    PickMap(b, b.keys);
    forall k
      ensures k in m <==> k in b.vals
    {
    }
    forall k | k in m
      ensures m[k] == b.vals[k]
    {
    }
  }

  /** Spreading an object with the one property `k` is the assignment `o[k] = v`. */
  lemma SpreadSingle(a: Object, k: Key, v: Value)
    ensures Spread(a, RawObject([k], map[k := v])) == Set(a, k, v)
  {
    var b: Object := RawObject([k], map[k := v]);
    assert b.keys[..0] == [];
    assert Pick(b, b.keys) == [(k, v)];
    var es := [(k, v)];
    assert es[..0] == [];
    assert Assign(a, es) == Set(Assign(a, []), k, v);
  }

  /** After `o[k] = v`, `k` reads as `v` and every other key as before. */
  lemma SetLookup(o: Object, k: Key, v: Value)
    ensures forall k' :: Lookup(Set(o, k, v), k') == if k' == k then v else Lookup(o, k')
  {
  }

  /**
   * Object spread: the values of `b` override those of `a`, and the keys of
   * `b` that `a` lacks are enumerated after those of `a`, in `b`'s order.
   */
  lemma SpreadSpec(a: Object, b: Object)
    ensures Spread(a, b).vals == a.vals + b.vals
    ensures Spread(a, b).keys == a.keys + Omit(b.keys, a.vals.Keys)
  {
    AssignVals(a, Entries(b));
    EntriesMap(b);
    EntriesSpec(b);
    AssignKeys(a, Entries(b));
  }

  /** Spreading the same object twice gives what spreading it once gives. */
  lemma SpreadIdempotent(a: Object, b: Object)
    ensures Spread(Spread(a, b), b) == Spread(a, b)
  {
    var once := Spread(a, b);
    var twice := Spread(once, b);
    SpreadSpec(a, b);
    SpreadSpec(once, b);
    OmitPresent(b.keys, once.vals.Keys);
    assert twice.keys == once.keys;
    assert twice.vals == once.vals by {
      assert twice.vals == (a.vals + b.vals) + b.vals;
    }
  }

  lemma OmitPresent(ks: seq<Key>, s: set<Key>)
    requires forall k | k in ks :: k in s
    ensures Omit(ks, s) == []
  {
    if Omit(ks, s) != [] {
      assert Omit(ks, s)[0] in Omit(ks, s);
    }
  }

  /** Filtering a list of distinct keys keeps them distinct. */
  lemma {:induction false} SelectDistinct(ks: seq<Key>, s: set<Key>)
    requires Distinct(ks)
    ensures Distinct(Select(ks, s))
    decreases |ks|
  {
    if ks != [] {
      var init := ks[..|ks| - 1];
      assert Distinct(init);
      SelectDistinct(init, s);
      assert ks[|ks| - 1] !in init;
    }
  }

  /** The keys of the selected entries are the selected keys. */
  lemma {:induction false} SelectEntriesKeys(es: seq<Entry>, s: set<Key>)
    ensures KeysOf(SelectEntries(es, s)) == Select(KeysOf(es), s)
    decreases |es|
  {
    if es != [] {
      var init := es[..|es| - 1];
      assert KeysOf(es)[..|es| - 1] == KeysOf(init);
      SelectEntriesKeys(init, s);
    }
  }

  /** Assigning the selected entries assigns the entries' values restricted to `s`. */
  lemma {:induction false} SelectEntriesMap(es: seq<Entry>, s: set<Key>)
    ensures MapOf(SelectEntries(es, s)) == map k | k in MapOf(es) && k in s :: MapOf(es)[k]
    decreases |es|
  {
    if es != [] {
      SelectEntriesMap(es[..|es| - 1], s);
    }
  }

  /** One more step of assigning the entries of `es` whose key is in `s`. */
  lemma AssignSelectSnoc(o: Object, es: seq<Entry>, s: set<Key>, i: nat)
    requires i < |es|
    ensures var before := Assign(o, SelectEntries(es[..i], s));
            Assign(o, SelectEntries(es[..i + 1], s)) == if es[i].0 in s then Set(before, es[i].0, es[i].1) else before
  {
    SelectEntriesSnoc(es, s, i);
    AssignAppend(o, SelectEntries(es[..i], s), es[i]);
  }

  lemma SelectEntriesAll(es: seq<Entry>, s: set<Key>, i: int)
    requires i == |es|
    ensures SelectEntries(es[..i], s) == SelectEntries(es, s)
  {
    assert es[..i] == es;
  }

  /** Filtering one more entry appends it when its key is selected. */
  lemma SelectEntriesSnoc(es: seq<Entry>, s: set<Key>, i: nat)
    requires i < |es|
    ensures var init := SelectEntries(es[..i], s);
            SelectEntries(es[..i + 1], s) == if es[i].0 in s then init + [es[i]] else init
  {
    assert es[..i + 1][..i] == es[..i];
  }

  /** Filtering twice by the same set filters once. */
  lemma {:induction false} SelectEntriesTwice(es: seq<Entry>, s: set<Key>)
    ensures SelectEntries(SelectEntries(es, s), s) == SelectEntries(es, s)
    decreases |es|
  {
    if es != [] {
      var init := es[..|es| - 1];
      SelectEntriesTwice(init, s);
      var once := SelectEntries(init, s);
      if es[|es| - 1].0 in s {
        assert (once + [es[|es| - 1]])[..|once|] == once;
      }
    }
  }
}
