/** The registry of named schemas (`stableJson`, `schemaSignature`, `registerNamedSchema`, `namedSchema`).
  *
  * `JSON.stringify` is a parameter, injective on JSON values. A string is a sequence of UTF-16 code units, so
  * keys compare as the default sort compares them. */
module SchemaRegistry {
  import opened JsText
  import opened Lists
  import opened Sorting

  datatype Json =
    | Null
    | Bool(flag: bool)
    | Number(number: real)
    | Text(text: string)
    | Arr(items: seq<Json>)
    | Obj(entries: seq<Entry>)

  /** An object's entries come in insertion order. */
  datatype Entry = Entry(key: string, value: Json)

  ghost predicate DistinctKeys(entries: seq<Entry>) {
    forall i, k | 0 <= i < k < |entries| :: entries[i].key != entries[k].key
  }

  /** No object repeats a key, at any depth: what a JavaScript object is. */
  ghost predicate WellFormed(j: Json) {
    match j
    case Arr(items) => forall i | 0 <= i < |items| :: WellFormed(items[i])
    case Obj(entries) => DistinctKeys(entries) && forall i | 0 <= i < |entries| :: WellFormed(entries[i].value)
    case _ => true
  }

  // ----- sorting the keys of an object -----

  predicate KeyBelow(a: Entry, b: Entry) {
    Below(a.key, b.key)
  }

  lemma KeyBelowOrders()
    ensures WeakOrder(KeyBelow)
  {
    hide Below;
    BelowIsTotal();
    forall a: Entry ensures !KeyBelow(a, a) {
      assert !Below(a.key, a.key);
    }
    forall a: Entry, b: Entry, c: Entry | KeyBelow(a, b) && KeyBelow(b, c) ensures KeyBelow(a, c) {
      assert Below(a.key, b.key) && Below(b.key, c.key);
    }
    forall a: Entry, b: Entry, c: Entry | KeyBelow(a, c) ensures KeyBelow(a, b) || KeyBelow(b, c) {
      assert Below(a.key, c.key);
    }
  }

  lemma DistinctKeysCompare(entries: seq<Entry>)
    requires DistinctKeys(entries)
    ensures Comparable(entries, KeyBelow)
  {
    hide Below;
    BelowIsTotal();
    forall i, j | 0 <= i < j < |entries| ensures KeyBelow(entries[i], entries[j]) || KeyBelow(entries[j], entries[i]) {
      assert entries[i].key != entries[j].key;
    }
  }

  lemma SortUnique(a: seq<Entry>, b: seq<Entry>)
    requires DistinctKeys(a) && DistinctKeys(b)
    ensures Sort(a, KeyBelow) == Sort(b, KeyBelow) <==> forall x :: x in a <==> x in b
  {
    KeyBelowOrders();
    DistinctKeysCompare(a);
    DistinctKeysCompare(b);
    SortsAlike(a, b, KeyBelow);
  }

  // ----- canonical values -----

  function StableItems(items: seq<Json>): (r: seq<Json>)
    ensures |r| == |items| && forall i | 0 <= i < |r| :: r[i] == Stable(items[i])
    decreases items
  {
    seq(|items|, i requires 0 <= i < |items| => Stable(items[i]))
  }

  function StableValues(entries: seq<Entry>): (r: seq<Entry>)
    ensures |r| == |entries|
    ensures forall i | 0 <= i < |r| :: r[i] == Entry(entries[i].key, Stable(entries[i].value))
    decreases entries
  {
    seq(|entries|, i requires 0 <= i < |entries| => Entry(entries[i].key, Stable(entries[i].value)))
  }

  function Stable(j: Json): Json
    decreases j
  {
    match j
    case Arr(items) => Arr(StableItems(items))
    case Obj(entries) => Obj(Sort(StableValues(entries), KeyBelow))
    case _ => j
  }

  ghost function Keys(entries: seq<Entry>): set<string> {
    set e | e in entries :: e.key
  }

  /** Equal up to the order of object keys, at every depth. */
  ghost predicate Equivalent(a: Json, b: Json)
    decreases a
  {
    match a
    case Arr(items) =>
      b.Arr? && |items| == |b.items| && forall i | 0 <= i < |items| :: Equivalent(items[i], b.items[i])
    case Obj(entries) =>
      && b.Obj? && Keys(entries) == Keys(b.entries)
      && (forall i, k | 0 <= i < |entries| && 0 <= k < |b.entries| ::
            entries[i].key == b.entries[k].key ==> Equivalent(entries[i].value, b.entries[k].value))
    case _ => a == b
  }

  /** Canonical values are equal exactly for values that are equal up to key order. */
  lemma {:induction false} StableIffEquivalent(a: Json, b: Json)
    requires WellFormed(a) && WellFormed(b)
    ensures Stable(a) == Stable(b) <==> Equivalent(a, b)
    decreases a
  {
    match a
    case Arr(items) =>
      if b.Arr? && |items| == |b.items| {
        forall i | 0 <= i < |items|
          ensures Stable(items[i]) == Stable(b.items[i]) <==> Equivalent(items[i], b.items[i])
        {
          StableIffEquivalent(items[i], b.items[i]);
        }
        StableArrays(items, b.items);
      } else if b.Arr? {
        assert |StableItems(items)| != |StableItems(b.items)|;
      }
    case Obj(entries) =>
      if b.Obj? {
        forall i, k | 0 <= i < |entries| && 0 <= k < |b.entries|
          ensures Stable(entries[i].value) == Stable(b.entries[k].value) <==>
                  Equivalent(entries[i].value, b.entries[k].value)
        {
          StableIffEquivalent(entries[i].value, b.entries[k].value);
        }
        StableObjects(entries, b.entries);
        SameEntriesMeans(entries, b.entries);
      }
    case _ =>
  }

  /** Equivalence of objects whose values are compared by `Equivalent` or by canonical value alike. */
  lemma SameEntriesMeans(a: seq<Entry>, b: seq<Entry>)
    requires forall i, k | 0 <= i < |a| && 0 <= k < |b| ::
      Stable(a[i].value) == Stable(b[k].value) <==> Equivalent(a[i].value, b[k].value)
    ensures SameEntries(a, b) <==> Equivalent(Obj(a), Obj(b))
  {
    hide Stable, Keys;
  }

  lemma StableArrays(a: seq<Json>, b: seq<Json>)
    requires |a| == |b|
    ensures StableItems(a) == StableItems(b) <==> forall i | 0 <= i < |a| :: Stable(a[i]) == Stable(b[i])
  {
    if StableItems(a) == StableItems(b) {
      forall i | 0 <= i < |a| ensures Stable(a[i]) == Stable(b[i]) {
        assert StableItems(a)[i] == StableItems(b)[i];
      }
    }
  }

  /** Two lists of entries hold the same keys, with the same canonical values. */
  ghost predicate SameEntries(a: seq<Entry>, b: seq<Entry>) {
    && Keys(a) == Keys(b)
    && (forall i, k | 0 <= i < |a| && 0 <= k < |b| :: a[i].key == b[k].key ==> Stable(a[i].value) == Stable(b[k].value))
  }

  lemma StableObjects(a: seq<Entry>, b: seq<Entry>)
    requires DistinctKeys(a) && DistinctKeys(b)
    ensures Sort(StableValues(a), KeyBelow) == Sort(StableValues(b), KeyBelow) <==> SameEntries(a, b)
  {
    hide Sort, Stable, Keys, SameEntries;
    var x, y := StableValues(a), StableValues(b);
    SortUnique(x, y);
    if SameEntries(a, b) {
      SameEntriesFlip(a, b);
      forall e ensures e in x <==> e in y {
        SameEntriesIncluded(a, b, e);
        SameEntriesIncluded(b, a, e);
      }
    }
    if forall e :: e in x <==> e in y {
      IncludedSameEntries(a, b);
    }
  }

  lemma SameEntriesFlip(a: seq<Entry>, b: seq<Entry>)
    requires SameEntries(a, b)
    ensures SameEntries(b, a)
  {
    hide Stable, Keys;
  }

  lemma SameEntriesIncluded(a: seq<Entry>, b: seq<Entry>, e: Entry)
    requires SameEntries(a, b)
    ensures e in StableValues(a) ==> e in StableValues(b)
  {
    hide Stable;
    if e in StableValues(a) {
      var i :| 0 <= i < |a| && StableValues(a)[i] == e;
      assert a[i] in a && a[i].key in Keys(b);
      var f :| f in b && f.key == a[i].key;
      var k :| 0 <= k < |b| && b[k] == f;
      assert StableValues(b)[k] == e;
    }
  }

  lemma StableKeys(a: seq<Entry>)
    ensures Keys(StableValues(a)) == Keys(a)
  {
    hide Stable;
    var x := StableValues(a);
    forall key ensures key in Keys(x) <==> key in Keys(a) {
      if key in Keys(x) {
        var i :| 0 <= i < |x| && x[i].key == key;
        assert a[i] in a;
      }
      if key in Keys(a) {
        var i :| 0 <= i < |a| && a[i].key == key;
        assert x[i] in x;
      }
    }
  }

  lemma IncludedSameEntries(a: seq<Entry>, b: seq<Entry>)
    requires DistinctKeys(a) && DistinctKeys(b)
    requires forall e :: e in StableValues(a) <==> e in StableValues(b)
    ensures SameEntries(a, b)
  {
    hide Stable;
    var x, y := StableValues(a), StableValues(b);
    StableKeys(a);
    StableKeys(b);
    assert Keys(x) == Keys(y);
    forall i, k | 0 <= i < |a| && 0 <= k < |b| && a[i].key == b[k].key
      ensures Stable(a[i].value) == Stable(b[k].value)
    {
      assert x[i] in y;
      var k' :| 0 <= k' < |y| && y[k'] == x[i];
      assert b[k'].key == b[k].key;
      assert k' == k;
    }
  }

  // ----- signatures -----

  type Stringify = Json -> string

  function Signature(stringify: Stringify, schema: Json): string {
    stringify(Stable(schema))
  }

  lemma SignatureIffEquivalent(stringify: Stringify, a: Json, b: Json)
    requires Injective(stringify) && WellFormed(a) && WellFormed(b)
    ensures Signature(stringify, a) == Signature(stringify, b) <==> Equivalent(a, b)
  {
    StableIffEquivalent(a, b);
  }

  // ----- the registry -----

  /** A schema as an object of its own, known by its identity. */
  datatype Registration = Registration(name: string, id: nat, schema: Json)

  class Registry {
    const stringify: Stringify
    var schemaNameByObject: map<nat, string>
    var schemaNameBySignature: map<string, string>
    var duplicateSchemaSignatures: set<string>
    ghost var history: seq<Registration>

    ghost predicate Valid()
      reads this
    {
      && (forall o :: (if o in schemaNameByObject then Some(schemaNameByObject[o]) else None) == LastName(history, o))
      && (forall sig :: (if sig in schemaNameBySignature then Some(schemaNameBySignature[sig]) else None)
                        == OnlyName(stringify, history, sig))
      && (forall sig :: sig in duplicateSchemaSignatures <==> |NamesOf(stringify, history, sig)| >= 2)
    }

    constructor (stringify: Stringify)
      ensures Valid() && history == [] && this.stringify == stringify
    {
      this.stringify := stringify;
      schemaNameByObject, schemaNameBySignature, duplicateSchemaSignatures := map[], map[], {};
      history := [];
    }

    method RegisterNamedSchema(r: Registration)
      requires Valid()
      modifies this
      ensures Valid() && history == old(history) + [r]
    {
      hide LastName, NamesOf, OnlyName, Signature;
      var signature := Signature(stringify, r.schema);
      forall sig { OneMoreName(stringify, history, r, sig); }
      CountOfOnly(stringify, history, signature);
      LastNameGrows(history, r);
      schemaNameByObject := schemaNameByObject[r.id := r.name];
      history := history + [r];
      if signature in duplicateSchemaSignatures {
        return;
      }
      if signature in schemaNameBySignature {
        schemaNameBySignature := schemaNameBySignature - {signature};
        duplicateSchemaSignatures := duplicateSchemaSignatures + {signature};
        return;
      }
      schemaNameBySignature := schemaNameBySignature[signature := r.name];
    }

    /** By identity first, by structure only if allowed. */
    method NamedSchema(id: nat, schema: Json, allowStructuralFallback: bool) returns (name: Option<string>)
      requires Valid()
      ensures name ==
        if LastName(history, id).Some? then LastName(history, id)
        else if allowStructuralFallback then OnlyName(stringify, history, Signature(stringify, schema))
        else None
    {
      assert (if id in schemaNameByObject then Some(schemaNameByObject[id]) else None) == LastName(history, id);
      if id in schemaNameByObject {
        return Some(schemaNameByObject[id]);
      }
      if !allowStructuralFallback {
        return None;
      }
      var signature := Signature(stringify, schema);
      return if signature in schemaNameBySignature then Some(schemaNameBySignature[signature]) else None;
    }
  }

  // ----- what the registrations say -----

  /** The latest name an object was registered under. */
  function LastName(history: seq<Registration>, id: nat): Option<string> {
    if history == [] then None
    else if history[|history| - 1].id == id then Some(history[|history| - 1].name)
    else LastName(history[..|history| - 1], id)
  }

  function NameIf(stringify: Stringify, sig: string): Registration -> Option<string> {
    (r: Registration) => if Signature(stringify, r.schema) == sig then Some(r.name) else None
  }

  /** The names registered under a signature, in order. */
  function NamesOf(stringify: Stringify, history: seq<Registration>, sig: string): seq<string> {
    FilterMap(history, NameIf(stringify, sig))
  }

  /** The name of the one registration with a signature, if there is exactly one. */
  function OnlyName(stringify: Stringify, history: seq<Registration>, sig: string): Option<string> {
    var names := NamesOf(stringify, history, sig);
    if |names| == 1 then Some(names[0]) else None
  }

  lemma OneMoreName(stringify: Stringify, history: seq<Registration>, r: Registration, sig: string)
    ensures var own := Signature(stringify, r.schema) == sig;
      && |NamesOf(stringify, history + [r], sig)| == |NamesOf(stringify, history, sig)| + (if own then 1 else 0)
      && OnlyName(stringify, history + [r], sig) ==
           if !own then OnlyName(stringify, history, sig)
           else if |NamesOf(stringify, history, sig)| == 0 then Some(r.name) else None
  {
    hide Signature;
    assert (history + [r])[..|history|] == history;
  }

  lemma CountOfOnly(stringify: Stringify, history: seq<Registration>, sig: string)
    ensures OnlyName(stringify, history, sig).Some? <==> |NamesOf(stringify, history, sig)| == 1
  {
  }

  lemma LastNameGrows(history: seq<Registration>, r: Registration)
    ensures forall o :: LastName(history + [r], o) == if o == r.id then Some(r.name) else LastName(history, o)
  {
    assert (history + [r])[..|history|] == history;
  }

  /** Exactly one registration has a schema equal to the given one up to key order, and it is number `i`. */
  ghost predicate OnlyEquivalent(history: seq<Registration>, schema: Json, i: nat) {
    && i < |history| && Equivalent(history[i].schema, schema)
    && forall k | 0 <= k < |history| && k != i :: !Equivalent(history[k].schema, schema)
  }

  ghost predicate AllWellFormed(history: seq<Registration>) {
    forall i | 0 <= i < |history| :: WellFormed(history[i].schema)
  }

  /** The names of the registrations equal to a schema up to key order. */
  ghost function NamesOfEquivalent(history: seq<Registration>, schema: Json): seq<string> {
    if history == [] then []
    else
      var last := history[|history| - 1];
      NamesOfEquivalent(history[..|history| - 1], schema) + if Equivalent(last.schema, schema) then [last.name] else []
  }

  lemma {:induction false} NamesByEquivalence(stringify: Stringify, history: seq<Registration>, schema: Json)
    requires Injective(stringify) && AllWellFormed(history) && WellFormed(schema)
    ensures NamesOf(stringify, history, Signature(stringify, schema)) == NamesOfEquivalent(history, schema)
  {
    hide WellFormed, Equivalent, Signature;
    if history != [] {
      NamesByEquivalence(stringify, history[..|history| - 1], schema);
      SignatureIffEquivalent(stringify, history[|history| - 1].schema, schema);
    }
  }

  lemma {:induction false} NoneEquivalent(history: seq<Registration>, schema: Json)
    ensures NamesOfEquivalent(history, schema) == [] <==>
      forall k | 0 <= k < |history| :: !Equivalent(history[k].schema, schema)
  {
    hide Equivalent;
    if history != [] {
      var front := history[..|history| - 1];
      NoneEquivalent(front, schema);
      assert history == front + [history[|history| - 1]];
    }
  }

  lemma {:induction false} OneEquivalent(history: seq<Registration>, schema: Json, i: nat)
    requires OnlyEquivalent(history, schema, i)
    ensures NamesOfEquivalent(history, schema) == [history[i].name]
  {
    hide Equivalent;
    var front := history[..|history| - 1];
    if i == |history| - 1 {
      NoneEquivalent(front, schema);
    } else {
      OneEquivalent(front, schema, i);
    }
  }

  lemma {:induction false} TheEquivalent(history: seq<Registration>, schema: Json) returns (i: nat)
    requires |NamesOfEquivalent(history, schema)| == 1
    ensures OnlyEquivalent(history, schema, i)
  {
    hide Equivalent, OnlyEquivalent;
    var front, last := history[..|history| - 1], history[|history| - 1];
    if Equivalent(last.schema, schema) {
      i := |history| - 1;
      NoneEquivalent(front, schema);
      OnlyLast(history, schema);
    } else {
      i := TheEquivalent(front, schema);
      OnlyInFront(history, schema, i);
    }
  }

  lemma OnlyLast(history: seq<Registration>, schema: Json)
    requires history != [] && Equivalent(history[|history| - 1].schema, schema)
    requires var front := history[..|history| - 1]; forall k | 0 <= k < |front| :: !Equivalent(front[k].schema, schema)
    ensures OnlyEquivalent(history, schema, |history| - 1)
  {
    hide Equivalent;
    var front := history[..|history| - 1];
    assert forall k | 0 <= k < |front| :: front[k] == history[k];
  }

  lemma OnlyInFront(history: seq<Registration>, schema: Json, i: nat)
    requires history != [] && !Equivalent(history[|history| - 1].schema, schema)
    requires OnlyEquivalent(history[..|history| - 1], schema, i)
    ensures OnlyEquivalent(history, schema, i)
  {
    hide Equivalent;
    assert history == history[..|history| - 1] + [history[|history| - 1]];
  }

  /** After any registrations, structure gives a name exactly when one and only one registered schema equals
    * the given one up to key order, and then it gives that one's name. */
  lemma StructuralNameIffUnique(stringify: Stringify, history: seq<Registration>, schema: Json, name: string)
    requires Injective(stringify) && AllWellFormed(history) && WellFormed(schema)
    ensures OnlyName(stringify, history, Signature(stringify, schema)) == Some(name) <==>
      exists i: nat :: OnlyEquivalent(history, schema, i) && history[i].name == name
  {
    hide Equivalent, NamesOfEquivalent, WellFormed, Injective, NamesOf, Signature;
    NamesByEquivalence(stringify, history, schema);
    var names := NamesOf(stringify, history, Signature(stringify, schema));
    if |names| == 1 {
      var i := TheEquivalent(history, schema);
      OneEquivalent(history, schema, i);
      if names[0] == name {
        assert OnlyEquivalent(history, schema, i) && history[i].name == name;
      }
    }
    if i: nat :| OnlyEquivalent(history, schema, i) && history[i].name == name {
      OneEquivalent(history, schema, i);
    }
  }

  // ----- order -----

  /** What structure gives does not depend on the order of the registrations. */
  lemma StructuralNameIgnoresOrder(stringify: Stringify, a: seq<Registration>, b: seq<Registration>, sig: string)
    requires multiset(a) == multiset(b)
    ensures OnlyName(stringify, a, sig) == OnlyName(stringify, b, sig)
  {
    FilterMapPermuted(a, b, NameIf(stringify, sig));
    var x, y := NamesOf(stringify, a, sig), NamesOf(stringify, b, sig);
    assert |x| == |multiset(x)| == |multiset(y)| == |y|;
    if |x| == 1 {
      assert x[0] in multiset(y);
    }
  }
}
