/** The same two functions on mutable objects.
  *
  * The JavaScript heap of nested locale objects is an explicit store: an object is an index into
  * `objects`, its slots hold texts or references. `SetNestedValue` moves a cursor through the store and
  * assigns in place, as the source does; it is proved to change the view of the root exactly as the
  * pure `TranslationTree.SetNestedValue` says, and to leave every object outside the root untouched. */
module LocaleObjects {
  import opened JsText
  import opened TranslationTree

  datatype Slot = TextSlot(text: string) | Ref(id: nat)
  datatype Slots = Empty | Slots(name: string, slot: Slot, rest: Slots)

  function Find(slots: Slots, name: string): Option<Slot> {
    match slots
    case Empty => None
    case Slots(n, s, rest) => if n == name then Some(s) else Find(rest, name)
  }

  function Put(slots: Slots, name: string, slot: Slot): Slots {
    match slots
    case Empty => Slots(name, slot, Empty)
    case Slots(n, s, rest) => if n == name then Slots(n, slot, rest) else Slots(n, s, Put(rest, name, slot))
  }

  /** Every reference of an object points to an object allocated after it. */
  ghost predicate RefsWithin(slots: Slots, low: nat, high: nat) {
    match slots
    case Empty => true
    case Slots(_, s, rest) => (s.Ref? ==> low < s.id < high) && RefsWithin(rest, low, high)
  }

  ghost predicate Ordered(objects: seq<Slots>) {
    forall id | 0 <= id < |objects| :: RefsWithin(objects[id], id, |objects|)
  }

  // ----- what the store means -----

  ghost function View(objects: seq<Slots>, id: nat): Props
    requires Ordered(objects) && id < |objects|
    decreases |objects| - id, 1, Empty
  {
    ViewSlots(objects, id, objects[id])
  }

  ghost function ViewSlots(objects: seq<Slots>, low: nat, slots: Slots): Props
    requires Ordered(objects) && low < |objects| && RefsWithin(slots, low, |objects|)
    decreases |objects| - low, 0, slots
  {
    match slots
    case Empty => Nil
    case Slots(n, TextSlot(text), rest) => Cons(n, Text(text), ViewSlots(objects, low, rest))
    case Slots(n, Ref(id), rest) => Cons(n, Sub(View(objects, id)), ViewSlots(objects, low, rest))
  }

  ghost function Reach(objects: seq<Slots>, id: nat): set<nat>
    requires Ordered(objects) && id < |objects|
    decreases |objects| - id, 2, Empty
  {
    {id} + ReachSlots(objects, id, objects[id])
  }

  ghost function ReachSlot(objects: seq<Slots>, low: nat, slot: Slot): set<nat>
    requires Ordered(objects) && low < |objects| && (slot.Ref? ==> low < slot.id < |objects|)
    decreases |objects| - low, 0, Empty
  {
    if slot.Ref? then Reach(objects, slot.id) else {}
  }

  ghost function ReachSlots(objects: seq<Slots>, low: nat, slots: Slots): set<nat>
    requires Ordered(objects) && low < |objects| && RefsWithin(slots, low, |objects|)
    decreases |objects| - low, 1, slots
  {
    match slots
    case Empty => {}
    case Slots(_, s, rest) => ReachSlot(objects, low, s) + ReachSlots(objects, low, rest)
  }

  /** No object is shared below `id`. */
  ghost predicate IsTree(objects: seq<Slots>, id: nat)
    requires Ordered(objects) && id < |objects|
    decreases |objects| - id, 1, Empty
  {
    IsTreeSlots(objects, id, objects[id])
  }

  ghost predicate IsTreeSlots(objects: seq<Slots>, low: nat, slots: Slots)
    requires Ordered(objects) && low < |objects| && RefsWithin(slots, low, |objects|)
    decreases |objects| - low, 0, slots
  {
    match slots
    case Empty => true
    case Slots(_, s, rest) =>
      && (s.Ref? ==> IsTree(objects, s.id))
      && ReachSlot(objects, low, s) !! ReachSlots(objects, low, rest)
      && IsTreeSlots(objects, low, rest)
  }

  // ----- framing -----

  ghost predicate Agree(a: seq<Slots>, b: seq<Slots>, ids: set<nat>) {
    forall x | x in ids :: x < |a| && x < |b| && a[x] == b[x]
  }

  lemma {:induction false} Frame(a: seq<Slots>, b: seq<Slots>, id: nat)
    requires Ordered(a) && Ordered(b) && id < |a| <= |b| && Agree(a, b, Reach(a, id))
    ensures View(b, id) == View(a, id) && Reach(b, id) == Reach(a, id) && IsTree(b, id) == IsTree(a, id)
    decreases |a| - id, 1, Empty
  {
    FrameSlots(a, b, id, a[id]);
  }

  lemma {:induction false} FrameSlots(a: seq<Slots>, b: seq<Slots>, low: nat, slots: Slots)
    requires Ordered(a) && Ordered(b) && low < |a| <= |b| && RefsWithin(slots, low, |a|)
    requires Agree(a, b, ReachSlots(a, low, slots))
    ensures RefsWithin(slots, low, |b|)
    ensures ViewSlots(b, low, slots) == ViewSlots(a, low, slots)
    ensures ReachSlots(b, low, slots) == ReachSlots(a, low, slots)
    ensures IsTreeSlots(b, low, slots) == IsTreeSlots(a, low, slots)
    decreases |a| - low, 0, slots
  {
    match slots
    case Empty =>
    case Slots(_, s, rest) =>
      FrameSlots(a, b, low, rest);
      if s.Ref? {
        assert ReachSlot(a, low, s) == Reach(a, s.id);
        Frame(a, b, s.id);
      }
  }

  lemma {:induction false} ReachBounds(objects: seq<Slots>, low: nat, slots: Slots)
    requires Ordered(objects) && low < |objects| && RefsWithin(slots, low, |objects|)
    ensures forall x | x in ReachSlots(objects, low, slots) :: low < x < |objects|
    decreases |objects| - low, slots
  {
    match slots
    case Empty =>
    case Slots(_, s, rest) =>
      ReachBounds(objects, low, rest);
      if s.Ref? {
        ReachBounds(objects, s.id, objects[s.id]);
        assert ReachSlot(objects, low, s) == {s.id} + ReachSlots(objects, s.id, objects[s.id]);
      }
  }

  // ----- one property assignment -----

  /** What is reachable through the slots other than the first one called `name`. */
  ghost function OtherReach(objects: seq<Slots>, low: nat, slots: Slots, name: string): set<nat>
    requires Ordered(objects) && low < |objects| && RefsWithin(slots, low, |objects|)
  {
    match slots
    case Empty => {}
    case Slots(n, s, rest) =>
      if n == name then ReachSlots(objects, low, rest)
      else ReachSlot(objects, low, s) + OtherReach(objects, low, rest, name)
  }

  lemma {:induction false} OtherReachWithin(objects: seq<Slots>, low: nat, slots: Slots, name: string)
    requires Ordered(objects) && low < |objects| && RefsWithin(slots, low, |objects|)
    ensures OtherReach(objects, low, slots, name) <= ReachSlots(objects, low, slots)
    ensures Find(slots, name) == None ==> OtherReach(objects, low, slots, name) == ReachSlots(objects, low, slots)
    ensures Find(slots, name).Some? ==>
      var s := Find(slots, name).value;
      && (s.Ref? ==> low < s.id < |objects|)
      && ReachSlot(objects, low, s) <= ReachSlots(objects, low, slots)
      && (IsTreeSlots(objects, low, slots) ==>
            ReachSlot(objects, low, s) !! OtherReach(objects, low, slots, name)
            && (s.Ref? ==> IsTree(objects, s.id)))
  {
    match slots
    case Empty =>
    case Slots(n, s, rest) =>
      if n != name {
        OtherReachWithin(objects, low, rest, name);
      }
  }

  ghost function ViewSlot(objects: seq<Slots>, low: nat, slot: Slot): Value
    requires Ordered(objects) && low < |objects| && (slot.Ref? ==> low < slot.id < |objects|)
  {
    if slot.Ref? then Sub(View(objects, slot.id)) else Text(slot.text)
  }

  lemma {:induction false} PutViews(a: seq<Slots>, b: seq<Slots>, low: nat, slots: Slots, name: string, slot: Slot)
    requires Ordered(a) && Ordered(b) && low < |a| <= |b| && RefsWithin(slots, low, |a|)
    requires slot.Ref? ==> low < slot.id < |b|
    requires Agree(a, b, OtherReach(a, low, slots, name))
    ensures RefsWithin(Put(slots, name, slot), low, |b|)
    ensures ViewSlots(b, low, Put(slots, name, slot)) == Assign(ViewSlots(a, low, slots), name, ViewSlot(b, low, slot))
    ensures ReachSlots(b, low, Put(slots, name, slot)) == OtherReach(a, low, slots, name) + ReachSlot(b, low, slot)
    ensures IsTreeSlots(a, low, slots) && (slot.Ref? ==> IsTree(b, slot.id))
      && ReachSlot(b, low, slot) !! OtherReach(a, low, slots, name)
      ==> IsTreeSlots(b, low, Put(slots, name, slot))
  {
    match slots
    case Empty =>
    case Slots(n, s, rest) =>
      if n == name {
        FrameSlots(a, b, low, rest);
      } else {
        OtherReachWithin(a, low, rest, name);
        PutViews(a, b, low, rest, name, slot);
        if s.Ref? {
          Frame(a, b, s.id);
        }
      }
  }

  lemma {:induction false} FindViews(objects: seq<Slots>, low: nat, slots: Slots, name: string)
    requires Ordered(objects) && low < |objects| && RefsWithin(slots, low, |objects|)
    ensures Find(slots, name).Some? ==> (Find(slots, name).value.Ref? ==> low < Find(slots, name).value.id < |objects|)
    ensures Lookup(ViewSlots(objects, low, slots), name) ==
      (match Find(slots, name) case None => None case Some(s) => Some(ViewSlot(objects, low, s)))
    ensures Find(slots, name).Some? ==> Put(slots, name, Find(slots, name).value) == slots
  {
    match slots
    case Empty =>
    case Slots(n, _, rest) =>
      if n != name {
        FindViews(objects, low, rest, name);
      }
  }

  // ----- setNestedValue -----

  /** The assignments of the cursor loop from object `cursor` on. */
  function Store(objects: seq<Slots>, cursor: nat, parts: seq<string>, text: string): seq<Slots>
    requires Ordered(objects) && cursor < |objects| && parts != []
    decreases |parts|
  {
    var slots, name := objects[cursor], parts[0];
    if |parts| == 1 then if name == PROTO then objects else objects[cursor := Put(slots, name, TextSlot(text))]
    else
      match Find(slots, name)
      case Some(Ref(next)) =>
        FindViews(objects, cursor, slots, name);
        Store(objects, next, parts[1..], text)
      case found =>
        if found.None? && LeadsOut(name) then objects
        else
          Allocates(objects, cursor, name);
          Store(Allocate(objects, cursor, name), |objects|, parts[1..], text)
  }

  /** Without an own property of this name the cursor moves to an object outside the map. */
  predicate LeadsOut(name: string) {
    name in Inherited() || name == PROTO
  }

  function Allocate(objects: seq<Slots>, cursor: nat, name: string): seq<Slots>
    requires cursor < |objects|
  {
    objects[cursor := Put(objects[cursor], name, Ref(|objects|))] + [Empty]
  }

  lemma {:induction false} PutRefsWithin(slots: Slots, low: nat, high: nat, high': nat, name: string, slot: Slot)
    requires RefsWithin(slots, low, high) && high <= high' && (slot.Ref? ==> low < slot.id < high')
    ensures RefsWithin(Put(slots, name, slot), low, high') && RefsWithin(slots, low, high')
  {
    match slots
    case Empty =>
    case Slots(_, _, rest) => PutRefsWithin(rest, low, high, high', name, slot);
  }

  lemma Allocates(objects: seq<Slots>, cursor: nat, name: string)
    requires Ordered(objects) && cursor < |objects|
    ensures Ordered(Allocate(objects, cursor, name))
  {
    var objects' := Allocate(objects, cursor, name);
    forall id | 0 <= id < |objects'| ensures RefsWithin(objects'[id], id, |objects'|) {
      if id < |objects| {
        PutRefsWithin(objects[id], id, |objects|, |objects'|, name,
          if id == cursor then Ref(|objects|) else TextSlot(""));
      }
    }
  }

  /** The cursor loop changes the view of its start object as the pure function says, keeps the store a
    * tree, and touches only objects below the start object and objects it allocates. */
  lemma {:induction false} StoreRefines(objects: seq<Slots>, cursor: nat, parts: seq<string>, text: string)
    requires Ordered(objects) && cursor < |objects| && parts != [] && IsTree(objects, cursor)
    ensures var objects' := Store(objects, cursor, parts, text);
      && Ordered(objects') && |objects| <= |objects'| && IsTree(objects', cursor)
      && View(objects', cursor) == SetAt(View(objects, cursor), parts, text, Inherited())
      && (forall x | x in Reach(objects', cursor) :: x in Reach(objects, cursor) || |objects| <= x < |objects'|)
      && (forall x | 0 <= x < |objects| && x !in Reach(objects, cursor) :: objects'[x] == objects[x])
    decreases |parts|
  {
    hide Inherited;
    var slots, name := objects[cursor], parts[0];
    var objects' := Store(objects, cursor, parts, text);
    ReachBounds(objects, cursor, slots);
    OtherReachWithin(objects, cursor, slots, name);
    FindViews(objects, cursor, slots, name);
    if |parts| == 1 {
      StoreText(objects, cursor, name, text);
    } else if Find(slots, name).None? && LeadsOut(name) {
      assert objects' == objects;
    } else if Find(slots, name).Some? && Find(slots, name).value.Ref? {
      var next := Find(slots, name).value.id;
      StoreRefines(objects, next, parts[1..], text);
      assert objects'[cursor] == slots;
      assert Put(slots, name, Ref(next)) == slots;
      PutViews(objects, objects', cursor, slots, name, Ref(next));
    } else {
      StoreThroughNew(objects, cursor, parts, text);
    }
  }

  lemma StoreText(objects: seq<Slots>, cursor: nat, name: string, text: string)
    requires Ordered(objects) && cursor < |objects| && IsTree(objects, cursor)
    ensures var objects' := objects[cursor := Put(objects[cursor], name, TextSlot(text))];
      && Ordered(objects') && IsTree(objects', cursor) && Reach(objects', cursor) <= Reach(objects, cursor)
      && View(objects', cursor) == Assign(View(objects, cursor), name, Text(text))
  {
    var slots := objects[cursor];
    var objects' := objects[cursor := Put(slots, name, TextSlot(text))];
    PutRefsWithin(slots, cursor, |objects|, |objects|, name, TextSlot(text));
    ReachBounds(objects, cursor, slots);
    OtherReachWithin(objects, cursor, slots, name);
    PutViews(objects, objects', cursor, slots, name, TextSlot(text));
  }

  lemma {:induction false} StoreThroughNew(objects: seq<Slots>, cursor: nat, parts: seq<string>, text: string)
    requires Ordered(objects) && cursor < |objects| && |parts| > 1 && IsTree(objects, cursor)
    requires !(Find(objects[cursor], parts[0]).Some? && Find(objects[cursor], parts[0]).value.Ref?)
    requires Find(objects[cursor], parts[0]).Some? || !LeadsOut(parts[0])
    ensures var objects' := Store(objects, cursor, parts, text);
      && Ordered(objects') && |objects| <= |objects'| && IsTree(objects', cursor)
      && View(objects', cursor) == SetAt(View(objects, cursor), parts, text, Inherited())
      && (forall x | x in Reach(objects', cursor) :: x in Reach(objects, cursor) || |objects| <= x < |objects'|)
      && (forall x | 0 <= x < |objects| && x !in Reach(objects, cursor) :: objects'[x] == objects[x])
    decreases |parts|, 0
  {
    hide Inherited;
    var slots, name, next := objects[cursor], parts[0], |objects|;
    var middle := Allocate(objects, cursor, name);
    var objects' := Store(objects, cursor, parts, text);
    Allocates(objects, cursor, name);
    ReachBounds(objects, cursor, slots);
    OtherReachWithin(objects, cursor, slots, name);
    FindViews(objects, cursor, slots, name);
    assert middle[next] == Empty && Reach(middle, next) == {next};
    StoreRefines(middle, next, parts[1..], text);
    assert objects' == Store(middle, next, parts[1..], text);
    ReachBounds(objects', next, objects'[next]);
    assert Agree(objects, objects', OtherReach(objects, cursor, slots, name));
    PutViews(objects, objects', cursor, slots, name, Ref(next));
  }

  /** The objects of one locale map under construction; object 0 is its root. */
  class LocaleBuilder {
    var objects: seq<Slots>

    ghost predicate Valid()
      reads this
    {
      objects != [] && Ordered(objects) && IsTree(objects, 0)
    }

    ghost function Root(): Props
      reads this
      requires Valid()
    {
      View(objects, 0)
    }

    constructor ()
      ensures Valid() && Root() == Nil
    {
      objects := [Empty];
    }

    method SetNestedValue(dottedKey: string, text: string)
      requires Valid()
      modifies this
      ensures Valid() && Root() == TranslationTree.SetNestedValue(old(Root()), dottedKey, text)
    {
      hide Inherited;
      var parts := Split(dottedKey);
      ghost var goal := Store(objects, 0, parts, text);
      StoreRefines(objects, 0, parts, text);
      var cursor: nat := 0;
      var index := 0;
      while index < |parts| - 1
        invariant 0 <= index < |parts| && cursor < |objects| && Ordered(objects)
        invariant Store(objects, cursor, parts[index..], text) == goal
      {
        var next := Find(objects[cursor], parts[index]);
        FindViews(objects, cursor, objects[cursor], parts[index]);
        Allocates(objects, cursor, parts[index]);
        assert parts[index..][1..] == parts[index + 1..];
        if next.None? && LeadsOut(parts[index]) {
          // From here on the loop works on an object that is not part of the map.
          return;
        }
        if next.None? || next.value.TextSlot? {
          objects := Allocate(objects, cursor, parts[index]);
          cursor := |objects| - 1;
        } else {
          cursor := next.value.id;
        }
        index := index + 1;
      }
      if parts[|parts| - 1] != PROTO {
        objects := objects[cursor := Put(objects[cursor], parts[|parts| - 1], TextSlot(text))];
      }
    }
  }

  /** Building the next locale map pair by pair. */
  method BuildLocaleMap(pairs: seq<Pair>) returns (builder: LocaleBuilder)
    ensures fresh(builder) && builder.Valid() && builder.Root() == Rebuild(pairs)
  {
    builder := new LocaleBuilder();
    for i := 0 to |pairs|
      invariant fresh(builder) && builder.Valid()
      invariant Rebuild(pairs) == RebuildFrom(builder.Root(), pairs[i..])
    {
      assert pairs[i..][1..] == pairs[i + 1..];
      builder.SetNestedValue(pairs[i].key, pairs[i].text);
    }
  }

  /** The insertion-ordered map that `flattenTranslations` fills. */
  class FlatMap {
    var pairs: seq<Pair>

    constructor ()
      ensures pairs == []
    {
      pairs := [];
    }

    method Set(key: string, text: string)
      modifies this
      ensures pairs == MapSet(old(pairs), key, text)
    {
      var i := 0;
      while i < |pairs| && pairs[i].key != key
        invariant 0 <= i <= |pairs|
        invariant MapSet(pairs, key, text) == pairs[..i] + MapSet(pairs[i..], key, text)
      {
        i := i + 1;
      }
      pairs := if i < |pairs| then pairs[..i] + [Pair(key, text)] + pairs[i + 1..] else pairs + [Pair(key, text)];
    }
  }

  method FlattenTranslations(value: Props, prefix: string, out: FlatMap)
    modifies out
    ensures out.pairs == FlattenInto(value, prefix, old(out.pairs))
    decreases value
  {
    var rest := value;
    while rest.Cons?
      invariant FlattenInto(rest, prefix, out.pairs) == FlattenInto(value, prefix, old(out.pairs))
      invariant rest == value || rest < value
      decreases rest
    {
      var fullKey := FullKey(prefix, rest.name);
      if rest.value.Text? {
        out.Set(fullKey, rest.value.text);
      } else {
        FlattenTranslations(rest.value.props, fullKey, out);
      }
      rest := rest.rest;
    }
  }
}
