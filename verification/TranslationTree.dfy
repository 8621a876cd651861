/** Nested locale maps: `flattenTranslations` and `setNestedValue`.
  *
  * An object is the list of its own properties in enumeration order. Assigning a property keeps its
  * position when it exists and appends it otherwise, as JavaScript does for names that are not array
  * indices. A lookup of a name that every object inherits leads out of the map unless the object has its
  * own property of that name. The main results: rebuilding from the flat pairs gives back the very same
  * object, property order included; and flattening a rebuild made with other texts gives back exactly
  * those texts. */
module TranslationTree {
  import opened JsText
  import opened Lists
  import opened Separated

  datatype Value = Text(text: string) | Sub(props: Props)
  datatype Props = Nil | Cons(name: string, value: Value, rest: Props)

  datatype Pair = Pair(key: string, text: string)

  // ----- property access -----

  function Lookup(props: Props, name: string): Option<Value> {
    match props
    case Nil => None
    case Cons(n, v, rest) => if n == name then Some(v) else Lookup(rest, name)
  }

  function Assign(props: Props, name: string, value: Value): Props {
    match props
    case Nil => Cons(name, value, Nil)
    case Cons(n, v, rest) => if n == name then Cons(n, value, rest) else Cons(n, v, Assign(rest, name, value))
  }

  /** `Map.prototype.set` on an insertion-ordered map of texts. */
  function MapSet(pairs: seq<Pair>, key: string, text: string): seq<Pair> {
    if pairs == [] then [Pair(key, text)]
    else if pairs[0].key == key then [Pair(key, text)] + pairs[1..]
    else [pairs[0]] + MapSet(pairs[1..], key, text)
  }

  // ----- flattening -----

  function FullKey(prefix: string, name: string): string {
    if prefix != "" then prefix + "." + name else name
  }

  function FlattenInto(props: Props, prefix: string, out: seq<Pair>): seq<Pair>
    decreases props
  {
    match props
    case Nil => out
    case Cons(name, value, rest) => FlattenInto(rest, prefix, FlattenValue(value, FullKey(prefix, name), out))
  }

  function FlattenValue(value: Value, fullKey: string, out: seq<Pair>): seq<Pair>
    decreases value
  {
    match value
    case Text(text) => MapSet(out, fullKey, text)
    case Sub(inner) => FlattenInto(inner, fullKey, out)
  }

  function Flatten(props: Props): seq<Pair> {
    FlattenInto(props, "", [])
  }

  // ----- rebuilding -----

  /** `String.prototype.split(".")`. */
  function Split(s: string): (parts: seq<string>)
    ensures |parts| > 0
  {
    SplitAt(s, '.')
  }

  /** What every fresh object inherits: a lookup of these names finds something without an own property. */
  function Inherited(): set<string> {
    {"constructor", "hasOwnProperty", "isPrototypeOf", "propertyIsEnumerable", "toLocaleString", "toString", "valueOf",
     "__defineGetter__", "__defineSetter__", "__lookupGetter__", "__lookupSetter__", PROTO}
  }

  /** Assigning a text to this name sets no property. */
  const PROTO := "__proto__"

  /** The cursor's way along a path. An inherited name without an own property leads out of the map, which then
    * stays as it is. */
  function SetAt(props: Props, path: seq<string>, text: string, inherited: set<string>): Props
    requires path != []
    decreases |path|
  {
    var name := path[0];
    if |path| == 1 then if name == PROTO then props else Assign(props, name, Text(text))
    else
      match Lookup(props, name)
      case Some(Sub(inner)) => Assign(props, name, Sub(SetAt(inner, path[1..], text, inherited)))
      case Some(Text(_)) => Assign(props, name, Sub(SetAt(Nil, path[1..], text, inherited)))
      case None =>
        if name in inherited || name == PROTO then props
        else Assign(props, name, Sub(SetAt(Nil, path[1..], text, inherited)))
  }

  function SetNestedValue(props: Props, dottedKey: string, text: string): Props {
    SetAt(props, Split(dottedKey), text, Inherited())
  }

  /** The loop that builds the next locale map, one pair after the other. */
  function RebuildFrom(props: Props, pairs: seq<Pair>): Props
    decreases |pairs|
  {
    if pairs == [] then props
    else RebuildFrom(SetNestedValue(props, pairs[0].key, pairs[0].text), pairs[1..])
  }

  function Rebuild(pairs: seq<Pair>): Props {
    RebuildFrom(Nil, pairs)
  }

  // ----- well-formed maps -----

  predicate DotFree(name: string) {
    '.' !in name
  }

  ghost function Names(props: Props): set<string> {
    match props
    case Nil => {}
    case Cons(n, _, rest) => {n} + Names(rest)
  }

  /** What an assignment can put under a name: no object under an inherited one, and nothing under PROTO. */
  ghost predicate Ownable(name: string, value: Value) {
    name != PROTO && (value.Sub? ==> name !in Inherited())
  }

  /** Property names are distinct, dot-free and can be owned, and no nested object is empty. */
  ghost predicate Tidy(props: Props) {
    match props
    case Nil => true
    case Cons(n, v, rest) =>
      && DotFree(n) && Ownable(n, v) && n !in Names(rest) && Tidy(rest)
      && (v.Sub? ==> v.props != Nil && Tidy(v.props))
  }

  /** No property with the empty name holds an object. Below the top an empty name does no harm. */
  ghost predicate NoNamelessObject(props: Props) {
    match props
    case Nil => true
    case Cons(n, v, rest) => (n == "" ==> v.Text?) && NoNamelessObject(rest)
  }

  /** The maps the round trip gives back: tidy ones without a nameless object at the top. */
  ghost predicate WellFormed(props: Props) {
    Tidy(props) && NoNamelessObject(props)
  }

  // ----- the tree as a list of leaf paths -----

  datatype Leaf = Leaf(path: seq<string>, text: string)

  ghost function Under(name: string, leaves: seq<Leaf>): (r: seq<Leaf>)
    ensures |r| == |leaves|
    ensures forall i | 0 <= i < |r| :: r[i] == Leaf([name] + leaves[i].path, leaves[i].text)
  {
    seq(|leaves|, i requires 0 <= i < |leaves| => Leaf([name] + leaves[i].path, leaves[i].text))
  }

  ghost function Leaves(props: Props): (r: seq<Leaf>)
    ensures forall l | l in r :: l.path != []
    decreases props
  {
    match props
    case Nil => []
    case Cons(name, value, rest) => LeavesOf(name, value) + Leaves(rest)
  }

  ghost function LeavesOf(name: string, value: Value): (r: seq<Leaf>)
    ensures forall l | l in r :: l.path != [] && l.path[0] == name
    decreases value
  {
    match value
    case Text(text) => [Leaf([name], text)]
    case Sub(inner) => Under(name, Leaves(inner))
  }

  function Join(path: seq<string>): string {
    JoinWith(path, '.')
  }

  ghost predicate CleanPath(path: seq<string>) {
    path != [] && forall s | s in path :: DotFree(s)
  }

  lemma CleanIsUnseparated(path: seq<string>)
    ensures CleanPath(path) <==> path != [] && Unseparated(path, '.')
  {
    UnseparatedParts(path, '.');
  }

  /** On clean paths splitting the dotted key recovers the path. */
  lemma SplitJoin(path: seq<string>)
    requires CleanPath(path)
    ensures Split(Join(path)) == path
  {
    CleanIsUnseparated(path);
    SplitUndoesJoin(path, '.');
  }

  lemma {:induction false} LeavesClean(props: Props)
    requires Tidy(props)
    ensures forall l | l in Leaves(props) :: CleanPath(l.path) && l.path[0] in Names(props)
    ensures props != Nil ==> Leaves(props) != []
  {
    match props
    case Nil =>
    case Cons(name, Text(_), rest) => LeavesClean(rest);
    case Cons(name, Sub(inner), rest) =>
      LeavesClean(inner);
      LeavesClean(rest);
  }

  /** No leaf path is a prefix of another one, and none occurs twice. */
  ghost predicate PrefixFree(leaves: seq<Leaf>) {
    forall i, j | 0 <= i < |leaves| && 0 <= j < |leaves| && i != j :: !(leaves[i].path <= leaves[j].path)
  }

  lemma {:induction false} LeavesPrefixFree(props: Props)
    requires Tidy(props)
    ensures PrefixFree(Leaves(props))
    decreases props
  {
    hide Inherited, PrefixFree;
    match props
    case Nil => PrefixFreeNil();
    case Cons(name, value, rest) =>
      LeavesPrefixFree(rest);
      LeavesClean(rest);
      match value {
        case Text(text) =>
          PrefixFreeCat(name, [Leaf([], text)], Leaves(rest));
          assert [name] + [] == [name];
          assert Under(name, [Leaf([], text)]) == LeavesOf(name, value);
        case Sub(inner) =>
          LeavesPrefixFree(inner);
          PrefixFreeCat(name, Leaves(inner), Leaves(rest));
      }
  }

  lemma PrefixFreeNil()
    ensures PrefixFree([])
  {
  }

  /** Leaves below one name and leaves below other names do not meet. */
  lemma PrefixFreeCat(name: string, below: seq<Leaf>, rest: seq<Leaf>)
    requires (PrefixFree(below) || |below| == 1) && PrefixFree(rest)
    requires forall l | l in rest :: l.path != [] && l.path[0] != name
    ensures PrefixFree(Under(name, below) + rest)
  {
    var first := Under(name, below);
    var all := first + rest;
    forall i, j | 0 <= i < |all| && 0 <= j < |all| && i != j ensures !(all[i].path <= all[j].path) {
      if i < |first| && j < |first| {
        UnderKeepsPrefix(name, below[i].path, below[j].path);
      } else if i < |first| {
        assert all[j] == rest[j - |first|];
      } else if j < |first| {
        assert all[i] == rest[i - |first|];
      }
    }
  }

  lemma UnderKeepsPrefix(name: string, p: seq<string>, q: seq<string>)
    ensures [name] + p <= [name] + q <==> p <= q
  {
    if [name] + p <= [name] + q {
      assert p == ([name] + p)[1..] && q == ([name] + q)[1..];
    }
  }

  // ----- what flattening computes -----

  ghost function PairsUnder(prefix: seq<string>, leaves: seq<Leaf>): (r: seq<Pair>)
    ensures |r| == |leaves|
    ensures forall i | 0 <= i < |r| :: r[i] == Pair(Join(prefix + leaves[i].path), leaves[i].text)
  {
    seq(|leaves|, i requires 0 <= i < |leaves| => Pair(Join(prefix + leaves[i].path), leaves[i].text))
  }

  ghost predicate Fresh(prefix: seq<string>, leaves: seq<Leaf>, out: seq<Pair>) {
    forall l, p | l in leaves && p in out :: p.key != Join(prefix + l.path)
  }

  /** A prefix whose dotted form is not empty, or no prefix at all. */
  ghost predicate IsPrefix(prefix: seq<string>) {
    prefix == [] || (CleanPath(prefix) && prefix != [""])
  }

  lemma PrefixGrows(prefix: seq<string>, name: string)
    requires IsPrefix(prefix) && DotFree(name) && (prefix == [] ==> name != "")
    ensures IsPrefix(prefix + [name]) && prefix + [name] != []
  {
    assert prefix == [] ==> (prefix + [name])[0] == name;
  }

  lemma JoinExtend(prefix: seq<string>, name: string)
    requires IsPrefix(prefix)
    ensures Join(prefix + [name]) == FullKey(Join(prefix), name)
  {
    if prefix == [] {
      assert prefix + [name] == [name];
    } else {
      JoinSnoc(prefix, name, '.');
    }
  }

  lemma JoinInjective(p: seq<string>, q: seq<string>)
    requires CleanPath(p) && CleanPath(q) && Join(p) == Join(q)
    ensures p == q
  {
    SplitJoin(p);
    SplitJoin(q);
  }

  lemma {:induction false} MapSetFresh(out: seq<Pair>, key: string, text: string)
    requires forall p | p in out :: p.key != key
    ensures MapSet(out, key, text) == out + [Pair(key, text)]
  {
    if out != [] {
      MapSetFresh(out[1..], key, text);
    }
  }

  /** Flattening appends one pair per leaf, in order, keyed by the dotted path. */
  lemma {:induction false} FlattenIntoAppends(props: Props, prefix: seq<string>, out: seq<Pair>)
    requires Tidy(props) && IsPrefix(prefix) && (prefix == [] ==> NoNamelessObject(props))
    requires Fresh(prefix, Leaves(props), out)
    ensures FlattenInto(props, Join(prefix), out) == out + PairsUnder(prefix, Leaves(props))
    decreases props
  {
    match props
    case Nil =>
    case Cons(name, value, rest) =>
      var first := LeavesOf(name, value);
      var out' := out + PairsUnder(prefix, first);
      FlattenValueAppends(name, value, prefix, out);
      StaysFresh(props, prefix, first, Leaves(rest), out);
      FlattenIntoAppends(rest, prefix, out');
      JoinExtend(prefix, name);
      PairsUnderCat(prefix, first, Leaves(rest));
      FlattenStep(name, value, rest, Join(prefix), out, PairsUnder(prefix, first), PairsUnder(prefix, Leaves(rest)));
  }

  lemma FlattenStep(name: string, value: Value, rest: Props, prefix: string, out: seq<Pair>, a: seq<Pair>, b: seq<Pair>)
    requires FlattenValue(value, FullKey(prefix, name), out) == out + a
    requires FlattenInto(rest, prefix, out + a) == out + a + b
    ensures FlattenInto(Cons(name, value, rest), prefix, out) == out + (a + b)
  {
    hide FlattenValue;
    AppendAssoc(out, a, b);
  }

  lemma {:induction false} FlattenValueAppends(name: string, value: Value, prefix: seq<string>, out: seq<Pair>)
    requires DotFree(name) && (value.Sub? ==> Tidy(value.props)) && IsPrefix(prefix)
    requires prefix == [] && value.Sub? ==> name != ""
    requires Fresh(prefix, LeavesOf(name, value), out)
    ensures FlattenValue(value, Join(prefix + [name]), out) == out + PairsUnder(prefix, LeavesOf(name, value))
    decreases value
  {
    match value
    case Text(text) =>
      assert LeavesOf(name, value)[0] in LeavesOf(name, value);
      MapSetFresh(out, Join(prefix + [name]), text);
    case Sub(inner) =>
      FreshBelow(prefix, name, Leaves(inner), out);
      PrefixGrows(prefix, name);
      FlattenIntoAppends(inner, prefix + [name], out);
      PairsUnderNested(prefix, name, Leaves(inner));
  }

  lemma PairsUnderCat(prefix: seq<string>, first: seq<Leaf>, rest: seq<Leaf>)
    ensures PairsUnder(prefix, first + rest) == PairsUnder(prefix, first) + PairsUnder(prefix, rest)
  {
  }

  lemma FreshBelow(prefix: seq<string>, name: string, leaves: seq<Leaf>, out: seq<Pair>)
    requires Fresh(prefix, Under(name, leaves), out)
    ensures Fresh(prefix + [name], leaves, out)
  {
    forall l, p | l in leaves && p in out ensures p.key != Join(prefix + [name] + l.path) {
      var i :| 0 <= i < |leaves| && leaves[i] == l;
      assert Under(name, leaves)[i] in Under(name, leaves);
      assert prefix + [name] + l.path == prefix + ([name] + l.path);
    }
  }

  lemma PairsUnderNested(prefix: seq<string>, name: string, leaves: seq<Leaf>)
    ensures PairsUnder(prefix + [name], leaves) == PairsUnder(prefix, Under(name, leaves))
  {
    forall i | 0 <= i < |leaves|
      ensures PairsUnder(prefix + [name], leaves)[i] == PairsUnder(prefix, Under(name, leaves))[i]
    {
      assert prefix + [name] + leaves[i].path == prefix + ([name] + leaves[i].path);
    }
  }

  /** Keys already written never collide with the keys of the leaves still to come. */
  lemma StaysFresh(props: Props, prefix: seq<string>, first: seq<Leaf>, rest: seq<Leaf>, out: seq<Pair>)
    requires Tidy(props) && IsPrefix(prefix)
    requires Leaves(props) == first + rest && Fresh(prefix, Leaves(props), out)
    ensures Fresh(prefix, rest, out + PairsUnder(prefix, first))
  {
    hide Leaves, Tidy, Join;
    LeavesPrefixFree(props);
    LeavesClean(props);
    forall l, p | l in rest && p in PairsUnder(prefix, first) ensures p.key != Join(prefix + l.path) {
      var i :| 0 <= i < |first| && p == PairsUnder(prefix, first)[i];
      var j :| 0 <= j < |rest| && rest[j] == l;
      assert Leaves(props)[i] == first[i] && Leaves(props)[|first| + j] == l;
      assert CleanPath(first[i].path) && CleanPath(l.path);
      if p.key == Join(prefix + l.path) {
        JoinInjective(prefix + first[i].path, prefix + l.path);
        CancelPrefix(prefix, first[i].path, l.path);
      }
    }
  }

  lemma CancelPrefix(prefix: seq<string>, p: seq<string>, q: seq<string>)
    requires prefix + p == prefix + q
    ensures p == q
  {
    assert p == (prefix + p)[|prefix|..] && q == (prefix + q)[|prefix|..];
  }

  lemma FlattenIsLeaves(props: Props)
    requires WellFormed(props)
    ensures Flatten(props) == PairsUnder([], Leaves(props))
  {
    FlattenIntoAppends(props, [], []);
  }

  // ----- what rebuilding computes -----

  ghost function InsertAll(props: Props, leaves: seq<Leaf>): Props
    requires forall l | l in leaves :: l.path != []
    decreases |leaves|
  {
    if leaves == [] then props
    else InsertAll(SetAt(props, leaves[0].path, leaves[0].text, Inherited()), leaves[1..])
  }

  function Cat(props: Props, more: Props): Props {
    match props
    case Nil => more
    case Cons(n, v, rest) => Cons(n, v, Cat(rest, more))
  }

  lemma {:induction false} AssignNew(props: Props, name: string, value: Value)
    requires name !in Names(props)
    ensures Assign(props, name, value) == Cat(props, Cons(name, value, Nil))
    ensures Lookup(props, name) == None
    ensures Names(Cat(props, Cons(name, value, Nil))) == Names(props) + {name}
  {
    match props
    case Nil =>
    case Cons(_, _, rest) => AssignNew(rest, name, value);
  }

  lemma {:induction false} AssignLast(props: Props, name: string, previous: Value, value: Value)
    requires name !in Names(props)
    ensures Assign(Cat(props, Cons(name, previous, Nil)), name, value) == Cat(props, Cons(name, value, Nil))
    ensures Lookup(Cat(props, Cons(name, previous, Nil)), name) == Some(previous)
  {
    match props
    case Nil =>
    case Cons(_, _, rest) => AssignLast(rest, name, previous, value);
  }

  lemma {:induction false} CatAssoc(a: Props, b: Props, c: Props)
    ensures Cat(Cat(a, b), c) == Cat(a, Cat(b, c))
    ensures Cat(a, Nil) == a
  {
    match a
    case Nil =>
    case Cons(_, _, rest) => CatAssoc(rest, b, c);
  }

  lemma {:induction false} InsertAllSplit(props: Props, first: seq<Leaf>, rest: seq<Leaf>)
    requires forall l | l in first :: l.path != []
    requires forall l | l in rest :: l.path != []
    ensures forall l | l in first + rest :: l.path != []
    ensures InsertAll(props, first + rest) == InsertAll(InsertAll(props, first), rest)
    decreases |first|
  {
    if first == [] {
      assert first + rest == rest;
    } else {
      InsertAllSplit(SetAt(props, first[0].path, first[0].text, Inherited()), first[1..], rest);
      assert (first + rest)[1..] == first[1..] + rest;
    }
  }

  /** Inserting below an existing object changes that object and nothing else. */
  lemma {:induction false} InsertBelow(props: Props, name: string, inner: Props, leaves: seq<Leaf>)
    requires name !in Names(props) && forall l | l in leaves :: l.path != []
    ensures InsertAll(Cat(props, Cons(name, Sub(inner), Nil)), Under(name, leaves))
         == Cat(props, Cons(name, Sub(InsertAll(inner, leaves)), Nil))
    decreases |leaves|
  {
    hide Inherited;
    if leaves != [] {
      var inner' := SetAt(inner, leaves[0].path, leaves[0].text, Inherited());
      var path := Under(name, leaves)[0].path;
      assert path[1..] == leaves[0].path;
      AssignLast(props, name, Sub(inner), Sub(inner'));
      assert Under(name, leaves)[1..] == Under(name, leaves[1..]);
      InsertBelow(props, name, inner', leaves[1..]);
    }
  }

  /** The first insertion creates the nested object, the others fill it. */
  lemma InsertNested(props: Props, name: string, leaves: seq<Leaf>)
    requires name !in Names(props) && leaves != [] && forall l | l in leaves :: l.path != []
    requires name != PROTO && name !in Inherited()
    ensures InsertAll(props, Under(name, leaves)) == Cat(props, Cons(name, Sub(InsertAll(Nil, leaves)), Nil))
  {
    hide Inherited;
    var inner := SetAt(Nil, leaves[0].path, leaves[0].text, Inherited());
    var path := Under(name, leaves)[0].path;
    assert path[1..] == leaves[0].path;
    AssignNew(props, name, Sub(inner));
    assert Under(name, leaves)[1..] == Under(name, leaves[1..]);
    InsertBelow(props, name, inner, leaves[1..]);
  }

  lemma InsertText(acc: Props, name: string, text: string, rest: Props)
    requires name != PROTO
    ensures InsertAll(acc, Leaves(Cons(name, Text(text), rest)))
        == InsertAll(Assign(acc, name, Text(text)), Leaves(rest))
  {
    hide Inherited;
    var leaf := Leaf([name], text);
    assert LeavesOf(name, Text(text)) == [leaf];
    assert ([leaf] + Leaves(rest))[1..] == Leaves(rest);
    assert SetAt(acc, [name], text, Inherited()) == Assign(acc, name, Text(text));
  }

  lemma {:induction false} InsertLeaves(acc: Props, props: Props)
    requires Tidy(props) && Names(acc) !! Names(props)
    ensures InsertAll(acc, Leaves(props)) == Cat(acc, props)
    decreases props
  {
    hide Inherited;
    match props
    case Nil => CatAssoc(acc, Nil, Nil);
    case Cons(name, value, rest) =>
      var one := Cons(name, value, Nil);
      AssignNew(acc, name, value);
      CatAssoc(acc, one, rest);
      InsertLeaves(Cat(acc, one), rest);
      match value
      case Text(text) =>
        InsertText(acc, name, text, rest);
      case Sub(inner) =>
        LeavesClean(inner);
        InsertLeaves(Nil, inner);
        InsertNested(acc, name, Leaves(inner));
        InsertAllSplit(acc, Under(name, Leaves(inner)), Leaves(rest));
  }

  lemma {:induction false} RebuildIsInsertAll(props: Props, leaves: seq<Leaf>)
    requires forall l | l in leaves :: l.path != [] && CleanPath(l.path)
    ensures RebuildFrom(props, PairsUnder([], leaves)) == InsertAll(props, leaves)
    decreases |leaves|
  {
    hide Inherited;
    if leaves != [] {
      SplitJoin(leaves[0].path);
      assert [] + leaves[0].path == leaves[0].path;
      assert PairsUnder([], leaves)[1..] == PairsUnder([], leaves[1..]);
      RebuildIsInsertAll(SetAt(props, leaves[0].path, leaves[0].text, Inherited()), leaves[1..]);
    }
  }

  // ----- the round trips -----

  /** Rebuilding the flat pairs of a well-formed map gives back that map, property order included. */
  lemma RebuildUndoesFlatten(props: Props)
    requires WellFormed(props)
    ensures Rebuild(Flatten(props)) == props
  {
    FlattenIsLeaves(props);
    LeavesClean(props);
    RebuildIsInsertAll(Nil, Leaves(props));
    InsertLeaves(Nil, props);
  }

  /** The texts the next locale map uses: `nextFlat.get(key) ?? value`. */
  function Retext(pairs: seq<Pair>, next: map<string, string>): (r: seq<Pair>)
    ensures |r| == |pairs|
    ensures forall i | 0 <= i < |r| ::
      r[i].key == pairs[i].key && r[i].text == if pairs[i].key in next then next[pairs[i].key] else pairs[i].text
  {
    seq(|pairs|, i requires 0 <= i < |pairs| =>
      Pair(pairs[i].key, if pairs[i].key in next then next[pairs[i].key] else pairs[i].text))
  }

  ghost function RetextTree(props: Props, prefix: seq<string>, next: map<string, string>): Props
    decreases props
  {
    match props
    case Nil => Nil
    case Cons(name, value, rest) =>
      Cons(name, RetextValue(value, prefix + [name], next), RetextTree(rest, prefix, next))
  }

  ghost function RetextValue(value: Value, path: seq<string>, next: map<string, string>): Value
    decreases value
  {
    match value
    case Text(text) => Text(if Join(path) in next then next[Join(path)] else text)
    case Sub(inner) => Sub(RetextTree(inner, path, next))
  }

  lemma RetextCat(first: seq<Pair>, rest: seq<Pair>, next: map<string, string>)
    ensures Retext(first + rest, next) == Retext(first, next) + Retext(rest, next)
  {
  }

  lemma {:induction false} RetextTreeLeaves(props: Props, prefix: seq<string>, next: map<string, string>)
    requires Tidy(props)
    ensures var other := RetextTree(props, prefix, next);
      && Tidy(other) && Names(other) == Names(props) && (NoNamelessObject(other) <==> NoNamelessObject(props))
      && PairsUnder(prefix, Leaves(other)) == Retext(PairsUnder(prefix, Leaves(props)), next)
    decreases props
  {
    match props
    case Nil =>
    case Cons(name, value, rest) =>
      var value', rest' := RetextValue(value, prefix + [name], next), RetextTree(rest, prefix, next);
      RetextTreeLeaves(rest, prefix, next);
      RetextValueLeaves(name, value, prefix, next);
      assert PairsUnder(prefix, Leaves(Cons(name, value', rest')))
          == Retext(PairsUnder(prefix, Leaves(props)), next) by {
        PairsUnderCat(prefix, LeavesOf(name, value), Leaves(rest));
        PairsUnderCat(prefix, LeavesOf(name, value'), Leaves(rest'));
        RetextCat(PairsUnder(prefix, LeavesOf(name, value)), PairsUnder(prefix, Leaves(rest)), next);
      }
  }

  lemma {:induction false} RetextValueLeaves(name: string, value: Value, prefix: seq<string>, next: map<string, string>)
    requires value.Sub? ==> Tidy(value.props) && value.props != Nil
    ensures var other := RetextValue(value, prefix + [name], next);
      && (other.Sub? <==> value.Sub?) && (other.Sub? ==> Tidy(other.props) && other.props != Nil)
      && PairsUnder(prefix, LeavesOf(name, other)) == Retext(PairsUnder(prefix, LeavesOf(name, value)), next)
    decreases value
  {
    match value
    case Text(_) =>
    case Sub(inner) =>
      RetextTreeLeaves(inner, prefix + [name], next);
      PairsUnderNested(prefix, name, Leaves(inner));
      PairsUnderNested(prefix, name, Leaves(RetextTree(inner, prefix + [name], next)));
  }

  /** Flattening a rebuild made with other texts returns exactly those texts under the same keys. */
  lemma FlattenUndoesRebuild(props: Props, next: map<string, string>)
    requires WellFormed(props)
    ensures Flatten(Rebuild(Retext(Flatten(props), next))) == Retext(Flatten(props), next)
  {
    var other := RetextTree(props, [], next);
    RetextTreeLeaves(props, [], next);
    FlattenIsLeaves(props);
    FlattenIsLeaves(other);
    RebuildUndoesFlatten(other);
  }

  /** Flat keys are pairwise distinct and no key is the dotted prefix of another, so no insertion
    * made while rebuilding overwrites an earlier one. */
  lemma FlatKeysPrefixFree(props: Props, i: nat, j: nat)
    requires WellFormed(props) && i < |Flatten(props)| && j < |Flatten(props)| && i != j
    ensures Flatten(props)[i].key != Flatten(props)[j].key
    ensures !(Flatten(props)[i].key + "." <= Flatten(props)[j].key)
  {
    FlattenIsLeaves(props);
    LeavesClean(props);
    LeavesPrefixFree(props);
    var p, q := Leaves(props)[i].path, Leaves(props)[j].path;
    assert Leaves(props)[i] in Leaves(props) && Leaves(props)[j] in Leaves(props);
    assert [] + p == p && [] + q == q;
    if Join(p) == Join(q) {
      JoinInjective(p, q);
    }
    if Join(p) + "." <= Join(q) {
      var tail := Join(q)[|Join(p)| + 1..];
      assert Join(q) == Join(p) + "." + tail;
      SplitPrefix(p, tail);
      SplitJoin(q);
    }
  }

  lemma SplitPrefix(p: seq<string>, tail: string)
    requires CleanPath(p)
    ensures Split(Join(p) + "." + tail) == p + Split(tail)
  {
    SplitConcat(Join(p), tail, '.');
    SplitJoin(p);
  }
}
