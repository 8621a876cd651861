/** Exactly which locale maps `flattenTranslations` and `setNestedValue` give back.
  *
  * An insertion adds one text unless it replaces something, leads out of the map through an inherited name, or assigns
  * to `__proto__`. So a map comes back only if every one of its insertions fits. What an insertion does to the shared
  * objects outside the map may change what later lookups inherit; the result does not depend on that. */
module RoundTrip {
  import opened JsText
  import opened Separated
  import opened TranslationTree

  lemma SplitClean(key: string)
    ensures CleanPath(Split(key))
  {
    SplitUnseparated(key, '.');
    CleanIsUnseparated(Split(key));
  }

  lemma {:induction false} AssignTidy(props: Props, name: string, value: Value)
    requires Tidy(props) && DotFree(name) && Ownable(name, value)
    requires value.Sub? ==> value.props != Nil && Tidy(value.props)
    ensures Tidy(Assign(props, name, value)) && Assign(props, name, value) != Nil
    ensures Names(Assign(props, name, value)) == Names(props) + {name}
  {
    match props
    case Nil =>
    case Cons(_, _, rest) => AssignTidy(rest, name, value);
  }

  lemma {:induction false} LookupTidy(props: Props, name: string)
    requires Tidy(props) && Lookup(props, name).Some? && Lookup(props, name).value.Sub?
    ensures var inner := Lookup(props, name).value.props;
      inner != Nil && Tidy(inner) && Ownable(name, Sub(inner))
  {
    hide Inherited;
    match props
    case Nil =>
    case Cons(n, _, rest) =>
      if n != name {
        LookupTidy(rest, name);
      }
  }

  /** No key begins with a dot. */
  ghost predicate Undotted(pairs: seq<Pair>) {
    forall p | p in pairs :: p.key == "" || p.key[0] != '.'
  }

  lemma {:induction false} MapSetUndotted(pairs: seq<Pair>, key: string, text: string)
    requires Undotted(pairs) && (key == "" || key[0] != '.')
    ensures Undotted(MapSet(pairs, key, text))
  {
    if pairs != [] {
      assert pairs == [pairs[0]] + pairs[1..];
      assert pairs[0] in pairs && Undotted(pairs[1..]);
      if pairs[0].key != key {
        MapSetUndotted(pairs[1..], key, text);
      }
    }
  }

  lemma FullKeyUndotted(prefix: string, name: string)
    requires DotFree(name) && (prefix == "" || prefix[0] != '.')
    ensures var key := FullKey(prefix, name); key == "" || key[0] != '.'
  {
    assert name != "" ==> name[0] in name;
  }

  lemma {:induction false} FlattenUndotted(props: Props, prefix: string, out: seq<Pair>)
    requires Tidy(props) && Undotted(out) && (prefix == "" || prefix[0] != '.')
    ensures Undotted(FlattenInto(props, prefix, out))
    decreases props
  {
    match props
    case Nil =>
    case Cons(name, value, rest) =>
      FullKeyUndotted(prefix, name);
      FlattenValueUndotted(value, FullKey(prefix, name), out);
      FlattenUndotted(rest, prefix, FlattenValue(value, FullKey(prefix, name), out));
  }

  lemma {:induction false} FlattenValueUndotted(value: Value, key: string, out: seq<Pair>)
    requires (value.Sub? ==> Tidy(value.props)) && Undotted(out) && (key == "" || key[0] != '.')
    ensures Undotted(FlattenValue(value, key, out))
    decreases value
  {
    match value
    case Text(text) => MapSetUndotted(out, key, text);
    case Sub(inner) => FlattenUndotted(inner, key, out);
  }

  lemma {:induction false} AssignNamed(props: Props, name: string, value: Value)
    requires NoNamelessObject(props) && (name == "" ==> value.Text?)
    ensures NoNamelessObject(Assign(props, name, value))
  {
    match props
    case Nil =>
    case Cons(_, _, rest) => AssignNamed(rest, name, value);
  }

  lemma FirstPart(key: string)
    requires key == "" || key[0] != '.'
    ensures |Split(key)| > 1 ==> Split(key)[0] != ""
  {
  }

  lemma {:induction false} SetAtNamed(props: Props, path: seq<string>, text: string)
    requires path != [] && NoNamelessObject(props) && (|path| > 1 ==> path[0] != "")
    ensures NoNamelessObject(SetAt(props, path, text, Inherited()))
  {
    hide Inherited;
    if |path| == 1 {
      AssignNamed(props, path[0], Text(text));
    } else {
      var inner := match Lookup(props, path[0]) case Some(Sub(m)) => m case _ => Nil;
      AssignNamed(props, path[0], Sub(SetAt(inner, path[1..], text, Inherited())));
    }
  }

  lemma {:induction false} RebuildNamed(props: Props, pairs: seq<Pair>)
    requires NoNamelessObject(props) && Undotted(pairs)
    ensures NoNamelessObject(RebuildFrom(props, pairs))
    decreases |pairs|
  {
    hide SetAt, Inherited;
    if pairs != [] {
      assert pairs[0] in pairs && forall p | p in pairs[1..] :: p in pairs;
      FirstPart(pairs[0].key);
      SetAtNamed(props, Split(pairs[0].key), pairs[0].text);
      RebuildNamed(SetNestedValue(props, pairs[0].key, pairs[0].text), pairs[1..]);
    }
  }

  // ----- insertions that fit -----

  /** The insertion adds a new property, and its way leads through own objects and new ones only. */
  ghost predicate Fits(props: Props, path: seq<string>, inherited: set<string>)
    requires path != []
    decreases |path|
  {
    if |path| == 1 then path[0] !in Names(props) && path[0] != PROTO
    else
      match Lookup(props, path[0])
      case Some(Sub(inner)) => Fits(inner, path[1..], inherited)
      case Some(Text(_)) => false
      case None => path[0] != PROTO && path[0] !in inherited && Fits(Nil, path[1..], inherited)
  }

  ghost function Texts(props: Props): nat {
    match props
    case Nil => 0
    case Cons(_, value, rest) => TextsOf(value) + Texts(rest)
  }

  ghost function TextsOf(value: Value): nat {
    match value
    case Text(_) => 1
    case Sub(inner) => Texts(inner)
  }

  lemma {:induction false} LookupNames(props: Props, name: string)
    ensures Lookup(props, name).None? <==> name !in Names(props)
  {
    match props
    case Nil =>
    case Cons(_, _, rest) => LookupNames(rest, name);
  }

  lemma {:induction false} AssignTexts(props: Props, name: string, value: Value)
    ensures Texts(Assign(props, name, value))
        + (if Lookup(props, name).Some? then TextsOf(Lookup(props, name).value) else 0)
      == Texts(props) + TextsOf(value)
  {
    match props
    case Nil =>
    case Cons(_, _, rest) => AssignTexts(rest, name, value);
  }

  lemma {:induction false} TidyHasTexts(props: Props)
    requires Tidy(props) && props != Nil
    ensures Texts(props) >= 1
  {
    hide Inherited;
    if props.value.Sub? {
      TidyHasTexts(props.value.props);
    }
  }

  /** An insertion adds at most one text, and in a tidy map exactly one only if it fits. */
  lemma {:induction false} OneTextAtMost(props: Props, path: seq<string>, text: string, inherited: set<string>)
    requires path != []
    ensures Texts(SetAt(props, path, text, inherited)) <= Texts(props) + 1
    ensures Tidy(props) && Texts(SetAt(props, path, text, inherited)) == Texts(props) + 1
        ==> Fits(props, path, inherited)
    decreases |path|
  {
    hide Inherited;
    var found := Lookup(props, path[0]);
    LookupNames(props, path[0]);
    if Tidy(props) && found.Some? && found.value.Sub? {
      LookupTidy(props, path[0]);
      TidyHasTexts(found.value.props);
    }
    if |path| == 1 {
      AssignTexts(props, path[0], Text(text));
    } else {
      var inner := match found case Some(Sub(m)) => m case _ => Nil;
      OneTextAtMost(inner, path[1..], text, inherited);
      AssignTexts(props, path[0], Sub(SetAt(inner, path[1..], text, inherited)));
    }
  }

  /** Insertions that fit keep a map tidy. */
  lemma {:induction false} FittingStaysTidy(props: Props, path: seq<string>, text: string)
    requires Tidy(props) && CleanPath(path) && Fits(props, path, Inherited())
    ensures Tidy(SetAt(props, path, text, Inherited())) && SetAt(props, path, text, Inherited()) != Nil
    decreases |path|
  {
    hide Inherited;
    assert DotFree(path[0]);
    if |path| == 1 {
      AssignTidy(props, path[0], Text(text));
    } else {
      var found := Lookup(props, path[0]);
      var inner := match found case Some(Sub(m)) => m case _ => Nil;
      if found.Some? {
        LookupTidy(props, path[0]);
      }
      FittingStaysTidy(inner, path[1..], text);
      AssignTidy(props, path[0], Sub(SetAt(inner, path[1..], text, Inherited())));
    }
  }

  lemma {:induction false} MapSetLength(pairs: seq<Pair>, key: string, text: string)
    ensures |MapSet(pairs, key, text)| <= |pairs| + 1
  {
    if pairs != [] && pairs[0].key != key {
      MapSetLength(pairs[1..], key, text);
    }
  }

  lemma {:induction false} FlattenLength(props: Props, prefix: string, out: seq<Pair>)
    ensures |FlattenInto(props, prefix, out)| <= |out| + Texts(props)
    decreases props
  {
    match props
    case Nil =>
    case Cons(name, value, rest) =>
      FlattenValueLength(value, FullKey(prefix, name), out);
      FlattenLength(rest, prefix, FlattenValue(value, FullKey(prefix, name), out));
  }

  lemma {:induction false} FlattenValueLength(value: Value, key: string, out: seq<Pair>)
    ensures |FlattenValue(value, key, out)| <= |out| + TextsOf(value)
    decreases value
  {
    match value
    case Text(text) => MapSetLength(out, key, text);
    case Sub(inner) => FlattenLength(inner, key, out);
  }

  // ----- rebuilding while the inherited names may change -----

  /** Rebuilding when each insertion meets inherited names of its own. */
  ghost function RebuildIn(props: Props, pairs: seq<Pair>, worlds: seq<set<string>>): Props
    requires |worlds| == |pairs|
    decreases |pairs|
  {
    if pairs == [] then props
    else RebuildIn(SetAt(props, Split(pairs[0].key), pairs[0].text, worlds[0]), pairs[1..], worlds[1..])
  }

  /** The inherited names are the usual ones for as long as every insertion fits; after that they are arbitrary. */
  ghost predicate Usual(props: Props, pairs: seq<Pair>, worlds: seq<set<string>>)
    requires |worlds| == |pairs|
    decreases |pairs|
  {
    pairs == [] ||
    (&& worlds[0] == Inherited()
     && (Fits(props, Split(pairs[0].key), worlds[0]) ==>
           Usual(SetAt(props, Split(pairs[0].key), pairs[0].text, worlds[0]), pairs[1..], worlds[1..])))
  }

  lemma {:induction false} RebuiltTexts(props: Props, pairs: seq<Pair>, worlds: seq<set<string>>)
    requires |worlds| == |pairs|
    ensures Texts(RebuildIn(props, pairs, worlds)) <= Texts(props) + |pairs|
    decreases |pairs|
  {
    hide Inherited, SetAt;
    if pairs != [] {
      OneTextAtMost(props, Split(pairs[0].key), pairs[0].text, worlds[0]);
      RebuiltTexts(SetAt(props, Split(pairs[0].key), pairs[0].text, worlds[0]), pairs[1..], worlds[1..]);
    }
  }

  /** If no text is lost, every insertion fits: the result is tidy, and the one without any outside effects. */
  lemma {:induction false} NoTextLost(props: Props, pairs: seq<Pair>, worlds: seq<set<string>>)
    requires |worlds| == |pairs| && Tidy(props) && Usual(props, pairs, worlds)
    requires Texts(RebuildIn(props, pairs, worlds)) == Texts(props) + |pairs|
    ensures Tidy(RebuildIn(props, pairs, worlds))
    ensures RebuildIn(props, pairs, worlds) == RebuildFrom(props, pairs)
    decreases |pairs|
  {
    hide Inherited, SetAt;
    if pairs != [] {
      var path := Split(pairs[0].key);
      var next := SetAt(props, path, pairs[0].text, worlds[0]);
      OneTextAtMost(props, path, pairs[0].text, worlds[0]);
      RebuiltTexts(next, pairs[1..], worlds[1..]);
      SplitClean(pairs[0].key);
      FittingStaysTidy(props, path, pairs[0].text);
      NoTextLost(next, pairs[1..], worlds[1..]);
    }
  }

  /** Nothing outside plays a part while no text is lost. */
  lemma {:induction false} OutsideDoesNotMatter(props: Props, pairs: seq<Pair>, worlds: seq<set<string>>)
    requires |worlds| == |pairs| && Tidy(props) && Usual(props, pairs, worlds)
    requires Texts(RebuildFrom(props, pairs)) == Texts(props) + |pairs|
    ensures RebuildIn(props, pairs, worlds) == RebuildFrom(props, pairs)
    decreases |pairs|
  {
    hide Inherited, SetAt;
    if pairs != [] {
      var path := Split(pairs[0].key);
      var next := SetAt(props, path, pairs[0].text, worlds[0]);
      OneTextAtMost(props, path, pairs[0].text, worlds[0]);
      RebuiltFromTexts(next, pairs[1..]);
      SplitClean(pairs[0].key);
      FittingStaysTidy(props, path, pairs[0].text);
      OutsideDoesNotMatter(next, pairs[1..], worlds[1..]);
    }
  }

  lemma {:induction false} RebuiltFromTexts(props: Props, pairs: seq<Pair>)
    ensures Texts(RebuildFrom(props, pairs)) <= Texts(props) + |pairs|
    decreases |pairs|
  {
    hide Inherited, SetAt;
    if pairs != [] {
      OneTextAtMost(props, Split(pairs[0].key), pairs[0].text, Inherited());
      RebuiltFromTexts(SetNestedValue(props, pairs[0].key, pairs[0].text), pairs[1..]);
    }
  }

  lemma LeavesAreTexts(props: Props)
    ensures |Leaves(props)| == Texts(props)
    decreases props
  {
    if props.Cons? && props.value.Sub? {
      LeavesAreTexts(props.value.props);
    }
  }

  // ----- the main result -----

  /** The round trip gives a map back exactly when its names are distinct and dot-free, no nested object is empty, no
    * object stands under an inherited name and nothing under `__proto__`, and no object under the empty name at the
    * top; whatever the insertions of any other map do to what is inherited. */
  lemma RoundTripIff(props: Props, worlds: seq<set<string>>)
    requires |worlds| == |Flatten(props)| && Usual(Nil, Flatten(props), worlds)
    ensures RebuildIn(Nil, Flatten(props), worlds) == props <==> WellFormed(props)
  {
    hide Inherited, Flatten, RebuildIn, RebuildFrom, Usual;
    var pairs := Flatten(props);
    if WellFormed(props) {
      RebuildUndoesFlatten(props);
      FlattenIsLeaves(props);
      LeavesAreTexts(props);
      OutsideDoesNotMatter(Nil, pairs, worlds);
    }
    if RebuildIn(Nil, pairs, worlds) == props {
      RebuiltTexts(Nil, pairs, worlds);
      FlattenCount(props);
      NoTextLost(Nil, pairs, worlds);
      FlattenedUndotted(props);
      RebuildNamed(Nil, pairs);
    }
  }

  lemma {:induction false} SameWorld(props: Props, pairs: seq<Pair>)
    ensures var worlds := seq(|pairs|, _ => Inherited());
      Usual(props, pairs, worlds) && RebuildIn(props, pairs, worlds) == RebuildFrom(props, pairs)
    decreases |pairs|
  {
    hide Inherited, SetAt, Fits;
    if pairs != [] {
      assert seq(|pairs|, _ => Inherited())[1..] == seq(|pairs[1..]|, _ => Inherited());
      SameWorld(SetNestedValue(props, pairs[0].key, pairs[0].text), pairs[1..]);
    }
  }

  /** The same with nothing happening outside. */
  lemma RebuiltIff(props: Props)
    ensures Rebuild(Flatten(props)) == props <==> WellFormed(props)
  {
    hide Inherited, Flatten, RebuildFrom, RebuildIn, Usual, WellFormed;
    var worlds := seq(|Flatten(props)|, _ => Inherited());
    SameWorld(Nil, Flatten(props));
    RoundTripIff(props, worlds);
  }

  lemma FlattenCount(props: Props)
    ensures |Flatten(props)| <= Texts(props)
  {
    FlattenLength(props, "", []);
  }

  lemma FlattenedUndotted(props: Props)
    requires Tidy(props)
    ensures Undotted(Flatten(props))
  {
    FlattenUndotted(props, "", []);
  }

  // ----- two maps outside the condition -----

  lemma SplitTwo(first: string, second: string)
    requires DotFree(first) && DotFree(second)
    ensures Split(first + "." + second) == [first, second]
  {
    SplitPart(first, '.');
    SplitPart(second, '.');
    SplitConcat(first, second, '.');
  }

  /** An object under a name of `Object.prototype` is lost, for the cursor leaves the map, which stays empty; under any
    * other name it comes back. */
  lemma InheritedNameLosesText(name: string, text: string)
    requires DotFree(name) && name != ""
    ensures var props := Cons(name, Sub(Cons("a", Text(text), Nil)), Nil);
      && Flatten(props) == [Pair(name + ".a", text)]
      && Rebuild(Flatten(props)) ==
           if name in {"constructor", "hasOwnProperty", "isPrototypeOf", "propertyIsEnumerable", "toLocaleString",
                       "toString", "valueOf", "__proto__", "__defineGetter__", "__defineSetter__", "__lookupGetter__",
                       "__lookupSetter__"}
           then Nil else props
  {
    hide SplitAt;
    var key, inner := name + "." + "a", Cons("a", Text(text), Nil);
    assert key == name + ".a";
    SplitTwo(name, "a");
    assert Split(key) == [name, "a"] && [name, "a"][1..] == ["a"];
    FlattenOne(name, text);
    var pairs := [Pair(key, text)];
    assert pairs[1..] == [];
    InheritedAre(name);
    InheritedAre("a");
    var lost := name in Inherited() || name == PROTO;
    hide Inherited;
    assert SetAt(Nil, ["a"], text, Inherited()) == inner;
    var next := SetNestedValue(Nil, key, text);
    assert next == if lost then Nil else Cons(name, Sub(inner), Nil);
    assert RebuildFrom(Nil, pairs) == RebuildFrom(next, pairs[1..]) && RebuildFrom(next, []) == next;
  }

  lemma InheritedAre(name: string)
    ensures name in Inherited() || name == PROTO <==>
      name in {"constructor", "hasOwnProperty", "isPrototypeOf", "propertyIsEnumerable", "toLocaleString", "toString",
               "valueOf", "__proto__", "__defineGetter__", "__defineSetter__", "__lookupGetter__", "__lookupSetter__"}
  {
  }

  lemma FlattenOne(name: string, text: string)
    requires name != ""
    ensures Flatten(Cons(name, Sub(Cons("a", Text(text), Nil)), Nil)) == [Pair(name + "." + "a", text)]
  {
    var inner := Cons("a", Text(text), Nil);
    assert FlattenInto(inner, name, []) == [Pair(name + "." + "a", text)];
    assert FlattenInto(Cons(name, Sub(inner), Nil), "", []) == [Pair(name + "." + "a", text)] by {
      assert FlattenValue(Sub(inner), name, []) == [Pair(name + "." + "a", text)];
    }
  }

  /** Dots inside a property name break the round trip: the second insertion replaces the text of the
    * first one by an object, and the flat key `a` is lost. */
  lemma DottedNameLosesText()
    ensures var props := Cons("a", Text("x"), Cons("a.b", Text("y"), Nil));
      Flatten(props) == [Pair("a", "x"), Pair("a.b", "y")]
      && Flatten(Rebuild(Flatten(props))) == [Pair("a.b", "y")]
  {
    var rest := Cons("a.b", Text("y"), Nil);
    assert FlattenInto(rest, "", [Pair("a", "x")]) == [Pair("a", "x"), Pair("a.b", "y")] by {
      assert MapSet([Pair("a", "x")][1..], "a.b", "y") == [Pair("a.b", "y")];
    }
    SplitPart("a", '.');
    SplitTwo("a", "b");
    assert "a" + "." + "b" == "a.b";
    var first := SetNestedValue(Nil, "a", "x");
    assert first == Cons("a", Text("x"), Nil);
    assert SetNestedValue(first, "a.b", "y") == Cons("a", Sub(Cons("b", Text("y"), Nil)), Nil);
    var pairs := [Pair("a", "x"), Pair("a.b", "y")];
    assert pairs[1..] == [Pair("a.b", "y")] && pairs[1..][1..] == [];
    assert FlattenInto(Cons("b", Text("y"), Nil), "a", []) == [Pair("a.b", "y")];
  }
}
