/** The complaints of the appcast check, on the items and the dates of their versions. */
module AppcastRules {
  import opened JsText
  import opened Lists
  import opened SparkleBuild
  import opened Appcast

  /** A build number: digits, and at least one. */
  ghost predicate Numeric(item: Item) {
    item.sparkleVersion.Some? && item.sparkleVersion.value != "" && AllDigits(item.sparkleVersion.value)
  }

  ghost function Build(item: Item): nat
    requires Numeric(item)
  {
    Value(item.sparkleVersion.value)
  }

  ghost predicate DatedAs(item: Item, d: Date) {
    item.shortVersion.Some? && Denotes(item.shortVersion.value, d)
  }

  ghost predicate TitledAs(item: Item, title: string) {
    item.title == Some(title) || (item.title.None? && title == "unknown")
  }

  ghost function Day(d: Date): nat {
    d.year * 10000 + d.month * 100 + d.day
  }

  /** From a day on lane builds are expected: from 27 February 2026, or from the day of any item that has one. */
  ghost predicate LanesExpected(items: seq<Item>, day: nat) {
    day >= 20260227 ||
    exists i, d :: 0 <= i < |items| && Numeric(items[i]) && Build(items[i]) >= 1000000000 && DatedAs(items[i], d)
      && Day(d) <= day
  }

  ghost function FloorOf(items: seq<Item>, d: Date): nat {
    if LanesExpected(items, Day(d)) then d.year * 1000000 + d.month * 10000 + d.day * 100 + d.lane else 10 * Day(d)
  }

  // ----- the items as the check sees them -----

  lemma DatesOf(text: string)
    ensures FloorsOfVersion(text).None? <==> forall d :: !Denotes(text, d)
    ensures forall d :: Denotes(text, d) <==> FloorsOfVersion(text) == Some(Arithmetic(d)) && IsDate(d)
  {
    hide Denotes, FloorsOfVersion, Arithmetic;
    forall d ensures Denotes(text, d) <==> FloorsOfVersion(text) == Some(Arithmetic(d)) && IsDate(d) {
      FloorsAreArithmetic(text, d);
    }
    FloorsAreArithmetic(text, Date(0, 0, 0, 0));
  }

  lemma BlankHasNoDate(text: string, d: Date)
    requires text == ""
    ensures !Denotes(text, d)
  {
    assert Trim("") == "";
    forall g | IsGroups(g) ensures Version(g) != "" {
      assert |Version(g)| >= 4;
    }
  }

  lemma CalverIs(item: Item, c: CalverItem)
    ensures AsCalver(item) == Some(c) <==>
      && Numeric(item) && TitledAs(item, c.title) && c.sparkleBuild == Build(item)
      && exists d :: DatedAs(item, d) && c.floors == Arithmetic(d)
  {
    hide Denotes, FloorsOfVersion, Arithmetic, Value, AllDigits;
    if item.shortVersion.Some? {
      DatesOf(item.shortVersion.value);
      forall d ensures item.shortVersion.value == "" ==> !Denotes(item.shortVersion.value, d) {
        if item.shortVersion.value == "" {
          BlankHasNoDate(item.shortVersion.value, d);
        }
      }
      if AsCalver(item) == Some(c) {
        var d :| Denotes(item.shortVersion.value, d);
        assert DatedAs(item, d) && c.floors == Arithmetic(d);
      }
    }
  }

  lemma LanesAre(items: seq<Item>, day: nat)
    ensures LaneEra(FilterMap(items, AsCalver), day) <==> LanesExpected(items, day)
  {
    hide AsCalver, FilterMap, Build, Numeric, DatedAs, Arithmetic;
    var calver := FilterMap(items, AsCalver);
    if k :| 0 <= k < |calver| && calver[k].sparkleBuild >= LANE_BUILD_MIN && calver[k].floors.dateKey <= day {
      FilterMapMembers(items, AsCalver, calver[k]);
      var i :| 0 <= i < |items| && AsCalver(items[i]) == Some(calver[k]);
      CalverIs(items[i], calver[k]);
      var d :| DatedAs(items[i], d) && calver[k].floors == Arithmetic(d);
      DayIs(d);
      assert LanesExpected(items, day);
    }
    if i, d :| && 0 <= i < |items| && Numeric(items[i]) && Build(items[i]) >= 1000000000 && DatedAs(items[i], d)
               && Day(d) <= day
    {
      var c := CalverItem(Title(items[i]), Build(items[i]), Arithmetic(d));
      CalverIs(items[i], c);
      FilterMapMembers(items, AsCalver, c);
      DayIs(d);
      var k :| 0 <= k < |calver| && calver[k] == c;
      assert calver[k].sparkleBuild >= LANE_BUILD_MIN && calver[k].floors.dateKey <= day;
    }
  }

  lemma DayIs(d: Date)
    ensures Arithmetic(d).dateKey == Day(d) && Arithmetic(d).legacyFloor == 10 * Day(d)
    ensures Arithmetic(d).laneFloor == d.year * 1000000 + d.month * 10000 + d.day * 100 + d.lane
  {
  }

  /** The complaint about an item with a date. */
  ghost predicate TooLow(items: seq<Item>, item: Item, d: Date, error: Error) {
    && Numeric(item) && DatedAs(item, d) && Build(item) < FloorOf(items, d)
    && error.BelowFloor? && TitledAs(item, error.title) && error.sparkleBuild == Build(item)
    && error.floor == FloorOf(items, d) && (error.lane <==> LanesExpected(items, Day(d)))
  }

  lemma FloorErrorIs(items: seq<Item>, i: nat, d: Date, error: Error)
    requires i < |items| && Numeric(items[i]) && DatedAs(items[i], d)
    ensures var c := CalverItem(Title(items[i]), Build(items[i]), Arithmetic(d));
      FloorError(AdoptionDateKey(FilterMap(items, AsCalver)))(c) == Some(error) <==> TooLow(items, items[i], d, error)
  {
    hide AsCalver, FilterMap, Numeric, Build, DatedAs, Arithmetic, LanesExpected, AdoptionDateKey, LaneEra;
    var calver := FilterMap(items, AsCalver);
    DayIs(d);
    AdoptionIsLaneEra(calver, Day(d));
    LanesAre(items, Day(d));
    OwnLane(items, i, d);
    TitleIs(items[i], if error.BelowFloor? then error.title else "");
  }

  lemma TitleIs(item: Item, title: string)
    ensures TitledAs(item, title) <==> title == Title(item)
  {
  }

  lemma OwnLane(items: seq<Item>, i: nat, d: Date)
    requires i < |items| && Numeric(items[i]) && DatedAs(items[i], d)
    ensures Build(items[i]) >= LANE_BUILD_MIN ==> LanesExpected(items, Day(d))
  {
  }

  // ----- the main results -----

  /** Exactly which complaints the check makes. */
  lemma ErrorsAre(items: seq<Item>, error: Error)
    ensures error in Errors(items) <==>
      match error
      case NoItems => items == []
      case MissingVersion(title) =>
        exists i :: 0 <= i < |items| && TitledAs(items[i], title) && items[i].sparkleVersion in {None, Some("")}
      case NonNumericVersion(title, version) =>
        exists i :: 0 <= i < |items| && TitledAs(items[i], title) && items[i].sparkleVersion == Some(version)
          && !AllDigits(version)
      case BelowFloor(_, _, _, _) => exists i, d :: 0 <= i < |items| && TooLow(items, items[i], d, error)
  {
    hide AsCalver, FilterMap, AdoptionDateKey, FloorError, TooLow, VersionError;
    var calver := FilterMap(items, AsCalver);
    var floor := FloorError(AdoptionDateKey(calver));
    FilterMapMembers(items, VersionError, error);
    FilterMapMembers(calver, floor, error);
    forall i | 0 <= i < |items| { VersionErrorIs(items[i], error); }
    if error.BelowFloor? {
      BelowFloorIs(items, error);
    } else {
      forall c ensures floor(c) != Some(error) { FloorErrorOnly(AdoptionDateKey(calver), c); }
    }
  }

  lemma FloorErrorOnly(adoption: nat, c: CalverItem)
    ensures FloorError(adoption)(c).Some? ==> FloorError(adoption)(c).value.BelowFloor?
  {
  }

  lemma VersionErrorIs(item: Item, error: Error)
    ensures VersionError(item) == Some(error) <==>
      match error
      case MissingVersion(title) => TitledAs(item, title) && item.sparkleVersion in {None, Some("")}
      case NonNumericVersion(title, version) =>
        TitledAs(item, title) && item.sparkleVersion == Some(version) && !AllDigits(version)
      case _ => false
  {
  }

  lemma BelowFloorIs(items: seq<Item>, error: Error)
    requires error.BelowFloor?
    ensures var calver := FilterMap(items, AsCalver);
      (exists k :: 0 <= k < |calver| && FloorError(AdoptionDateKey(calver))(calver[k]) == Some(error)) <==>
      (exists i, d :: 0 <= i < |items| && TooLow(items, items[i], d, error))
  {
    hide AsCalver, FilterMap, AdoptionDateKey, FloorError, Numeric, Build, DatedAs, Arithmetic, FloorOf, LanesExpected;
    var calver := FilterMap(items, AsCalver);
    var floor := FloorError(AdoptionDateKey(calver));
    if k :| 0 <= k < |calver| && floor(calver[k]) == Some(error) {
      FilterMapMembers(items, AsCalver, calver[k]);
      var i :| 0 <= i < |items| && AsCalver(items[i]) == Some(calver[k]);
      CalverIs(items[i], calver[k]);
      var d :| DatedAs(items[i], d) && calver[k].floors == Arithmetic(d);
      TitleIs(items[i], calver[k].title);
      FloorErrorIs(items, i, d, error);
    }
    if i, d :| 0 <= i < |items| && TooLow(items, items[i], d, error) {
      var c := CalverItem(Title(items[i]), Build(items[i]), Arithmetic(d));
      CalverIs(items[i], c);
      TitleIs(items[i], c.title);
      FilterMapMembers(items, AsCalver, c);
      var k :| 0 <= k < |calver| && calver[k] == c;
      FloorErrorIs(items, i, d, error);
    }
  }

  /** Exactly which appcasts pass: there are items, each has a build number, and none with a calendar version is below
    * the floor of its date. */
  lemma PassesOn(items: seq<Item>)
    ensures Errors(items) == [] <==>
      && items != [] && (forall i | 0 <= i < |items| :: Numeric(items[i]))
      && forall i, d | 0 <= i < |items| && Numeric(items[i]) && DatedAs(items[i], d) ::
           Build(items[i]) >= FloorOf(items, d)
  {
    hide Errors, Denotes, AllDigits, Value, FloorOf;
    forall e: Error { ErrorsAre(items, e); }
    if Errors(items) == [] {
      assert NoItems !in Errors(items);
      forall i | 0 <= i < |items| ensures Numeric(items[i]) {
        assert TitledAs(items[i], Title(items[i]));
        assert MissingVersion(Title(items[i])) !in Errors(items);
        if items[i].sparkleVersion.Some? {
          assert NonNumericVersion(Title(items[i]), items[i].sparkleVersion.value) !in Errors(items);
        }
      }
      forall i, d | 0 <= i < |items| && Numeric(items[i]) && DatedAs(items[i], d)
        ensures Build(items[i]) >= FloorOf(items, d)
      {
        var e := BelowFloor(Title(items[i]), Build(items[i]), LanesExpected(items, Day(d)), FloorOf(items, d));
        assert e !in Errors(items);
        assert Build(items[i]) < FloorOf(items, d) ==> TooLow(items, items[i], d, e);
      }
    } else {
      assert Errors(items)[0] in Errors(items);
    }
  }
}
