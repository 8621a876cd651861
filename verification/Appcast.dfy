/** The appcast check (`collectAppcastSparkleVersionErrors`), on the items' tags as the source reads them:
  * trimmed, and absent when the tag is. */
module Appcast {
  import opened JsText
  import opened Lists
  import opened SparkleBuild
  import opened Sorting

  const LANE_FLOOR_ADOPTION_DATE_KEY := 20260227

  datatype Item = Item(title: Option<string>, shortVersion: Option<string>, sparkleVersion: Option<string>)

  datatype CalverItem = CalverItem(title: string, sparkleBuild: nat, floors: Floors)

  datatype Error =
    | NoItems
    | MissingVersion(title: string)
    | NonNumericVersion(title: string, version: string)
    | BelowFloor(title: string, sparkleBuild: nat, lane: bool, floor: nat)

  function Title(item: Item): string {
    if item.title.Some? then item.title.value else "unknown"
  }

  predicate Missing(tag: Option<string>) {
    tag.None? || tag.value == ""
  }

  // ----- what each item gives -----

  /** The complaint of the first loop about an item. */
  function VersionError(item: Item): Option<Error> {
    if Missing(item.sparkleVersion) then Some(MissingVersion(Title(item)))
    else if !AllDigits(item.sparkleVersion.value) then Some(NonNumericVersion(Title(item), item.sparkleVersion.value))
    else None
  }

  /** The item as the second loop sees it, if its version is numeric and its short version a calendar one. */
  function AsCalver(item: Item): Option<CalverItem> {
    if VersionError(item).Some? || Missing(item.shortVersion) then None
    else
      match FloorsOfVersion(item.shortVersion.value)
      case None => None
      case Some(floors) => Some(CalverItem(Title(item), Value(item.sparkleVersion.value), floors))
  }

  function LaneKey(item: CalverItem): Option<nat> {
    if item.sparkleBuild >= LANE_BUILD_MIN then Some(item.floors.dateKey) else None
  }

  predicate Earlier(a: nat, b: nat) { a < b }

  /** The date from which lane floors are expected: the known one, or that of an earlier item that has one. */
  function AdoptionDateKey(calver: seq<CalverItem>): nat {
    var keys: seq<nat> := Sort<nat>(FilterMap<CalverItem, nat>(calver, LaneKey), Earlier);
    if keys == [] then LANE_FLOOR_ADOPTION_DATE_KEY
    else if keys[0] < LANE_FLOOR_ADOPTION_DATE_KEY then keys[0] else LANE_FLOOR_ADOPTION_DATE_KEY
  }

  function FloorError(adoption: nat): CalverItem -> Option<Error> {
    (item: CalverItem) =>
      var lane := item.sparkleBuild >= LANE_BUILD_MIN || item.floors.dateKey >= adoption;
      var floor := if lane then item.floors.laneFloor else item.floors.legacyFloor;
      if item.sparkleBuild < floor then Some(BelowFloor(item.title, item.sparkleBuild, lane, floor)) else None
  }

  function Errors(items: seq<Item>): seq<Error> {
    var calver := FilterMap(items, AsCalver);
    (if items == [] then [NoItems] else []) +
    FilterMap(items, VersionError) +
    FilterMap(calver, FloorError(AdoptionDateKey(calver)))
  }

  // ----- the program -----

  /** The first loop: complaints about versions, and the items with a calendar version. */
  method ReadItems(items: seq<Item>) returns (errors: seq<Error>, calverItems: seq<CalverItem>)
    ensures errors == (if items == [] then [NoItems] else []) + FilterMap(items, VersionError)
    ensures calverItems == FilterMap(items, AsCalver)
  {
    errors, calverItems := [], [];
    if |items| == 0 {
      errors := errors + [NoItems];
    }
    ghost var first := errors;
    for i := 0 to |items|
      invariant errors == first + FilterMap(items[..i], VersionError)
      invariant calverItems == FilterMap(items[..i], AsCalver)
    {
      hide FloorsOfVersion, Value, AllDigits, FilterMap;
      var item := items[i];
      FilterMapStep(items, i, VersionError);
      FilterMapStep(items, i, AsCalver);
      var title := if item.title.Some? then item.title.value else "unknown";
      if item.sparkleVersion.None? || item.sparkleVersion.value == "" {
        errors := errors + [MissingVersion(title)];
        continue;
      }
      if !AllDigits(item.sparkleVersion.value) {
        errors := errors + [NonNumericVersion(title, item.sparkleVersion.value)];
        continue;
      }
      if item.shortVersion.None? || item.shortVersion.value == "" {
        continue;
      }
      var floors := FloorsOfVersion(item.shortVersion.value);
      if floors.None? {
        continue;
      }
      calverItems := calverItems + [CalverItem(title, Value(item.sparkleVersion.value), floors.value)];
    }
    assert items[..|items|] == items;
  }

  /** Both loops. */
  method CollectErrors(items: seq<Item>) returns (errors: seq<Error>)
    ensures errors == Errors(items)
  {
    hide AdoptionDateKey, FilterMap;
    var calverItems;
    errors, calverItems := ReadItems(items);
    var adoption := AdoptionDateKey(calverItems);
    ghost var first := errors;
    FilterMapNone(FloorError(adoption));
    for i := 0 to |calverItems|
      invariant errors == first + FilterMap(calverItems[..i], FloorError(adoption))
    {
      var item := calverItems[i];
      FilterMapStep(calverItems, i, FloorError(adoption));
      var expectLaneFloor := item.sparkleBuild >= LANE_BUILD_MIN || item.floors.dateKey >= adoption;
      var floor := if expectLaneFloor then item.floors.laneFloor else item.floors.legacyFloor;
      if item.sparkleBuild < floor {
        errors := errors + [BelowFloor(item.title, item.sparkleBuild, expectLaneFloor, floor)];
      }
    }
    assert calverItems[..|calverItems|] == calverItems;
  }

  lemma FilterMapNone<A, B>(f: A -> Option<B>)
    ensures FilterMap([], f) == []
  {
  }

  // ----- the adoption date -----

  lemma {:induction false} InsertHead(x: nat, s: seq<nat>)
    ensures Insert<nat>(x, s, Earlier) != []
    ensures Insert<nat>(x, s, Earlier)[0] == if s == [] || x < s[0] then x else s[0]
  {
  }

  /** The first of the sorted keys is a least one. */
  lemma {:induction false} SortedHeadIsLeast(s: seq<nat>)
    requires s != []
    ensures var sorted := Sort<nat>(s, Earlier);
      sorted != [] && sorted[0] in s && forall x | x in s :: sorted[0] <= x
  {
    assert s == [s[0]] + s[1..];
    if |s| > 1 {
      SortedHeadIsLeast(s[1..]);
    }
    InsertHead(s[0], Sort<nat>(s[1..], Earlier));
  }

  /** Lane floors are expected of a date when it is late enough or no earlier than that of an item which already
    * has a build of the new kind. */
  ghost predicate LaneEra(calver: seq<CalverItem>, dateKey: nat) {
    dateKey >= LANE_FLOOR_ADOPTION_DATE_KEY ||
    exists i | 0 <= i < |calver| :: calver[i].sparkleBuild >= LANE_BUILD_MIN && calver[i].floors.dateKey <= dateKey
  }

  lemma AdoptionIsLaneEra(calver: seq<CalverItem>, dateKey: nat)
    ensures dateKey >= AdoptionDateKey(calver) <==> LaneEra(calver, dateKey)
  {
    var keys := FilterMap<CalverItem, nat>(calver, LaneKey);
    if keys != [] {
      SortedHeadIsLeast(keys);
      var least := Sort<nat>(keys, Earlier)[0];
      FilterMapMembers(calver, LaneKey, least);
    }
    if i :| 0 <= i < |calver| && calver[i].sparkleBuild >= LANE_BUILD_MIN && calver[i].floors.dateKey <= dateKey {
      FilterMapMembers(calver, LaneKey, calver[i].floors.dateKey);
      assert LaneKey(calver[i]) == Some(calver[i].floors.dateKey);
    }
  }

  // ----- what passes -----

  /** A build is high enough for its date. */
  ghost predicate Sufficient(calver: seq<CalverItem>, item: CalverItem) {
    && item.sparkleBuild >= item.floors.legacyFloor
    && (LaneEra(calver, item.floors.dateKey) ==> item.sparkleBuild >= item.floors.laneFloor)
  }

  /** Items come from the list, so their floors are those of a date. */
  ghost predicate Real(item: CalverItem) {
    exists d :: IsDate(d) && item.floors == Arithmetic(d)
  }

  lemma FloorErrorIff(calver: seq<CalverItem>, i: nat)
    requires i < |calver| && Real(calver[i])
    ensures FloorError(AdoptionDateKey(calver))(calver[i]).None? <==> Sufficient(calver, calver[i])
  {
    hide AdoptionDateKey;
    var item := calver[i];
    AdoptionIsLaneEra(calver, item.floors.dateKey);
    var d :| IsDate(d) && item.floors == Arithmetic(d);
    LegacyBelowLane(d);
    if item.sparkleBuild >= LANE_BUILD_MIN {
      assert LaneEra(calver, item.floors.dateKey);
    }
  }

  lemma LegacyBelowLane(d: Date)
    requires IsDate(d)
    ensures Arithmetic(d).legacyFloor <= Arithmetic(d).laneFloor
  {
  }

  lemma {:induction false} NothingKept<A, B>(s: seq<A>, f: A -> Option<B>)
    ensures FilterMap(s, f) == [] <==> forall i | 0 <= i < |s| :: f(s[i]).None?
  {
    if s != [] {
      var front, last := s[..|s| - 1], s[|s| - 1];
      NothingKept(front, f);
      assert s == front + [last];
    }
  }

  lemma CalverIsReal(items: seq<Item>, i: nat)
    requires i < |FilterMap(items, AsCalver)|
    ensures Real(FilterMap(items, AsCalver)[i])
  {
    var calver := FilterMap(items, AsCalver);
    FilterMapMembers(items, AsCalver, calver[i]);
    var k :| 0 <= k < |items| && AsCalver(items[k]) == Some(calver[i]);
    RealFloors(items[k]);
  }

  lemma RealFloors(item: Item)
    requires AsCalver(item).Some?
    ensures Real(AsCalver(item).value)
  {
    hide FloorsOfVersion, Arithmetic, Value, AllDigits;
    var v := item.shortVersion.value;
    FloorsAreArithmetic(v, Date(0, 0, 0, 0));
    var d :| Denotes(v, d);
    FloorsAreArithmetic(v, d);
    assert IsDate(d) && AsCalver(item).value.floors == Arithmetic(d);
  }

  lemma NoFloorErrorIff(items: seq<Item>)
    ensures var calver := FilterMap(items, AsCalver);
      FilterMap(calver, FloorError(AdoptionDateKey(calver))) == [] <==>
        forall i | 0 <= i < |calver| :: Sufficient(calver, calver[i])
  {
    hide AsCalver, AdoptionDateKey, FloorError, Sufficient, FilterMap, Real;
    var calver := FilterMap(items, AsCalver);
    var floor := FloorError(AdoptionDateKey(calver));
    NothingKept(calver, floor);
    forall i | 0 <= i < |calver| ensures floor(calver[i]).None? <==> Sufficient(calver, calver[i]) {
      CalverIsReal(items, i);
      FloorErrorIff(calver, i);
    }
  }

  /** The check passes exactly when there are items, each has a numeric version, and every build with a calendar
    * version is at its date's floor: the legacy floor always, and the lane floor once lane builds are in use. */
  lemma PassesIff(items: seq<Item>)
    ensures var calver := FilterMap(items, AsCalver);
      Errors(items) == [] <==>
        && items != []
        && (forall i | 0 <= i < |items| :: VersionError(items[i]).None?)
        && (forall i | 0 <= i < |calver| :: Sufficient(calver, calver[i]))
  {
    hide AsCalver, VersionError, AdoptionDateKey, FloorError, Sufficient, FilterMap;
    NothingKept(items, VersionError);
    NoFloorErrorIff(items);
  }

  // ----- order -----

  lemma AdoptionIgnoresOrder(a: seq<CalverItem>, b: seq<CalverItem>)
    requires multiset(a) == multiset(b)
    ensures AdoptionDateKey(a) == AdoptionDateKey(b)
  {
    hide AdoptionDateKey, LaneEra;
    var x, y := AdoptionDateKey(a), AdoptionDateKey(b);
    AdoptionIsLaneEra(a, x);
    LaneEraIgnoresOrder(a, b, x);
    AdoptionIsLaneEra(b, x);
    AdoptionIsLaneEra(b, y);
    LaneEraIgnoresOrder(b, a, y);
    AdoptionIsLaneEra(a, y);
  }

  lemma LaneEraIgnoresOrder(a: seq<CalverItem>, b: seq<CalverItem>, dateKey: nat)
    requires multiset(a) == multiset(b) && LaneEra(a, dateKey)
    ensures LaneEra(b, dateKey)
  {
    if dateKey < LANE_FLOOR_ADOPTION_DATE_KEY {
      var i :| 0 <= i < |a| && a[i].sparkleBuild >= LANE_BUILD_MIN && a[i].floors.dateKey <= dateKey;
      assert a[i] in multiset(a);
      var k := WhereIs(a[i], b);
    }
  }

  /** The errors are the same whatever the order of the items, as often as each occurs. */
  lemma ErrorsIgnoreOrder(a: seq<Item>, b: seq<Item>)
    requires multiset(a) == multiset(b)
    ensures multiset(Errors(a)) == multiset(Errors(b))
  {
    hide AsCalver, VersionError, AdoptionDateKey, FloorError, FilterMap;
    var x, y := FilterMap(a, AsCalver), FilterMap(b, AsCalver);
    FilterMapPermuted(a, b, AsCalver);
    AdoptionIgnoresOrder(x, y);
    FilterMapPermuted(a, b, VersionError);
    FilterMapPermuted(x, y, FloorError(AdoptionDateKey(x)));
    if a == [] {
      EmptyAlike(a, b);
    }
    if b == [] {
      EmptyAlike(b, a);
    }
  }
}
