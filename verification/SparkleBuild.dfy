/** Build numbers from calendar versions (`sparkleBuildFloorsFromShortVersion`), by digit strings as the source
  * makes them, and what they are as numbers. */
module SparkleBuild {
  import opened JsText

  // ----- digit strings -----

  predicate IsDigit(c: char) { '0' <= c <= '9' }

  predicate AllDigits(s: string) {
    forall i | 0 <= i < |s| :: IsDigit(s[i])
  }

  /** The number a digit string denotes. */
  function Value(s: string): nat
    requires AllDigits(s)
  {
    if s == "" then 0 else 10 * Value(s[..|s| - 1]) + (s[|s| - 1] - '0') as nat
  }

  /** The decimal digits of a number. */
  function Show(n: nat): (s: string)
    ensures s != "" && AllDigits(s)
  {
    var last := ['0' + (n % 10) as char];
    if n < 10 then last else Show(n / 10) + last
  }

  function PadStart2(s: string): string {
    if |s| == 0 then "00" else if |s| == 1 then "0" + s else s
  }

  function Power10(n: nat): nat {
    if n == 0 then 1 else 10 * Power10(n - 1)
  }

  lemma {:induction false} ValueOfShow(n: nat)
    ensures Value(Show(n)) == n
  {
    if n >= 10 {
      ValueOfShow(n / 10);
      var last := ['0' + (n % 10) as char];
      assert (Show(n / 10) + last)[..|Show(n / 10)|] == Show(n / 10);
    }
  }

  lemma DigitsConcat(a: string, b: string)
    ensures AllDigits(a + b) <==> AllDigits(a) && AllDigits(b)
  {
    if AllDigits(a + b) {
      assert forall i | 0 <= i < |a| :: a[i] == (a + b)[i];
      assert forall i | 0 <= i < |b| :: b[i] == (a + b)[|a| + i];
    }
  }

  lemma TimesTen(x: nat, p: nat, v: nat, d: nat)
    ensures 10 * (x * p + v) + d == x * (10 * p) + (10 * v + d)
  {
  }

  lemma {:induction false} ValueOfConcat(a: string, b: string)
    requires AllDigits(a) && AllDigits(b)
    ensures AllDigits(a + b) && Value(a + b) == Value(a) * Power10(|b|) + Value(b)
  {
    hide AllDigits;
    DigitsConcat(a, b);
    if b == "" {
      assert a + b == a;
    } else {
      var front, last := b[..|b| - 1], b[|b| - 1];
      assert b == front + [last];
      DigitsConcat(front, [last]);
      IsDigitAt(b, |b| - 1);
      ValueOfConcat(a, front);
      assert (a + b)[..|a + b| - 1] == a + front;
      TimesTen(Value(a), Power10(|front|), Value(front), (last - '0') as nat);
    }
  }

  lemma IsDigitAt(s: string, i: nat)
    requires AllDigits(s) && i < |s|
    ensures IsDigit(s[i])
  {
  }

  lemma TwoDigits(n: nat)
    requires n < 100
    ensures var s := PadStart2(Show(n)); AllDigits(s) && |s| == 2 && Value(s) == n
  {
    ValueOfShow(n);
    if n < 10 {
      ValueOfConcat("0", Show(n));
      assert Value("0") == 0;
    } else {
      assert Show(n / 10) == ['0' + (n / 10 % 10) as char];
    }
  }

  /** Appending a two-digit number multiplies by a hundred and adds. */
  lemma AppendTwo(a: string, n: nat)
    requires AllDigits(a) && n < 100
    ensures var s := a + PadStart2(Show(n)); AllDigits(s) && Value(s) == Value(a) * 100 + n
  {
    TwoDigits(n);
    ValueOfConcat(a, PadStart2(Show(n)));
    assert Power10(2) == 100;
  }

  // ----- the version -----

  /** The groups of a matched version: the year's four digits, the month, the day, and what follows. */
  datatype Groups = Groups(year: string, month: string, day: string, suffix: string)

  predicate IsLineTerminator(c: char) {
    c == '\n' || c == '\r' || c == '\U{2028}' || c == '\U{2029}'
  }

  predicate OneLine(s: string) {
    forall i | 0 <= i < |s| :: !IsLineTerminator(s[i])
  }

  predicate IsSuffix(s: string) {
    s == "" || (s[0] in ".-" && OneLine(s))
  }

  predicate IsGroups(g: Groups) {
    && |g.year| == 4 && AllDigits(g.year)
    && 1 <= |g.month| <= 2 && AllDigits(g.month)
    && 1 <= |g.day| <= 2 && AllDigits(g.day)
    && IsSuffix(g.suffix)
  }

  function Version(g: Groups): string {
    g.year + "." + g.month + "." + g.day + g.suffix
  }

  /** One or two digits, as many as there are. */
  function ShortNumber(s: string): (r: string)
    ensures |r| <= 2 && r <= s && AllDigits(r)
  {
    if s == "" || !IsDigit(s[0]) then ""
    else if |s| == 1 || !IsDigit(s[1]) then s[..1]
    else s[..2]
  }

  /** The version pattern, from left to right. */
  function Match(text: string): (r: Option<Groups>)
    ensures r.Some? ==> IsGroups(r.value)
  {
    if |text| < 5 || !AllDigits(text[..4]) || text[4] != '.' then None
    else
      var afterYear := text[5..];
      var month := ShortNumber(afterYear);
      var afterMonth := afterYear[|month|..];
      if month == "" || afterMonth == "" || afterMonth[0] != '.' then None
      else
        var day := ShortNumber(afterMonth[1..]);
        var suffix := afterMonth[1..][|day|..];
        if day == "" || !IsSuffix(suffix) then None
        else Some(Groups(text[..4], month, day, suffix))
  }

  lemma ShortNumberStops(digits: string, rest: string)
    requires 1 <= |digits| <= 2 && AllDigits(digits) && (rest == "" || !IsDigit(rest[0]))
    ensures ShortNumber(digits + rest) == digits
  {
    var s := digits + rest;
    assert s[0] == digits[0];
    if |digits| == 1 {
      assert |s| > 1 ==> s[1] == rest[0];
    } else {
      assert s[1] == digits[1];
    }
    assert s[..|digits|] == digits;
  }

  lemma SplitAt(text: string, n: nat)
    requires n <= |text|
    ensures text == text[..n] + text[n..]
  {
  }

  lemma Assemble(year: string, month: string, day: string, suffix: string)
    ensures year + ("." + (month + ("." + (day + suffix)))) == year + "." + month + "." + day + suffix
  {
  }

  lemma Cut(a: string, b: string)
    ensures (a + b)[..|a|] == a && (a + b)[|a|..] == b
  {
  }

  /** What follows the month, once the year and the first dot are off. */
  ghost predicate Tail(text: string, g: Groups, afterMonth: string) {
    && |text| >= 5 && text[..4] == g.year && text[4] == '.'
    && g.month <= text[5..] && text[5..][|g.month|..] == afterMonth
    && afterMonth != "" && afterMonth[0] == '.'
    && g.day <= afterMonth[1..] && afterMonth[1..][|g.day|..] == g.suffix
  }

  lemma MatchHasTail(text: string)
    requires Match(text).Some?
    ensures var g := Match(text).value;
      |text| >= 5 && |g.month| <= |text[5..]| && Tail(text, g, text[5..][|g.month|..])
  {
    hide IsGroups, AllDigits, IsSuffix;
  }

  lemma TailIsVersion(text: string, g: Groups, afterMonth: string)
    requires Tail(text, g, afterMonth)
    ensures Version(g) == text
  {
    Assemble(g.year, g.month, g.day, g.suffix);
    SplitAt(afterMonth[1..], |g.day|);
    assert afterMonth == "." + afterMonth[1..];
    SplitAt(text[5..], |g.month|);
    assert text[4..] == "." + text[5..];
    SplitAt(text, 4);
  }

  lemma MatchSound(text: string)
    requires Match(text).Some?
    ensures Version(Match(text).value) == text
  {
    hide Match, Tail, Version;
    MatchHasTail(text);
    var g := Match(text).value;
    TailIsVersion(text, g, text[5..][|g.month|..]);
  }

  lemma MatchesTail(text: string, g: Groups, afterMonth: string)
    requires IsGroups(g) && Tail(text, g, afterMonth)
    requires ShortNumber(text[5..]) == g.month && ShortNumber(afterMonth[1..]) == g.day
    ensures Match(text) == Some(g)
  {
    hide ShortNumber, AllDigits, IsSuffix;
  }

  lemma MatchComplete(g: Groups)
    requires IsGroups(g)
    ensures Match(Version(g)) == Some(g)
  {
    hide Match, ShortNumber, AllDigits, OneLine, Version;
    var afterMonth := "." + (g.day + g.suffix);
    var afterYear := g.month + afterMonth;
    var text := g.year + ("." + afterYear);
    VersionIs(g);
    Cut(g.year, "." + afterYear);
    assert text[4] == '.' && text[5..] == text[4..][1..] == afterYear;
    Cut(g.month, afterMonth);
    Cut(g.day, g.suffix);
    assert afterMonth[1..] == g.day + g.suffix;
    ShortNumberStops(g.month, afterMonth);
    ShortNumberStops(g.day, g.suffix);
    MatchesTail(text, g, afterMonth);
  }

  lemma VersionIs(g: Groups)
    ensures Version(g) == g.year + ("." + (g.month + ("." + (g.day + g.suffix))))
  {
    Assemble(g.year, g.month, g.day, g.suffix);
  }

  /** The pattern matches exactly the texts put together from groups, and finds those groups. */
  lemma MatchIff(text: string, g: Groups)
    ensures Match(text) == Some(g) <==> IsGroups(g) && Version(g) == text
  {
    hide Match, IsGroups, Version;
    if Match(text).Some? {
      MatchSound(text);
    }
    if IsGroups(g) {
      MatchComplete(g);
    }
  }

  /** A version text, spelt out: a four-digit year, a month and a day of one or two digits, and after a dot or a dash
    * anything on one line. */
  ghost predicate IsVersion(text: string, g: Groups) {
    && text == g.year + "." + g.month + "." + g.day + g.suffix
    && |g.year| == 4 && |g.month| in {1, 2} && |g.day| in {1, 2}
    && (forall c | c in g.year + g.month + g.day :: c in "0123456789")
    && (g.suffix == "" || g.suffix[0] in {'.', '-'})
    && (forall c | c in g.suffix :: c !in {'\n', '\r', '\U{2028}', '\U{2029}'})
  }

  lemma DigitsAre(s: string)
    ensures AllDigits(s) <==> forall c | c in s :: c in "0123456789"
  {
    forall c: char ensures IsDigit(c) <==> c in "0123456789" {
      var digits := "0123456789";
      if IsDigit(c) {
        assert digits[(c - '0') as int] == c;
      }
    }
  }

  /** The pattern matches exactly these texts. */
  lemma MatchesVersions(text: string, g: Groups)
    ensures Match(text) == Some(g) <==> IsVersion(text, g)
  {
    hide Match, AllDigits;
    MatchIff(text, g);
    DigitsAre(g.year);
    DigitsAre(g.month);
    DigitsAre(g.day);
    SuffixIs(g.suffix);
    assert forall c :: c in g.year + g.month + g.day <==> c in g.year || c in g.month || c in g.day;
    assert IsGroups(g) <==> IsVersion(Version(g), g);
  }

  lemma SuffixIs(s: string)
    ensures IsSuffix(s) <==>
      (s == "" || s[0] in {'.', '-'}) && forall c | c in s :: c !in {'\n', '\r', '\U{2028}', '\U{2029}'}
  {
    assert s != "" ==> (s[0] in ".-" <==> s[0] in {'.', '-'});
    assert OneLine(s) <==> forall c | c in s :: !IsLineTerminator(c);
  }

  // ----- the floors -----

  datatype Floors = Floors(dateKey: nat, legacyFloor: nat, laneFloor: nat, lane: nat)

  /** The longest run of digits at the end. */
  function TrailingDigits(s: string): (r: string)
    ensures AllDigits(r)
  {
    if s == "" || !IsDigit(s[|s| - 1]) then "" else TrailingDigits(s[..|s| - 1]) + [s[|s| - 1]]
  }

  /** 90 for a release, the final number of a suffix up to 89, and 1 for a suffix without one. */
  function Lane(suffix: string): (lane: nat)
    ensures lane <= 90 && (lane == 90 <==> suffix == "")
  {
    if suffix == "" then 90
    else
      var digits := TrailingDigits(suffix);
      if digits == "" then 1 else if Value(digits) < 89 then Value(digits) else 89
  }

  lemma {:induction false} TrailingDigitsOf(s: string, digits: string)
    requires s != "" && !IsDigit(s[|s| - 1]) && AllDigits(digits)
    ensures TrailingDigits(s + digits) == digits
  {
    if digits == "" {
      assert s + digits == s;
    } else {
      var front := digits[..|digits| - 1];
      TrailingDigitsOf(s, front);
      assert (s + digits)[..|s + digits| - 1] == s + front;
    }
  }

  /** The lane of a suffix is the number at its end, capped at 89; without one it is 1. */
  lemma LaneOfSuffix(s: string, digits: string)
    requires s != "" && !IsDigit(s[|s| - 1]) && AllDigits(digits)
    ensures Lane("") == 90 && (digits == "" ==> Lane(s + digits) == 1)
    ensures digits != "" ==> Lane(s + digits) <= 89 && Lane(s + digits) <= Value(digits)
    ensures digits != "" && Value(digits) <= 89 ==> Lane(s + digits) == Value(digits)
    ensures digits != "" && Value(digits) > 89 ==> Lane(s + digits) == 89
  {
    TrailingDigitsOf(s, digits);
  }

  function FloorsOfVersion(shortVersion: string): Option<Floors> {
    match Match(Trim(shortVersion))
    case None => None
    case Some(g) =>
      var year, month, day := Value(g.year), Value(g.month), Value(g.day);
      if month < 1 || month > 12 || day < 1 || day > 31 then None
      else
        DateKeyValue(year, month, day);
        var dateKey := Value(Show(year) + PadStart2(Show(month)) + PadStart2(Show(day)));
        var lane := Lane(g.suffix);
        AppendTwo(Show(dateKey), lane);
        Some(Floors(dateKey, Value(Show(dateKey) + "0"), Value(Show(dateKey) + PadStart2(Show(lane))), lane))
  }

  function CanonicalBuild(shortVersion: string): Option<nat> {
    match FloorsOfVersion(shortVersion)
    case Some(floors) => Some(floors.laneFloor)
    case None => None
  }

  /** A calendar version as numbers. */
  datatype Date = Date(year: nat, month: nat, day: nat, lane: nat)

  predicate IsDate(d: Date) {
    d.year <= 9999 && 1 <= d.month <= 12 && 1 <= d.day <= 31 && d.lane <= 90
  }

  /** The date and lane a version text stands for: the text is, but for white space around it, a four-digit
    * year, a month and a day of one or two digits, and a suffix. */
  ghost predicate Denotes(shortVersion: string, d: Date) {
    exists g :: IsGroups(g) && Version(g) == Trim(shortVersion) && DateOf(g) == d && IsDate(d)
  }

  function DateOf(g: Groups): Date
    requires IsGroups(g)
  {
    Date(Value(g.year), Value(g.month), Value(g.day), Lane(g.suffix))
  }

  lemma {:induction false} ValueBelowPower(s: string)
    requires AllDigits(s)
    ensures Value(s) < Power10(|s|)
  {
    if s != "" {
      ValueBelowPower(s[..|s| - 1]);
    }
  }

  lemma YearBound(g: Groups)
    requires IsGroups(g)
    ensures Value(g.year) <= 9999
  {
    ValueBelowPower(g.year);
    assert Power10(4) == 10000 by {
      assert Power10(2) == 100;
    }
  }

  lemma DateKeyValue(year: nat, month: nat, day: nat)
    requires month < 100 && day < 100
    ensures var s := Show(year) + PadStart2(Show(month)) + PadStart2(Show(day));
      AllDigits(s) && Value(s) == year * 10000 + month * 100 + day
  {
    hide Value, Show, PadStart2, AllDigits;
    ValueOfShow(year);
    ShowIsDigits(year);
    AppendTwo(Show(year), month);
    AppendTwo(Show(year) + PadStart2(Show(month)), day);
  }

  lemma ShowIsDigits(n: nat)
    ensures AllDigits(Show(n))
  {
  }

  /** The floors of a date, as arithmetic. */
  function Arithmetic(d: Date): Floors {
    var dateKey := d.year * 10000 + d.month * 100 + d.day;
    Floors(dateKey, dateKey * 10, d.year * 1000000 + d.month * 10000 + d.day * 100 + d.lane, d.lane)
  }

  lemma FloorsOfDigits(dateKey: nat, lane: nat)
    requires lane < 100
    ensures AllDigits(Show(dateKey) + "0") && Value(Show(dateKey) + "0") == dateKey * 10
    ensures var s := Show(dateKey) + PadStart2(Show(lane)); AllDigits(s) && Value(s) == dateKey * 100 + lane
  {
    hide Show, PadStart2;
    ValueOfShow(dateKey);
    AppendTwo(Show(dateKey), lane);
    ValueOfConcat(Show(dateKey), "0");
    assert Value("0") == 0 && Power10(1) == 10;
  }

  lemma FloorsOfGroups(shortVersion: string, g: Groups)
    requires Match(Trim(shortVersion)) == Some(g)
    ensures FloorsOfVersion(shortVersion) == if IsDate(DateOf(g)) then Some(Arithmetic(DateOf(g))) else None
  {
    hide Match, Value, Show, PadStart2, AllDigits, IsGroups, Lane, Trim;
    YearBound(g);
    var d := DateOf(g);
    if IsDate(d) {
      DateKeyValue(d.year, d.month, d.day);
      FloorsOfDigits(d.year * 10000 + d.month * 100 + d.day, d.lane);
    }
  }

  /** A version text has floors exactly when it denotes a date, and then joining digit strings is arithmetic. */
  lemma FloorsAreArithmetic(shortVersion: string, d: Date)
    ensures Denotes(shortVersion, d) <==>
      FloorsOfVersion(shortVersion) == Some(Arithmetic(d)) && IsDate(d)
    ensures FloorsOfVersion(shortVersion).Some? ==> exists e :: Denotes(shortVersion, e)
  {
    hide Match, Value, Trim, IsGroups, Lane, Version, FloorsOfVersion;
    var m := Match(Trim(shortVersion));
    if m.Some? {
      var g := m.value;
      FloorsOfGroups(shortVersion, g);
      MatchIff(Trim(shortVersion), g);
      if IsDate(DateOf(g)) {
        assert Denotes(shortVersion, DateOf(g));
      }
      if FloorsOfVersion(shortVersion) == Some(Arithmetic(d)) && IsDate(d) {
        ArithmeticInjective(d, DateOf(g));
      }
    } else {
      NoMatchNoFloors(shortVersion);
    }
    if Denotes(shortVersion, d) {
      var g :| IsGroups(g) && Version(g) == Trim(shortVersion) && DateOf(g) == d && IsDate(d);
      MatchIff(Trim(shortVersion), g);
    }
  }

  lemma NoMatchNoFloors(shortVersion: string)
    requires Match(Trim(shortVersion)).None?
    ensures FloorsOfVersion(shortVersion).None?
  {
  }

  // ----- the order of builds -----

  predicate Before(a: Date, b: Date) {
    || a.year < b.year
    || (a.year == b.year && a.month < b.month)
    || (a.year == b.year && a.month == b.month && a.day < b.day)
    || (a.year == b.year && a.month == b.month && a.day == b.day && a.lane < b.lane)
  }

  lemma ArithmeticOrders(a: Date, b: Date)
    requires IsDate(a) && IsDate(b)
    ensures Arithmetic(a).laneFloor < Arithmetic(b).laneFloor <==> Before(a, b)
  {
  }

  lemma ArithmeticInjective(a: Date, b: Date)
    requires IsDate(a) && IsDate(b) && Arithmetic(a) == Arithmetic(b)
    ensures a == b
  {
    ArithmeticOrders(a, b);
    ArithmeticOrders(b, a);
  }

  /** Canonical builds compare as (year, month, day, lane) does, and differ for different dates or lanes. */
  lemma BuildsOrderLexicographically(v: string, w: string, a: Date, b: Date)
    requires Denotes(v, a) && Denotes(w, b)
    ensures CanonicalBuild(v).Some? && CanonicalBuild(w).Some?
    ensures CanonicalBuild(v).value < CanonicalBuild(w).value <==> Before(a, b)
    ensures CanonicalBuild(v) == CanonicalBuild(w) <==> a == b
  {
    hide Denotes, FloorsOfVersion;
    FloorsAreArithmetic(v, a);
    FloorsAreArithmetic(w, b);
    assert IsDate(a) && IsDate(b);
    ArithmeticOrders(a, b);
    ArithmeticOrders(b, a);
  }

  /** A release stands above every other lane of its day. */
  lemma ReleaseIsAboveItsDay(v: string, w: string, a: Date, b: Date)
    requires Denotes(v, a) && Denotes(w, b)
    requires a.(lane := 0) == b.(lane := 0) && a.lane == 90 && b.lane != 90
    ensures CanonicalBuild(w).Some? && CanonicalBuild(v).Some?
    ensures CanonicalBuild(w).value < CanonicalBuild(v).value
  {
    hide Denotes, CanonicalBuild;
    FloorsAreArithmetic(w, b);
    BuildsOrderLexicographically(w, v, b, a);
  }

  const LANE_BUILD_MIN := 1_000_000_000

  /** Builds of the old kind have fewer than ten digits; those of the new kind have ten exactly from year 1000. */
  lemma FloorsStraddleLaneBuildMin(v: string, d: Date)
    requires Denotes(v, d)
    ensures var floors := FloorsOfVersion(v);
      && floors.Some?
      && floors.value.legacyFloor < LANE_BUILD_MIN
      && (floors.value.laneFloor >= LANE_BUILD_MIN <==> d.year >= 1000)
  {
    hide Denotes, FloorsOfVersion;
    FloorsAreArithmetic(v, d);
  }
}
