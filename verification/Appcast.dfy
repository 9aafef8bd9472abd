/** Build-number floors of `scripts/sparkle-build.ts` and the appcast rule of `scripts/release-check.ts`. */
module Appcast {
  import opened Results
  import opened Sequences

  const LANE_BUILD_MIN := 1_000_000_000
  const LANE_FLOOR_ADOPTION_DATE_KEY := 20260227

  // ----- floors -----

  datatype Suffix = Stable | Named | Numbered(n: nat)

  /** What the version pattern matches: a four-digit year, two-digit month and day, and what ends the suffix. */
  datatype Version = Version(year: nat, month: nat, day: nat, suffix: Suffix) {
    ghost predicate Matched() { year <= 9999 && month <= 99 && day <= 99 }
  }

  datatype Floors = Floors(dateKey: nat, legacyFloor: nat, laneFloor: nat, lane: nat)

  function SparkleBuildFloors(v: Version): Option<Floors> {
    if v.month < 1 || v.month > 12 || v.day < 1 || v.day > 31 then None
    else
      var dateKey := (v.year * 100 + v.month) * 100 + v.day;
      var lane :=
        match v.suffix
        case Stable => 90
        case Named => 1
        case Numbered(n) => if n < 89 then n else 89;
      Some(Floors(dateKey, dateKey * 10, dateKey * 100 + lane, lane))
  }

  predicate Earlier(a: Version, b: Version) {
    a.year < b.year || (a.year == b.year && (a.month < b.month || (a.month == b.month && a.day < b.day)))
  }

  /** Floors order by date, whatever the lanes. */
  lemma FloorsOrderByDate(a: Version, b: Version)
    requires SparkleBuildFloors(a).Some? && SparkleBuildFloors(b).Some?
    ensures var x, y := SparkleBuildFloors(a).value, SparkleBuildFloors(b).value;
      (Earlier(a, b) <==> x.dateKey < y.dateKey)
      && (Earlier(a, b) <==> x.legacyFloor < y.legacyFloor)
      && (Earlier(a, b) ==> x.laneFloor < y.laneFloor)
      && (x.dateKey == y.dateKey ==> (x.laneFloor < y.laneFloor <==> x.lane < y.lane))
  {
  }

  /** The two ranges of build numbers meet at `LANE_BUILD_MIN` exactly for years of four digits. */
  lemma FloorRanges(v: Version)
    requires v.Matched() && SparkleBuildFloors(v).Some?
    ensures SparkleBuildFloors(v).value.legacyFloor < LANE_BUILD_MIN
    ensures SparkleBuildFloors(v).value.laneFloor >= LANE_BUILD_MIN <==> v.year >= 1000
  {
  }

  // ----- the appcast -----

  datatype Build = Missing | NotNumeric(text: string) | Number(n: nat)

  /** An `<item>`; `version` is absent when there is no short version or it does not match the pattern. */
  datatype Item = Item(title: string, build: Build, version: Option<Version>)

  datatype CalverItem = CalverItem(title: string, build: nat, floors: Floors)

  datatype Error = NoItems | MissingBuild(title: string) | NonNumericBuild(title: string, text: string)
                 | BelowFloor(title: string, build: nat, lane: bool, floor: nat)

  function BuildErrorsOf(item: Item): seq<Error> {
    match item.build
    case Missing => [MissingBuild(item.title)]
    case NotNumeric(text) => [NonNumericBuild(item.title, text)]
    case Number(_) => []
  }

  function BuildErrors(items: seq<Item>): seq<Error> {
    if items == [] then [] else BuildErrors(items[..|items|-1]) + BuildErrorsOf(items[|items|-1])
  }

  function CalverOf(item: Item): seq<CalverItem> {
    if item.build.Number? && item.version.Some? then
      match SparkleBuildFloors(item.version.value)
      case None => []
      case Some(floors) => [CalverItem(item.title, item.build.n, floors)]
    else []
  }

  function CalverItems(items: seq<Item>): seq<CalverItem> {
    if items == [] then [] else CalverItems(items[..|items|-1]) + CalverOf(items[|items|-1])
  }

  predicate LaneNumbered(item: CalverItem) {
    item.build >= LANE_BUILD_MIN
  }

  function LaneDates(items: seq<CalverItem>): seq<int> {
    if items == [] then []
    else
      var last := items[|items|-1];
      LaneDates(items[..|items|-1]) + if LaneNumbered(last) then [last.floors.dateKey] else []
  }

  predicate Ascending(a: int, b: int) {
    a <= b
  }

  function Adoption(items: seq<CalverItem>): int {
    var dates := ToSorted(Ascending, LaneDates(items));
    if dates == [] || dates[0] > LANE_FLOOR_ADOPTION_DATE_KEY then LANE_FLOOR_ADOPTION_DATE_KEY else dates[0]
  }

  predicate ExpectsLane(item: CalverItem, adoption: int) {
    LaneNumbered(item) || item.floors.dateKey >= adoption
  }

  function FloorOf(item: CalverItem, adoption: int): nat {
    if ExpectsLane(item, adoption) then item.floors.laneFloor else item.floors.legacyFloor
  }

  function FloorErrorsOf(item: CalverItem, adoption: int): seq<Error> {
    if item.build < FloorOf(item, adoption)
    then [BelowFloor(item.title, item.build, ExpectsLane(item, adoption), FloorOf(item, adoption))]
    else []
  }

  function FloorErrors(items: seq<CalverItem>, adoption: int): seq<Error> {
    if items == [] then [] else FloorErrors(items[..|items|-1], adoption) + FloorErrorsOf(items[|items|-1], adoption)
  }

  function AppcastErrors(items: seq<Item>): seq<Error> {
    (if items == [] then [NoItems] else [])
    + BuildErrors(items)
    + FloorErrors(CalverItems(items), Adoption(CalverItems(items)))
  }

  lemma NothingYet(items: seq<Item>)
    ensures BuildErrors(items[..0]) == [] && CalverItems(items[..0]) == []
  {
  }

  lemma NoneChecked(items: seq<CalverItem>, adoption: int)
    ensures FloorErrors(items[..0], adoption) == []
  {
  }

  lemma ItemStep(items: seq<Item>, i: nat)
    requires i < |items|
    ensures BuildErrors(items[..i+1]) == BuildErrors(items[..i]) + BuildErrorsOf(items[i])
    ensures CalverItems(items[..i+1]) == CalverItems(items[..i]) + CalverOf(items[i])
  {
    assert items[..i+1][..i] == items[..i];
  }

  lemma FloorStep(items: seq<CalverItem>, adoption: int, i: nat)
    requires i < |items|
    ensures FloorErrors(items[..i+1], adoption) == FloorErrors(items[..i], adoption) + FloorErrorsOf(items[i], adoption)
  {
    assert items[..i+1][..i] == items[..i];
  }

  method CollectAppcastSparkleVersionErrors(items: seq<Item>) returns (errors: seq<Error>)
    ensures errors == AppcastErrors(items)
  {
    NothingYet(items);
    hide BuildErrors, CalverItems, FloorErrors, SparkleBuildFloors, Adoption;
    errors := [];
    var calverItems: seq<CalverItem> := [];
    if |items| == 0 {
      errors := errors + [NoItems];
    }
    ghost var start := errors;
    var i := 0;
    while i < |items|
      invariant 0 <= i <= |items|
      invariant errors == start + BuildErrors(items[..i])
      invariant calverItems == CalverItems(items[..i])
    {
      var item := items[i];
      ItemStep(items, i);
      i := i + 1;
      if item.build.Missing? {
        errors := errors + [MissingBuild(item.title)];
        continue;
      }
      if item.build.NotNumeric? {
        errors := errors + [NonNumericBuild(item.title, item.build.text)];
        continue;
      }
      if item.version.None? { continue; }
      var floors := SparkleBuildFloors(item.version.value);
      if floors.None? { continue; }
      calverItems := calverItems + [CalverItem(item.title, item.build.n, floors.value)];
    }
    assert items[..|items|] == items;
    var adoption := Adoption(calverItems);
    start := errors;
    NoneChecked(calverItems, adoption);
    i := 0;
    while i < |calverItems|
      invariant 0 <= i <= |calverItems|
      invariant errors == start + FloorErrors(calverItems[..i], adoption)
    {
      var item := calverItems[i];
      FloorStep(calverItems, adoption, i);
      var expectLaneFloor := item.build >= LANE_BUILD_MIN || item.floors.dateKey >= adoption;
      var floor := if expectLaneFloor then item.floors.laneFloor else item.floors.legacyFloor;
      if item.build < floor {
        errors := errors + [BelowFloor(item.title, item.build, expectLaneFloor, floor)];
      }
      i := i + 1;
    }
    assert calverItems[..|calverItems|] == calverItems;
  }

  // ----- what an error-free appcast satisfies -----

  lemma {:induction false} LaneDatesAre(items: seq<CalverItem>, date: int)
    ensures date in LaneDates(items) <==> exists item | item in items :: LaneNumbered(item) && item.floors.dateKey == date
  {
    if items != [] {
      LaneDatesAre(items[..|items|-1], date);
      assert items == items[..|items|-1] + [items[|items|-1]];
    }
  }

  ghost predicate AdoptedBy(items: seq<CalverItem>, date: int) {
    date >= LANE_FLOOR_ADOPTION_DATE_KEY || exists item | item in items :: LaneNumbered(item) && item.floors.dateKey <= date
  }

  /** The adoption date is the earliest lane-numbered date, or the fixed date if that is earlier. */
  lemma AdoptionIsEarliest(items: seq<CalverItem>, date: int)
    ensures date >= Adoption(items) <==> AdoptedBy(items, date)
  {
    var dates := ToSorted(Ascending, LaneDates(items));
    ToSortedSorts(Ascending, LaneDates(items));
    SamePermutationMembers(dates, LaneDates(items));
    if dates != [] {
      LaneDatesAre(items, dates[0]);
    }
    hide ToSorted, LaneDates;
    forall item | item in items && LaneNumbered(item) ensures dates != [] && dates[0] <= item.floors.dateKey {
      LaneDatesAre(items, item.floors.dateKey);
      var k :| 0 <= k < |dates| && dates[k] == item.floors.dateKey;
      assert k > 0 ==> Ascending(dates[0], dates[k]);
    }
  }

  lemma {:induction false} NoBuildErrorsIff(items: seq<Item>)
    ensures BuildErrors(items) == [] <==> forall item | item in items :: item.build.Number?
  {
    if items != [] {
      NoBuildErrorsIff(items[..|items|-1]);
      assert items == items[..|items|-1] + [items[|items|-1]];
    }
  }

  lemma {:induction false} NoFloorErrorsIff(items: seq<CalverItem>, adoption: int)
    ensures FloorErrors(items, adoption) == [] <==> forall item | item in items :: item.build >= FloorOf(item, adoption)
  {
    if items != [] {
      NoFloorErrorsIff(items[..|items|-1], adoption);
      assert items == items[..|items|-1] + [items[|items|-1]];
    }
  }

  /** Years of four digits, as the version pattern matched them. */
  ghost predicate FourDigitYears(items: seq<Item>) {
    forall item | item in items && item.version.Some? :: item.version.value.Matched() && item.version.value.year >= 1000
  }

  lemma {:induction false} CalverRanges(items: seq<Item>)
    requires FourDigitYears(items)
    ensures forall c | c in CalverItems(items) :: c.floors.legacyFloor < LANE_BUILD_MIN <= c.floors.laneFloor
  {
    if items != [] {
      assert items == items[..|items|-1] + [items[|items|-1]];
      CalverRanges(items[..|items|-1]);
      var last := items[|items|-1];
      if last.version.Some? && SparkleBuildFloors(last.version.value).Some? { FloorRanges(last.version.value); }
    }
  }

  /**
   * An appcast is free of errors exactly when all builds are numbers and every build reaches its floor: the lane
   * floor if it is lane-numbered or dated on or after a lane-numbered item or the fixed date, else the legacy floor.
   */
  lemma ErrorFreeIff(items: seq<Item>)
    ensures AppcastErrors(items) == [] <==>
      (items != []
       && (forall item | item in items :: item.build.Number?)
       && (forall c | c in CalverItems(items) ::
             c.build >= if LaneNumbered(c) || AdoptedBy(CalverItems(items), c.floors.dateKey)
                        then c.floors.laneFloor else c.floors.legacyFloor))
  {
    var calver := CalverItems(items);
    NoBuildErrorsIff(items);
    NoFloorErrorsIff(calver, Adoption(calver));
    hide BuildErrors, CalverItems, FloorErrors, Adoption, AdoptedBy;
    forall c | c in calver ensures AdoptedBy(calver, c.floors.dateKey) <==> c.floors.dateKey >= Adoption(calver) {
      AdoptionIsEarliest(calver, c.floors.dateKey);
    }
  }

  /** For years of four digits: from the adoption date on all builds are lane-numbered, and each reaches its own range's floor. */
  lemma ErrorFreeRanges(items: seq<Item>)
    requires FourDigitYears(items)
    ensures AppcastErrors(items) == [] <==>
      (items != []
       && (forall item | item in items :: item.build.Number?)
       && (forall c | c in CalverItems(items) ::
             c.build >= (if LaneNumbered(c) then c.floors.laneFloor else c.floors.legacyFloor)
             && (AdoptedBy(CalverItems(items), c.floors.dateKey) ==> LaneNumbered(c))))
  {
    ErrorFreeIff(items);
    CalverRanges(items);
    hide AppcastErrors, CalverItems, AdoptedBy, FourDigitYears;
  }

  /** Lane numbering is never taken back, as long as the later item's lane floor is out of the legacy range. */
  lemma LaneNumberingStays(items: seq<Item>, earlier: CalverItem, later: CalverItem)
    requires AppcastErrors(items) == []
    requires earlier in CalverItems(items) && later in CalverItems(items)
    requires LaneNumbered(earlier) && earlier.floors.dateKey <= later.floors.dateKey
    requires later.floors.laneFloor >= LANE_BUILD_MIN
    ensures LaneNumbered(later)
  {
    var calver := CalverItems(items);
    NoFloorErrorsIff(calver, Adoption(calver));
    AdoptionIsEarliest(calver, later.floors.dateKey);
    hide CalverItems, FloorErrors, Adoption;
  }

  /** An appcast with a lane-numbered item and one that only reaches its lane floor, both of version v. */
  function Mixed(v: Version): seq<Item>
    requires SparkleBuildFloors(v).Some?
  {
    [Item("a", Number(LANE_BUILD_MIN), Some(v)), Item("b", Number(SparkleBuildFloors(v).value.laneFloor), Some(v))]
  }

  lemma MixedItems(v: Version)
    requires SparkleBuildFloors(v).Some?
    ensures var floors := SparkleBuildFloors(v).value;
      CalverItems(Mixed(v)) == [CalverItem("a", LANE_BUILD_MIN, floors), CalverItem("b", floors.laneFloor, floors)]
  {
    hide SparkleBuildFloors;
    var items, one := Mixed(v), [Mixed(v)[0]];
    assert items[..1] == one && one[..0] == [];
    assert CalverItems(one) == CalverOf(items[0]);
    assert CalverItems(items) == CalverOf(items[0]) + CalverOf(items[1]);
  }

  /** In every year below 1000 the lane floor falls in the legacy range, and an error-free appcast can mix the two. */
  lemma EarlyYearsMixRanges(v: Version)
    requires v.Matched() && SparkleBuildFloors(v).Some? && v.year < 1000
    ensures AppcastErrors(Mixed(v)) == []
    ensures SparkleBuildFloors(v).value.laneFloor < LANE_BUILD_MIN
  {
    FloorRanges(v);
    MixedItems(v);
    ErrorFreeIff(Mixed(v));
    hide AppcastErrors, CalverItems, SparkleBuildFloors;
    var floors := SparkleBuildFloors(v).value;
    var a, b := CalverItem("a", LANE_BUILD_MIN, floors), CalverItem("b", floors.laneFloor, floors);
    assert a in [a, b];
    assert AdoptedBy([a, b], floors.dateKey);
  }

  /** In every error-free appcast, what is dated like v is lane-numbered once anything up to that date is. */
  ghost predicate LaneRuleHolds(v: Version)
    requires SparkleBuildFloors(v).Some?
  {
    forall items, earlier, later ::
      (&& AppcastErrors(items) == [] && earlier in CalverItems(items) && later in CalverItems(items)
       && LaneNumbered(earlier) && earlier.floors.dateKey <= later.floors.dateKey
       && later.floors == SparkleBuildFloors(v).value) ==> LaneNumbered(later)
  }

  /** The rule holds for a version exactly when its year has four digits. */
  lemma LaneRuleIff(v: Version)
    requires v.Matched() && SparkleBuildFloors(v).Some?
    ensures LaneRuleHolds(v) <==> v.year >= 1000
  {
    FloorRanges(v);
    hide AppcastErrors, CalverItems, SparkleBuildFloors;
    var floors := SparkleBuildFloors(v).value;
    if v.year >= 1000 {
      forall items, earlier, later |
        (&& AppcastErrors(items) == [] && earlier in CalverItems(items) && later in CalverItems(items)
         && LaneNumbered(earlier) && earlier.floors.dateKey <= later.floors.dateKey && later.floors == floors)
        ensures LaneNumbered(later)
      {
        LaneNumberingStays(items, earlier, later);
      }
    } else {
      EarlyYearsMixRanges(v);
      MixedItems(v);
      var a, b := CalverItem("a", LANE_BUILD_MIN, floors), CalverItem("b", floors.laneFloor, floors);
      assert a in CalverItems(Mixed(v)) && b in CalverItems(Mixed(v)) && LaneNumbered(a) && !LaneNumbered(b);
    }
  }

  // ----- floors and errors in numbers -----

  /** The date reads as eight digits; stable is lane 90, a name lane 1 and a number its own lane up to 89. */
  lemma FloorsSpelledOut(v: Version)
    ensures SparkleBuildFloors(v).Some? <==> 1 <= v.month <= 12 && 1 <= v.day <= 31
    ensures SparkleBuildFloors(v).Some? ==>
      var f := SparkleBuildFloors(v).value;
      && f.dateKey == 10_000 * v.year + 100 * v.month + v.day
      && f.legacyFloor == 10 * f.dateKey && f.laneFloor == 100 * f.dateKey + f.lane
      && match v.suffix
         case Stable => f.lane == 90
         case Named => f.lane == 1
         case Numbered(n) => f.lane <= 89 && f.lane <= n && (f.lane == 89 || f.lane == n)
  {
  }

  /** On one date the stable build lies above every other, and numbered ones keep their order up to 89. */
  lemma StableOnTop(stable: Version, v: Version, w: Version)
    requires SparkleBuildFloors(stable).Some? && stable.suffix == Stable
    requires v == stable.(suffix := v.suffix) && w == stable.(suffix := w.suffix)
    ensures v.suffix != Stable ==> SparkleBuildFloors(v).value.laneFloor < SparkleBuildFloors(stable).value.laneFloor
    ensures v.suffix.Numbered? && w.suffix.Numbered? ==>
      (SparkleBuildFloors(v).value.laneFloor < SparkleBuildFloors(w).value.laneFloor
       <==> v.suffix.n < w.suffix.n && v.suffix.n < 89)
  {
    FloorsSpelledOut(stable);
    FloorsSpelledOut(v);
    FloorsSpelledOut(w);
    hide SparkleBuildFloors;
  }

  /** Lane-numbered itself, or dated on or after 27 February 2026 or a lane-numbered item. */
  ghost predicate NeedsLane(items: seq<CalverItem>, c: CalverItem) {
    || c.build >= 1_000_000_000
    || c.floors.dateKey >= 2026_02_27
    || exists o | o in items :: o.build >= 1_000_000_000 && o.floors.dateKey <= c.floors.dateKey
  }

  /** Each error an appcast can have, and exactly when it has it. */
  ghost predicate Justified(items: seq<Item>, e: Error) {
    match e
    case NoItems => items == []
    case MissingBuild(title) => exists item | item in items :: item.title == title && item.build == Missing
    case NonNumericBuild(title, text) => exists item | item in items :: item.title == title && item.build == NotNumeric(text)
    case BelowFloor(title, build, lane, floor) =>
      exists c | c in CalverItems(items) :: BelowItsFloor(CalverItems(items), c, e)
  }

  ghost predicate BelowItsFloor(items: seq<CalverItem>, c: CalverItem, e: Error) {
    e.BelowFloor? && c.title == e.title && c.build == e.build && c.build < e.floor
    && (e.lane <==> NeedsLane(items, c)) && e.floor == if e.lane then c.floors.laneFloor else c.floors.legacyFloor
  }

  lemma {:induction false} BuildErrorMembers(items: seq<Item>, e: Error)
    ensures e in BuildErrors(items) <==> exists item | item in items :: e in BuildErrorsOf(item)
  {
    if items != [] {
      BuildErrorMembers(items[..|items|-1], e);
      assert items == items[..|items|-1] + [items[|items|-1]];
      hide BuildErrorsOf;
    }
  }

  lemma {:induction false} FloorErrorMembers(items: seq<CalverItem>, adoption: int, e: Error)
    ensures e in FloorErrors(items, adoption) <==> exists c | c in items :: e in FloorErrorsOf(c, adoption)
  {
    if items != [] {
      FloorErrorMembers(items[..|items|-1], adoption, e);
      assert items == items[..|items|-1] + [items[|items|-1]];
      hide FloorErrorsOf;
    }
  }

  lemma FloorErrorOfOne(items: seq<CalverItem>, c: CalverItem, e: Error)
    requires c in items
    ensures e in FloorErrorsOf(c, Adoption(items)) <==> BelowItsFloor(items, c, e)
  {
    AdoptionIsEarliest(items, c.floors.dateKey);
    hide Adoption;
  }

  /** The checker reports an error exactly if it is justified. */
  lemma ErrorsSpelledOut(items: seq<Item>, e: Error)
    ensures e in AppcastErrors(items) <==> Justified(items, e)
  {
    var calver := CalverItems(items);
    BuildErrorMembers(items, e);
    FloorErrorMembers(calver, Adoption(calver), e);
    hide BuildErrors, CalverItems, FloorErrors, Adoption, BelowItsFloor;
    forall c | c in calver ensures e in FloorErrorsOf(c, Adoption(calver)) <==> BelowItsFloor(calver, c, e) {
      FloorErrorOfOne(calver, c, e);
    }
    forall c | c in calver ensures e in FloorErrorsOf(c, Adoption(calver)) ==> e.BelowFloor? {}
    hide FloorErrorsOf;
  }

  /** The items that are checked against floors: a numeric build and a version of a possible date. */
  lemma {:induction false} CalverMembers(items: seq<Item>, c: CalverItem)
    ensures c in CalverItems(items) <==>
      exists item | item in items ::
        item.build == Number(c.build) && item.title == c.title && item.version.Some?
        && SparkleBuildFloors(item.version.value) == Some(c.floors)
  {
    hide SparkleBuildFloors;
    if items != [] {
      CalverMembers(items[..|items|-1], c);
      assert items == items[..|items|-1] + [items[|items|-1]];
    }
  }
}
