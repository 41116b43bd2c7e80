/**
 * The grouping of public/js/analysis.js: the stored listings are arranged
 * as a location -> area -> unit type tree, each level listing its values
 * once in order of first appearance ([...new Set(...)]), and each unit type
 * group holding its listings. Also the character filter that cleans a
 * price text before it is read as a number.
 */
module Analysis {
  import opened Seqs
  import opened Extractor

  function LocationOf(l: ListingRecord): string { l.location }
  function AreaOf(l: ListingRecord): string { l.area }
  function UnitTypeOf(l: ListingRecord): string { l.unitType }

  function InLocation(location: string): ListingRecord -> bool {
    (l: ListingRecord) => l.location == location
  }

  function InArea(area: string): ListingRecord -> bool {
    (l: ListingRecord) => l.area == area
  }

  function InAreaWithUnitType(area: string, unitType: string): ListingRecord -> bool {
    (l: ListingRecord) => l.area == area && l.unitType == unitType
  }

  /** A leaf of the tree: one unit type and its listings (the average price is not modelled). */
  datatype UnitTypeGroup = UnitTypeGroup(unitType: string, listings: seq<ListingRecord>)

  datatype AreaGroup = AreaGroup(area: string, unitTypes: seq<UnitTypeGroup>)

  datatype LocationGroup = LocationGroup(location: string, areas: seq<AreaGroup>)

  /** `locations`: the distinct locations, in order of first appearance. */
  function Locations(data: seq<ListingRecord>): seq<string> {
    Dedup(MapSeq(LocationOf, data))
  }

  /** `areas` for one location: the distinct areas of that location's listings. */
  function AreasIn(data: seq<ListingRecord>, location: string): seq<string> {
    Dedup(MapSeq(AreaOf, Filter(InLocation(location), data)))
  }

  /** `unitTypes` for one area, as written: drawn from the listings of that area in any location. */
  function UnitTypesIn(data: seq<ListingRecord>, area: string): seq<string> {
    Dedup(MapSeq(UnitTypeOf, Filter(InArea(area), data)))
  }

  /** A unit type group's `listings`, as written: every listing with that area and unit type. */
  function GroupListings(data: seq<ListingRecord>, area: string, unitType: string): seq<ListingRecord> {
    Filter(InAreaWithUnitType(area, unitType), data)
  }

  function UnitTypeGroupsFor(data: seq<ListingRecord>, area: string): seq<UnitTypeGroup> {
    var unitTypes := UnitTypesIn(data, area);
    seq(|unitTypes|, k requires 0 <= k < |unitTypes| =>
      UnitTypeGroup(unitTypes[k], GroupListings(data, area, unitTypes[k])))
  }

  function AreaGroupsFor(data: seq<ListingRecord>, location: string): seq<AreaGroup> {
    var areas := AreasIn(data, location);
    seq(|areas|, j requires 0 <= j < |areas| => AreaGroup(areas[j], UnitTypeGroupsFor(data, areas[j])))
  }

  /** `structuredData`, as written. */
  function StructuredData(data: seq<ListingRecord>): seq<LocationGroup> {
    var locations := Locations(data);
    seq(|locations|, i requires 0 <= i < |locations| =>
      LocationGroup(locations[i], AreaGroupsFor(data, locations[i])))
  }

  /**
   * `locations` lists each location of the data exactly once, in the order
   * the locations first appear, and nothing else.
   */
  lemma LocationsExact(data: seq<ListingRecord>, location: string)
    ensures location in Locations(data) <==> exists i :: 0 <= i < |data| && data[i].location == location
    ensures NoDuplicates(Locations(data))
    ensures InFirstOccurrenceOrder(MapSeq(LocationOf, data), Locations(data))
  {
    DedupMembership(MapSeq(LocationOf, data), location);
    DedupFirstOccurrenceOrder(MapSeq(LocationOf, data));
  }

  /** The areas under a location are exactly the areas of that location's listings, each once. */
  lemma AreasExact(data: seq<ListingRecord>, location: string, area: string)
    ensures area in AreasIn(data, location) <==>
            exists i :: 0 <= i < |data| && data[i].location == location && data[i].area == area
    ensures NoDuplicates(AreasIn(data, location))
  {
    DedupMembership(MapSeq(AreaOf, Filter(InLocation(location), data)), area);
    MapFilterMembership(AreaOf, InLocation(location), data, area);
  }

  /**
   * The unit types under an area, as written, are exactly the unit types of
   * the listings of that area, whatever their location.
   */
  lemma UnitTypesExact(data: seq<ListingRecord>, area: string, unitType: string)
    ensures unitType in UnitTypesIn(data, area) <==>
            exists i :: 0 <= i < |data| && data[i].area == area && data[i].unitType == unitType
    ensures NoDuplicates(UnitTypesIn(data, area))
  {
    DedupMembership(MapSeq(UnitTypeOf, Filter(InArea(area), data)), unitType);
    MapFilterMembership(UnitTypeOf, InArea(area), data, unitType);
  }

  /**
   * A unit type group, as written, holds every listing of its area and unit
   * type as often as the data does, and no other listing.
   */
  lemma GroupListingsExact(data: seq<ListingRecord>, area: string, unitType: string, x: ListingRecord)
    ensures multiset(GroupListings(data, area, unitType))[x] ==
            if x.area == area && x.unitType == unitType then multiset(data)[x] else 0
  {
    FilterCounts(InAreaWithUnitType(area, unitType), data, x);
  }

  /** No unit type group is empty: its unit type was taken from a listing it contains. */
  lemma GroupNonEmpty(data: seq<ListingRecord>, area: string, unitType: string)
    requires unitType in UnitTypesIn(data, area)
    ensures GroupListings(data, area, unitType) != []
  {
    UnitTypesExact(data, area, unitType);
    var i :| 0 <= i < |data| && data[i].area == area && data[i].unitType == unitType;
    FilterMembership(InAreaWithUnitType(area, unitType), data, data[i]);
  }

  /** Every listing is found in the group of its own location, area and unit type. */
  lemma EveryListingPlaced(data: seq<ListingRecord>, x: ListingRecord)
    requires x in data
    ensures var tree := StructuredData(data);
      exists a :: 0 <= a < |tree| && tree[a].location == x.location &&
        exists b :: 0 <= b < |tree[a].areas| && tree[a].areas[b].area == x.area &&
          exists c :: 0 <= c < |tree[a].areas[b].unitTypes| &&
            tree[a].areas[b].unitTypes[c].unitType == x.unitType &&
            x in tree[a].areas[b].unitTypes[c].listings
  {
    var tree := StructuredData(data);
    LocationsExact(data, x.location);
    AreasExact(data, x.location, x.area);
    UnitTypesExact(data, x.area, x.unitType);
    FilterMembership(InAreaWithUnitType(x.area, x.unitType), data, x);
    var a := FirstIndex(Locations(data), x.location);
    var b := FirstIndex(AreasIn(data, x.location), x.area);
    var c := FirstIndex(UnitTypesIn(data, x.area), x.unitType);
    var areas := AreaGroupsFor(data, x.location);
    var unitTypes := UnitTypeGroupsFor(data, x.area);
    assert tree[a] == LocationGroup(x.location, areas);
    assert areas[b] == AreaGroup(x.area, unitTypes);
    assert unitTypes[c] == UnitTypeGroup(x.unitType, GroupListings(data, x.area, x.unitType));
  }

  /**
   * As written, a unit type group can hold listings of another location:
   * with two listings in the same area but different locations and unit
   * types, the tree under the first listing's location shows the second
   * listing's unit type, holding the second listing.
   */
  lemma UnitTypesLeakAcrossLocations(x: ListingRecord, y: ListingRecord)
    requires x.area == y.area && x.location != y.location && x.unitType != y.unitType
    ensures var tree := StructuredData([x, y]);
      |tree| == 2 && tree[0].location == x.location &&
      tree[0].areas == [AreaGroup(x.area, [UnitTypeGroup(x.unitType, [x]), UnitTypeGroup(y.unitType, [y])])]
  {
    var data := [x, y];
    PairLocations(x, y);
    PairAreas(x, y);
    PairUnitTypeGroups(x, y);
    var areas := AreaGroupsFor(data, x.location);
    assert areas == [AreaGroup(x.area, UnitTypeGroupsFor(data, x.area))];
    assert StructuredData(data)[0] == LocationGroup(x.location, areas);
  }

  /** As written, both listings' unit types come under the shared area, each holding its own listing. */
  lemma PairUnitTypeGroups(x: ListingRecord, y: ListingRecord)
    requires x.area == y.area && x.unitType != y.unitType
    ensures UnitTypeGroupsFor([x, y], x.area) == [UnitTypeGroup(x.unitType, [x]), UnitTypeGroup(y.unitType, [y])]
  {
    var data := [x, y];
    PairUnitTypes(x, y);
    FilterPair(InAreaWithUnitType(x.area, x.unitType), x, y);
    FilterPair(InAreaWithUnitType(x.area, y.unitType), x, y);
    assert GroupListings(data, x.area, x.unitType) == [x];
    assert GroupListings(data, x.area, y.unitType) == [y];
  }

  /** As written, the unit types under the shared area are those of both listings. */
  lemma PairUnitTypes(x: ListingRecord, y: ListingRecord)
    requires x.area == y.area && x.unitType != y.unitType
    ensures UnitTypesIn([x, y], x.area) == [x.unitType, y.unitType]
  {
    var data := [x, y];
    FilterPair(InArea(x.area), x, y);
    assert Filter(InArea(x.area), data) == data;
    assert MapSeq(UnitTypeOf, data) == [x.unitType, y.unitType];
    DedupPair(x.unitType, y.unitType);
  }

  /** The two locations of two listings in different locations. */
  lemma PairLocations(x: ListingRecord, y: ListingRecord)
    requires x.location != y.location
    ensures Locations([x, y]) == [x.location, y.location]
  {
    assert MapSeq(LocationOf, [x, y]) == [x.location, y.location];
    DedupPair(x.location, y.location);
  }

  /** The areas under the first location when the second listing lies elsewhere. */
  lemma PairAreas(x: ListingRecord, y: ListingRecord)
    requires x.location != y.location
    ensures AreasIn([x, y], x.location) == [x.area]
  {
    FilterPair(InLocation(x.location), x, y);
    assert MapSeq(AreaOf, [x]) == [x.area];
    DedupSingle(x.area);
  }

  function InPlace(location: string, area: string): ListingRecord -> bool {
    (l: ListingRecord) => l.location == location && l.area == area
  }

  function InPlaceWithUnitType(location: string, area: string, unitType: string): ListingRecord -> bool {
    (l: ListingRecord) => l.location == location && l.area == area && l.unitType == unitType
  }

  /** `unitTypes` as evidently intended: those of the listings of this area in this location. */
  function UnitTypesAt(data: seq<ListingRecord>, location: string, area: string): seq<string> {
    Dedup(MapSeq(UnitTypeOf, Filter(InPlace(location, area), data)))
  }

  /** A unit type group's `listings` as evidently intended: restricted to the location too. */
  function GroupListingsAt(data: seq<ListingRecord>, location: string, area: string, unitType: string): seq<ListingRecord> {
    Filter(InPlaceWithUnitType(location, area, unitType), data)
  }

  function UnitTypeGroupsAt(data: seq<ListingRecord>, location: string, area: string): seq<UnitTypeGroup> {
    var unitTypes := UnitTypesAt(data, location, area);
    seq(|unitTypes|, k requires 0 <= k < |unitTypes| =>
      UnitTypeGroup(unitTypes[k], GroupListingsAt(data, location, area, unitTypes[k])))
  }

  function AreaGroupsAt(data: seq<ListingRecord>, location: string): seq<AreaGroup> {
    var areas := AreasIn(data, location);
    seq(|areas|, j requires 0 <= j < |areas| => AreaGroup(areas[j], UnitTypeGroupsAt(data, location, areas[j])))
  }

  /** The location -> area -> unit type tree with every level filtered by all the levels above it. */
  function StructuredDataByLocation(data: seq<ListingRecord>): seq<LocationGroup> {
    var locations := Locations(data);
    seq(|locations|, i requires 0 <= i < |locations| =>
      LocationGroup(locations[i], AreaGroupsAt(data, locations[i])))
  }

  /** The unit types under a location and area are exactly those of the listings there. */
  lemma UnitTypesAtExact(data: seq<ListingRecord>, location: string, area: string, unitType: string)
    ensures unitType in UnitTypesAt(data, location, area) <==>
            exists i :: 0 <= i < |data| && data[i].location == location && data[i].area == area &&
                        data[i].unitType == unitType
    ensures NoDuplicates(UnitTypesAt(data, location, area))
  {
    DedupMembership(MapSeq(UnitTypeOf, Filter(InPlace(location, area), data)), unitType);
    MapFilterMembership(UnitTypeOf, InPlace(location, area), data, unitType);
  }

  /**
   * In the corrected tree each group holds exactly the listings of its own
   * location, area and unit type, as often as the data does, and no other.
   */
  lemma GroupListingsAtExact(data: seq<ListingRecord>, location: string, area: string, unitType: string,
                             x: ListingRecord)
    ensures multiset(GroupListingsAt(data, location, area, unitType))[x] ==
            if x.location == location && x.area == area && x.unitType == unitType then multiset(data)[x] else 0
  {
    FilterCounts(InPlaceWithUnitType(location, area, unitType), data, x);
  }

  /** Every group of the corrected tree is non-empty and agrees with the labels above it. */
  lemma ByLocationGroupsConsistent(data: seq<ListingRecord>, a: nat, b: nat, c: nat)
    requires a < |StructuredDataByLocation(data)|
    requires b < |StructuredDataByLocation(data)[a].areas|
    requires c < |StructuredDataByLocation(data)[a].areas[b].unitTypes|
    ensures var tree := StructuredDataByLocation(data);
      var group := tree[a].areas[b].unitTypes[c];
      group.listings != [] &&
      forall l :: l in group.listings ==>
        l.location == tree[a].location && l.area == tree[a].areas[b].area && l.unitType == group.unitType
  {
    var tree := StructuredDataByLocation(data);
    var location := Locations(data)[a];
    var area := AreasIn(data, location)[b];
    var unitType := UnitTypesAt(data, location, area)[c];
    assert tree[a].location == location;
    assert tree[a].areas[b] == AreaGroup(area, UnitTypeGroupsAt(data, location, area));
    var group := tree[a].areas[b].unitTypes[c];
    assert group == UnitTypeGroup(unitType, GroupListingsAt(data, location, area, unitType));
    UnitTypesAtExact(data, location, area, unitType);
    var i :| 0 <= i < |data| && data[i].location == location && data[i].area == area && data[i].unitType == unitType;
    FilterMembership(InPlaceWithUnitType(location, area, unitType), data, data[i]);
    forall l | l in group.listings
      ensures l.location == location && l.area == area && l.unitType == unitType
    {
      FilterMembership(InPlaceWithUnitType(location, area, unitType), data, l);
    }
  }

  /** In the corrected tree too, every listing is found in the group of its own location, area and unit type. */
  lemma ByLocationEveryListingPlaced(data: seq<ListingRecord>, x: ListingRecord)
    requires x in data
    ensures var tree := StructuredDataByLocation(data);
      exists a :: 0 <= a < |tree| && tree[a].location == x.location &&
        exists b :: 0 <= b < |tree[a].areas| && tree[a].areas[b].area == x.area &&
          exists c :: 0 <= c < |tree[a].areas[b].unitTypes| &&
            tree[a].areas[b].unitTypes[c].unitType == x.unitType &&
            x in tree[a].areas[b].unitTypes[c].listings
  {
    var tree := StructuredDataByLocation(data);
    LocationsExact(data, x.location);
    AreasExact(data, x.location, x.area);
    UnitTypesAtExact(data, x.location, x.area, x.unitType);
    FilterMembership(InPlaceWithUnitType(x.location, x.area, x.unitType), data, x);
    var a := FirstIndex(Locations(data), x.location);
    var b := FirstIndex(AreasIn(data, x.location), x.area);
    var c := FirstIndex(UnitTypesAt(data, x.location, x.area), x.unitType);
    var areas := AreaGroupsAt(data, x.location);
    var unitTypes := UnitTypeGroupsAt(data, x.location, x.area);
    assert tree[a] == LocationGroup(x.location, areas);
    assert areas[b] == AreaGroup(x.area, unitTypes);
    assert unitTypes[c] == UnitTypeGroup(x.unitType, GroupListingsAt(data, x.location, x.area, x.unitType));
  }

  /** On the two listings that show the leak, the corrected tree keeps the second one out of the first location. */
  lemma ByLocationKeepsLocationsApart(x: ListingRecord, y: ListingRecord)
    requires x.area == y.area && x.location != y.location && x.unitType != y.unitType
    ensures var tree := StructuredDataByLocation([x, y]);
      |tree| == 2 && tree[0].location == x.location &&
      tree[0].areas == [AreaGroup(x.area, [UnitTypeGroup(x.unitType, [x])])]
  {
    var data := [x, y];
    PairLocations(x, y);
    PairAreas(x, y);
    PairUnitTypeGroupsAt(x, y);
    var areas := AreaGroupsAt(data, x.location);
    assert areas == [AreaGroup(x.area, UnitTypeGroupsAt(data, x.location, x.area))];
    assert StructuredDataByLocation(data)[0] == LocationGroup(x.location, areas);
  }

  /** Filtered by location as well, only the first listing's unit type comes under its location and area. */
  lemma PairUnitTypeGroupsAt(x: ListingRecord, y: ListingRecord)
    requires x.location != y.location
    ensures UnitTypeGroupsAt([x, y], x.location, x.area) == [UnitTypeGroup(x.unitType, [x])]
  {
    var data := [x, y];
    PairUnitTypesAt(x, y);
    FilterPair(InPlaceWithUnitType(x.location, x.area, x.unitType), x, y);
    assert GroupListingsAt(data, x.location, x.area, x.unitType) == [x];
  }

  /** Filtered by location as well, the unit types under the first listing's place are its own. */
  lemma PairUnitTypesAt(x: ListingRecord, y: ListingRecord)
    requires x.location != y.location
    ensures UnitTypesAt([x, y], x.location, x.area) == [x.unitType]
  {
    FilterPair(InPlace(x.location, x.area), x, y);
    assert MapSeq(UnitTypeOf, [x]) == [x.unitType];
    DedupSingle(x.unitType);
  }

  /** The characters the price cleaning keeps: those of the class 0-9 . - */
  predicate IsPriceChar(c: char) {
    ('0' <= c <= '9') || c == '.' || c == '-'
  }

  /** price.replace(/[^0-9.-]+/g, ""): every other character removed. */
  function CleanPrice(price: string): string {
    Filter(IsPriceChar, price)
  }

  /**
   * The cleaned text keeps every digit, dot and minus sign as often as the
   * price has it and drops every other character.
   */
  lemma CleanPriceKeepsExactly(price: string, c: char)
    ensures multiset(CleanPrice(price))[c] == if IsPriceChar(c) then multiset(price)[c] else 0
    ensures forall i :: 0 <= i < |CleanPrice(price)| ==> IsPriceChar(CleanPrice(price)[i])
  {
    FilterCounts(IsPriceChar, price, c);
    FilterSatisfies(IsPriceChar, price);
  }

  /** The kept characters stay in their order: cleaning a concatenation cleans each part. */
  lemma CleanPriceAppend(a: string, b: string)
    ensures CleanPrice(a + b) == CleanPrice(a) + CleanPrice(b)
  {
    FilterAppend(IsPriceChar, a, b);
  }

  /** A text of digits, dots and minus signs is left as it is, so cleaning twice is cleaning once. */
  lemma CleanPriceIdempotent(price: string)
    ensures CleanPrice(CleanPrice(price)) == CleanPrice(price)
  {
    FilterSatisfies(IsPriceChar, price);
    FilterAll(IsPriceChar, CleanPrice(price));
  }
}
