/**
 * The chart analyzer (src/utils/chartAnalyzer.js): the snapshot of a chart for
 * export, the element and modality tallies behind the summary and the balance
 * section, the aspect display names and the order of the exported sections.
 * The prose of each section is kept opaque: a section is represented by the
 * data it is written from.
 */
module ChartAnalyzer {
  import opened Wrappers
  import opened JsNumbers
  import opened Entities
  import opened ChartUtils
  import opened AstronomyApi

  /** The result of a call that may throw a TypeError. */
  datatype Outcome<T> = Returns(value: T) | Throws

  // ---------------------------------------------------------------------------
  // Snapshot records

  /** A field written as `value || 'Unknown'`. */
  datatype Shown<T> = Known(value: T) | Unknown

  /** `s || 'Unknown'` on a string that may be absent: absent and empty strings are falsy. */
  function TextOrUnknown(s: Option<string>): Shown<string> {
    if s.Some? && s.value != "" then Known(s.value) else Unknown
  }

  /** `x || 'Unknown'` on a number that may be absent: absent and zero are falsy. */
  function NumberOrUnknown(x: Option<real>): Shown<real> {
    if x.Some? && x.value != 0.0 then Known(x.value) else Unknown
  }

  /** The birth details; the date is kept as entered (its ISO reformatting is not modelled). */
  datatype BasicInfo = BasicInfo(
    name: Shown<string>,
    birthDate: Shown<string>,
    birthTime: Shown<string>,
    birthPlace: Shown<string>,
    latitude: Shown<real>,
    longitude: Shown<real>)

  /** One body in the snapshot: `planet` is its display name, `degree` is not rounded here. */
  datatype PlanetEntry = PlanetEntry(
    planet: string,
    sign: string,
    degree: real,
    house: int,
    isRetrograde: bool,
    element: Element,
    modality: Modality)

  datatype HouseEntry = HouseEntry(house: int, sign: string, degree: real, longitude: real)

  datatype PointEntry = PointEntry(longitude: real, sign: string, degree: real)

  datatype AspectEntry = AspectEntry(aspect: string, planet1: string, planet2: string, orb: real)

  datatype TransitAspectEntry = TransitAspectEntry(aspect: string, transitPlanet: string, natalPlanet: string, orb: real)

  /**
   * The transit part. `date` is `None` when the transit data has none and the
   * current date is used instead, `time` likewise with the current time.
   */
  datatype TransitSnapshot = TransitSnapshot(
    date: Option<string>,
    time: Option<string>,
    planets: seq<PlanetEntry>,
    aspects: seq<TransitAspectEntry>)

  /** The snapshot without its creation time stamp. */
  datatype Snapshot = Snapshot(
    basicInfo: BasicInfo,
    planets: seq<PlanetEntry>,
    houses: seq<HouseEntry>,
    aspects: seq<AspectEntry>,
    ascendant: PointEntry,
    midheaven: PointEntry,
    transits: Option<TransitSnapshot>)

  // ---------------------------------------------------------------------------
  // Snapshot assembly

  function BasicInfoOf(b: Option<BirthData>): BasicInfo {
    if b.None? then BasicInfo(Unknown, Unknown, Unknown, Unknown, Unknown, Unknown)
    else
      var d := b.value;
      BasicInfo(TextOrUnknown(Some(d.name)), TextOrUnknown(Some(d.date)), TextOrUnknown(Some(d.time)),
                TextOrUnknown(Some(d.place)), NumberOrUnknown(d.latitude), NumberOrUnknown(d.longitude))
  }

  /** The element of the sign that holds the longitude; every sign index has one. */
  function ElementOf(longitude: real): (e: Element)
    ensures GetElementForSign(GetZodiacSignIndex(longitude)) == Some(e)
  {
    ClassifiedForNonNegative(GetZodiacSignIndex(longitude));
    GetElementForSign(GetZodiacSignIndex(longitude)).value
  }

  /** The modality of the sign that holds the longitude; every sign index has one. */
  function ModalityOf(longitude: real): (m: Modality)
    ensures GetModalityForSign(GetZodiacSignIndex(longitude)) == Some(m)
  {
    ClassifiedForNonNegative(GetZodiacSignIndex(longitude));
    GetModalityForSign(GetZodiacSignIndex(longitude)).value
  }

  /** A body with its house taken from the given cusps by getHouseNumber. */
  function PlanetEntryOf(p: Planet, houses: seq<HouseCusp>): PlanetEntry {
    PlanetEntry(p.name, p.zodiacSignName, p.degree, HouseNumberOf(Normalize(p.longitude), houses),
                p.isRetrograde, ElementOf(p.longitude), ModalityOf(p.longitude))
  }

  function PlanetEntries(planets: seq<Planet>, houses: seq<HouseCusp>): (r: seq<PlanetEntry>)
    ensures |r| == |planets|
  {
    seq(|planets|, i requires 0 <= i < |planets| => PlanetEntryOf(planets[i], houses))
  }

  /** Whether the chart's sign table has an entry for every sign index the snapshot reads. */
  predicate SignsCover(c: ChartData) {
    && (forall i :: 0 <= i < |c.houses| ==> GetZodiacSignIndex(c.houses[i].longitude) < |c.zodiacSigns|)
    && GetZodiacSignIndex(c.ascendant.longitude) < |c.zodiacSigns|
    && GetZodiacSignIndex(c.midheaven.longitude) < |c.zodiacSigns|
  }

  /** A cusp with the name of its sign and `longitude % 30`, which is not normalised. */
  function HouseEntryOf(h: HouseCusp, signs: seq<ZodiacSign>): HouseEntry
    requires GetZodiacSignIndex(h.longitude) < |signs|
  {
    HouseEntry(h.house, signs[GetZodiacSignIndex(h.longitude)].name, JsRem(h.longitude, 30.0), h.longitude)
  }

  function PointEntryOf(p: Point, signs: seq<ZodiacSign>): PointEntry
    requires GetZodiacSignIndex(p.longitude) < |signs|
  {
    PointEntry(p.longitude, signs[GetZodiacSignIndex(p.longitude)].name, JsRem(p.longitude, 30.0))
  }

  /** `xs.find(p)`: the index of the first element that satisfies p, or none when no element does. */
  function FindFirst<T>(xs: seq<T>, p: T -> bool): (r: Option<nat>)
    ensures r.Some? ==> r.value < |xs| && p(xs[r.value])
    ensures r.Some? ==> forall i :: 0 <= i < r.value ==> !p(xs[i])
    ensures r.None? ==> forall i :: 0 <= i < |xs| ==> !p(xs[i])
  {
    if xs == [] then None
    else if p(xs[0]) then Some(0)
    else match FindFirst(xs[1..], p)
      case None => None
      case Some(k) =>
        assert forall i :: 1 <= i <= k ==> xs[i] == xs[1..][i - 1];
        Some(k + 1)
  }

  /** `planets.find(p => p.planet === id)?.name || id`: the display name, or the id itself. */
  function NameOrId(planets: seq<Planet>, id: string): string {
    match FindFirst(planets, (q: Planet) => q.planet == id)
    case Some(k) => if planets[k].name != "" then planets[k].name else id
    case None => id
  }

  function AspectEntryOf(a: Aspect, planets: seq<Planet>): AspectEntry {
    AspectEntry(a.aspect, NameOrId(planets, a.planet1), NameOrId(planets, a.planet2), a.orb)
  }

  /** The entry for one transit aspect: none unless it is marked transit-to-natal. */
  function TransitAspectEntryOf(a: Aspect, transitPlanets: seq<Planet>, natalPlanets: seq<Planet>): seq<TransitAspectEntry> {
    if a.isTransitToNatal == Some(true)
    then [TransitAspectEntry(a.aspect, NameOrId(transitPlanets, a.planet1), NameOrId(natalPlanets, a.planet2), a.orb)]
    else []
  }

  /** The transit aspects that are marked transit-to-natal, in order, with both names resolved. */
  function TransitAspectEntries(aspects: seq<Aspect>, transitPlanets: seq<Planet>, natalPlanets: seq<Planet>): seq<TransitAspectEntry> {
    if aspects == [] then []
    else TransitAspectEntryOf(aspects[0], transitPlanets, natalPlanets) + TransitAspectEntries(aspects[1..], transitPlanets, natalPlanets)
  }

  /** The transit part: transit bodies placed in the natal houses, and the transit-to-natal aspects. */
  function TransitSnapshotOf(t: TransitData, c: ChartData): TransitSnapshot {
    TransitSnapshot(
      if t.date.Some? && t.date.value != "" then t.date else None,
      if t.time.Some? && t.time.value != "" then t.time else None,
      PlanetEntries(t.planets, c.houses),
      TransitAspectEntries(t.aspects, t.planets, c.planets))
  }

  /**
   * createChartSnapshot: `null` without chart data; a TypeError when the chart's
   * sign table lacks the sign of a cusp, of the ascendant or of the midheaven;
   * otherwise the snapshot.
   */
  function CreateChartSnapshot(chart: Option<ChartData>, transit: Option<TransitData>): (r: Outcome<Option<Snapshot>>)
    ensures r.Throws? <==> chart.Some? && !SignsCover(chart.value)
    ensures r.Returns? ==> (r.value.None? <==> chart.None?)
  {
    if chart.None? then Returns(None)
    else if !SignsCover(chart.value) then Throws
    else
      var c := chart.value;
      Returns(Some(Snapshot(
        BasicInfoOf(c.birthData),
        PlanetEntries(c.planets, c.houses),
        seq(|c.houses|, i requires 0 <= i < |c.houses| => HouseEntryOf(c.houses[i], c.zodiacSigns)),
        seq(|c.aspects|, i requires 0 <= i < |c.aspects| => AspectEntryOf(c.aspects[i], c.planets)),
        PointEntryOf(c.ascendant, c.zodiacSigns),
        PointEntryOf(c.midheaven, c.zodiacSigns),
        if transit.Some? then Some(TransitSnapshotOf(transit.value, c)) else None)))
  }

  // ---------------------------------------------------------------------------
  // Snapshot properties

  /**
   * Without birth data every field reads 'Unknown'; with it, a field reads
   * 'Unknown' exactly when its value is falsy, so a latitude or longitude of
   * exactly 0 is shown as 'Unknown'.
   */
  lemma BasicInfoFallbacks(b: Option<BirthData>)
    ensures b.None? ==> BasicInfoOf(b) == BasicInfo(Unknown, Unknown, Unknown, Unknown, Unknown, Unknown)
    ensures b.Some? ==> (BasicInfoOf(b).name.Unknown? <==> b.value.name == "")
    ensures b.Some? ==> (BasicInfoOf(b).latitude.Unknown? <==> b.value.latitude.None? || b.value.latitude == Some(0.0))
    ensures b.Some? ==> (BasicInfoOf(b).longitude.Unknown? <==> b.value.longitude.None? || b.value.longitude == Some(0.0))
    ensures b.Some? && b.value.latitude.Some? && b.value.latitude.value != 0.0 ==> BasicInfoOf(b).latitude == Known(b.value.latitude.value)
  {
  }

  /**
   * One entry per body, in order, with the body's display name and sign; the
   * house is what getHouseNumber finds among the natal cusps, and the element
   * and modality are those of the sign the longitude falls in.
   */
  lemma SnapshotPlanets(c: ChartData, t: Option<TransitData>, i: nat)
    requires SignsCover(c) && i < |c.planets|
    ensures var s := CreateChartSnapshot(Some(c), t).value.value;
      && |s.planets| == |c.planets|
      && s.planets[i].planet == c.planets[i].name
      && s.planets[i].house == HouseNumberOf(Normalize(c.planets[i].longitude), c.houses)
      && Some(s.planets[i].element) == GetElementForSign(GetZodiacSignIndex(c.planets[i].longitude))
      && Some(s.planets[i].modality) == GetModalityForSign(GetZodiacSignIndex(c.planets[i].longitude))
  {
  }

  /** The element recorded for a body agrees with the element of its sign in the mock sign table. */
  lemma ElementAgreesWithSignTable(longitude: real)
    ensures ElementOf(longitude) == ZodiacSigns[GetZodiacSignIndex(longitude)].element
  {
    var k := GetZodiacSignIndex(longitude);
    assert JsIntRem(k, 4) == k % 4;
    assert k == 0 || k == 1 || k == 2 || k == 3 || k == 4 || k == 5 || k == 6 || k == 7 || k == 8 || k == 9 || k == 10 || k == 11;
  }

  /**
   * One entry per cusp, in order. Its degree is the longitude modulo 30: in
   * [0, 30) for a non-negative longitude, and for a longitude in [0, 360) the
   * distance from the start of the sign the entry names.
   */
  lemma SnapshotHouses(c: ChartData, t: Option<TransitData>, i: nat)
    requires SignsCover(c) && i < |c.houses|
    ensures var s := CreateChartSnapshot(Some(c), t).value.value;
      && |s.houses| == |c.houses|
      && s.houses[i].house == c.houses[i].house
      && s.houses[i].longitude == c.houses[i].longitude
      && s.houses[i].sign == c.zodiacSigns[GetZodiacSignIndex(c.houses[i].longitude)].name
      && (0.0 <= c.houses[i].longitude ==> 0.0 <= s.houses[i].degree < 30.0)
      && (0.0 <= c.houses[i].longitude < 360.0 ==>
            s.houses[i].degree == c.houses[i].longitude - 30.0 * (GetZodiacSignIndex(c.houses[i].longitude) as real))
  {
    var lon := c.houses[i].longitude;
    if 0.0 <= lon < 360.0 {
      NormalizeIdentity(lon);
      JsRemNonNegative(lon, 30.0);
    }
  }

  /** The first body with the id names it, unless its name is empty; an id no body has is kept. */
  lemma NameOrIdResolves(planets: seq<Planet>, id: string, k: nat)
    requires k < |planets| && planets[k].planet == id
    requires forall i :: 0 <= i < k ==> planets[i].planet != id
    ensures NameOrId(planets, id) == if planets[k].name != "" then planets[k].name else id
  {
  }

  /** One entry per aspect, in order, with the bodies' display names where a body with that id exists. */
  lemma SnapshotAspects(c: ChartData, t: Option<TransitData>, i: nat)
    requires SignsCover(c) && i < |c.aspects|
    ensures var s := CreateChartSnapshot(Some(c), t).value.value;
      && |s.aspects| == |c.aspects|
      && s.aspects[i].aspect == c.aspects[i].aspect
      && s.aspects[i].orb == c.aspects[i].orb
      && ((forall j :: 0 <= j < |c.planets| ==> c.planets[j].planet != c.aspects[i].planet1) ==> s.aspects[i].planet1 == c.aspects[i].planet1)
      && s.aspects[i].planet1 == NameOrId(c.planets, c.aspects[i].planet1)
      && s.aspects[i].planet2 == NameOrId(c.planets, c.aspects[i].planet2)
  {
  }

  /** The transit-to-natal entries are exactly those of the aspects so marked. */
  lemma {:induction false} TransitAspectsMembers(aspects: seq<Aspect>, tp: seq<Planet>, np: seq<Planet>, e: TransitAspectEntry)
    ensures e in TransitAspectEntries(aspects, tp, np) <==>
      exists i :: 0 <= i < |aspects| && aspects[i].isTransitToNatal == Some(true) &&
        e == TransitAspectEntry(aspects[i].aspect, NameOrId(tp, aspects[i].planet1), NameOrId(np, aspects[i].planet2), aspects[i].orb)
  {
    if aspects != [] {
      TransitAspectsMembers(aspects[1..], tp, np, e);
      if e in TransitAspectEntries(aspects[1..], tp, np) {
        var i :| 0 <= i < |aspects[1..]| && aspects[1..][i].isTransitToNatal == Some(true) &&
          e == TransitAspectEntry(aspects[1..][i].aspect, NameOrId(tp, aspects[1..][i].planet1), NameOrId(np, aspects[1..][i].planet2), aspects[1..][i].orb);
        assert aspects[i + 1] == aspects[1..][i];
      }
      if exists i :: 0 <= i < |aspects| && aspects[i].isTransitToNatal == Some(true) &&
          e == TransitAspectEntry(aspects[i].aspect, NameOrId(tp, aspects[i].planet1), NameOrId(np, aspects[i].planet2), aspects[i].orb) {
        var i :| 0 <= i < |aspects| && aspects[i].isTransitToNatal == Some(true) &&
          e == TransitAspectEntry(aspects[i].aspect, NameOrId(tp, aspects[i].planet1), NameOrId(np, aspects[i].planet2), aspects[i].orb);
        if i > 0 {
          assert aspects[1..][i - 1] == aspects[i];
        }
      }
    }
  }

  /** The filter keeps the original order: it distributes over concatenation. */
  lemma {:induction false} TransitAspectsConcat(a: seq<Aspect>, b: seq<Aspect>, tp: seq<Planet>, np: seq<Planet>)
    ensures TransitAspectEntries(a + b, tp, np) == TransitAspectEntries(a, tp, np) + TransitAspectEntries(b, tp, np)
  {
    if a == [] {
      assert a + b == b;
    } else {
      assert (a + b)[1..] == a[1..] + b;
      TransitAspectsConcat(a[1..], b, tp, np);
    }
  }

  /**
   * There is a transit part exactly when transit data is given; its bodies are
   * placed in the natal houses, not in houses of their own.
   */
  lemma SnapshotTransits(c: ChartData, t: Option<TransitData>)
    requires SignsCover(c)
    ensures var s := CreateChartSnapshot(Some(c), t).value.value;
      && (s.transits.None? <==> t.None?)
      && (t.Some? ==> |s.transits.value.planets| == |t.value.planets|)
      && (t.Some? ==> forall i :: 0 <= i < |t.value.planets| ==>
            s.transits.value.planets[i].house == HouseNumberOf(Normalize(t.value.planets[i].longitude), c.houses))
      && (t.Some? ==> s.transits.value.aspects == TransitAspectEntries(t.value.aspects, t.value.planets, c.planets))
  {
  }

  // ---------------------------------------------------------------------------
  // Element and modality tallies

  /** The number of bodies in the sign elements of e. */
  function ElementCount(planets: seq<PlanetEntry>, e: Element): nat {
    if planets == [] then 0
    else ElementCount(planets[..|planets| - 1], e) + (if planets[|planets| - 1].element == e then 1 else 0)
  }

  /** The number of bodies in signs of modality m. */
  function ModalityCount(planets: seq<PlanetEntry>, m: Modality): nat {
    if planets == [] then 0
    else ModalityCount(planets[..|planets| - 1], m) + (if planets[|planets| - 1].modality == m then 1 else 0)
  }

  /**
   * The `forEach` of the summary and of the balance section: both count objects
   * start at zero for every key and each body increments its element and its
   * modality.
   */
  method TallyPlanets(planets: seq<PlanetEntry>) returns (elementCount: map<Element, nat>, modalityCount: map<Modality, nat>)
    ensures forall e: Element :: e in elementCount && elementCount[e] == ElementCount(planets, e)
    ensures forall m: Modality :: m in modalityCount && modalityCount[m] == ModalityCount(planets, m)
  {
    elementCount := map[Fire := 0, Earth := 0, Air := 0, Water := 0];
    modalityCount := map[Cardinal := 0, Fixed := 0, Mutable := 0];
    assert planets[..0] == [];
    forall e: Element
      ensures e in elementCount
    {
      match e
      case Fire => case Earth => case Air => case Water =>
    }
    forall m: Modality
      ensures m in modalityCount
    {
      match m
      case Cardinal => case Fixed => case Mutable =>
    }
    for i := 0 to |planets|
      invariant forall e: Element :: e in elementCount && elementCount[e] == ElementCount(planets[..i], e)
      invariant forall m: Modality :: m in modalityCount && modalityCount[m] == ModalityCount(planets[..i], m)
    {
      var planet := planets[i];
      assert planets[..i + 1][..i] == planets[..i];
      elementCount := elementCount[planet.element := elementCount[planet.element] + 1];
      modalityCount := modalityCount[planet.modality := modalityCount[planet.modality] + 1];
    }
    assert planets[..|planets|] == planets;
  }

  /** Every body is counted once: the element counts and the modality counts each sum to the number of bodies. */
  lemma {:induction false} CountsSumToPlanets(planets: seq<PlanetEntry>)
    ensures ElementCount(planets, Fire) + ElementCount(planets, Earth) + ElementCount(planets, Air) + ElementCount(planets, Water) == |planets|
    ensures ModalityCount(planets, Cardinal) + ModalityCount(planets, Fixed) + ModalityCount(planets, Mutable) == |planets|
  {
    if planets != [] {
      CountsSumToPlanets(planets[..|planets| - 1]);
    }
  }

  /** One entry of `Object.entries` of a count object: the key's name and its count. */
  datatype Entry = Entry(key: string, count: nat)

  function ElementName(e: Element): string {
    match e
    case Fire => "Fire"
    case Earth => "Earth"
    case Air => "Air"
    case Water => "Water"
  }

  function ModalityName(m: Modality): string {
    match m
    case Cardinal => "Cardinal"
    case Fixed => "Fixed"
    case Mutable => "Mutable"
  }

  /** The element entries in declaration order: Fire, Earth, Air, Water. */
  function ElementEntries(planets: seq<PlanetEntry>): (r: seq<Entry>)
    ensures |r| == 4
  {
    seq(4, i requires 0 <= i < 4 => Entry(ElementName(Elements[i]), ElementCount(planets, Elements[i])))
  }

  /** The modality entries in declaration order: Cardinal, Fixed, Mutable. */
  function ModalityEntries(planets: seq<PlanetEntry>): (r: seq<Entry>)
    ensures |r| == 3
  {
    seq(3, i requires 0 <= i < 3 => Entry(ModalityName(Modalities[i]), ModalityCount(planets, Modalities[i])))
  }

  // ---------------------------------------------------------------------------
  // Dominant entry

  /** Inserts x after every entry whose count is not smaller, so equal counts keep their order. */
  function InsertByCount(t: seq<Entry>, x: Entry): (r: seq<Entry>)
    ensures |r| == |t| + 1
    ensures multiset(r) == multiset(t) + multiset{x}
  {
    if t == [] then [x]
    else if t[0].count >= x.count then
      assert t == [t[0]] + t[1..];
      [t[0]] + InsertByCount(t[1..], x)
    else [x] + t
  }

  /** `entries.sort((a, b) => b[1] - a[1])`, a stable sort by decreasing count. */
  function SortByCount(entries: seq<Entry>): (r: seq<Entry>)
    ensures |r| == |entries|
    ensures multiset(r) == multiset(entries)
  {
    if entries == [] then []
    else
      assert entries == entries[..|entries| - 1] + [entries[|entries| - 1]];
      InsertByCount(SortByCount(entries[..|entries| - 1]), entries[|entries| - 1])
  }

  /** The first entry of the sorted entries. */
  function Dominant(entries: seq<Entry>): Entry
    requires entries != []
  {
    SortByCount(entries)[0]
  }

  /** Entry k has the largest count, and every entry before it has a smaller one. */
  predicate IsFirstMaximum(entries: seq<Entry>, k: nat)
    requires k < |entries|
  {
    && (forall j :: 0 <= j < |entries| ==> entries[j].count <= entries[k].count)
    && (forall j :: 0 <= j < k ==> entries[j].count < entries[k].count)
  }

  /** The first entry after an insertion: the old first entry unless the new one has a larger count. */
  lemma InsertByCountHead(t: seq<Entry>, x: Entry)
    requires t != []
    ensures InsertByCount(t, x)[0] == if t[0].count >= x.count then t[0] else x
  {
  }

  /** A new last entry no larger than the first maximum leaves it the first maximum. */
  lemma FirstMaximumKept(entries: seq<Entry>, k: nat)
    requires k < |entries| - 1 && IsFirstMaximum(entries[..|entries| - 1], k)
    requires entries[|entries| - 1].count <= entries[k].count
    ensures IsFirstMaximum(entries, k)
  {
    var init := entries[..|entries| - 1];
    assert forall j :: 0 <= j < |init| ==> entries[j] == init[j];
  }

  /** A new last entry larger than the first maximum becomes the first maximum. */
  lemma FirstMaximumReplaced(entries: seq<Entry>, k: nat)
    requires k < |entries| - 1 && IsFirstMaximum(entries[..|entries| - 1], k)
    requires entries[|entries| - 1].count > entries[k].count
    ensures IsFirstMaximum(entries, |entries| - 1)
  {
    var init := entries[..|entries| - 1];
    assert forall j :: 0 <= j < |init| ==> entries[j] == init[j];
  }

  /** The index, in the unsorted entries, of the dominant entry; it is the first maximum. */
  lemma {:induction false} DominantIndex(entries: seq<Entry>) returns (k: nat)
    requires entries != []
    ensures k < |entries| && Dominant(entries) == entries[k] && IsFirstMaximum(entries, k)
  {
    var n := |entries| - 1;
    var init := entries[..n];
    var x := entries[n];
    assert entries == init + [x];
    if init == [] {
      k := 0;
    } else {
      var k0 := DominantIndex(init);
      var t := SortByCount(init);
      assert SortByCount(entries) == InsertByCount(t, x);
      InsertByCountHead(t, x);
      if t[0].count >= x.count {
        FirstMaximumKept(entries, k0);
        k := k0;
      } else {
        FirstMaximumReplaced(entries, k0);
        k := n;
      }
    }
  }

  /**
   * Because the sort is stable, the dominant entry is the first one, in key
   * order, with the largest count: ties go to the key declared first.
   */
  lemma DominantIsFirstMaximum(entries: seq<Entry>)
    requires entries != []
    ensures exists k :: 0 <= k < |entries| && Dominant(entries) == entries[k] && IsFirstMaximum(entries, k)
  {
    var k := DominantIndex(entries);
  }

  /** The dominant entry's count is at least 3 exactly when some count is. */
  lemma DominantReachesThree(entries: seq<Entry>)
    requires entries != []
    ensures Dominant(entries).count >= 3 <==> exists j :: 0 <= j < |entries| && entries[j].count >= 3
  {
    DominantIsFirstMaximum(entries);
  }

  // ---------------------------------------------------------------------------
  // Balance interpretation

  /** The keys whose count is c, in key order. */
  function KeysWithCount(entries: seq<Entry>, c: nat): seq<string> {
    if entries == [] then []
    else (if entries[0].count == c then [entries[0].key] else []) + KeysWithCount(entries[1..], c)
  }

  /** The keys listed are exactly those with count c. */
  lemma {:induction false} KeysWithCountMembers(entries: seq<Entry>, c: nat, k: string)
    ensures k in KeysWithCount(entries, c) <==> exists j :: 0 <= j < |entries| && entries[j].key == k && entries[j].count == c
  {
    if entries != [] {
      KeysWithCountMembers(entries[1..], c, k);
      if k in KeysWithCount(entries[1..], c) {
        var j :| 0 <= j < |entries[1..]| && entries[1..][j].key == k && entries[1..][j].count == c;
        assert entries[j + 1] == entries[1..][j];
      }
      if exists j :: 0 <= j < |entries| && entries[j].key == k && entries[j].count == c {
        var j :| 0 <= j < |entries| && entries[j].key == k && entries[j].count == c;
        if j > 0 {
          assert entries[1..][j - 1] == entries[j];
        }
      }
    }
  }

  /** The listed keys keep the key order: the filter distributes over concatenation. */
  lemma {:induction false} KeysWithCountConcat(a: seq<Entry>, b: seq<Entry>, c: nat)
    ensures KeysWithCount(a + b, c) == KeysWithCount(a, c) + KeysWithCount(b, c)
  {
    if a == [] {
      assert a + b == b;
    } else {
      assert (a + b)[1..] == a[1..] + b;
      KeysWithCountConcat(a[1..], b, c);
    }
  }

  /**
   * The lines of the overall balance interpretation, in the order they are
   * written; `None` where a line is left out.
   */
  datatype BalanceNotes = BalanceNotes(
    missing: Option<seq<string>>,
    underrepresented: Option<seq<string>>,
    dominantElement: Option<Entry>,
    dominantModality: Option<Entry>)

  function BalanceNotesOf(elements: seq<Entry>, modalities: seq<Entry>): BalanceNotes
    requires elements != [] && modalities != []
  {
    var missing := KeysWithCount(elements, 0);
    var under := KeysWithCount(elements, 1);
    BalanceNotes(
      if missing != [] then Some(missing) else None,
      if under != [] then Some(under) else None,
      if Dominant(elements).count >= 3 then Some(Dominant(elements)) else None,
      if Dominant(modalities).count >= 3 then Some(Dominant(modalities)) else None)
  }

  /**
   * A "Missing elements" line appears exactly when some element has no body,
   * and lists exactly those elements; likewise "Underrepresented elements"
   * for a single body; a dominant line appears exactly when some count reaches
   * 3, and names the first key with the largest count.
   */
  lemma BalanceNotesMeaning(elements: seq<Entry>, modalities: seq<Entry>, k: string)
    requires elements != [] && modalities != []
    ensures var n := BalanceNotesOf(elements, modalities);
      && (n.missing.Some? <==> exists j :: 0 <= j < |elements| && elements[j].count == 0)
      && (n.missing.Some? ==> (k in n.missing.value <==> exists j :: 0 <= j < |elements| && elements[j].key == k && elements[j].count == 0))
      && (n.underrepresented.Some? <==> exists j :: 0 <= j < |elements| && elements[j].count == 1)
      && (n.underrepresented.Some? ==> (k in n.underrepresented.value <==> exists j :: 0 <= j < |elements| && elements[j].key == k && elements[j].count == 1))
      && (n.dominantElement.Some? <==> exists j :: 0 <= j < |elements| && elements[j].count >= 3)
      && (n.dominantModality.Some? <==> exists j :: 0 <= j < |modalities| && modalities[j].count >= 3)
      && (n.dominantElement.Some? ==> exists j :: 0 <= j < |elements| && n.dominantElement.value == elements[j] && IsFirstMaximum(elements, j))
  {
    KeysWithCountMembers(elements, 0, k);
    KeysWithCountMembers(elements, 1, k);
    NonEmptyWhenMember(elements, 0);
    NonEmptyWhenMember(elements, 1);
    DominantReachesThree(elements);
    DominantReachesThree(modalities);
    DominantIsFirstMaximum(elements);
  }

  /** Some key has count c exactly when the list of such keys is not empty. */
  lemma NonEmptyWhenMember(entries: seq<Entry>, c: nat)
    ensures KeysWithCount(entries, c) != [] <==> exists j :: 0 <= j < |entries| && entries[j].count == c
  {
    if exists j :: 0 <= j < |entries| && entries[j].count == c {
      var j :| 0 <= j < |entries| && entries[j].count == c;
      KeysWithCountMembers(entries, c, entries[j].key);
    } else if KeysWithCount(entries, c) != [] {
      KeysWithCountMembers(entries, c, KeysWithCount(entries, c)[0]);
    }
  }

  /** The balance section: the counts per key, in key order, and the interpretation lines. */
  datatype BalanceFacts = BalanceFacts(elements: seq<Entry>, modalities: seq<Entry>, notes: BalanceNotes)

  /**
   * generateElementAnalysis, without the percentages and the prose. Every body
   * is counted once among the elements and once among the modalities; each
   * interpretation line appears exactly when its condition holds of the counts.
   */
  function GenerateElementAnalysis(s: Snapshot): (r: BalanceFacts)
    ensures |r.elements| == 4 && |r.modalities| == 3
    ensures r.elements[0].count + r.elements[1].count + r.elements[2].count + r.elements[3].count == |s.planets|
    ensures r.modalities[0].count + r.modalities[1].count + r.modalities[2].count == |s.planets|
    ensures r.notes.missing.Some? <==> exists j :: 0 <= j < 4 && r.elements[j].count == 0
    ensures r.notes.underrepresented.Some? <==> exists j :: 0 <= j < 4 && r.elements[j].count == 1
    ensures r.notes.dominantElement.Some? <==> exists j :: 0 <= j < 4 && r.elements[j].count >= 3
    ensures r.notes.dominantModality.Some? <==> exists j :: 0 <= j < 3 && r.modalities[j].count >= 3
  {
    CountsSumToPlanets(s.planets);
    BalanceNotesMeaning(ElementEntries(s.planets), ModalityEntries(s.planets), "");
    BalanceFacts(ElementEntries(s.planets), ModalityEntries(s.planets),
                 BalanceNotesOf(ElementEntries(s.planets), ModalityEntries(s.planets)))
  }

  // ---------------------------------------------------------------------------
  // Summary

  /** `planets.find(p => p.planet === name)?.sign || 'Unknown'`. */
  function SignOfBody(planets: seq<PlanetEntry>, name: string): Shown<string> {
    match FindFirst(planets, (e: PlanetEntry) => e.planet == name)
    case Some(k) => if planets[k].sign != "" then Known(planets[k].sign) else Unknown
    case None => Unknown
  }

  /** The facts the summary is written from. */
  datatype SummaryFacts = SummaryFacts(
    name: Shown<string>,
    birthDate: Shown<string>,
    birthTime: Shown<string>,
    birthPlace: Shown<string>,
    ascendantSign: string,
    midheavenSign: string,
    sunSign: Shown<string>,
    moonSign: Shown<string>,
    mercurySign: Shown<string>,
    dominantElement: string,
    dominantModality: string)

  /**
   * generateSummary, without the prose. The dominant element is the first, in
   * the order Fire, Earth, Air, Water, whose body count is largest, and
   * likewise for the modalities.
   */
  function GenerateSummary(s: Snapshot): (r: SummaryFacts)
    ensures exists j :: (0 <= j < 4 && r.dominantElement == ElementName(Elements[j])
                         && IsFirstMaximum(ElementEntries(s.planets), j))
    ensures exists j :: (0 <= j < 3 && r.dominantModality == ModalityName(Modalities[j])
                         && IsFirstMaximum(ModalityEntries(s.planets), j))
  {
    DominantIsFirstMaximum(ElementEntries(s.planets));
    DominantIsFirstMaximum(ModalityEntries(s.planets));
    SummaryFacts(s.basicInfo.name, s.basicInfo.birthDate, s.basicInfo.birthTime, s.basicInfo.birthPlace,
                 s.ascendant.sign, s.midheaven.sign,
                 SignOfBody(s.planets, "Sun"), SignOfBody(s.planets, "Moon"), SignOfBody(s.planets, "Mercury"),
                 Dominant(ElementEntries(s.planets)).key, Dominant(ModalityEntries(s.planets)).key)
  }

  /** The sign shown for a body is that of the first entry with its name, or 'Unknown'. */
  lemma SignOfBodyFirst(planets: seq<PlanetEntry>, name: string)
    ensures SignOfBody(planets, name).Known? ==>
      exists k :: 0 <= k < |planets| && planets[k].planet == name && planets[k].sign == SignOfBody(planets, name).value
        && forall j :: 0 <= j < k ==> planets[j].planet != name
    ensures (forall j :: 0 <= j < |planets| ==> planets[j].planet != name) ==> SignOfBody(planets, name) == Unknown
  {
    if FindFirst(planets, (e: PlanetEntry) => e.planet == name).Some? {
      var k := FindFirst(planets, (e: PlanetEntry) => e.planet == name).value;
      assert planets[k].planet == name;
    }
  }

  // ---------------------------------------------------------------------------
  // The analysis and its export

  /**
   * generateChartAnalysis: just an error without chart data; otherwise one part
   * per section, each represented by what it is written from, and a transit part
   * only when transit data is given.
   */
  datatype ChartAnalysis =
    | AnalysisError(error: string)
    | Analysis(
        summary: SummaryFacts,
        planets: seq<PlanetEntry>,
        houses: seq<HouseEntry>,
        aspects: seq<AspectEntry>,
        elements: BalanceFacts,
        transits: Option<TransitSnapshot>)

  function GenerateChartAnalysis(chart: Option<ChartData>, transit: Option<TransitData>): (r: Outcome<ChartAnalysis>)
    ensures r.Throws? <==> CreateChartSnapshot(chart, transit).Throws?
  {
    if chart.None? then Returns(AnalysisError("No chart data provided"))
    else
      match CreateChartSnapshot(chart, transit)
      case Throws => Throws
      case Returns(snapshot) =>
        var s := snapshot.value;
        Returns(Analysis(GenerateSummary(s), s.planets, s.houses, s.aspects, GenerateElementAnalysis(s),
                         if transit.Some? then s.transits else None))
  }

  /** The error result comes exactly from missing chart data, and the transit part exactly from transit data. */
  lemma AnalysisShape(chart: Option<ChartData>, transit: Option<TransitData>)
    requires GenerateChartAnalysis(chart, transit).Returns?
    ensures var a := GenerateChartAnalysis(chart, transit).value;
      && (a.AnalysisError? <==> chart.None?)
      && (a.Analysis? ==> (a.transits.None? <==> transit.None?))
      && (a.Analysis? ==> a.elements.elements == ElementEntries(PlanetEntries(chart.value.planets, chart.value.houses)))
  {
    if chart.Some? {
      SnapshotTransits(chart.value, transit);
    }
  }

  /** What a section of the exported text shows; `undefined` when the analysis is just an error. */
  datatype Body =
    | Undefined
    | SummaryBody(summary: SummaryFacts)
    | PlanetsBody(planets: seq<PlanetEntry>)
    | HousesBody(houses: seq<HouseEntry>)
    | AspectsBody(aspects: seq<AspectEntry>)
    | ElementsBody(balance: BalanceFacts)
    | TransitsBody(transits: TransitSnapshot)

  datatype Section = Section(heading: string, body: Body)

  /** The headings of the sections that are always written, in order. */
  const CoreHeadings: seq<string> := ["Summary", "Planetary Positions", "House Placements", "Aspects", "Elemental Balance"]

  /** The sections written for an analysis, in order. */
  function SectionsOf(a: ChartAnalysis): seq<Section> {
    match a
    case AnalysisError(_) =>
      seq(5, i requires 0 <= i < 5 => Section(CoreHeadings[i], Undefined))
    case Analysis(summary, planets, houses, aspects, elements, transits) =>
      [Section(CoreHeadings[0], SummaryBody(summary)), Section(CoreHeadings[1], PlanetsBody(planets)),
       Section(CoreHeadings[2], HousesBody(houses)), Section(CoreHeadings[3], AspectsBody(aspects)),
       Section(CoreHeadings[4], ElementsBody(elements))]
      + (if transits.Some? then [Section("Transit Analysis", TransitsBody(transits.value))] else [])
  }

  /**
   * exportChartAnalysisAsText, as the sections under the "# NATAL CHART
   * ANALYSIS" title; the joining into one string is not modelled. It throws
   * exactly when the snapshot does. Otherwise it gives Summary, Planetary
   * Positions, House Placements, Aspects and Elemental Balance in that order,
   * then Transit Analysis exactly when both chart and transit data are given;
   * without chart data the five sections show `undefined`.
   */
  function ExportChartAnalysisAsText(chart: Option<ChartData>, transit: Option<TransitData>): (r: Outcome<seq<Section>>)
    ensures r.Throws? <==> chart.Some? && !SignsCover(chart.value)
    ensures r.Returns? ==>
      Headings(r.value) == CoreHeadings + (if chart.Some? && transit.Some? then ["Transit Analysis"] else [])
    ensures r.Returns? && chart.None? ==> forall i :: 0 <= i < |r.value| ==> r.value[i].body == Undefined
  {
    match GenerateChartAnalysis(chart, transit)
    case Throws => Throws
    case Returns(a) =>
      AnalysisShape(chart, transit);
      SectionsOfHeadings(a);
      Returns(SectionsOf(a))
  }

  function Headings(sections: seq<Section>): seq<string> {
    seq(|sections|, i requires 0 <= i < |sections| => sections[i].heading)
  }

  /** The five core headings come first, and a sixth exactly for an analysis with a transit part. */
  lemma SectionsOfHeadings(a: ChartAnalysis)
    ensures Headings(SectionsOf(a)) == CoreHeadings + (if a.Analysis? && a.transits.Some? then ["Transit Analysis"] else [])
    ensures a.AnalysisError? ==> forall i :: 0 <= i < |SectionsOf(a)| ==> SectionsOf(a)[i].body == Undefined
  {
    var h := Headings(SectionsOf(a));
    assert |h| == 5 + (if a.Analysis? && a.transits.Some? then 1 else 0);
    assert forall i :: 0 <= i < 5 ==> h[i] == CoreHeadings[i];
  }

  // ---------------------------------------------------------------------------
  // Aspect names

  /** The display names of the catalog's aspect ids. */
  const AspectNames: map<string, string> :=
    map["conjunction" := "conjunct", "opposition" := "opposite", "trine" := "trine", "square" := "square", "sextile" := "sextile"]

  /** formatAspectName: the table's display name, or the input itself when the table has none. */
  function FormatAspectName(aspect: string): (r: string)
    ensures aspect !in AspectNames ==> r == aspect
    ensures aspect in AspectNames ==> r == AspectNames[aspect]
  {
    if aspect in AspectNames then AspectNames[aspect] else aspect
  }

  /** Formatting twice is formatting once: every display name is either not a key or maps to itself. */
  lemma FormatAspectNameIdempotent(aspect: string)
    ensures FormatAspectName(FormatAspectName(aspect)) == FormatAspectName(aspect)
  {
    assert |"conjunct"| == 8 && |"opposite"| == 8;
    assert "conjunct" !in AspectNames;
    assert "opposite" !in AspectNames by {
      assert "opposite"[1] != "opposition"[1] || "opposite" != "opposition";
    }
  }

  /** Every aspect of the catalog has its own display name. */
  lemma CatalogNamesDistinct(i: int, j: int)
    requires 0 <= i < |Catalog| && 0 <= j < |Catalog| && i != j
    ensures Catalog[i].id in AspectNames && Catalog[j].id in AspectNames
    ensures FormatAspectName(Catalog[i].id) != FormatAspectName(Catalog[j].id)
  {
  }
}
