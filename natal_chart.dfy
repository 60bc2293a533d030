/**
 * The computational parts of the natal chart component
 * (src/components/Chart/NatalChart.js): the harmonic transform of longitudes,
 * the harmonic-number input, the greedy grouping of nearby planets before
 * drawing, the local house lookup and the aspect list of a selected planet.
 */
module NatalChart {
  import opened Wrappers
  import opened JsNumbers
  import opened Entities
  import opened ChartUtils
  import opened AstronomyApi
  import opened PairSweeps

  // ---------------------------------------------------------------------------
  // Harmonic charts

  datatype ChartMode = Standard | Harmonic | HouseFocused

  /** The longitude of a body in the harmonic chart of number n: `(longitude * n) % 360`. */
  function HarmonicLongitude(longitude: real, n: int): (r: real)
    ensures -360.0 < r < 360.0
    ensures 0.0 <= longitude * (n as real) ==> r == Normalize(longitude * (n as real))
  {
    JsRem(longitude * (n as real), 360.0)
  }

  /**
   * The planets the chart draws: in harmonic mode with a number above 1 each
   * longitude is multiplied and reduced, otherwise the planets are unchanged.
   */
  function DisplayPlanets(planets: seq<Planet>, mode: ChartMode, n: int): (r: seq<Planet>)
    ensures |r| == |planets|
    ensures forall i :: 0 <= i < |r| ==> r[i] == planets[i].(longitude := r[i].longitude)
    ensures mode != Harmonic || n <= 1 ==> r == planets
  {
    if mode == Harmonic && n > 1 then
      seq(|planets|, i requires 0 <= i < |planets| => planets[i].(longitude := HarmonicLongitude(planets[i].longitude, n)))
    else planets
  }

  /** A harmonic longitude of a non-negative longitude lies in [0, 360). */
  lemma HarmonicRange(planets: seq<Planet>, n: int, i: nat)
    requires i < |planets| && n > 1 && planets[i].longitude >= 0.0
    ensures 0.0 <= DisplayPlanets(planets, Harmonic, n)[i].longitude < 360.0
  {
  }

  /**
   * Bodies whose longitudes differ by whole multiples of 360/n coincide in the
   * harmonic chart of number n; that is what the transform is for.
   */
  lemma HarmonicFoldsMultiples(lon1: real, lon2: real, n: int, k: int)
    requires lon1 >= 0.0 && lon2 >= 0.0 && n > 1
    requires lon2 * (n as real) == lon1 * (n as real) + 360.0 * (k as real)
    ensures HarmonicLongitude(lon1, n) == HarmonicLongitude(lon2, n)
  {
    JsRemNonNegative(lon1 * (n as real), 360.0);
    JsRemNonNegative(lon2 * (n as real), 360.0);
    NormalizePeriodic(lon1 * (n as real), k);
  }

  /**
   * handleHarmonicChange: the parsed input (`None` for NaN) becomes the
   * harmonic number only when it lies in 1..12.
   */
  function HandleHarmonicChange(current: int, parsed: Option<int>): (r: int)
    ensures r == current || (parsed.Some? && r == parsed.value)
    ensures parsed.Some? && 0 < parsed.value <= 12 <==> parsed.Some? && r == parsed.value && (r != current || 0 < r <= 12)
  {
    if parsed.Some? && parsed.value > 0 && parsed.value <= 12 then parsed.value else current
  }

  /** The harmonic number applied after a series of inputs. */
  function AfterInputs(start: int, inputs: seq<Option<int>>): int {
    if inputs == [] then start else HandleHarmonicChange(AfterInputs(start, inputs[..|inputs| - 1]), inputs[|inputs| - 1])
  }

  /** Starting from the initial 2, the harmonic number stays in 1..12 whatever is typed. */
  lemma {:induction false} HarmonicNumberStaysInRange(start: int, inputs: seq<Option<int>>)
    requires 1 <= start <= 12
    ensures 1 <= AfterInputs(start, inputs) <= 12
  {
    if inputs != [] {
      HarmonicNumberStaysInRange(start, inputs[..|inputs| - 1]);
    }
  }

  // ---------------------------------------------------------------------------
  // Sorting by longitude

  predicate SortedByLongitude(s: seq<Planet>) {
    forall i, j :: 0 <= i < j < |s| ==> s[i].longitude <= s[j].longitude
  }

  /** Inserts p after every body whose longitude is not greater, keeping equal longitudes in arrival order. */
  function InsertByLongitude(s: seq<Planet>, p: Planet): (r: seq<Planet>)
    ensures multiset(r) == multiset(s) + multiset{p}
    ensures |r| == |s| + 1
  {
    if s == [] || s[|s| - 1].longitude <= p.longitude then s + [p]
    else
      assert s == s[..|s| - 1] + [s[|s| - 1]];
      InsertByLongitude(s[..|s| - 1], p) + [s[|s| - 1]]
  }

  /** `[...planets].sort((a, b) => a.longitude - b.longitude)`, a stable sort. */
  function SortByLongitude(planets: seq<Planet>): (r: seq<Planet>)
    ensures multiset(r) == multiset(planets)
  {
    if planets == [] then []
    else
      assert planets == planets[..|planets| - 1] + [planets[|planets| - 1]];
      InsertByLongitude(SortByLongitude(planets[..|planets| - 1]), planets[|planets| - 1])
  }

  /** Inserting a body no later than y into bodies no later than y gives bodies no later than y. */
  lemma InsertBelow(s: seq<Planet>, p: Planet, y: Planet)
    requires forall i :: 0 <= i < |s| ==> s[i].longitude <= y.longitude
    requires p.longitude <= y.longitude
    ensures forall x :: x in InsertByLongitude(s, p) ==> x.longitude <= y.longitude
  {
    forall x | x in InsertByLongitude(s, p)
      ensures x.longitude <= y.longitude
    {
      assert x in multiset(InsertByLongitude(s, p));
    }
  }

  /** Inserting into a sorted list keeps it sorted. */
  lemma {:induction false} InsertKeepsSorted(s: seq<Planet>, p: Planet)
    requires SortedByLongitude(s)
    ensures SortedByLongitude(InsertByLongitude(s, p))
  {
    if s != [] && s[|s| - 1].longitude > p.longitude {
      var init := s[..|s| - 1];
      InsertKeepsSorted(init, p);
      InsertBelow(init, p, s[|s| - 1]);
      AppendLargest(InsertByLongitude(init, p), s[|s| - 1]);
    }
  }

  /** The sorted list is sorted by longitude and holds the same bodies. */
  lemma {:induction false} SortByLongitudeSorted(planets: seq<Planet>)
    ensures SortedByLongitude(SortByLongitude(planets))
    ensures multiset(SortByLongitude(planets)) == multiset(planets)
  {
    if planets != [] {
      SortByLongitudeSorted(planets[..|planets| - 1]);
      InsertKeepsSorted(SortByLongitude(planets[..|planets| - 1]), planets[|planets| - 1]);
    }
  }

  // ---------------------------------------------------------------------------
  // Grouping nearby planets

  /** How close, in degrees, a body must be to a group's first body to join it. */
  const ProximityThreshold: real := 8.0

  /** `Math.min(diff, 360 - diff) <= 8` for `diff = |p.longitude - leader.longitude|`. */
  predicate Close(leader: Planet, p: Planet) {
    var diff := RealAbs(p.longitude - leader.longitude);
    (if diff <= 360.0 - diff then diff else 360.0 - diff) <= ProximityThreshold
  }

  /** A group accepts a body close to its first member. */
  predicate Accepts(group: seq<Planet>, p: Planet) {
    group != [] && Close(group[0], p)
  }

  /** The index of the first group, from index j on, that accepts p. */
  function FirstAccepting(groups: seq<seq<Planet>>, p: Planet, j: nat): (r: Option<nat>)
    requires j <= |groups|
    ensures r.Some? ==> j <= r.value < |groups| && Accepts(groups[r.value], p)
    decreases |groups| - j
  {
    if j == |groups| then None
    else if Accepts(groups[j], p) then Some(j)
    else FirstAccepting(groups, p, j + 1)
  }

  /** One step of the grouping: join the first accepting group, or open a new one. */
  function Place(groups: seq<seq<Planet>>, p: Planet): seq<seq<Planet>> {
    match FirstAccepting(groups, p, 0)
    case Some(k) => groups[k := groups[k] + [p]]
    case None => groups + [[p]]
  }

  /** The groups formed from bodies taken in order. */
  function Groups(ps: seq<Planet>): seq<seq<Planet>> {
    if ps == [] then [] else Place(Groups(ps[..|ps| - 1]), ps[|ps| - 1])
  }

  /** The groups laid end to end. */
  function Flatten(groups: seq<seq<Planet>>): seq<Planet> {
    if groups == [] then [] else Flatten(groups[..|groups| - 1]) + groups[|groups| - 1]
  }

  predicate NonEmptyGroups(groups: seq<seq<Planet>>) {
    forall j :: 0 <= j < |groups| ==> groups[j] != []
  }

  /**
   * The inner loop of the grouping: scan the groups in order and append the
   * body to the first whose first member is close to it (then `break`),
   * or push a new group holding only the body.
   */
  method PlaceInGroups(groups: seq<seq<Planet>>, planet: Planet) returns (r: seq<seq<Planet>>)
    requires NonEmptyGroups(groups)
    ensures r == Place(groups, planet)
  {
    var foundGroup := false;
    r := groups;
    var j := 0;
    while j < |groups|
      invariant 0 <= j <= |groups|
      invariant FirstAccepting(groups, planet, j) == FirstAccepting(groups, planet, 0)
    {
      var group := groups[j];
      var firstPlanetInGroup := group[0];
      var longitudeDiff := RealAbs(planet.longitude - firstPlanetInGroup.longitude);
      var adjustedDiff := if longitudeDiff <= 360.0 - longitudeDiff then longitudeDiff else 360.0 - longitudeDiff;
      if adjustedDiff <= ProximityThreshold {
        r := groups[j := group + [planet]];
        foundGroup := true;
        break;
      }
      j := j + 1;
    }
    if !foundGroup {
      r := groups + [[planet]];
    }
  }

  /** drawPlanets' grouping: sort by longitude, then place each body in turn. */
  method GroupPlanets(planets: seq<Planet>) returns (planetGroups: seq<seq<Planet>>)
    ensures planetGroups == Groups(SortByLongitude(planets))
  {
    var sortedPlanets := SortByLongitude(planets);
    planetGroups := [];
    for i := 0 to |sortedPlanets|
      invariant planetGroups == Groups(sortedPlanets[..i])
    {
      GroupsWellFormed(sortedPlanets[..i]);
      assert sortedPlanets[..i + 1][..i] == sortedPlanets[..i];
      planetGroups := PlaceInGroups(planetGroups, sortedPlanets[i]);
    }
    assert sortedPlanets[..|sortedPlanets|] == sortedPlanets;
  }

  /** The search finds the first accepting group, and finds none only when no group accepts. */
  lemma {:induction false} FirstAcceptingIsFirst(groups: seq<seq<Planet>>, p: Planet, j: nat)
    requires j <= |groups|
    ensures FirstAccepting(groups, p, j).None? <==> forall m :: j <= m < |groups| ==> !Accepts(groups[m], p)
    ensures FirstAccepting(groups, p, j).Some? ==>
      forall m :: j <= m < FirstAccepting(groups, p, j).value ==> !Accepts(groups[m], p)
    decreases |groups| - j
  {
    if j < |groups| && !Accepts(groups[j], p) {
      FirstAcceptingIsFirst(groups, p, j + 1);
    }
  }

  /**
   * What the drawing relies on: no group is empty, every member is close to its
   * group's first member, and the first members of two groups are never close.
   */
  predicate WellFormed(groups: seq<seq<Planet>>) {
    && NonEmptyGroups(groups)
    && (forall j, m :: 0 <= j < |groups| && 0 <= m < |groups[j]| ==> Close(groups[j][0], groups[j][m]))
    && (forall a, b :: 0 <= a < b < |groups| ==> !Close(groups[a][0], groups[b][0]))
  }

  /** Placing a body keeps the groups well formed. */
  lemma PlaceKeepsWellFormed(groups: seq<seq<Planet>>, p: Planet)
    requires WellFormed(groups)
    ensures WellFormed(Place(groups, p))
  {
    FirstAcceptingIsFirst(groups, p, 0);
    var r := Place(groups, p);
    match FirstAccepting(groups, p, 0)
    case Some(k) =>
      forall j | 0 <= j < |r|
        ensures r[j] != [] && r[j][0] == groups[j][0]
      {
      }
    case None =>
      forall a | 0 <= a < |groups|
        ensures !Close(r[a][0], r[|groups|][0])
      {
        assert !Accepts(groups[a], p);
      }
  }

  /** The grouping of any list of bodies is well formed. */
  lemma {:induction false} GroupsWellFormed(ps: seq<Planet>)
    ensures WellFormed(Groups(ps))
  {
    if ps != [] {
      GroupsWellFormed(ps[..|ps| - 1]);
      PlaceKeepsWellFormed(Groups(ps[..|ps| - 1]), ps[|ps| - 1]);
    }
  }

  /** Appending to group k adds exactly that body to the flattened groups. */
  lemma {:induction false} FlattenAppend(groups: seq<seq<Planet>>, k: nat, p: Planet)
    requires k < |groups|
    ensures multiset(Flatten(groups[k := groups[k] + [p]])) == multiset(Flatten(groups)) + multiset{p}
  {
    var n := |groups| - 1;
    var r := groups[k := groups[k] + [p]];
    assert Flatten(r) == Flatten(r[..n]) + r[n];
    assert Flatten(groups) == Flatten(groups[..n]) + groups[n];
    if k == n {
      assert r[..n] == groups[..n];
      assert multiset(r[n]) == multiset(groups[n]) + multiset{p};
    } else {
      assert r[..n] == groups[..n][k := groups[k] + [p]];
      assert r[n] == groups[n];
      FlattenAppend(groups[..n], k, p);
    }
  }

  /** Every body is drawn exactly once: the groups hold the same bodies as the input. */
  lemma {:induction false} GroupsPermute(ps: seq<Planet>)
    ensures multiset(Flatten(Groups(ps))) == multiset(ps)
  {
    if ps != [] {
      var init := ps[..|ps| - 1];
      var p := ps[|ps| - 1];
      GroupsPermute(init);
      assert ps == init + [p];
      var g := Groups(init);
      match FirstAccepting(g, p, 0)
      case Some(k) =>
        FlattenAppend(g, k, p);
      case None =>
        assert (g + [[p]])[..|g|] == g;
    }
  }

  /** Every body of the flattened groups occurs in one of the groups. */
  lemma {:induction false} InFlatten(groups: seq<seq<Planet>>, x: Planet) returns (j: nat)
    requires x in Flatten(groups)
    ensures j < |groups| && x in groups[j]
  {
    var n := |groups| - 1;
    if x in groups[n] {
      j := n;
    } else {
      j := InFlatten(groups[..n], x);
    }
  }

  /** Every member of every group is one of the input bodies. */
  lemma GroupMembersFromInput(ps: seq<Planet>, j: nat, x: Planet)
    requires j < |Groups(ps)| && x in Groups(ps)[j]
    ensures x in ps
  {
    GroupsPermute(ps);
    InFlattenConverse(Groups(ps), j, x);
    assert x in multiset(Flatten(Groups(ps)));
  }

  lemma {:induction false} InFlattenConverse(groups: seq<seq<Planet>>, j: nat, x: Planet)
    requires j < |groups| && x in groups[j]
    ensures x in Flatten(groups)
  {
    var n := |groups| - 1;
    if j < n {
      InFlattenConverse(groups[..n], j, x);
    }
  }

  /**
   * With the input sorted by longitude, as drawPlanets sorts it, each group is
   * sorted too, so its first member has the smallest longitude in the group.
   */
  lemma {:induction false} GroupsOfSortedAreSorted(ps: seq<Planet>)
    requires SortedByLongitude(ps)
    ensures forall j :: 0 <= j < |Groups(ps)| ==> SortedByLongitude(Groups(ps)[j])
  {
    if ps != [] {
      var init := ps[..|ps| - 1];
      var p := ps[|ps| - 1];
      GroupsOfSortedAreSorted(init);
      var g := Groups(init);
      match FirstAccepting(g, p, 0)
      case Some(k) =>
        forall x: Planet | x in g[k]
          ensures x.longitude <= p.longitude
        {
          GroupMembersFromInput(init, k, x);
        }
        AppendLargest(g[k], p);
      case None =>
    }
  }

  lemma AppendLargest(s: seq<Planet>, p: Planet)
    requires SortedByLongitude(s)
    requires forall x :: x in s ==> x.longitude <= p.longitude
    ensures SortedByLongitude(s + [p])
  {
    forall i, j | 0 <= i < j < |s| + 1
      ensures (s + [p])[i].longitude <= (s + [p])[j].longitude
    {
      if j == |s| {
        assert (s + [p])[i] in s;
      }
    }
  }

  // ---------------------------------------------------------------------------
  // House label of a body

  /** What the details panel shows for the house: a house number, or '?'. */
  datatype HouseLabel = House(number: int) | Unknown

  /** The label for a raw degree; `None` stands for a missing or non-array house list. */
  function HouseLabelOf(degree: real, houses: Option<seq<HouseCusp>>): HouseLabel {
    if houses.None? then Unknown
    else match FirstHouseFrom(degree, houses.value, 0)
      case Some(i) => House(houses.value[i].house)
      case None => Unknown
  }

  /**
   * getHouseForDegree: the house of the first cusp pair whose interval holds
   * the degree as given (it is not normalised), or '?' when there are no houses
   * or no interval holds it.
   */
  method GetHouseForDegree(degree: real, houses: Option<seq<HouseCusp>>) returns (shown: HouseLabel)
    ensures shown == HouseLabelOf(degree, houses)
    ensures shown.House? <==> houses.Some? && exists i :: 0 <= i < |houses.value| && InHouseInterval(degree, houses.value, i)
  {
    if houses.None? || |houses.value| == 0 {
      return Unknown;
    }
    var hs := houses.value;
    FirstHouseFromIsFirst(degree, hs, 0);
    for i := 0 to |hs|
      invariant forall j :: 0 <= j < i ==> !InHouseInterval(degree, hs, j)
    {
      var currentHouse := hs[i];
      var nextHouse := hs[(i + 1) % |hs|];
      var start := currentHouse.longitude;
      var end := nextHouse.longitude;
      if end < start {
        end := end + 360.0;
      }
      var normalizedDegree := degree;
      if start > end {
        if normalizedDegree < start {
          normalizedDegree := normalizedDegree + 360.0;
        }
      }
      if normalizedDegree >= start && normalizedDegree < end {
        FirstHouseAt(degree, hs, i);
        return House(currentHouse.house);
      }
    }
    return Unknown;
  }

  /**
   * For a degree already in [0, 360) the panel agrees with getHouseNumber,
   * except that where getHouseNumber falls back to house 1 the panel shows '?'.
   */
  lemma HouseLabelAgreesWithHouseNumber(degree: real, houses: seq<HouseCusp>)
    requires 0.0 <= degree < 360.0
    ensures HouseLabelOf(degree, Some(houses)).House? ==>
      HouseLabelOf(degree, Some(houses)).number == HouseNumberOf(Normalize(degree), houses)
    ensures HouseLabelOf(degree, Some(houses)).Unknown? ==> HouseNumberOf(Normalize(degree), houses) == 1
  {
    NormalizeIdentity(degree);
  }

  /**
   * A degree of a full turn or more is not reduced: with equal houses 400
   * degrees is shown as '?', while getHouseNumber places it in house 2.
   */
  lemma HouseLabelDoesNotNormalise()
    ensures HouseLabelOf(400.0, Some(EqualCusps())) == Unknown
    ensures HouseNumberOf(Normalize(400.0), EqualCusps()) == 2
  {
    var h := EqualCusps();
    forall j | 0 <= j < 12
      ensures !InHouseInterval(400.0, h, j)
    {
      assert h[(j + 1) % 12] == h[if j < 11 then j + 1 else 0];
    }
    FirstHouseFromIsFirst(400.0, h, 0);
    EqualCuspsFollowSigns(400.0);
    NormalizeCharacterised(400.0, 1);
    assert GetZodiacSignIndex(400.0) == 1;
  }

  // ---------------------------------------------------------------------------
  // Aspects of the selected body

  /** One row of the aspect list: the other body, the aspect id and the orb. */
  datatype AspectLine = AspectLine(otherPlanet: string, aspect: string, orb: real)

  predicate Involves(a: Aspect, key: string) {
    a.planet1 == key || a.planet2 == key
  }

  /** The row for an aspect: the other side is planet2 when planet1 matches the key. */
  function LineFor(a: Aspect, key: string): AspectLine {
    AspectLine(if a.planet1 == key then a.planet2 else a.planet1, a.aspect, a.orb)
  }

  /** The row of one aspect, if it involves the key. */
  function LineIfInvolved(a: Aspect, key: string): seq<AspectLine> {
    if Involves(a, key) then [LineFor(a, key)] else []
  }

  /**
   * The aspects that involve `key`, each turned into a row, in order. The list
   * is never longer than the aspects, and as long exactly when every aspect
   * involves the key.
   */
  function SelectedAspects(aspects: seq<Aspect>, key: string): (r: seq<AspectLine>)
    ensures |r| <= |aspects|
    ensures |r| == |aspects| <==> forall i :: 0 <= i < |aspects| ==> Involves(aspects[i], key)
  {
    if aspects == [] then []
    else
      assert forall i :: 1 <= i < |aspects| ==> aspects[i] == aspects[1..][i - 1];
      LineIfInvolved(aspects[0], key) + SelectedAspects(aspects[1..], key)
  }

  /** The list holds exactly the rows of the aspects that involve the key. */
  lemma {:induction false} SelectedAspectsMembers(aspects: seq<Aspect>, key: string, line: AspectLine)
    ensures line in SelectedAspects(aspects, key) <==>
      exists i :: 0 <= i < |aspects| && Involves(aspects[i], key) && line == LineFor(aspects[i], key)
  {
    if aspects != [] {
      SelectedAspectsMembers(aspects[1..], key, line);
      if exists i :: 0 <= i < |aspects| && Involves(aspects[i], key) && line == LineFor(aspects[i], key) {
        var i :| 0 <= i < |aspects| && Involves(aspects[i], key) && line == LineFor(aspects[i], key);
        if i > 0 {
          assert aspects[1..][i - 1] == aspects[i];
        }
      }
      if line in SelectedAspects(aspects[1..], key) {
        var i :| 0 <= i < |aspects[1..]| && Involves(aspects[1..][i], key) && line == LineFor(aspects[1..][i], key);
        assert aspects[i + 1] == aspects[1..][i];
      }
    }
  }

  /** The list keeps the order of the aspects: filtering distributes over concatenation. */
  lemma {:induction false} SelectedAspectsConcat(a: seq<Aspect>, b: seq<Aspect>, key: string)
    ensures SelectedAspects(a + b, key) == SelectedAspects(a, key) + SelectedAspects(b, key)
  {
    if a == [] {
      assert a + b == b;
    } else {
      assert (a + b)[1..] == a[1..] + b;
      SelectedAspectsConcat(a[1..], b, key);
    }
  }

  /** No aspect involves the key, so the list is empty. */
  lemma {:induction false} NoneInvolved(aspects: seq<Aspect>, key: string)
    requires forall i :: 0 <= i < |aspects| ==> !Involves(aspects[i], key)
    ensures SelectedAspects(aspects, key) == []
  {
    if aspects != [] {
      NoneInvolved(aspects[1..], key);
    }
  }

  /**
   * The list as written filters by the selected body's display name, while the
   * detector stores body ids: when no id equals that name, as 'Sun' differs
   * from 'sun', the list is empty whatever aspects were found.
   */
  lemma SelectedByNameFindsNothing(planets: seq<Planet>, catalog: seq<AspectType>, selected: Planet)
    requires forall i :: 0 <= i < |planets| ==> planets[i].planet != selected.name
    ensures SelectedAspects(MockAspects(planets, catalog), selected.name) == []
  {
    var aspects := MockAspects(planets, catalog);
    forall m | 0 <= m < |aspects|
      ensures !Involves(aspects[m], selected.name)
    {
      MockAspectsMembers(planets, catalog, aspects[m]);
      var i, j :| 0 <= i < j < |planets| && PairAspect(planets[i], planets[j], catalog) == Some(aspects[m]);
    }
    NoneInvolved(aspects, selected.name);
  }

  /** A concrete case: the Sun conjunct the Moon, selected by name, lists nothing. */
  lemma SunMoonExample()
    ensures var sun := Planet("sun", "Sun", 10.0, "Aries", 10.0, false);
      var moon := Planet("moon", "Moon", 12.0, "Aries", 12.0, false);
      && |MockAspects([sun, moon], Catalog)| == 1
      && SelectedAspects(MockAspects([sun, moon], Catalog), sun.name) == []
      && SelectedAspects(MockAspects([sun, moon], Catalog), sun.planet) == [AspectLine("moon", "conjunction", 2.0)]
  {
    var sun := Planet("sun", "Sun", 10.0, "Aries", 10.0, false);
    var moon := Planet("moon", "Moon", 12.0, "Aries", 12.0, false);
    assert Separation(10.0, 12.0) == 2.0;
    FirstWithinOrbAt(2.0, Catalog, 0);
    var f := MockPairsOf([sun, moon], Catalog);
    MockPairsOfAt([sun, moon], Catalog, 0, 1);
    assert TriangleRow(f, 0, 2) == [] + f(0, 1);
    assert TriangleUpTo(f, 2, 2) == [] + ([] + f(0, 1)) + [];
    assert "Sun" != "sun" by { assert "Sun"[0] != "sun"[0]; }
  }

  /**
   * Filtering by the selected body's id, as evidently intended, lists every
   * aspect the detector found for that body, with the other body's id.
   */
  lemma SelectedByIdListsAll(planets: seq<Planet>, catalog: seq<AspectType>, i: nat, j: nat, a: Aspect)
    requires i < j < |planets| && PairAspect(planets[i], planets[j], catalog) == Some(a)
    ensures AspectLine(planets[j].planet, a.aspect, a.orb) in SelectedAspects(MockAspects(planets, catalog), planets[i].planet)
    ensures planets[i].planet != planets[j].planet ==>
      AspectLine(planets[i].planet, a.aspect, a.orb) in SelectedAspects(MockAspects(planets, catalog), planets[j].planet)
  {
    var aspects := MockAspects(planets, catalog);
    MockAspectsMembers(planets, catalog, a);
    var m :| 0 <= m < |aspects| && aspects[m] == a;
    SelectedAspectsMembers(aspects, planets[i].planet, AspectLine(planets[j].planet, a.aspect, a.orb));
    SelectedAspectsMembers(aspects, planets[j].planet, AspectLine(planets[i].planet, a.aspect, a.orb));
  }
}
