/**
 * The deterministic mock ephemeris (src/api/astronomyApi.js): a 32-bit string
 * hash reduced to a bounded integer, the sign lookup over the mock sign table,
 * the mock aspect detector and the cusp and retrograde formulas.
 */
module AstronomyApi {
  import opened Wrappers
  import opened JsNumbers
  import opened JsStrings
  import opened Entities
  import opened ChartUtils
  import opened PairSweeps

  // ---------------------------------------------------------------------------
  // Mock tables

  /** The mock sign table: twelve 30-degree signs from Aries at 0 degrees. */
  const ZodiacSigns: seq<ZodiacSign> := [
    ZodiacSign("aries", "Aries", Fire, 0.0),
    ZodiacSign("taurus", "Taurus", Earth, 30.0),
    ZodiacSign("gemini", "Gemini", Air, 60.0),
    ZodiacSign("cancer", "Cancer", Water, 90.0),
    ZodiacSign("leo", "Leo", Fire, 120.0),
    ZodiacSign("virgo", "Virgo", Earth, 150.0),
    ZodiacSign("libra", "Libra", Air, 180.0),
    ZodiacSign("scorpio", "Scorpio", Water, 210.0),
    ZodiacSign("sagittarius", "Sagittarius", Fire, 240.0),
    ZodiacSign("capricorn", "Capricorn", Earth, 270.0),
    ZodiacSign("aquarius", "Aquarius", Air, 300.0),
    ZodiacSign("pisces", "Pisces", Water, 330.0)
  ]

  /** The mock aspect catalog, in the order the detector tries it. */
  const Catalog: seq<AspectType> := [
    AspectType("conjunction", "Conjunction", 0.0, 8.0),
    AspectType("opposition", "Opposition", 180.0, 8.0),
    AspectType("trine", "Trine", 120.0, 8.0),
    AspectType("square", "Square", 90.0, 7.0),
    AspectType("sextile", "Sextile", 60.0, 6.0)
  ]

  /** The table entry at index i starts at 30 i degrees. */
  lemma SignTableStarts(i: int)
    requires 0 <= i < 12
    ensures ZodiacSigns[i].startDegree == 30.0 * (i as real)
  {
  }

  // ---------------------------------------------------------------------------
  // Seeded pseudo-random numbers

  /** `h << 5` on a 32-bit integer: the product by 32, wrapped to 32 bits. */
  function ShiftLeft5(h: int): int {
    ToInt32(ToInt32(h) * 32)
  }

  /** The hash of a string: h <- ToInt32(31 h + code) for each character, from 0. */
  function StringHash(s: string): (h: int)
    ensures -TwoTo31 <= h < TwoTo31
  {
    if s == [] then 0 else ToInt32(31 * StringHash(s[..|s| - 1]) + s[|s| - 1] as int)
  }

  /** The shift-and-subtract step followed by `h & h` is the multiply-by-31 step. */
  lemma {:induction false} ShiftStepIsTimes31(h: int, code: int)
    requires -TwoTo31 <= h < TwoTo31
    ensures ToInt32(ShiftLeft5(h) - h + code) == ToInt32(31 * h + code)
  {
    ToInt32Identity(h);
    var w := ToInt32(h * 32);
    assert (h * 32 - w) % TwoTo32 == 0;
    var q := (h * 32 - w) / TwoTo32;
    assert h * 32 - w == TwoTo32 * q;
    assert (w - h + code) - (31 * h + code) == TwoTo32 * (-q);
    ToInt32Congruent(w - h + code, 31 * h + code);
  }

  /** The absolute value of the hash reduced into [min, max), or NaN (None) when max == min. */
  function PseudoRandom(seed: string, min: int, max: int): (r: Option<int>)
    ensures r.None? <==> max == min
    ensures max > min ==> r.Some? && min <= r.value < max
  {
    if max == min then None else Some(JsIntRem(Abs(StringHash(seed)), max - min) + min)
  }

  /**
   * getPseudoRandomDegree: hashes the seed character by character with the
   * shift-and-subtract step, then reduces the absolute value modulo max - min.
   */
  method GetPseudoRandomDegree(seed: string, min: int, max: int) returns (r: Option<int>)
    ensures r == PseudoRandom(seed, min, max)
  {
    var hash := 0;
    var i := 0;
    while i < |seed|
      invariant 0 <= i <= |seed|
      invariant hash == StringHash(seed[..i])
    {
      ShiftStepIsTimes31(hash, seed[i] as int);
      assert seed[..i + 1][..i] == seed[..i];
      hash := ShiftLeft5(hash) - hash + seed[i] as int;
      hash := ToInt32(hash);
      i := i + 1;
    }
    assert seed[..|seed|] == seed;
    if max == min {
      return None;
    }
    return Some(JsIntRem(Abs(hash), max - min) + min);
  }

  /** With the default range, positions are whole degrees in [0, 360). */
  lemma PlanetLongitudeRange(seed: string)
    ensures PseudoRandom(seed, 0, 360).Some?
    ensures 0 <= PseudoRandom(seed, 0, 360).value < 360
  {
  }

  /**
   * The retrograde flag: a draw from [0, 10) that exceeds 7. It is set for the
   * draws 8 and 9 only, two of the ten values the hash can end in.
   */
  function RetrogradeFlag(seed: string): (r: bool)
    ensures r <==> Abs(StringHash(seed)) % 10 in {8, 9}
  {
    PseudoRandom(seed, 0, 10).value > 7
  }

  // ---------------------------------------------------------------------------
  // Sign lookup

  /** Whether the degree lies in the 30-degree window that the sign starts. */
  predicate InSign(d: real, sign: ZodiacSign) {
    sign.startDegree <= d < sign.startDegree + 30.0
  }

  /** The first sign, from index i on, whose window holds `d`. */
  function FindSign(d: real, signs: seq<ZodiacSign>, i: nat): (r: Option<ZodiacSign>)
    requires i <= |signs|
    ensures r.Some? ==> InSign(d, r.value) && r.value in signs[i..]
    decreases |signs| - i
  {
    if i == |signs| then None
    else if InSign(d, signs[i]) then Some(signs[i])
    else FindSign(d, signs, i + 1)
  }

  /** getZodiacSignForDegree: the sign whose window holds the truncated remainder `degree % 360`. */
  function GetZodiacSignForDegree(degree: real): (r: Option<ZodiacSign>)
    ensures r.Some? <==> 0.0 <= JsRem(degree, 360.0)
    ensures r.Some? ==> r.value in ZodiacSigns && InSign(JsRem(degree, 360.0), r.value)
  {
    var d := JsRem(degree, 360.0);
    if d < 0.0 then
      FindSignNegative(d, 0);
      FindSign(d, ZodiacSigns, 0)
    else
      var k := (d / 30.0).Floor;
      assert 0 <= k < 12;
      SignTableStarts(k);
      FindSignAt(d, k);
      FindSign(d, ZodiacSigns, 0)
  }

  /** Where one window of the table holds `d`, the lookup returns that sign. */
  lemma FindSignAt(d: real, k: int)
    requires 0 <= k < 12 && InSign(d, ZodiacSigns[k])
    ensures FindSign(d, ZodiacSigns, 0) == Some(ZodiacSigns[k])
  {
    var i := 0;
    while i < k
      invariant 0 <= i <= k
      invariant FindSign(d, ZodiacSigns, 0) == FindSign(d, ZodiacSigns, i)
    {
      SignTableStarts(i);
      SignTableStarts(k);
      i := i + 1;
    }
  }

  /** A degree below 0 lies in no window of the table. */
  lemma {:induction false} FindSignNegative(d: real, i: nat)
    requires d < 0.0 && i <= 12
    ensures FindSign(d, ZodiacSigns, i) == None
    decreases 12 - i
  {
    if i < 12 {
      SignTableStarts(i);
      FindSignNegative(d, i + 1);
    }
  }

  /**
   * For a non-negative degree the lookup returns the sign that
   * getZodiacSignIndex picks; for a negative degree whose remainder is not 0 it
   * returns nothing, since the truncating remainder is then negative.
   */
  lemma SignLookupAgreesWithIndex(degree: real)
    ensures 0.0 <= degree ==> GetZodiacSignForDegree(degree) == Some(ZodiacSigns[GetZodiacSignIndex(degree)])
    ensures JsRem(degree, 360.0) < 0.0 ==> GetZodiacSignForDegree(degree) == None
  {
    if 0.0 <= degree {
      JsRemNonNegative(degree, 360.0);
      var k := GetZodiacSignIndex(degree);
      SignTableStarts(k);
      FindSignAt(JsRem(degree, 360.0), k);
    }
    if JsRem(degree, 360.0) < 0.0 {
      FindSignNegative(JsRem(degree, 360.0), 0);
    }
  }

  /** -1 has no sign, 0 and 359 are Aries and Pisces, 360 wraps to Aries. */
  lemma SignLookupExamples()
    ensures GetZodiacSignForDegree(-1.0) == None
    ensures GetZodiacSignForDegree(0.0) == Some(ZodiacSigns[0])
    ensures GetZodiacSignForDegree(359.0) == Some(ZodiacSigns[11])
    ensures GetZodiacSignForDegree(360.0) == Some(ZodiacSigns[0])
  {
    SignLookupAgreesWithIndex(-1.0);
    SignLookupAgreesWithIndex(0.0);
    SignLookupAgreesWithIndex(359.0);
    SignLookupAgreesWithIndex(360.0);
    SignIndexExamples();
  }

  // ---------------------------------------------------------------------------
  // Cusp formula

  /** Cusp `index`: (30 index % 360 + variation) % 360 with JavaScript's truncating remainder. */
  function CuspLongitude(index: nat, variation: int): (c: int)
    ensures -360 < c < 360
  {
    JsIntRem((index * 30) % 360 + variation, 360)
  }

  /** For the cusps of houses 2 to 12 and a variation in [-10, 10), the cusp lies in [20, 340) and has a sign. */
  lemma LaterCuspsHaveSigns(index: nat, variation: int)
    requires 0 < index < 12 && -10 <= variation < 10
    ensures 20 <= CuspLongitude(index, variation) < 340
    ensures GetZodiacSignForDegree(CuspLongitude(index, variation) as real).Some?
  {
    assert (index * 30) % 360 == index * 30;
    var c := CuspLongitude(index, variation);
    assert c == index * 30 + variation;
    SignLookupAgreesWithIndex(c as real);
  }

  /**
   * The cusp of house 1 is the variation itself, so it is negative exactly when
   * the variation is, and then the sign lookup finds nothing.
   */
  lemma FirstCuspMayHaveNoSign(variation: int)
    requires -10 <= variation < 10
    ensures CuspLongitude(0, variation) == variation
    ensures variation < 0 ==> GetZodiacSignForDegree(variation as real) == None
  {
    if variation < 0 {
      assert Trunc(variation as real / 360.0) == 0;
      assert JsRem(variation as real, 360.0) == variation as real;
      SignLookupAgreesWithIndex(variation as real);
    }
  }

  // ---------------------------------------------------------------------------
  // Mock aspect detector

  /** The separation the mock detector uses: |l1 - l2|, folded once above 180. */
  function Separation(l1: real, l2: real): real {
    var diff := RealAbs(l1 - l2);
    if diff > 180.0 then 360.0 - diff else diff
  }

  /** Whether a separation is within the orb of a catalog entry, bound included. */
  predicate WithinOrb(diff: real, t: AspectType) {
    RealAbs(diff - t.angle) <= t.orb
  }

  /** The index of the first catalog entry, from k on, whose window holds the separation. */
  function FirstWithinOrb(diff: real, catalog: seq<AspectType>, k: nat): (r: Option<nat>)
    requires k <= |catalog|
    ensures r.Some? ==> k <= r.value < |catalog| && WithinOrb(diff, catalog[r.value])
    decreases |catalog| - k
  {
    if k == |catalog| then None
    else if WithinOrb(diff, catalog[k]) then Some(k)
    else FirstWithinOrb(diff, catalog, k + 1)
  }

  /** The search returns the first entry in catalog order, and none only when none matches. */
  lemma {:induction false} FirstWithinOrbIsFirst(diff: real, catalog: seq<AspectType>, k: nat)
    requires k <= |catalog|
    ensures FirstWithinOrb(diff, catalog, k).None? <==> forall m :: k <= m < |catalog| ==> !WithinOrb(diff, catalog[m])
    ensures FirstWithinOrb(diff, catalog, k).Some? ==>
      forall m :: k <= m < FirstWithinOrb(diff, catalog, k).value ==> !WithinOrb(diff, catalog[m])
    decreases |catalog| - k
  {
    if k < |catalog| && !WithinOrb(diff, catalog[k]) {
      FirstWithinOrbIsFirst(diff, catalog, k + 1);
    }
  }

  /** A matching entry with no match before it is the one the search returns. */
  lemma FirstWithinOrbAt(diff: real, catalog: seq<AspectType>, k: nat)
    requires k < |catalog| && WithinOrb(diff, catalog[k])
    requires forall m :: 0 <= m < k ==> !WithinOrb(diff, catalog[m])
    ensures FirstWithinOrb(diff, catalog, 0) == Some(k)
  {
    FirstWithinOrbIsFirst(diff, catalog, 0);
  }

  /** The record the mock detector pushes: the entry's id, the two bodies, the deviation and the entry. */
  function MockEntry(p1: Planet, p2: Planet, t: AspectType): Aspect {
    Aspect(p1.planet, p2.planet, t.id, t, RealAbs(Separation(p1.longitude, p2.longitude) - t.angle), None)
  }

  /** What the detector reports for one pair: the first catalog entry within orb, if any. */
  function PairAspect(p1: Planet, p2: Planet, catalog: seq<AspectType>): (r: Option<Aspect>)
    ensures r.Some? ==> MockWellFormed(r.value, catalog) && r.value.planet1 == p1.planet && r.value.planet2 == p2.planet
  {
    match FirstWithinOrb(Separation(p1.longitude, p2.longitude), catalog, 0)
    case Some(k) => Some(MockEntry(p1, p2, catalog[k]))
    case None => None
  }

  function OptionToSeq<T>(o: Option<T>): seq<T> {
    if o.Some? then [o.value] else []
  }

  /** What the pair (r, m) of a list of bodies reports; indices past the list report nothing. */
  function MockPairsOf(planets: seq<Planet>, catalog: seq<AspectType>): (nat, nat) -> seq<Aspect> {
    (r: nat, m: nat) => if r < |planets| && m < |planets| then OptionToSeq(PairAspect(planets[r], planets[m], catalog)) else []
  }

  /**
   * An entry as calculateAspects pushes it: it carries a catalog entry and that
   * entry's id, no transit flag, and a deviation within the entry's orb.
   */
  predicate MockWellFormed(a: Aspect, catalog: seq<AspectType>) {
    a.aspectData in catalog && a.aspect == a.aspectData.id && 0.0 <= a.orb <= a.aspectData.orb
    && a.isTransitToNatal.None?
  }

  /**
   * What calculateAspects returns for a catalog; the source always passes the
   * mock catalog. Every entry names an earlier body first and a later one
   * second, and lies within the orb of the catalog entry whose id it carries.
   */
  function MockAspects(planets: seq<Planet>, catalog: seq<AspectType>): (r: seq<Aspect>)
    ensures forall a :: a in r ==> MockWellFormed(a, catalog)
    ensures forall a :: a in r ==>
      exists i, j :: 0 <= i < j < |planets| && a.planet1 == planets[i].planet && a.planet2 == planets[j].planet
  {
    MockTriangleEntries(planets, catalog);
    Triangle(MockPairsOf(planets, catalog), |planets|)
  }

  /** Every entry of the sweep over pairs i < j is the report of one such pair. */
  lemma MockTriangleEntries(planets: seq<Planet>, catalog: seq<AspectType>)
    ensures forall a :: a in Triangle(MockPairsOf(planets, catalog), |planets|) ==>
      exists i, j :: 0 <= i < j < |planets| && PairAspect(planets[i], planets[j], catalog) == Some(a)
  {
    var pairs := MockPairsOf(planets, catalog);
    forall a | a in Triangle(pairs, |planets|)
      ensures exists i, j :: 0 <= i < j < |planets| && PairAspect(planets[i], planets[j], catalog) == Some(a)
    {
      TriangleMembers(pairs, |planets|, a);
      var i: nat, j: nat :| i < j < |planets| && a in pairs(i, j);
      MockPairsOfAt(planets, catalog, i, j);
    }
  }

  /** calculateAspects: for each pair i < j, the first catalog entry within orb, then `break`. */
  method CalculateAspects(planetPositions: seq<Planet>) returns (result: seq<Aspect>)
    ensures result == MockAspects(planetPositions, Catalog)
  {
    result := DetectFirstMatches(planetPositions, Catalog);
  }

  /** The loops of calculateAspects over a given catalog. */
  method DetectFirstMatches(planetPositions: seq<Planet>, aspects: seq<AspectType>) returns (result: seq<Aspect>)
    ensures result == MockAspects(planetPositions, aspects)
  {
    ghost var pairs := MockPairsOf(planetPositions, aspects);
    result := [];
    for i := 0 to |planetPositions|
      invariant result == TriangleUpTo(pairs, |planetPositions|, i)
    {
      var row := FirstMatchRow(planetPositions, aspects, i);
      TriangleUpToExtend(pairs, |planetPositions|, i, result, row);
      result := result + row;
    }
  }

  /** The middle loop of calculateAspects: the pairs (i, j) for every j after i. */
  method FirstMatchRow(planetPositions: seq<Planet>, aspects: seq<AspectType>, i: nat) returns (row: seq<Aspect>)
    requires i < |planetPositions|
    ensures row == TriangleRow(MockPairsOf(planetPositions, aspects), i, |planetPositions|)
  {
    row := [];
    for j := i + 1 to |planetPositions|
      invariant row == TriangleRow(MockPairsOf(planetPositions, aspects), i, j)
    {
      var found := FirstMatch(planetPositions[i], planetPositions[j], aspects);
      MockRowExtend(planetPositions, aspects, i, j, row, found);
      row := row + found;
    }
  }

  /** One pass of the middle loop of calculateAspects extends the row by what the pair (i, j) reports. */
  lemma MockRowExtend(planets: seq<Planet>, catalog: seq<AspectType>, i: nat, j: nat, row: seq<Aspect>, found: seq<Aspect>)
    requires i < j < |planets|
    requires row == TriangleRow(MockPairsOf(planets, catalog), i, j)
    requires found == OptionToSeq(PairAspect(planets[i], planets[j], catalog))
    ensures row + found == TriangleRow(MockPairsOf(planets, catalog), i, j + 1)
  {
    MockPairsOfAt(planets, catalog, i, j);
    TriangleRowExtend(MockPairsOf(planets, catalog), i, j, row, found);
  }

  lemma MockPairsOfAt(planets: seq<Planet>, catalog: seq<AspectType>, i: nat, j: nat)
    requires i < |planets| && j < |planets|
    ensures MockPairsOf(planets, catalog)(i, j) == OptionToSeq(PairAspect(planets[i], planets[j], catalog))
  {
  }

  /** The body of the inner loop of calculateAspects: the separation, then the first catalog entry within orb. */
  method FirstMatch(planet1: Planet, planet2: Planet, aspects: seq<AspectType>) returns (found: seq<Aspect>)
    ensures found == OptionToSeq(PairAspect(planet1, planet2, aspects))
  {
    var diff := RealAbs(planet1.longitude - planet2.longitude);
    if diff > 180.0 {
      diff := 360.0 - diff;
    }
    FirstWithinOrbIsFirst(diff, aspects, 0);
    found := [];
    var k := 0;
    while k < |aspects|
      invariant 0 <= k <= |aspects|
      invariant found == []
      invariant forall m :: 0 <= m < k ==> !WithinOrb(diff, aspects[m])
    {
      var aspect := aspects[k];
      if RealAbs(diff - aspect.angle) <= aspect.orb {
        FirstWithinOrbAt(diff, aspects, k);
        found := [Aspect(planet1.planet, planet2.planet, aspect.id, aspect, RealAbs(diff - aspect.angle), None)];
        return;
      }
      k := k + 1;
    }
  }

  /** calculateAspects reports, for each pair i < j, the one aspect it found for that pair, and nothing else. */
  lemma MockAspectsMembers(planets: seq<Planet>, catalog: seq<AspectType>, a: Aspect)
    ensures a in MockAspects(planets, catalog) <==>
      exists i, j :: 0 <= i < j < |planets| && PairAspect(planets[i], planets[j], catalog) == Some(a)
  {
    var pairs := MockPairsOf(planets, catalog);
    TriangleMembers(pairs, |planets|, a);
    if a in MockAspects(planets, catalog) {
      var i: nat, j: nat :| i < j < |planets| && a in pairs(i, j);
      MockPairsOfAt(planets, catalog, i, j);
      assert 0 <= i < j < |planets| && PairAspect(planets[i], planets[j], catalog) == Some(a);
    }
    if exists i, j :: 0 <= i < j < |planets| && PairAspect(planets[i], planets[j], catalog) == Some(a) {
      var i, j :| 0 <= i < j < |planets| && PairAspect(planets[i], planets[j], catalog) == Some(a);
      MockPairsOfAt(planets, catalog, i, j);
      assert a in pairs(i, j);
    }
  }

  /** No separation is within the orb of two different entries of the catalog. */
  ghost predicate WindowsDisjoint(catalog: seq<AspectType>) {
    forall d: real, k, m :: 0 <= k < m < |catalog| && WithinOrb(d, catalog[k]) ==> !WithinOrb(d, catalog[m])
  }

  /** The windows of the mock catalog do not overlap: a separation is within the orb of at most one entry. */
  lemma CatalogWindowsDisjoint()
    ensures WindowsDisjoint(Catalog)
  {
    forall d: real, k, m | 0 <= k < m < |Catalog| && WithinOrb(d, Catalog[k])
      ensures !WithinOrb(d, Catalog[m])
    {
      assert Catalog[k].angle + Catalog[k].orb < Catalog[m].angle - Catalog[m].orb
          || Catalog[m].angle + Catalog[m].orb < Catalog[k].angle - Catalog[k].orb;
    }
  }

  /** With disjoint windows, the first entry within orb is the only one, so first match and closest agree. */
  lemma FirstMatchIsOnlyMatch(diff: real, catalog: seq<AspectType>, k: nat)
    requires WindowsDisjoint(catalog) && FirstWithinOrb(diff, catalog, 0) == Some(k)
    ensures forall m :: 0 <= m < |catalog| && m != k ==> !WithinOrb(diff, catalog[m])
  {
    FirstWithinOrbIsFirst(diff, catalog, 0);
  }

  /** For longitudes in [0, 360) the mock separation is the orb of calculateOrb. */
  lemma SeparationIsOrb(l1: real, l2: real)
    requires 0.0 <= l1 < 360.0 && 0.0 <= l2 < 360.0
    ensures Separation(l1, l2) == CalculateOrb(l1, l2)
    ensures 0.0 <= Separation(l1, l2) <= 180.0
  {
    NormalizeIdentity(l1);
    NormalizeIdentity(l2);
  }

  /** Outside [0, 360) the two disagree: 0 and 540 are opposite, but the mock separation is -180. */
  lemma SeparationOutsideRange()
    ensures CalculateOrb(0.0, 540.0) == 180.0 && Separation(0.0, 540.0) == -180.0
  {
    NormalizeIdentity(0.0);
    NormalizeCharacterised(540.0, 1);
  }

  /** Every id of the catalog is its lower-cased name. */
  predicate IdsAreLowerNames(catalog: seq<AspectType>) {
    forall k :: 0 <= k < |catalog| ==> catalog[k].id == ToLower(catalog[k].name)
  }

  /** The ids of the mock catalog are the lower-cased names. */
  lemma CatalogIdsAreLowerNames()
    ensures IdsAreLowerNames(Catalog)
  {
    forall k | 0 <= k < |Catalog|
      ensures Catalog[k].id == ToLower(Catalog[k].name)
    {
      LowerNameOf(Catalog[k]);
    }
  }

  /** Each entry of the mock catalog carries the lower-cased name as its id. */
  lemma LowerNameOf(t: AspectType)
    requires t in Catalog
    ensures t.id == ToLower(t.name)
  {
    ToLowerByCharacters(t.name, t.id);
  }

  /** For one pair in [0, 360) the first-match report is exactly the entries getAllAspects lists with the same catalog. */
  lemma PairAgrees(p1: Planet, p2: Planet, catalog: seq<AspectType>)
    requires WindowsDisjoint(catalog) && IdsAreLowerNames(catalog)
    requires 0.0 <= p1.longitude < 360.0 && 0.0 <= p2.longitude < 360.0
    ensures OptionToSeq(PairAspect(p1, p2, catalog)) == PairAspects(p1, p2, catalog, None)
  {
    var diff := Separation(p1.longitude, p2.longitude);
    SeparationIsOrb(p1.longitude, p2.longitude);
    assert forall t :: Matches(p1, p2, t) == WithinOrb(diff, t);
    FirstWithinOrbIsFirst(diff, catalog, 0);
    match FirstWithinOrb(diff, catalog, 0)
    case Some(k) =>
      FirstMatchIsOnlyMatch(diff, catalog, k);
      PairAspectsSingle(p1, p2, catalog, None, k, |catalog|);
      assert catalog[..|catalog|] == catalog;
      assert MockEntry(p1, p2, catalog[k]) == AspectEntry(p1, p2, catalog[k], None);
    case None =>
      PairAspectsNone(p1, p2, catalog, None);
  }

  /**
   * Side by side: for bodies whose longitudes lie in [0, 360), calculateAspects
   * returns exactly what getAllAspects returns for the mock catalog, because the
   * catalog's windows do not overlap and its ids are the lower-cased names.
   */
  lemma MockAgreesWithAllAspects(planets: seq<Planet>)
    requires forall p :: p in planets ==> 0.0 <= p.longitude < 360.0
    ensures MockAspects(planets, Catalog) == AllAspects(planets, Catalog)
  {
    MockPairsAgree(planets);
    TriangleCongruent(MockPairsOf(planets, Catalog), PairsOf(planets, Catalog, None), |planets|);
  }

  /** Pair by pair, the two detectors report the same for bodies in [0, 360) with the mock catalog. */
  lemma MockPairsAgree(planets: seq<Planet>)
    requires forall p :: p in planets ==> 0.0 <= p.longitude < 360.0
    ensures forall r: nat, m: nat :: r < m < |planets| ==> MockPairsOf(planets, Catalog)(r, m) == PairsOf(planets, Catalog, None)(r, m)
  {
    forall r: nat, m: nat | r < m < |planets|
      ensures MockPairsOf(planets, Catalog)(r, m) == PairsOf(planets, Catalog, None)(r, m)
    {
      MockPairAgreesAt(planets, r, m);
    }
  }

  /** The two detectors agree on the pair (r, m). */
  lemma MockPairAgreesAt(planets: seq<Planet>, r: nat, m: nat)
    requires r < m < |planets|
    requires 0.0 <= planets[r].longitude < 360.0 && 0.0 <= planets[m].longitude < 360.0
    ensures MockPairsOf(planets, Catalog)(r, m) == PairsOf(planets, Catalog, None)(r, m)
  {
    CatalogWindowsDisjoint();
    CatalogIdsAreLowerNames();
    PairAgrees(planets[r], planets[m], Catalog);
  }
}
