/**
 * The angle, sign, house and aspect engine of the chart (src/utils/chartUtils.js):
 * circular arithmetic on longitudes, zodiac classification, the house locator
 * and the two aspect detectors.
 */
module ChartUtils {
  import opened Wrappers
  import opened JsNumbers
  import opened JsStrings
  import opened Entities
  import opened PairSweeps

  function RealAbs(x: real): (r: real)
    ensures 0.0 <= r && (r == x || r == -x)
  {
    if x < 0.0 then -x else x
  }

  // ---------------------------------------------------------------------------
  // Circular arithmetic

  /** The length of the shorter arc for a counter-clockwise offset `d` in [0, 360). */
  function ShorterArc(d: real): real {
    if d > 180.0 then 360.0 - d else d
  }

  /** calculateOrb: the separation of two positions along the shorter arc, in [0, 180]. */
  function CalculateOrb(pos1: real, pos2: real): (r: real)
    ensures 0.0 <= r <= 180.0
  {
    var diff := RealAbs(Normalize(pos1) - Normalize(pos2));
    if diff > 180.0 then 360.0 - diff else diff
  }

  /** The normalised difference of two longitudes is that of their normalised values. */
  lemma NormalizeDifference(a: real, b: real)
    ensures Normalize(a - b) == Normalize(Normalize(a) - Normalize(b))
  {
    var ka := (a / 360.0).Floor;
    var kb := (b / 360.0).Floor;
    assert a - b == (Normalize(a) - Normalize(b)) + 360.0 * ((ka - kb) as real);
    NormalizePeriodic(Normalize(a) - Normalize(b), ka - kb);
  }

  /**
   * The orb is the shorter of the two arcs between the positions: the
   * counter-clockwise offset from pos2 to pos1, or the rest of the circle.
   */
  lemma OrbIsShorterArc(pos1: real, pos2: real)
    ensures CalculateOrb(pos1, pos2) == ShorterArc(Normalize(pos1 - pos2))
  {
    var n1, n2 := Normalize(pos1), Normalize(pos2);
    NormalizeDifference(pos1, pos2);
    if n1 >= n2 {
      NormalizeIdentity(n1 - n2);
    } else {
      NormalizeCharacterised(n1 - n2, -1);
    }
  }

  /** The orb does not depend on the order of the two positions. */
  lemma OrbSymmetric(pos1: real, pos2: real)
    ensures CalculateOrb(pos1, pos2) == CalculateOrb(pos2, pos1)
  {
  }

  /** The orb does not change when either position moves by whole turns. */
  lemma OrbPeriodic(pos1: real, pos2: real, n1: int, n2: int)
    ensures CalculateOrb(pos1 + 360.0 * (n1 as real), pos2 + 360.0 * (n2 as real)) == CalculateOrb(pos1, pos2)
  {
    NormalizePeriodic(pos1, n1);
    NormalizePeriodic(pos2, n2);
  }

  /** The worked values: 0 and 10 are 10 apart, 350 and 10 are 20 apart, 0 and 190 are 170 apart. */
  lemma OrbExamples()
    ensures CalculateOrb(0.0, 10.0) == 10.0
    ensures CalculateOrb(350.0, 10.0) == 20.0
    ensures CalculateOrb(0.0, 190.0) == 170.0
    ensures CalculateOrb(180.0, 0.0) == 180.0
  {
    NormalizeIdentity(0.0);
    NormalizeIdentity(10.0);
    NormalizeIdentity(350.0);
    NormalizeIdentity(190.0);
    NormalizeIdentity(180.0);
  }

  /**
   * isAspect: the orb lies in the window of width `orb` on either side of the
   * ideal angle, bounds included; the orb defaults to 8 degrees. Since the orb
   * never exceeds 180, an angle outside [-orb, 180 + orb] never matches.
   */
  function IsAspect(pos1: real, pos2: real, aspectAngle: real, orb: real := 8.0): (r: bool)
    ensures r <==> aspectAngle - orb <= CalculateOrb(pos1, pos2) <= aspectAngle + orb
    ensures r ==> 0.0 <= orb && -orb <= aspectAngle <= 180.0 + orb
  {
    RealAbs(CalculateOrb(pos1, pos2) - aspectAngle) <= orb
  }

  /** With the default orb of 8, 98 degrees is a square and 99 degrees is not. */
  lemma IsAspectDefaultOrb()
    ensures IsAspect(0.0, 98.0, 90.0) && !IsAspect(0.0, 99.0, 90.0)
  {
    NormalizeIdentity(98.0);
    NormalizeIdentity(99.0);
    OrbIsShorterArc(0.0, 98.0);
    OrbIsShorterArc(0.0, 99.0);
  }

  /** Whether two positions form an aspect does not depend on their order. */
  lemma IsAspectSymmetric(pos1: real, pos2: real, aspectAngle: real, orb: real)
    ensures IsAspect(pos1, pos2, aspectAngle, orb) <==> IsAspect(pos2, pos1, aspectAngle, orb)
  {
    OrbSymmetric(pos1, pos2);
  }

  // ---------------------------------------------------------------------------
  // Zodiac classification

  /** getZodiacSignIndex: the 30-degree sign that holds the normalised longitude. */
  function GetZodiacSignIndex(longitude: real): (r: int)
    ensures 0 <= r < 12
    ensures 30.0 * (r as real) <= Normalize(longitude) < 30.0 * (r as real) + 30.0
  {
    (Normalize(longitude) / 30.0).Floor
  }

  /** getDegreeInSign: the whole degrees of the longitude past the start of its sign. */
  function GetDegreeInSign(longitude: real): (r: int)
    ensures 0 <= r < 30
    ensures 30 * GetZodiacSignIndex(longitude) + r == Normalize(longitude).Floor
  {
    JsRemNonNegative(Normalize(longitude), 30.0);
    JsRem(Normalize(longitude), 30.0).Floor
  }

  /** The sign index of a longitude and of that longitude moved by whole turns agree. */
  lemma SignIndexPeriodic(longitude: real, n: int)
    ensures GetZodiacSignIndex(longitude + 360.0 * (n as real)) == GetZodiacSignIndex(longitude)
  {
    NormalizePeriodic(longitude, n);
  }

  /** The worked values: 0 and 29 are Aries, 30 Taurus, 359 Pisces, 360 and 390 wrap, -30 is Pisces. */
  lemma SignIndexExamples()
    ensures GetZodiacSignIndex(0.0) == 0 && GetZodiacSignIndex(29.0) == 0
    ensures GetZodiacSignIndex(30.0) == 1 && GetZodiacSignIndex(359.0) == 11
    ensures GetZodiacSignIndex(360.0) == 0 && GetZodiacSignIndex(390.0) == 1
    ensures GetZodiacSignIndex(-30.0) == 11
  {
    NormalizeIdentity(0.0);
    NormalizeIdentity(29.0);
    NormalizeIdentity(30.0);
    NormalizeIdentity(359.0);
    NormalizeCharacterised(360.0, 1);
    NormalizeCharacterised(390.0, 1);
    NormalizeCharacterised(-30.0, -1);
  }

  const Elements: seq<Element> := [Fire, Earth, Air, Water]
  const Modalities: seq<Modality> := [Cardinal, Fixed, Mutable]

  /**
   * getElementForSign: `elements[signIndex % 4]`. The remainder keeps the sign
   * of a negative index, and a negative subscript reads `undefined`.
   */
  function GetElementForSign(signIndex: int): (r: Option<Element>)
    ensures r.Some? <==> JsIntRem(signIndex, 4) >= 0
  {
    var k := JsIntRem(signIndex, 4);
    if k >= 0 then Some(Elements[k]) else None
  }

  /** getModalityForSign: `modalities[signIndex % 3]`, `undefined` for a negative subscript. */
  function GetModalityForSign(signIndex: int): (r: Option<Modality>)
    ensures r.Some? <==> JsIntRem(signIndex, 3) >= 0
  {
    var k := JsIntRem(signIndex, 3);
    if k >= 0 then Some(Modalities[k]) else None
  }

  /** Every non-negative index has an element and a modality. */
  lemma ClassifiedForNonNegative(signIndex: int)
    requires 0 <= signIndex
    ensures GetElementForSign(signIndex).Some? && GetModalityForSign(signIndex).Some?
  {
  }

  /** The element repeats every four signs and the modality every three. */
  lemma ClassificationPeriodic(signIndex: int)
    requires 0 <= signIndex
    ensures GetElementForSign(signIndex + 4) == GetElementForSign(signIndex)
    ensures GetModalityForSign(signIndex + 3) == GetModalityForSign(signIndex)
  {
  }

  /** Aries is Fire and Cardinal, Taurus Earth and Fixed, Gemini Air and Mutable, Pisces Water and Mutable. */
  lemma ClassificationExamples()
    ensures GetElementForSign(0) == Some(Fire) && GetModalityForSign(0) == Some(Cardinal)
    ensures GetElementForSign(1) == Some(Earth) && GetModalityForSign(1) == Some(Fixed)
    ensures GetElementForSign(2) == Some(Air) && GetModalityForSign(2) == Some(Mutable)
    ensures GetElementForSign(3) == Some(Water) && GetModalityForSign(3) == Some(Cardinal)
    ensures GetElementForSign(4) == Some(Fire)
    ensures GetElementForSign(11) == Some(Water) && GetModalityForSign(11) == Some(Mutable)
    ensures GetElementForSign(-1) == None && GetElementForSign(-4) == Some(Fire)
  {
  }

  /** isRetrograde: a body moving backwards along the zodiac, and only such a body. */
  function IsRetrograde(dailyMotion: real): (r: bool)
    ensures r <==> dailyMotion < 0.0
  {
    dailyMotion < 0.0
  }

  /** Backward motion is retrograde; standing still and forward motion are not. */
  lemma IsRetrogradeExamples()
    ensures IsRetrograde(-0.5) && !IsRetrograde(0.0) && !IsRetrograde(1.2)
  {
  }

  // ---------------------------------------------------------------------------
  // Midpoint

  /** calculateMidpoint: half-way between the positions, along the shorter arc. */
  function CalculateMidpoint(pos1: real, pos2: real): (r: real)
    ensures 0.0 <= r < 360.0
  {
    var n1 := Normalize(pos1);
    var n2 := Normalize(pos2);
    var diff0 := n2 - n1;
    var diff := if RealAbs(diff0) > 180.0 then (if diff0 > 0.0 then diff0 - 360.0 else diff0 + 360.0) else diff0;
    Normalize(n1 + diff / 2.0)
  }

  /** The signed offset from pos1 to pos2 that calculateMidpoint halves, folded into [-180, 180]. */
  function MidpointOffset(pos1: real, pos2: real): (d: real)
    ensures -180.0 <= d <= 180.0
    ensures exists j: int {:trigger j as real} :: Normalize(pos2) - Normalize(pos1) == d + 360.0 * (j as real)
  {
    var diff0 := Normalize(pos2) - Normalize(pos1);
    var d := if RealAbs(diff0) > 180.0 then (if diff0 > 0.0 then diff0 - 360.0 else diff0 + 360.0) else diff0;
    assert diff0 == d + 360.0 * ((if RealAbs(diff0) > 180.0 then (if diff0 > 0.0 then 1 else -1) else 0) as real);
    d
  }

  /** The shorter arc of a signed offset in [-180, 180] is its magnitude, in either direction. */
  lemma ShorterArcOfOffset(d: real)
    requires -180.0 <= d <= 180.0
    ensures ShorterArc(Normalize(d)) == RealAbs(d)
    ensures ShorterArc(Normalize(-d)) == RealAbs(d)
  {
    if d >= 0.0 {
      NormalizeIdentity(d);
      if d > 0.0 { NormalizeCharacterised(-d, -1); } else { NormalizeIdentity(-d); }
    } else {
      NormalizeCharacterised(d, -1);
      NormalizeIdentity(-d);
    }
  }

  /** Longitudes that differ by whole turns have the same shorter arc to any other longitude. */
  lemma ArcShift(x: real, y: real, n: int)
    requires x == y + 360.0 * (n as real)
    ensures ShorterArc(Normalize(x)) == ShorterArc(Normalize(y))
  {
    NormalizePeriodic(y, n);
  }

  /** calculateMidpoint is the normalised point half-way along the folded offset. */
  lemma MidpointFromOffset(pos1: real, pos2: real)
    ensures CalculateMidpoint(pos1, pos2) == Normalize(Normalize(pos1) + MidpointOffset(pos1, pos2) / 2.0)
  {
  }

  /** Two positions whose normalised difference is `d` in [-180, 180] up to whole turns are |d| apart. */
  lemma OrbOfOffset(a: real, b: real, d: real, n: int)
    requires -180.0 <= d <= 180.0
    requires Normalize(a) - Normalize(b) == d + 360.0 * (n as real)
    ensures CalculateOrb(a, b) == RealAbs(d)
  {
    OrbIsShorterArc(a, b);
    NormalizeDifference(a, b);
    ArcShift(Normalize(a) - Normalize(b), d, n);
    ShorterArcOfOffset(d);
  }

  /**
   * The midpoint lies on the shorter arc: it is half the orb away from each
   * of the two positions.
   */
  lemma {:induction false} MidpointOnShorterArc(pos1: real, pos2: real)
    ensures CalculateOrb(pos1, CalculateMidpoint(pos1, pos2)) == CalculateOrb(pos1, pos2) / 2.0
    ensures CalculateOrb(pos2, CalculateMidpoint(pos1, pos2)) == CalculateOrb(pos1, pos2) / 2.0
  {
    var n1, n2 := Normalize(pos1), Normalize(pos2);
    var d := MidpointOffset(pos1, pos2);
    var j: int :| n2 - n1 == d + 360.0 * (j as real);
    var x := n1 + d / 2.0;
    var m := CalculateMidpoint(pos1, pos2);
    var k := (x / 360.0).Floor;
    MidpointFromOffset(pos1, pos2);
    assert m == x - 360.0 * (k as real);
    NormalizeIdentity(m);
    OrbOfOffset(pos1, pos2, -d, -j);
    OrbOfOffset(pos1, m, -(d / 2.0), k);
    OrbOfOffset(pos2, m, d / 2.0, j + k);
  }

  /** Exchanging the two positions gives the same midpoint, opposite points included. */
  lemma {:induction false} MidpointSymmetric(pos1: real, pos2: real)
    ensures CalculateMidpoint(pos1, pos2) == CalculateMidpoint(pos2, pos1)
  {
    var n1, n2 := Normalize(pos1), Normalize(pos2);
    var d := MidpointOffset(pos1, pos2);
    var e := MidpointOffset(pos2, pos1);
    MidpointFromOffset(pos1, pos2);
    MidpointFromOffset(pos2, pos1);
    var diff0 := n2 - n1;
    if RealAbs(diff0) > 180.0 {
      assert e == -d;
      if diff0 > 0.0 {
        assert n2 + e / 2.0 == (n1 + d / 2.0) + 360.0 * (1 as real);
        NormalizePeriodic(n1 + d / 2.0, 1);
      } else {
        assert n2 + e / 2.0 == (n1 + d / 2.0) + 360.0 * (-1 as real);
        NormalizePeriodic(n1 + d / 2.0, -1);
      }
    } else {
      assert e == -d;
      assert n2 + e / 2.0 == n1 + d / 2.0;
    }
  }

  /** For exactly opposite points the midpoint is a quarter turn past the smaller normalised one. */
  lemma MidpointOfOpposites(pos1: real, pos2: real)
    requires CalculateOrb(pos1, pos2) == 180.0
    ensures Normalize(pos1) <= Normalize(pos2) ==> CalculateMidpoint(pos1, pos2) == Normalize(Normalize(pos1) + 90.0)
    ensures Normalize(pos2) <= Normalize(pos1) ==> CalculateMidpoint(pos1, pos2) == Normalize(Normalize(pos2) + 90.0)
  {
    MidpointFromOffset(pos1, pos2);
  }

  /** The worked values: 350 and 10 meet at 0, 0 and 10 at 5, and 90 and 270 at 180. */
  lemma MidpointExamples()
    ensures CalculateMidpoint(350.0, 10.0) == 0.0
    ensures CalculateMidpoint(0.0, 10.0) == 5.0
    ensures CalculateMidpoint(90.0, 270.0) == 180.0
  {
    NormalizeIdentity(350.0);
    NormalizeIdentity(10.0);
    NormalizeIdentity(0.0);
    NormalizeIdentity(5.0);
    NormalizeIdentity(90.0);
    NormalizeIdentity(270.0);
    NormalizeIdentity(180.0);
    NormalizeCharacterised(360.0, 1);
  }

  // ---------------------------------------------------------------------------
  // House locator

  /** The end of a house's interval: the next cusp, lifted by a turn when it lies below the start. */
  function IntervalEnd(start: real, next: real): real {
    if next < start then next + 360.0 else next
  }

  /** Whether `q` lies in the interval [start, end) of the house at index i. */
  predicate InHouseInterval(q: real, houses: seq<HouseCusp>, i: nat)
    requires i < |houses|
  {
    var start := houses[i].longitude;
    start <= q < IntervalEnd(start, houses[(i + 1) % |houses|].longitude)
  }

  /** The index of the first house, from index i on, whose interval holds `q`. */
  function FirstHouseFrom(q: real, houses: seq<HouseCusp>, i: nat): (r: Option<nat>)
    requires i <= |houses|
    ensures r.Some? ==> i <= r.value < |houses| && InHouseInterval(q, houses, r.value)
    decreases |houses| - i
  {
    if i == |houses| then None
    else if InHouseInterval(q, houses, i) then Some(i)
    else FirstHouseFrom(q, houses, i + 1)
  }

  /** The search finds the first matching interval, and finds none only when none matches. */
  lemma {:induction false} FirstHouseFromIsFirst(q: real, houses: seq<HouseCusp>, i: nat)
    requires i <= |houses|
    ensures FirstHouseFrom(q, houses, i).None? <==> forall j :: i <= j < |houses| ==> !InHouseInterval(q, houses, j)
    ensures FirstHouseFrom(q, houses, i).Some? ==>
      forall j :: i <= j < FirstHouseFrom(q, houses, i).value ==> !InHouseInterval(q, houses, j)
    decreases |houses| - i
  {
    if i < |houses| && !InHouseInterval(q, houses, i) {
      FirstHouseFromIsFirst(q, houses, i + 1);
    }
  }

  /** An interval that holds `q` with none before it is the one the search returns. */
  lemma FirstHouseAt(q: real, houses: seq<HouseCusp>, k: nat)
    requires k < |houses| && InHouseInterval(q, houses, k)
    requires forall j :: 0 <= j < k ==> !InHouseInterval(q, houses, j)
    ensures FirstHouseFrom(q, houses, 0) == Some(k)
  {
    FirstHouseFromIsFirst(q, houses, 0);
  }

  /** The house getHouseNumber reports for an already normalised longitude. */
  function HouseNumberOf(q: real, houses: seq<HouseCusp>): (h: int)
    ensures || (exists i :: 0 <= i < |houses| && InHouseInterval(q, houses, i) && houses[i].house == h
                 && forall j :: 0 <= j < i ==> !InHouseInterval(q, houses, j))
            || (h == 1 && forall i :: 0 <= i < |houses| ==> !InHouseInterval(q, houses, i))
  {
    FirstHouseFromIsFirst(q, houses, 0);
    match FirstHouseFrom(q, houses, 0)
    case Some(i) => houses[i].house
    case None => 1
  }

  /**
   * getHouseNumber: the house of the first cusp pair whose interval holds the
   * normalised longitude, or house 1 when no interval holds it.
   */
  method GetHouseNumber(longitude: real, houses: seq<HouseCusp>) returns (house: int)
    ensures house == HouseNumberOf(Normalize(longitude), houses)
    ensures (exists i :: 0 <= i < |houses| && InHouseInterval(Normalize(longitude), houses, i) && house == houses[i].house &&
               forall j :: 0 <= j < i ==> !InHouseInterval(Normalize(longitude), houses, j))
         || (house == 1 && forall j :: 0 <= j < |houses| ==> !InHouseInterval(Normalize(longitude), houses, j))
  {
    var q := Normalize(longitude);
    FirstHouseFromIsFirst(q, houses, 0);
    var i := 0;
    while i < |houses|
      invariant 0 <= i <= |houses|
      invariant forall j :: 0 <= j < i ==> !InHouseInterval(q, houses, j)
    {
      var start := houses[i].longitude;
      var end := houses[(i + 1) % |houses|].longitude;
      if end < start {
        end := end + 360.0;
      }
      var cmp := q;
      if start > end {
        if cmp < start {
          cmp := cmp + 360.0;
        }
      }
      if cmp >= start && cmp < end {
        FirstHouseAt(q, houses, i);
        return houses[i].house;
      }
      i := i + 1;
    }
    return 1;
  }

  /** Twelve equal houses starting at 0 degrees, as in the reference examples. */
  function EqualCusps(): (h: seq<HouseCusp>)
    ensures |h| == 12
  {
    seq(12, i requires 0 <= i < 12 => HouseCusp(i + 1, 30.0 * (i as real)))
  }

  /** With equal cusps from 0 degrees every longitude lands in the house numbered after its sign. */
  lemma EqualCuspsFollowSigns(longitude: real)
    ensures HouseNumberOf(Normalize(longitude), EqualCusps()) == GetZodiacSignIndex(longitude) + 1
  {
    var q := Normalize(longitude);
    var h := EqualCusps();
    var k := GetZodiacSignIndex(longitude);
    assert InHouseInterval(q, h, k);
    forall j | 0 <= j < k
      ensures !InHouseInterval(q, h, j)
    {
      assert h[(j + 1) % 12].longitude == 30.0 * ((j + 1) as real);
    }
    FirstHouseAt(q, h, k);
  }

  /** The worked values for equal cusps: 15 is in house 1, 45 in house 2, 275 in house 10. */
  lemma EqualCuspsExamples()
    ensures HouseNumberOf(Normalize(15.0), EqualCusps()) == 1
    ensures HouseNumberOf(Normalize(45.0), EqualCusps()) == 2
    ensures HouseNumberOf(Normalize(275.0), EqualCusps()) == 10
  {
    EqualCuspsFollowSigns(15.0);
    EqualCuspsFollowSigns(45.0);
    EqualCuspsFollowSigns(275.0);
    NormalizeIdentity(15.0);
    NormalizeIdentity(45.0);
    NormalizeIdentity(275.0);
  }

  /** Equal cusps rotated to start at `first` degrees: house i + 1 begins at first + 30 i, folded below 360. */
  function RotatedCusps(first: int): (h: seq<HouseCusp>)
    requires 0 <= first < 360
    ensures |h| == 12
  {
    seq(12, i requires 0 <= i < 12 => HouseCusp(i + 1, (if first + 30 * i < 360 then first + 30 * i else first + 30 * i - 360) as real))
  }

  /**
   * With house 1 starting at 350 degrees, 355 is found in house 1 and 30 in
   * house 2, while 5 lies in no interval (the interval of house 1 is [350, 380)
   * and 5 is not lifted) and is reported as house 1 only by the fallback.
   */
  lemma WrappingFirstHouse()
    ensures HouseNumberOf(355.0, RotatedCusps(350)) == 1
    ensures HouseNumberOf(30.0, RotatedCusps(350)) == 2
    ensures FirstHouseFrom(5.0, RotatedCusps(350), 0) == None
    ensures HouseNumberOf(5.0, RotatedCusps(350)) == 1
  {
    var h := RotatedCusps(350);
    assert InHouseInterval(355.0, h, 0);
    FirstHouseAt(355.0, h, 0);
    assert h[1].longitude == 20.0 && h[2].longitude == 50.0;
    assert InHouseInterval(30.0, h, 1);
    FirstHouseAt(30.0, h, 1);
    forall j | 0 <= j < 12
      ensures !InHouseInterval(5.0, h, j)
    {
      assert h[(j + 1) % 12] == h[if j < 11 then j + 1 else 0];
    }
    FirstHouseFromIsFirst(5.0, h, 0);
  }

  /**
   * When the house that spans 0 degrees is not house 1, a longitude just past
   * 0 degrees falls through every interval: with house 2 spanning 350 to 20
   * degrees, 5 degrees is reported as house 1.
   */
  lemma WrappingLaterHouseMissed()
    ensures HouseNumberOf(5.0, RotatedCusps(320)) == 1
    ensures RotatedCusps(320)[1].longitude == 350.0 && RotatedCusps(320)[2].longitude == 20.0
  {
    var h := RotatedCusps(320);
    forall j | 0 <= j < 12
      ensures !InHouseInterval(5.0, h, j)
    {
      assert h[(j + 1) % 12] == h[if j < 11 then j + 1 else 0];
    }
    FirstHouseFromIsFirst(5.0, h, 0);
  }

  /**
   * The house test the locator evidently intends: a longitude below the start
   * of a house is lifted by a turn before the comparison, so the house whose
   * interval spans 0 degrees also holds the longitudes just past 0.
   */
  predicate OnHouseArc(q: real, houses: seq<HouseCusp>, i: nat)
    requires i < |houses|
  {
    var start := houses[i].longitude;
    var lifted := if q < start then q + 360.0 else q;
    start <= lifted < IntervalEnd(start, houses[(i + 1) % |houses|].longitude)
  }

  /** The index of the first house, from index i on, whose arc holds `q`. */
  function FirstArcFrom(q: real, houses: seq<HouseCusp>, i: nat): (r: Option<nat>)
    requires i <= |houses|
    ensures r.Some? ==> i <= r.value < |houses| && OnHouseArc(q, houses, r.value)
    decreases |houses| - i
  {
    if i == |houses| then None
    else if OnHouseArc(q, houses, i) then Some(i)
    else FirstArcFrom(q, houses, i + 1)
  }

  /** The corrected house lookup, with the same fallback to house 1. */
  function HouseOnCircle(q: real, houses: seq<HouseCusp>): int {
    match FirstArcFrom(q, houses, 0)
    case Some(i) => houses[i].house
    case None => 1
  }

  /** An arc that holds `q` with none before it is the one the corrected search returns. */
  lemma {:induction false} FirstArcAt(q: real, houses: seq<HouseCusp>, k: nat, i: nat)
    requires i <= k < |houses| && OnHouseArc(q, houses, k)
    requires forall j :: i <= j < k ==> !OnHouseArc(q, houses, j)
    ensures FirstArcFrom(q, houses, i) == Some(k)
    decreases k - i
  {
    if i < k {
      FirstArcAt(q, houses, k, i + 1);
    }
  }

  /** The cusp of house j + 1 among equal houses starting at `first`. */
  lemma RotatedCuspAt(first: int, j: int)
    requires 0 <= first < 360 && 0 <= j < 12
    ensures RotatedCusps(first)[j].longitude == (if first + 30 * j < 360 then first + 30 * j else first + 30 * j - 360) as real
    ensures RotatedCusps(first)[(j + 1) % 12].longitude
         == (if first + 30 * (j + 1) < 360 then first + 30 * (j + 1) else if j < 11 then first + 30 * (j + 1) - 360 else first) as real
  {
  }

  /**
   * With equal houses starting anywhere, a longitude in [0, 360) lies on the arc
   * of exactly one house: the one `d` whole 30-degree steps past the first cusp,
   * where `d` is its distance from the first cusp.
   */
  lemma RotatedArcUnique(first: int, q: real, j: int, k: int)
    requires 0 <= first < 360 && 0.0 <= q < 360.0 && 0 <= j < 12
    requires 30.0 * (k as real) <= Normalize(q - first as real) < 30.0 * (k as real) + 30.0
    ensures OnHouseArc(q, RotatedCusps(first), j) <==> j == k
  {
    var d := Normalize(q - first as real);
    if q >= first as real {
      NormalizeCharacterised(q - first as real, 0);
    } else {
      NormalizeCharacterised(q - first as real, -1);
    }
    RotatedCuspAt(first, j);
  }

  /**
   * The corrected lookup finds, for every longitude in [0, 360) and equal houses
   * starting at any whole degree, the house numbered after the 30-degree step
   * from the first cusp; for cusps from 320 degrees, 5 degrees is in house 2.
   */
  lemma HouseOnCircleOfRotated(first: int, q: real)
    requires 0 <= first < 360 && 0.0 <= q < 360.0
    ensures HouseOnCircle(q, RotatedCusps(first)) == (Normalize(q - first as real) / 30.0).Floor + 1
  {
    var h := RotatedCusps(first);
    var k := (Normalize(q - first as real) / 30.0).Floor;
    forall j | 0 <= j < 12
      ensures OnHouseArc(q, h, j) <==> j == k
    {
      RotatedArcUnique(first, q, j, k);
    }
    FirstArcAt(q, h, k, 0);
  }

  /** The case the as-written lookup misses: with cusps from 320 degrees, 5 degrees is in house 2. */
  lemma WrappingLaterHouseFound()
    ensures HouseOnCircle(5.0, RotatedCusps(320)) == 2
  {
    HouseOnCircleOfRotated(320, 5.0);
    NormalizeCharacterised(5.0 - 320.0, -1);
  }

  // ---------------------------------------------------------------------------
  // Position text

  /** formatZodiacPosition: "<degree>° <sign name>"; a sign table too short for the index throws. */
  function FormatZodiacPosition(longitude: real, zodiacSigns: seq<ZodiacSign>): (r: Option<string>)
    ensures r.Some? <==> GetZodiacSignIndex(longitude) < |zodiacSigns|
  {
    var signIndex := GetZodiacSignIndex(longitude);
    var degree := GetDegreeInSign(longitude);
    if signIndex < |zodiacSigns| then Some(DecimalString(degree) + "° " + zodiacSigns[signIndex].name) else None
  }

  /** Splits "<digits>° <rest>" into the number and the rest. */
  function ParsePosition(s: string): Option<(nat, string)> {
    if |s| < 2 then None
    else
      var i := DigitPrefixLength(s);
      if 0 < i && i + 1 < |s| && s[i] == '°' && s[i + 1] == ' ' then Some((DecimalValue(s[..i]), s[i + 2..])) else None
  }

  /** The length of the run of decimal digits that starts the string. */
  function DigitPrefixLength(s: string): (n: nat)
    ensures n <= |s| && (forall i :: 0 <= i < n ==> IsDigit(s[i])) && (n < |s| ==> !IsDigit(s[n]))
  {
    if s == [] || !IsDigit(s[0]) then 0 else 1 + DigitPrefixLength(s[1..])
  }

  /** The position text reads back as the degree within the sign and the sign's name. */
  lemma FormatZodiacPositionRoundTrip(longitude: real, zodiacSigns: seq<ZodiacSign>)
    requires GetZodiacSignIndex(longitude) < |zodiacSigns|
    ensures ParsePosition(FormatZodiacPosition(longitude, zodiacSigns).value)
         == Some((GetDegreeInSign(longitude), zodiacSigns[GetZodiacSignIndex(longitude)].name))
  {
    var d := DecimalString(GetDegreeInSign(longitude));
    var s := FormatZodiacPosition(longitude, zodiacSigns).value;
    assert s[..|d|] == d;
    DigitsThenStop(s, d);
    DecimalRoundTrip(GetDegreeInSign(longitude));
  }

  /** A string of digits followed by a non-digit has exactly that many leading digits. */
  lemma {:induction false} DigitsThenStop(s: string, d: string)
    requires |d| < |s| && s[..|d|] == d && !IsDigit(s[|d|])
    requires forall i :: 0 <= i < |d| ==> IsDigit(d[i])
    ensures DigitPrefixLength(s) == |d|
  {
    if d != [] {
      assert s[1..][..|d| - 1] == d[1..];
      DigitsThenStop(s[1..], d[1..]);
    }
  }

  /** The worked values with the twelve signs in order: "0° Aries", "1° Taurus", "29° Pisces". */
  lemma FormatZodiacPositionExamples(signs: seq<ZodiacSign>)
    requires |signs| == 12 && signs[0].name == "Aries" && signs[1].name == "Taurus" && signs[11].name == "Pisces"
    ensures FormatZodiacPosition(0.0, signs) == Some("0° Aries")
    ensures FormatZodiacPosition(31.0, signs) == Some("1° Taurus")
    ensures FormatZodiacPosition(359.0, signs) == Some("29° Pisces")
  {
    NormalizeIdentity(0.0);
    NormalizeIdentity(31.0);
    NormalizeIdentity(359.0);
    assert GetZodiacSignIndex(0.0) == 0 && GetDegreeInSign(0.0) == 0;
    assert GetZodiacSignIndex(31.0) == 1 && GetDegreeInSign(31.0) == 1;
    assert GetZodiacSignIndex(359.0) == 11 && GetDegreeInSign(359.0) == 29;
    assert DecimalString(0) + "° " + "Aries" == "0° Aries";
    assert DecimalString(1) + "° " + "Taurus" == "1° Taurus";
    assert DecimalString(29) == "29";
    assert DecimalString(29) + "° " + "Pisces" == "29° Pisces";
  }

  // ---------------------------------------------------------------------------
  // Aspect detection

  /** Whether two bodies form the aspect of one catalog entry. */
  predicate Matches(p1: Planet, p2: Planet, t: AspectType) {
    IsAspect(p1.longitude, p2.longitude, t.angle, t.orb)
  }

  /**
   * An entry as both detectors of this file push it: it carries a catalog
   * entry, that entry's lower-cased name and the given flag, and its deviation
   * from the ideal angle is within the entry's orb.
   */
  predicate WellFormedEntry(a: Aspect, types: seq<AspectType>, flag: Option<bool>) {
    a.aspectData in types && a.aspect == ToLower(a.aspectData.name) && 0.0 <= a.orb <= a.aspectData.orb
    && a.isTransitToNatal == flag
  }

  /** The record the detectors push for a matching pair and catalog entry. */
  function AspectEntry(p1: Planet, p2: Planet, t: AspectType, flag: Option<bool>): Aspect {
    Aspect(p1.planet, p2.planet, ToLower(t.name), t, RealAbs(CalculateOrb(p1.longitude, p2.longitude) - t.angle), flag)
  }

  /** The entries for one pair: one per matching catalog entry, in catalog order. */
  function PairAspects(p1: Planet, p2: Planet, types: seq<AspectType>, flag: Option<bool>): (r: seq<Aspect>)
    ensures forall a :: a in r ==> WellFormedEntry(a, types, flag) && a.planet1 == p1.planet && a.planet2 == p2.planet
    decreases |types|
  {
    if types == [] then []
    else
      var last := types[|types| - 1];
      assert forall t :: t in types[..|types| - 1] ==> t in types;
      PairAspects(p1, p2, types[..|types| - 1], flag) + (if Matches(p1, p2, last) then [AspectEntry(p1, p2, last, flag)] else [])
  }

  /** What the pair (r, m) of a list of bodies contributes; indices past the list contribute nothing. */
  function PairsOf(planets: seq<Planet>, types: seq<AspectType>, flag: Option<bool>): (nat, nat) -> seq<Aspect> {
    (r: nat, m: nat) => if r < |planets| && m < |planets| then PairAspects(planets[r], planets[m], types, flag) else []
  }

  lemma PairsOfAt(planets: seq<Planet>, types: seq<AspectType>, flag: Option<bool>, i: nat, j: nat)
    requires i < |planets| && j < |planets|
    ensures PairsOf(planets, types, flag)(i, j) == PairAspects(planets[i], planets[j], types, flag)
  {
  }

  /**
   * What getAllAspects returns: the entries of every pair i < j, pairs in index
   * order. Every entry names an earlier body first and a later one second, and
   * lies within the orb of a catalog entry whose lower-cased name it carries.
   */
  function AllAspects(planets: seq<Planet>, types: seq<AspectType>): (r: seq<Aspect>)
    ensures forall a :: a in r ==> WellFormedEntry(a, types, None)
    ensures forall a :: a in r ==>
      exists i, j :: 0 <= i < j < |planets| && a.planet1 == planets[i].planet && a.planet2 == planets[j].planet
  {
    TriangleEntries(planets, types, None);
    Triangle(PairsOf(planets, types, None), |planets|)
  }

  /** Every entry of the sweep over pairs i < j is an entry of one such pair. */
  lemma TriangleEntries(planets: seq<Planet>, types: seq<AspectType>, flag: Option<bool>)
    ensures forall a :: a in Triangle(PairsOf(planets, types, flag), |planets|) ==>
      exists i, j :: 0 <= i < j < |planets| && a in PairAspects(planets[i], planets[j], types, flag)
  {
    var pairs := PairsOf(planets, types, flag);
    forall a | a in Triangle(pairs, |planets|)
      ensures exists i, j :: 0 <= i < j < |planets| && a in PairAspects(planets[i], planets[j], types, flag)
    {
      TriangleMembers(pairs, |planets|, a);
      var i: nat, j: nat :| i < j < |planets| && a in pairs(i, j);
      PairsOfAt(planets, types, flag, i, j);
    }
  }

  /** The innermost loop of both detectors: every catalog entry tried on one pair, matches pushed in catalog order. */
  method DetectPair(p1: Planet, p2: Planet, aspectTypes: seq<AspectType>, flag: Option<bool>) returns (found: seq<Aspect>)
    ensures found == PairAspects(p1, p2, aspectTypes, flag)
  {
    found := [];
    for k := 0 to |aspectTypes|
      invariant found == PairAspects(p1, p2, aspectTypes[..k], flag)
    {
      var aspectType := aspectTypes[k];
      assert aspectTypes[..k + 1][..k] == aspectTypes[..k];
      if IsAspect(p1.longitude, p2.longitude, aspectType.angle, aspectType.orb) {
        found := found + [AspectEntry(p1, p2, aspectType, flag)];
      }
    }
    assert aspectTypes[..|aspectTypes|] == aspectTypes;
  }

  /** getAllAspects: nested loops over the pairs i < j and, inside, over the catalog. */
  method GetAllAspects(planets: seq<Planet>, aspectTypes: seq<AspectType>) returns (aspects: seq<Aspect>)
    ensures aspects == AllAspects(planets, aspectTypes)
  {
    ghost var pairs := PairsOf(planets, aspectTypes, None);
    aspects := [];
    for i := 0 to |planets|
      invariant aspects == TriangleUpTo(pairs, |planets|, i)
    {
      var row := DetectRow(planets, aspectTypes, i);
      TriangleUpToExtend(pairs, |planets|, i, aspects, row);
      aspects := aspects + row;
    }
  }

  /** The middle loop of getAllAspects: the pairs (i, j) for every j after i. */
  method DetectRow(planets: seq<Planet>, aspectTypes: seq<AspectType>, i: nat) returns (row: seq<Aspect>)
    requires i < |planets|
    ensures row == TriangleRow(PairsOf(planets, aspectTypes, None), i, |planets|)
  {
    ghost var pairs := PairsOf(planets, aspectTypes, None);
    row := [];
    for j := i + 1 to |planets|
      invariant row == TriangleRow(pairs, i, j)
    {
      var found := DetectPair(planets[i], planets[j], aspectTypes, None);
      PairsOfAt(planets, aspectTypes, None, i, j);
      TriangleRowExtend(pairs, i, j, row, found);
      row := row + found;
    }
  }

  /** `a` is the entry the detectors push for the pair (p1, p2) and the catalog entry t. */
  predicate Pushes(p1: Planet, p2: Planet, t: AspectType, flag: Option<bool>, a: Aspect) {
    Matches(p1, p2, t) && a == AspectEntry(p1, p2, t, flag)
  }

  /** A pushed entry names the pair in order, carries the catalog entry and its lower-cased name, and lies within the orb. */
  lemma PushedEntry(p1: Planet, p2: Planet, t: AspectType, flag: Option<bool>, a: Aspect)
    requires Pushes(p1, p2, t, flag, a)
    ensures a.planet1 == p1.planet && a.planet2 == p2.planet && a.aspectData == t && a.isTransitToNatal == flag
    ensures a.aspect == ToLower(t.name) && a.orb <= t.orb
  {
  }

  /** The entries for one pair are exactly the matching catalog entries. */
  lemma PairAspectsMembers(p1: Planet, p2: Planet, types: seq<AspectType>, flag: Option<bool>, a: Aspect)
    ensures a in PairAspects(p1, p2, types, flag) <==> exists k :: 0 <= k < |types| && Pushes(p1, p2, types[k], flag, a)
  {
    if a in PairAspects(p1, p2, types, flag) {
      PairAspectsSound(p1, p2, types, flag, a);
    }
    if exists k :: 0 <= k < |types| && Pushes(p1, p2, types[k], flag, a) {
      var k :| 0 <= k < |types| && Pushes(p1, p2, types[k], flag, a);
      PairAspectsComplete(p1, p2, types, flag, k);
    }
  }

  /** Every entry for a pair comes from a matching catalog entry. */
  lemma {:induction false} PairAspectsSound(p1: Planet, p2: Planet, types: seq<AspectType>, flag: Option<bool>, a: Aspect)
    requires a in PairAspects(p1, p2, types, flag)
    ensures exists k :: 0 <= k < |types| && Pushes(p1, p2, types[k], flag, a)
    decreases |types|
  {
    var init, last := types[..|types| - 1], types[|types| - 1];
    var tail := if Matches(p1, p2, last) then [AspectEntry(p1, p2, last, flag)] else [];
    assert PairAspects(p1, p2, types, flag) == PairAspects(p1, p2, init, flag) + tail;
    InEither(PairAspects(p1, p2, init, flag), tail, a);
    if a in PairAspects(p1, p2, init, flag) {
      PairAspectsSound(p1, p2, init, flag, a);
      var k :| 0 <= k < |init| && Pushes(p1, p2, init[k], flag, a);
      assert types[k] == init[k];
    } else {
      assert Pushes(p1, p2, types[|types| - 1], flag, a);
    }
  }

  /** Every matching catalog entry gives an entry for the pair. */
  lemma {:induction false} PairAspectsComplete(p1: Planet, p2: Planet, types: seq<AspectType>, flag: Option<bool>, k: nat)
    requires k < |types| && Matches(p1, p2, types[k])
    ensures AspectEntry(p1, p2, types[k], flag) in PairAspects(p1, p2, types, flag)
    decreases |types|
  {
    var init, last := types[..|types| - 1], types[|types| - 1];
    var tail := if Matches(p1, p2, last) then [AspectEntry(p1, p2, last, flag)] else [];
    assert PairAspects(p1, p2, types, flag) == PairAspects(p1, p2, init, flag) + tail;
    if k < |init| {
      assert init[k] == types[k];
      PairAspectsComplete(p1, p2, init, flag, k);
      InLeft(PairAspects(p1, p2, init, flag), tail, AspectEntry(p1, p2, types[k], flag));
    } else {
      InRight(PairAspects(p1, p2, init, flag), tail, AspectEntry(p1, p2, types[k], flag));
    }
  }

  /**
   * getAllAspects reports an entry exactly when some pair i < j and some catalog
   * entry match: each reported aspect names the earlier body first, carries the
   * catalog entry and its lower-cased name, and deviates from the ideal angle by
   * no more than the entry's orb.
   */
  lemma AllAspectsMembers(planets: seq<Planet>, types: seq<AspectType>, a: Aspect)
    ensures a in AllAspects(planets, types) <==>
      exists i, j, k :: 0 <= i < j < |planets| && 0 <= k < |types| && Pushes(planets[i], planets[j], types[k], None, a)
    ensures a in AllAspects(planets, types) ==>
      a.aspect == ToLower(a.aspectData.name) && a.orb <= a.aspectData.orb && a.isTransitToNatal == None
  {
    if a in AllAspects(planets, types) {
      AllAspectsSound(planets, types, a);
    }
    if exists i, j, k :: 0 <= i < j < |planets| && 0 <= k < |types| && Pushes(planets[i], planets[j], types[k], None, a) {
      var i, j, k :| 0 <= i < j < |planets| && 0 <= k < |types| && Pushes(planets[i], planets[j], types[k], None, a);
      AllAspectsComplete(planets, types, i, j, k);
    }
  }

  /** Every detected entry comes from a pair i < j and a matching catalog entry. */
  lemma AllAspectsSound(planets: seq<Planet>, types: seq<AspectType>, a: Aspect)
    requires a in AllAspects(planets, types)
    ensures exists i, j, k :: 0 <= i < j < |planets| && 0 <= k < |types| && Pushes(planets[i], planets[j], types[k], None, a)
    ensures a.aspect == ToLower(a.aspectData.name) && a.orb <= a.aspectData.orb && a.isTransitToNatal == None
  {
    var pairs := PairsOf(planets, types, None);
    TriangleMembers(pairs, |planets|, a);
    var i: nat, j: nat :| i < j < |planets| && a in pairs(i, j);
    PairsOfAt(planets, types, None, i, j);
    PairAspectsSound(planets[i], planets[j], types, None, a);
    var k :| 0 <= k < |types| && Pushes(planets[i], planets[j], types[k], None, a);
    PushedEntry(planets[i], planets[j], types[k], None, a);
  }

  /** Every pair i < j and matching catalog entry gives a detected entry. */
  lemma AllAspectsComplete(planets: seq<Planet>, types: seq<AspectType>, i: nat, j: nat, k: nat)
    requires i < j < |planets| && k < |types| && Matches(planets[i], planets[j], types[k])
    ensures AspectEntry(planets[i], planets[j], types[k], None) in AllAspects(planets, types)
  {
    var pairs := PairsOf(planets, types, None);
    var a := AspectEntry(planets[i], planets[j], types[k], None);
    PairAspectsComplete(planets[i], planets[j], types, None, k);
    PairsOfAt(planets, types, None, i, j);
    assert a in pairs(i, j);
    TriangleMembers(pairs, |planets|, a);
  }

  // ---------------------------------------------------------------------------
  // Transit detection

  /** What the pair (transit body r, natal body m) contributes; indices past the lists contribute nothing. */
  function CrossOf(transitPlanets: seq<Planet>, natalPlanets: seq<Planet>, types: seq<AspectType>): (nat, nat) -> seq<Aspect> {
    (r: nat, m: nat) =>
      if r < |transitPlanets| && m < |natalPlanets| then PairAspects(transitPlanets[r], natalPlanets[m], types, Some(true)) else []
  }

  /** Every transit-to-natal entry, transit bodies in the outer order. */
  function CrossAspects(transitPlanets: seq<Planet>, natalPlanets: seq<Planet>, types: seq<AspectType>): (r: seq<Aspect>)
    ensures forall a :: a in r ==> WellFormedEntry(a, types, Some(true))
    ensures forall a :: a in r ==>
      exists i, j :: 0 <= i < |transitPlanets| && 0 <= j < |natalPlanets| &&
        a.planet1 == transitPlanets[i].planet && a.planet2 == natalPlanets[j].planet
  {
    CrossEntries(transitPlanets, natalPlanets, types);
    Rectangle(CrossOf(transitPlanets, natalPlanets, types), |transitPlanets|, |natalPlanets|)
  }

  /** Every entry of the cross sweep is an entry of one (transit body, natal body) pair. */
  lemma CrossEntries(transitPlanets: seq<Planet>, natalPlanets: seq<Planet>, types: seq<AspectType>)
    ensures forall a :: a in Rectangle(CrossOf(transitPlanets, natalPlanets, types), |transitPlanets|, |natalPlanets|) ==>
      exists i, j :: 0 <= i < |transitPlanets| && 0 <= j < |natalPlanets| &&
        a in PairAspects(transitPlanets[i], natalPlanets[j], types, Some(true))
  {
    var pairs := CrossOf(transitPlanets, natalPlanets, types);
    forall a | a in Rectangle(pairs, |transitPlanets|, |natalPlanets|)
      ensures exists i, j ::
        0 <= i < |transitPlanets| && 0 <= j < |natalPlanets| && a in PairAspects(transitPlanets[i], natalPlanets[j], types, Some(true))
    {
      RectangleMembers(pairs, |transitPlanets|, |natalPlanets|, a);
      var i: nat, j: nat :| i < |transitPlanets| && j < |natalPlanets| && a in pairs(i, j);
      CrossOfAt(transitPlanets, natalPlanets, types, i, j);
    }
  }

  /** The aspects among the transit bodies, each marked as not transit-to-natal. */
  function MarkedTransitAspects(transitPlanets: seq<Planet>, types: seq<AspectType>): (r: seq<Aspect>)
    ensures |r| == |AllAspects(transitPlanets, types)|
    ensures forall k :: 0 <= k < |r| ==> r[k] == AllAspects(transitPlanets, types)[k].(isTransitToNatal := Some(false))
  {
    var plain := AllAspects(transitPlanets, types);
    seq(|plain|, k requires 0 <= k < |plain| => plain[k].(isTransitToNatal := Some(false)))
  }

  /** The marked entries are the aspects among the transit bodies, flagged false. */
  lemma MarkedEntries(transitPlanets: seq<Planet>, types: seq<AspectType>)
    ensures forall a :: a in MarkedTransitAspects(transitPlanets, types) ==>
      WellFormedEntry(a, types, Some(false)) &&
      exists i, j :: 0 <= i < j < |transitPlanets| && a.planet1 == transitPlanets[i].planet && a.planet2 == transitPlanets[j].planet
  {
    var marked := MarkedTransitAspects(transitPlanets, types);
    var plain := AllAspects(transitPlanets, types);
    forall a | a in marked
      ensures WellFormedEntry(a, types, Some(false))
      ensures exists i, j :: 0 <= i < j < |transitPlanets| && a.planet1 == transitPlanets[i].planet && a.planet2 == transitPlanets[j].planet
    {
      var k :| 0 <= k < |marked| && marked[k] == a;
      assert plain[k] in plain;
    }
  }

  /**
   * What getTransitAspects returns. Every entry lies within the orb of a
   * catalog entry whose lower-cased name it carries; an entry flagged true
   * names a transit body and then a natal body, one flagged false two transit
   * bodies in index order, and there is no other flag.
   */
  function TransitAspects(transitPlanets: seq<Planet>, natalPlanets: seq<Planet>, types: seq<AspectType>): (r: seq<Aspect>)
    ensures forall a :: a in r ==> a.isTransitToNatal == Some(true) || a.isTransitToNatal == Some(false)
    ensures forall a :: a in r ==> WellFormedEntry(a, types, a.isTransitToNatal)
    ensures forall a :: a in r && a.isTransitToNatal == Some(true) ==>
      exists i, j :: 0 <= i < |transitPlanets| && 0 <= j < |natalPlanets| &&
        a.planet1 == transitPlanets[i].planet && a.planet2 == natalPlanets[j].planet
    ensures forall a :: a in r && a.isTransitToNatal == Some(false) ==>
      exists i, j :: 0 <= i < j < |transitPlanets| && a.planet1 == transitPlanets[i].planet && a.planet2 == transitPlanets[j].planet
  {
    MarkedEntries(transitPlanets, types);
    CrossAspects(transitPlanets, natalPlanets, types) + MarkedTransitAspects(transitPlanets, types)
  }

  /**
   * getTransitAspects: every transit body against every natal body, then the
   * aspects among the transit bodies, whose flag is switched to false in place.
   */
  method GetTransitAspects(transitPlanets: seq<Planet>, natalPlanets: seq<Planet>, aspectTypes: seq<AspectType>)
    returns (result: seq<Aspect>)
    ensures result == TransitAspects(transitPlanets, natalPlanets, aspectTypes)
  {
    ghost var pairs := CrossOf(transitPlanets, natalPlanets, aspectTypes);
    var aspects := [];
    for i := 0 to |transitPlanets|
      invariant aspects == RectangleUpTo(pairs, |natalPlanets|, i)
    {
      var row := DetectCrossRow(transitPlanets, natalPlanets, aspectTypes, i);
      RectangleUpToExtend(pairs, |natalPlanets|, i, aspects, row);
      aspects := aspects + row;
    }
    var transitAspects := GetAllAspects(transitPlanets, aspectTypes);
    transitAspects := MarkNotTransitToNatal(transitAspects);
    assert transitAspects == MarkedTransitAspects(transitPlanets, aspectTypes);
    result := aspects + transitAspects;
  }

  /** The middle loop of getTransitAspects: transit body i against every natal body. */
  method DetectCrossRow(transitPlanets: seq<Planet>, natalPlanets: seq<Planet>, aspectTypes: seq<AspectType>, i: nat)
    returns (row: seq<Aspect>)
    requires i < |transitPlanets|
    ensures row == RectangleRow(CrossOf(transitPlanets, natalPlanets, aspectTypes), i, |natalPlanets|)
  {
    ghost var pairs := CrossOf(transitPlanets, natalPlanets, aspectTypes);
    row := [];
    for j := 0 to |natalPlanets|
      invariant row == RectangleRow(pairs, i, j)
    {
      var found := DetectPair(transitPlanets[i], natalPlanets[j], aspectTypes, Some(true));
      CrossOfAt(transitPlanets, natalPlanets, aspectTypes, i, j);
      RectangleRowExtend(pairs, i, j, row, found);
      row := row + found;
    }
  }

  lemma CrossOfAt(transitPlanets: seq<Planet>, natalPlanets: seq<Planet>, types: seq<AspectType>, i: nat, j: nat)
    requires i < |transitPlanets| && j < |natalPlanets|
    ensures CrossOf(transitPlanets, natalPlanets, types)(i, j) == PairAspects(transitPlanets[i], natalPlanets[j], types, Some(true))
  {
  }

  /** The loop of getTransitAspects that sets `isTransitToNatal = false` on every aspect among the transit bodies. */
  method MarkNotTransitToNatal(plain: seq<Aspect>) returns (marked: seq<Aspect>)
    ensures |marked| == |plain|
    ensures forall m :: 0 <= m < |plain| ==> marked[m] == plain[m].(isTransitToNatal := Some(false))
  {
    marked := plain;
    for k := 0 to |marked|
      invariant |marked| == |plain|
      invariant forall m :: 0 <= m < k ==> marked[m] == plain[m].(isTransitToNatal := Some(false))
      invariant forall m :: k <= m < |plain| ==> marked[m] == plain[m]
    {
      marked := marked[k := marked[k].(isTransitToNatal := Some(false))];
    }
  }

  /**
   * getTransitAspects holds a transit-to-natal entry exactly for each matching
   * (transit body, natal body, catalog entry), flagged true, with the transit body
   * first; every other entry is an aspect among the transit bodies, flagged false.
   */
  lemma TransitAspectsMembers(transitPlanets: seq<Planet>, natalPlanets: seq<Planet>, types: seq<AspectType>, a: Aspect)
    ensures a in CrossAspects(transitPlanets, natalPlanets, types) <==>
      exists i, j, k :: 0 <= i < |transitPlanets| && 0 <= j < |natalPlanets| && 0 <= k < |types| &&
        Pushes(transitPlanets[i], natalPlanets[j], types[k], Some(true), a)
  {
    var pairs := CrossOf(transitPlanets, natalPlanets, types);
    var cross := CrossAspects(transitPlanets, natalPlanets, types);
    RectangleMembers(pairs, |transitPlanets|, |natalPlanets|, a);
    if a in cross {
      var i: nat, j: nat :| i < |transitPlanets| && j < |natalPlanets| && a in pairs(i, j);
      CrossOfAt(transitPlanets, natalPlanets, types, i, j);
      PairAspectsMembers(transitPlanets[i], natalPlanets[j], types, Some(true), a);
      var k :| 0 <= k < |types| && Pushes(transitPlanets[i], natalPlanets[j], types[k], Some(true), a);
      assert 0 <= i < |transitPlanets| && 0 <= j < |natalPlanets| && 0 <= k < |types|;
    }
    if exists i, j, k :: 0 <= i < |transitPlanets| && 0 <= j < |natalPlanets| && 0 <= k < |types| &&
        Pushes(transitPlanets[i], natalPlanets[j], types[k], Some(true), a) {
      var i, j, k :| 0 <= i < |transitPlanets| && 0 <= j < |natalPlanets| && 0 <= k < |types| &&
        Pushes(transitPlanets[i], natalPlanets[j], types[k], Some(true), a);
      PairAspectsMembers(transitPlanets[i], natalPlanets[j], types, Some(true), a);
      CrossOfAt(transitPlanets, natalPlanets, types, i, j);
      assert a in pairs(i, j);
    }
  }

  /**
   * Every entry getTransitAspects returns is either a transit-to-natal entry,
   * flagged true, or an aspect among the transit bodies, flagged false.
   */
  lemma TransitAspectsFlags(transitPlanets: seq<Planet>, natalPlanets: seq<Planet>, types: seq<AspectType>, a: Aspect)
    requires a in TransitAspects(transitPlanets, natalPlanets, types)
    ensures a.isTransitToNatal == Some(true) || (a.isTransitToNatal == Some(false) && a.(isTransitToNatal := None) in AllAspects(transitPlanets, types))
  {
    var cross, marked := CrossAspects(transitPlanets, natalPlanets, types), MarkedTransitAspects(transitPlanets, types);
    InEither(cross, marked, a);
    if a in marked {
      var plain := AllAspects(transitPlanets, types);
      var k :| 0 <= k < |marked| && marked[k] == a;
      AllAspectsMembers(transitPlanets, types, plain[k]);
      assert a.(isTransitToNatal := None) == plain[k];
    } else {
      TransitAspectsMembers(transitPlanets, natalPlanets, types, a);
      var i, j, k :| 0 <= i < |transitPlanets| && 0 <= j < |natalPlanets| && 0 <= k < |types| &&
        Pushes(transitPlanets[i], natalPlanets[j], types[k], Some(true), a);
    }
  }

  /** When exactly the catalog entry k matches, every prefix of the catalog yields that entry once it reaches k. */
  lemma {:induction false} PairAspectsSingle(p1: Planet, p2: Planet, types: seq<AspectType>, flag: Option<bool>, k: nat, m: nat)
    requires k < |types| && Matches(p1, p2, types[k]) && m <= |types|
    requires forall j :: 0 <= j < |types| && j != k ==> !Matches(p1, p2, types[j])
    ensures PairAspects(p1, p2, types[..m], flag) == if k < m then [AspectEntry(p1, p2, types[k], flag)] else []
  {
    if m > 0 {
      PairAspectsSingle(p1, p2, types, flag, k, m - 1);
      assert types[..m][..m - 1] == types[..m - 1];
      assert types[..m][m - 1] == types[m - 1];
    }
  }

  /** When no catalog entry matches, the pair yields nothing. */
  lemma {:induction false} PairAspectsNone(p1: Planet, p2: Planet, types: seq<AspectType>, flag: Option<bool>)
    requires forall j :: 0 <= j < |types| ==> !Matches(p1, p2, types[j])
    ensures PairAspects(p1, p2, types, flag) == []
    decreases |types|
  {
    if types != [] {
      PairAspectsNone(p1, p2, types[..|types| - 1], flag);
    }
  }

  /** The entries for one pair and a catalog of up to three entries, written out. */
  lemma PairAspectsUnfolded(p1: Planet, p2: Planet, t1: AspectType, t2: AspectType, t3: AspectType, flag: Option<bool>)
    ensures PairAspects(p1, p2, [t1], flag) == (if Matches(p1, p2, t1) then [AspectEntry(p1, p2, t1, flag)] else [])
    ensures PairAspects(p1, p2, [t1, t2], flag) == PairAspects(p1, p2, [t1], flag) +
      (if Matches(p1, p2, t2) then [AspectEntry(p1, p2, t2, flag)] else [])
    ensures PairAspects(p1, p2, [t1, t2, t3], flag) == PairAspects(p1, p2, [t1, t2], flag) +
      (if Matches(p1, p2, t3) then [AspectEntry(p1, p2, t3, flag)] else [])
  {
    assert [t1][..0] == [];
    assert [t1, t2][..1] == [t1];
    assert [t1, t2, t3][..2] == [t1, t2];
  }

  /** The detection over three bodies is the entries of the pairs (0, 1), (0, 2) and (1, 2), in that order. */
  lemma AllAspectsOfThree(x: Planet, y: Planet, z: Planet, types: seq<AspectType>)
    ensures AllAspects([x, y, z], types) == PairAspects(x, y, types, None) + PairAspects(x, z, types, None) + PairAspects(y, z, types, None)
  {
    var pairs := PairsOf([x, y, z], types, None);
    TriangleOfThree(pairs);
    assert pairs(0, 1) == PairAspects(x, y, types, None);
    assert pairs(0, 2) == PairAspects(x, z, types, None);
    assert pairs(1, 2) == PairAspects(y, z, types, None);
  }

  /**
   * Sun at 0, Moon at 60 and Mercury at 90 against conjunction (0, 8), sextile
   * (60, 6) and square (90, 8): the sun-moon sextile and the sun-mercury square
   * are found, and nothing else, since Moon and Mercury are only 30 degrees apart.
   */
  lemma AllAspectsExample(conj: AspectType, sext: AspectType, sq: AspectType, sun: Planet, moon: Planet, mercury: Planet)
    requires conj.angle == 0.0 && conj.orb == 8.0 && sext.angle == 60.0 && sext.orb == 6.0 && sq.angle == 90.0 && sq.orb == 8.0
    requires sun.longitude == 0.0 && moon.longitude == 60.0 && mercury.longitude == 90.0
    ensures AllAspects([sun, moon, mercury], [conj, sext, sq]) ==
      [AspectEntry(sun, moon, sext, None), AspectEntry(sun, mercury, sq, None)]
  {
    var types := [conj, sext, sq];
    NormalizeIdentity(0.0);
    NormalizeIdentity(60.0);
    NormalizeIdentity(90.0);
    assert PairAspects(sun, moon, types, None) == [AspectEntry(sun, moon, sext, None)] by {
      assert CalculateOrb(0.0, 60.0) == 60.0;
      PairAspectsUnfolded(sun, moon, conj, sext, sq, None);
    }
    assert PairAspects(sun, mercury, types, None) == [AspectEntry(sun, mercury, sq, None)] by {
      assert CalculateOrb(0.0, 90.0) == 90.0;
      PairAspectsUnfolded(sun, mercury, conj, sext, sq, None);
    }
    assert PairAspects(moon, mercury, types, None) == [] by {
      assert CalculateOrb(60.0, 90.0) == 30.0;
      PairAspectsUnfolded(moon, mercury, conj, sext, sq, None);
    }
    AllAspectsOfThree(sun, moon, mercury, types);
  }

  /**
   * Transit Sun at 180 and Moon at 120 against natal Sun at 0 and Moon at 60,
   * with opposition (180, 8) and trine (120, 8): the transit Sun opposes the natal
   * Sun and the transit Moon trines the natal Sun, both flagged true, while the
   * two transit bodies, 60 degrees apart, form no listed aspect with each other.
   */
  lemma TransitAspectsExample(opp: AspectType, tri: AspectType, transitSun: Planet, transitMoon: Planet, natalSun: Planet, natalMoon: Planet)
    requires opp.angle == 180.0 && opp.orb == 8.0 && tri.angle == 120.0 && tri.orb == 8.0
    requires transitSun.longitude == 180.0 && transitMoon.longitude == 120.0
    requires natalSun.longitude == 0.0 && natalMoon.longitude == 60.0
    ensures AspectEntry(transitSun, natalSun, opp, Some(true)) in CrossAspects([transitSun, transitMoon], [natalSun, natalMoon], [opp, tri])
    ensures AspectEntry(transitMoon, natalSun, tri, Some(true)) in CrossAspects([transitSun, transitMoon], [natalSun, natalMoon], [opp, tri])
    ensures MarkedTransitAspects([transitSun, transitMoon], [opp, tri]) == []
  {
    var transit, natal, types := [transitSun, transitMoon], [natalSun, natalMoon], [opp, tri];
    NormalizeIdentity(0.0);
    NormalizeIdentity(120.0);
    NormalizeIdentity(180.0);
    assert CalculateOrb(180.0, 0.0) == 180.0 && CalculateOrb(120.0, 0.0) == 120.0 && CalculateOrb(180.0, 120.0) == 60.0;
    PairAspectsUnfolded(transitSun, natalSun, opp, tri, tri, Some(true));
    PairAspectsUnfolded(transitMoon, natalSun, opp, tri, tri, Some(true));
    PairAspectsUnfolded(transitSun, transitMoon, opp, tri, tri, None);
    TransitAspectsMembers(transit, natal, types, AspectEntry(transitSun, natalSun, opp, Some(true)));
    assert Pushes(transit[0], natal[0], types[0], Some(true), AspectEntry(transitSun, natalSun, opp, Some(true)));
    TransitAspectsMembers(transit, natal, types, AspectEntry(transitMoon, natalSun, tri, Some(true)));
    assert Pushes(transit[1], natal[0], types[1], Some(true), AspectEntry(transitMoon, natalSun, tri, Some(true)));
    var pairs := PairsOf(transit, types, None);
    assert TriangleRow(pairs, 0, 2) == [] + pairs(0, 1);
    assert AllAspects(transit, types) == TriangleUpTo(pairs, 2, 1) + TriangleRow(pairs, 1, 2);
    assert pairs(0, 1) == PairAspects(transitSun, transitMoon, types, None);
  }
}
