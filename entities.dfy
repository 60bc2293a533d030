/**
 * The records that flow through the chart code: bodies, house cusps, the aspect
 * catalog, detected aspects, birth data, saved profiles and the chart data that
 * the position source returns. Presentation-only attributes (symbols, colours,
 * house meanings) are passed through unchanged by the source and are left out.
 */
module Entities {
  import opened Wrappers

  datatype Element = Fire | Earth | Air | Water
  datatype Modality = Cardinal | Fixed | Mutable

  /** A body: `planet` is its stable id ('sun'), `name` its display name ('Sun'). */
  datatype Planet = Planet(
    planet: string,
    name: string,
    longitude: real,
    zodiacSignName: string,
    degree: real,
    isRetrograde: bool)

  /** One house cusp: the house number and the longitude where the house begins. */
  datatype HouseCusp = HouseCusp(house: int, longitude: real)

  /** One entry of an aspect catalog: ideal separation and the largest deviation allowed. */
  datatype AspectType = AspectType(id: string, name: string, angle: real, orb: real)

  /**
   * A detected aspect between the bodies with ids `planet1` and `planet2`.
   * `orb` is the deviation from the ideal angle before it is rounded for display;
   * `isTransitToNatal` is absent on plain detection and set by transit detection.
   */
  datatype Aspect = Aspect(
    planet1: string,
    planet2: string,
    aspect: string,
    aspectData: AspectType,
    orb: real,
    isTransitToNatal: Option<bool>)

  /** The birth data a user enters; latitude and longitude may be missing. */
  datatype BirthData = BirthData(
    name: string,
    date: string,
    time: string,
    place: string,
    latitude: Option<real>,
    longitude: Option<real>)

  /** Ascendant or midheaven. */
  datatype Point = Point(longitude: real)

  /** One row of the zodiac table. */
  datatype ZodiacSign = ZodiacSign(id: string, name: string, element: Element, startDegree: real)

  /** The chart data that the position source returns, with the birth data attached. */
  datatype ChartData = ChartData(
    birthData: Option<BirthData>,
    planets: seq<Planet>,
    houses: seq<HouseCusp>,
    aspects: seq<Aspect>,
    ascendant: Point,
    midheaven: Point,
    zodiacSigns: seq<ZodiacSign>)

  /** Transit positions and the aspects computed for them. */
  datatype TransitData = TransitData(
    date: Option<string>,
    time: Option<string>,
    planets: seq<Planet>,
    aspects: seq<Aspect>)

  /** A saved profile: birth data plus an id and time stamps, any of which may be absent. */
  datatype Profile = Profile(
    id: Option<string>,
    createdAt: Option<string>,
    updatedAt: Option<string>,
    birthData: BirthData)
}
