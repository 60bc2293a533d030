# Natal chart core, modelled in Dafny

This project models the computational core of a natal-chart web application.
The application draws an astrological birth chart and writes a text analysis of it.
The model covers these parts:

- **Chart arithmetic** (`src/utils/chartUtils.js`): the orb between two
  longitudes, whether two bodies form an aspect, sign index and degree in sign,
  the house of a longitude, the midpoint, the element and modality of a sign,
  the position text, and the two aspect detectors (natal and transit).
- **Mock ephemeris** (`src/api/astronomyApi.js`): the string-hash
  pseudo-random generator, the sign lookup, the first-match aspect detector, and
  the formulas for house cusps and the retrograde flag.
- **Analysis** (`src/utils/chartAnalyzer.js`):
  - the snapshot of a chart;
  - the element and modality tallies, with the dominant, missing and
    underrepresented entries;
  - the assembled analysis and the section layout of the text export;
  - the aspect display names.
- **Application state** (`src/context/ChartContext.js`): the reducer and the
  initial state.
- **Persistence** (`src/utils/storageUtils.js`): local storage, held as a class
  whose fields the operations update; the profile list; the settings.
- **Time strings** (`src/utils/dateUtils.js`): the time validator and the
  24-hour branch of the time formatter.
- **Chart component** (`src/components/Chart/NatalChart.js`): the harmonic
  transform, the grouping of nearby bodies for drawing, the house label of the
  info panel, and the aspect list of a selected body.

Conventions:

- Longitudes are `real`.
- JavaScript's truncating `%` is written out (`JsNumbers.JsRem`, `JsNumbers.JsIntRem`).
  It is kept apart from the floor-based normal form (`JsNumbers.Normalize`), and the
  two are proved equal where the source combines them as `((x % 360) + 360) % 360`.
- The 32-bit wrap of `<<` and `&` is explicit (`JsNumbers.ToInt32`).
- A thrown TypeError is a value (`Outcome.Throws`, `ProfileLookup.Thrown`).
- JavaScript's `x || 'Unknown'` becomes `Shown<T>`.

Loops in the source are methods with loop invariants. Each is proved equal to a
specification function, and the properties are proved about that function. These
methods are:

- `ChartUtils.GetHouseNumber`, `ChartUtils.GetAllAspects`, `ChartUtils.GetTransitAspects`;
- `AstronomyApi.GetPseudoRandomDegree`, `AstronomyApi.CalculateAspects`;
- `ChartAnalyzer.TallyPlanets`;
- `NatalChart.GroupPlanets`, `NatalChart.GetHouseForDegree`.

Pure code is functions and lemmas.

The snapshot places bodies in houses with `getHouseNumber` as written. The
corrected house locator of the findings below is a separate definition; the
snapshot does not use it, so that the snapshot stays faithful to the code.

## Model

| member | source | states |
|---|---|---|
| JsNumbers.JsRem | src/utils/chartUtils.js:9 | `x % m` on degrees truncates toward zero: the result keeps the sign of `x`, its magnitude is below `m`, and it differs from `x` by whole multiples of `m` |
| JsNumbers.Normalize | src/utils/chartUtils.js:9-10 | the normalised longitude lies in [0, 360) |
| JsNumbers.NormalizeMatchesJs | src/utils/chartUtils.js:9 | the floor-based normal form equals the source's `((x % 360) + 360) % 360` for every real `x` |
| JsNumbers.NormalizeCharacterised | src/utils/chartUtils.js:43 | the normal form is the one value in [0, 360) that differs from `x` by whole turns |
| JsNumbers.NormalizePeriodic | src/utils/chartUtils.js:43 | moving a longitude by whole turns does not change its normal form |
| JsNumbers.NormalizeIdentity | src/utils/chartUtils.js:43 | a longitude already in [0, 360) is left unchanged |
| JsNumbers.JsRemNonNegative | src/api/astronomyApi.js:76 | for a non-negative dividend the truncating remainder equals the floor remainder |
| JsNumbers.JsIntRem | src/utils/chartUtils.js:137 | integer `a % d` keeps the sign of `a` and has the magnitude of `abs(a) mod abs(d)` |
| JsNumbers.ToInt32 | src/api/astronomyApi.js:67 | the 32-bit conversion lands in [-2^31, 2^31) and is congruent to its input modulo 2^32 |
| JsNumbers.ToInt32Congruent | src/api/astronomyApi.js:66-67 | the 32-bit conversion depends only on its input modulo 2^32 |
| JsNumbers.ToInt32Identity | src/api/astronomyApi.js:67 | `h & h` leaves a value that fits in 32 bits unchanged |
| JsStrings.ToLower | src/utils/chartUtils.js:186 | `toLowerCase` keeps the length and maps each character on its own |
| JsStrings.ToLowerByCharacters | src/utils/chartUtils.js:186 | the lower-case form is fixed by the lower-case forms of the characters |
| JsStrings.DecimalString | src/utils/chartUtils.js:160 | a number prints as non-empty decimal digits with no leading zero |
| JsStrings.DecimalRoundTrip | src/utils/chartUtils.js:160 | reading back the printed digits gives the number |
| ChartUtils.CalculateOrb | src/utils/chartUtils.js:7-21 | the orb lies in [0, 180] |
| ChartUtils.OrbIsShorterArc | src/utils/chartUtils.js:7-21 | the orb is the shorter of the two arcs between the normalised positions |
| ChartUtils.NormalizeDifference | src/utils/chartUtils.js:9-13 | normalising the positions before subtracting them does not change the normalised difference |
| ChartUtils.OrbSymmetric | src/utils/chartUtils.js:7-21 | the orb does not depend on the order of the two positions |
| ChartUtils.OrbPeriodic | src/utils/chartUtils.js:7-21 | the orb does not change when either position moves by whole turns |
| ChartUtils.OrbExamples | src/utils/chartUtils.js:16-18 | 0 and 10 are 10 apart; 350 and 10 are 20 apart, across 0; 0 and 190 are 170 apart; 180 and 0 are 180 apart |
| ChartUtils.IsAspect | src/utils/chartUtils.js:31-34 | two positions form an aspect exactly when their orb lies within `orb` of the angle on either side, bounds included; `orb` defaults to 8; an angle outside [-orb, 180 + orb] never matches |
| ChartUtils.IsAspectDefaultOrb | src/utils/chartUtils.js:31-34 | with the default orb, 0 and 98 form a square and 0 and 99 do not |
| ChartUtils.IsAspectSymmetric | src/utils/chartUtils.js:31-34 | whether two positions form an aspect does not depend on their order |
| ChartUtils.GetZodiacSignIndex | src/utils/chartUtils.js:41-47 | the index lies in 0..11, and its 30-degree sign holds the normalised longitude |
| ChartUtils.GetDegreeInSign | src/utils/chartUtils.js:54-60 | the degree lies in 0..29, and 30 times the sign index plus the degree is the whole part of the normalised longitude |
| ChartUtils.SignIndexPeriodic | src/utils/chartUtils.js:41-47 | longitudes a whole number of turns apart fall in the same sign |
| ChartUtils.SignIndexExamples | src/utils/chartUtils.js:41-47 | 0 and 29 are sign 0; 30 is sign 1; 359 is sign 11; 360 and 390 wrap; -30 is sign 11 |
| ChartUtils.GetElementForSign | src/utils/chartUtils.js:135-138 | an element exists exactly when the truncating `signIndex % 4` is not negative; a negative subscript reads `undefined` |
| ChartUtils.GetModalityForSign | src/utils/chartUtils.js:145-148 | a modality exists exactly when the truncating `signIndex % 3` is not negative |
| ChartUtils.ClassifiedForNonNegative | src/utils/chartUtils.js:135-148 | every non-negative sign index has an element and a modality |
| ChartUtils.ClassificationPeriodic | src/utils/chartUtils.js:135-148 | the element repeats every 4 signs and the modality every 3 |
| ChartUtils.ClassificationExamples | src/utils/chartUtils.js:135-148 | Aries is Fire and Cardinal, Taurus is Earth and Fixed, Pisces is Water and Mutable; index -1 has no element, while -4 reads Fire |
| ChartUtils.IsRetrograde | src/utils/chartUtils.js:101-103 | a body is retrograde exactly when its daily motion is negative |
| ChartUtils.IsRetrogradeExamples | src/utils/chartUtils.js:101-103 | a motion of -0.5 is retrograde; 0 and 1.2 are not |
| ChartUtils.CalculateMidpoint | src/utils/chartUtils.js:111-128 | the midpoint lies in [0, 360) |
| ChartUtils.MidpointOffset | src/utils/chartUtils.js:117-122 | the folded offset lies in [-180, 180] and equals the difference of the normalised positions up to whole turns |
| ChartUtils.MidpointFromOffset | src/utils/chartUtils.js:124-127 | the midpoint is the first position plus half the folded offset, normalised |
| ChartUtils.ShorterArcOfOffset | src/utils/chartUtils.js:16-18 | an offset in [-180, 180] has the shorter arc of its magnitude, in either direction |
| ChartUtils.OrbOfOffset | src/utils/chartUtils.js:7-21 | positions whose normalised difference is `d` in [-180, 180], up to whole turns, are `abs(d)` apart |
| ChartUtils.MidpointOnShorterArc | src/utils/chartUtils.js:111-128 | the midpoint is exactly half the orb away from each of the two positions |
| ChartUtils.MidpointSymmetric | src/utils/chartUtils.js:111-128 | exchanging the positions gives the same midpoint, opposite points included |
| ChartUtils.MidpointOfOpposites | src/utils/chartUtils.js:120-121 | for opposite points the midpoint is a quarter turn past the smaller normalised position |
| ChartUtils.MidpointExamples | src/utils/chartUtils.js:111-128 | 350 and 10 meet at 0; 0 and 10 meet at 5; 90 and 270 meet at 180 |
| ChartUtils.FirstHouseFrom | src/utils/chartUtils.js:72-91 | a found house's interval holds the longitude |
| ChartUtils.FirstHouseFromIsFirst | src/utils/chartUtils.js:72-91 | the search returns the first interval that holds the longitude, and returns none exactly when no interval does |
| ChartUtils.FirstHouseAt | src/utils/chartUtils.js:72-91 | an interval that holds the longitude, with none before it holding it, is the one found |
| ChartUtils.HouseNumberOf | src/utils/chartUtils.js:72-93 | the house of the first cusp interval that holds the longitude, or 1 when no interval holds it |
| ChartUtils.GetHouseNumber | src/utils/chartUtils.js:68-94 | the loop returns the house of the first cusp interval that holds the normalised longitude, or 1 when none does |
| ChartUtils.EqualCusps | src/utils/chartUtils.test.js:1-246 | twelve equal houses starting at 0 degrees |
| ChartUtils.EqualCuspsFollowSigns | src/utils/chartUtils.js:68-94 | with equal cusps from 0 degrees, every longitude lands in the house numbered after its sign |
| ChartUtils.EqualCuspsExamples | src/utils/chartUtils.js:68-94 | with equal cusps, 15 is in house 1, 45 in house 2 and 275 in house 10 |
| ChartUtils.RotatedCusps | src/utils/chartUtils.js:68-94 | twelve equal houses starting at any whole degree |
| ChartUtils.WrappingFirstHouse | src/utils/chartUtils.js:80-90 | with house 1 starting at 350, 355 is in house 1 and 30 in house 2; 5 is in no interval and gets house 1 only from the fallback |
| ChartUtils.WrappingLaterHouseMissed | src/utils/chartUtils.js:80-93 | when house 2 spans 0 degrees (cusps from 320), 5 degrees falls through every interval and is reported as house 1 |
| ChartUtils.FirstArcFrom | src/utils/chartUtils.js:72-91 | the corrected search, with a longitude below the start lifted by a turn, returns a house whose arc holds the longitude |
| ChartUtils.FirstArcAt | src/utils/chartUtils.js:72-91 | the corrected search returns the first arc that holds the longitude |
| ChartUtils.RotatedCuspAt | src/utils/chartUtils.js:73-77 | the cusp of house j + 1 among rotated equal houses, and that of its successor (wrapping after the twelfth) |
| ChartUtils.RotatedArcUnique | src/utils/chartUtils.js:68-94 | with equal houses starting anywhere, a longitude in [0, 360) lies on the arc of exactly one house |
| ChartUtils.HouseOnCircleOfRotated | src/utils/chartUtils.js:68-94 | the corrected locator gives the house numbered after the 30-degree step from the first cusp, for every longitude in [0, 360) |
| ChartUtils.WrappingLaterHouseFound | src/utils/chartUtils.js:80-93 | the corrected locator places 5 degrees in house 2 when house 2 spans 0 degrees |
| ChartUtils.FormatZodiacPosition | src/utils/chartUtils.js:156-161 | the text exists exactly when the sign table has an entry for the index; a shorter table throws |
| ChartUtils.FormatZodiacPositionRoundTrip | src/utils/chartUtils.js:156-161 | the text "<degree>° <sign>" parses back to the degree in the sign and the sign's name |
| ChartUtils.DigitsThenStop | src/utils/chartUtils.js:160 | a run of digits followed by a non-digit is read as exactly that many digits |
| ChartUtils.FormatZodiacPositionExamples | src/utils/chartUtils.js:156-161 | 0 is "0° Aries", 31 is "1° Taurus" and 359 is "29° Pisces" |
| ChartUtils.DetectPair | src/utils/chartUtils.js:179-191 | the innermost loop pushes one entry per matching catalog entry, in catalog order |
| ChartUtils.PairAspects | src/utils/chartUtils.js:179-191 | every entry of a pair names the pair in order, carries a catalog entry with its lower-cased name and the flag, and lies within that entry's orb |
| ChartUtils.AllAspects | src/utils/chartUtils.js:169-196 | every entry of `getAllAspects` names a body i and then a body j with i < j, carries a catalog entry with its lower-cased name, has no transit flag, and lies within the entry's orb |
| ChartUtils.GetAllAspects | src/utils/chartUtils.js:169-196 | the nested loops return the entries of the pairs i < j, pair by pair in index order |
| ChartUtils.DetectRow | src/utils/chartUtils.js:174-192 | the middle loop returns the entries of the pairs (i, j) for every j after i |
| ChartUtils.PushedEntry | src/utils/chartUtils.js:183-189 | a pushed entry names the pair in order and carries the catalog entry and its lower-cased name; it deviates from the ideal angle by at most the orb |
| ChartUtils.PairAspectsMembers | src/utils/chartUtils.js:179-191 | a pair's entries are exactly those of the matching catalog entries |
| ChartUtils.AllAspectsMembers | src/utils/chartUtils.js:169-196 | an entry is reported exactly when some pair i < j and some catalog entry match; each entry has the earlier body first, the lower-cased name and a deviation within the orb |
| ChartUtils.PairsOfAt | src/utils/chartUtils.js:173-177 | pair (i, j) of the sweep is the pair of bodies i and j |
| ChartUtils.MarkedTransitAspects | src/utils/chartUtils.js:230-233 | the aspects among the transit bodies are kept one for one, each flagged as not transit-to-natal |
| ChartUtils.MarkedEntries | src/utils/chartUtils.js:229-233 | every marked entry names two transit bodies in index order, is flagged false, and lies within its catalog entry's orb |
| ChartUtils.CrossAspects | src/utils/chartUtils.js:209-227 | every transit-to-natal entry names a transit body and then a natal body, is flagged true, and lies within its catalog entry's orb |
| ChartUtils.TransitAspects | src/utils/chartUtils.js:205-236 | every entry is flagged true or false; one flagged true names a transit body then a natal body, one flagged false two transit bodies in index order; all lie within their catalog entry's orb |
| ChartUtils.GetTransitAspects | src/utils/chartUtils.js:205-236 | the transit-to-natal entries come first, then the aspects among the transit bodies flagged false |
| ChartUtils.DetectCrossRow | src/utils/chartUtils.js:210-226 | the middle loop checks transit body i against every natal body in order |
| ChartUtils.CrossOfAt | src/utils/chartUtils.js:209-215 | pair (i, j) of the cross sweep is transit body i against natal body j |
| ChartUtils.MarkNotTransitToNatal | src/utils/chartUtils.js:231-233 | the `forEach` sets the flag to false on every aspect and changes nothing else |
| ChartUtils.TransitAspectsMembers | src/utils/chartUtils.js:209-227 | a transit-to-natal entry is present exactly for a matching (transit body, natal body, catalog entry), flagged true, transit body first |
| ChartUtils.TransitAspectsFlags | src/utils/chartUtils.js:205-236 | every returned entry is either flagged true, or flagged false and one of the aspects among the transit bodies |
| ChartUtils.PairAspectsSingle | src/utils/chartUtils.js:179-191 | when exactly one catalog entry matches, the pair yields that one entry |
| ChartUtils.PairAspectsNone | src/utils/chartUtils.js:179-191 | when no catalog entry matches, the pair yields nothing |
| ChartUtils.PairAspectsUnfolded | src/utils/chartUtils.js:179-191 | a pair's entries for catalogs of one, two and three entries, written out |
| ChartUtils.AllAspectsOfThree | src/utils/chartUtils.js:173-174 | for three bodies the pairs are (0, 1), (0, 2), (1, 2), in that order |
| ChartUtils.AllAspectsExample | src/utils/chartUtils.test.js:1-246 | Sun 0, Moon 60, Mercury 90: exactly the sun-moon sextile and the sun-mercury square are found |
| ChartUtils.TransitAspectsExample | src/utils/chartUtils.js:205-236 | a transit Sun opposite the natal Sun and a transit Moon trine the natal Sun are both flagged true; the two transit bodies form no aspect |
| AstronomyApi.SignTableStarts | src/api/astronomyApi.js:7-20 | sign i of the table starts at 30 i degrees |
| AstronomyApi.StringHash | src/api/astronomyApi.js:64-68 | the hash stays a signed 32-bit integer |
| AstronomyApi.ShiftStepIsTimes31 | src/api/astronomyApi.js:66-67 | `((h << 5) - h) + code` followed by `h & h` is `31 h + code` wrapped to 32 bits |
| AstronomyApi.PseudoRandom | src/api/astronomyApi.js:62-72 | the draw is NaN (`None`) exactly when max equals min; otherwise it lies in [min, max) for max > min |
| AstronomyApi.GetPseudoRandomDegree | src/api/astronomyApi.js:62-72 | the hashing loop computes the specified draw |
| AstronomyApi.PlanetLongitudeRange | src/api/astronomyApi.js:138 | with the default range, longitudes are whole degrees in [0, 360) |
| AstronomyApi.RetrogradeFlag | src/api/astronomyApi.js:153 | the retrograde flag is set exactly when the absolute hash ends in 8 or 9, two of the ten values, not the three the comment promises |
| AstronomyApi.FindSign | src/api/astronomyApi.js:77-80 | a found sign's 30-degree window holds the degree |
| AstronomyApi.GetZodiacSignForDegree | src/api/astronomyApi.js:75-81 | a sign is found exactly when the truncating `degree % 360` is not negative, and its 30-degree window holds that remainder |
| AstronomyApi.FindSignAt | src/api/astronomyApi.js:77-80 | where window k holds the degree, the lookup returns sign k |
| AstronomyApi.FindSignNegative | src/api/astronomyApi.js:77-80 | a negative degree lies in no window |
| AstronomyApi.SignLookupAgreesWithIndex | src/api/astronomyApi.js:75-81 | for a non-negative degree the lookup returns the sign `getZodiacSignIndex` picks; a negative truncated remainder finds nothing |
| AstronomyApi.SignLookupExamples | src/api/astronomyApi.js:75-81 | -1 has no sign; 0 is Aries; 359 is Pisces; 360 wraps to Aries |
| AstronomyApi.CuspLongitude | src/api/astronomyApi.js:162-164 | a cusp `((30 index) % 360 + variation) % 360` lies in (-360, 360) |
| AstronomyApi.LaterCuspsHaveSigns | src/api/astronomyApi.js:162-165 | the cusps of houses 2 to 12 lie in [20, 340) and have a sign |
| AstronomyApi.FirstCuspMayHaveNoSign | src/api/astronomyApi.js:162-165 | the first cusp formula gives the variation itself; for a negative variation the sign lookup finds nothing (formula taken in isolation) |
| AstronomyApi.FirstWithinOrb | src/api/astronomyApi.js:98-109 | a found catalog entry has the separation within its orb |
| AstronomyApi.FirstWithinOrbIsFirst | src/api/astronomyApi.js:98-109 | the search returns the first entry within orb, and returns none exactly when no entry is |
| AstronomyApi.FirstWithinOrbAt | src/api/astronomyApi.js:98-109 | an entry within orb, with none before it, is the one found |
| AstronomyApi.PairAspect | src/api/astronomyApi.js:93-109 | a reported aspect names the pair in order, carries a catalog entry and its id, has no transit flag, and lies within the entry's orb |
| AstronomyApi.MockAspects | src/api/astronomyApi.js:84-114 | every entry names a body i and then a body j with i < j, carries a catalog entry and its id, and lies within the entry's orb |
| AstronomyApi.CalculateAspects | src/api/astronomyApi.js:84-114 | the loops return, pair by pair i < j, the first catalog entry within orb |
| AstronomyApi.DetectFirstMatches | src/api/astronomyApi.js:88-111 | the outer loop over a given catalog gives the specified list |
| AstronomyApi.FirstMatchRow | src/api/astronomyApi.js:89-110 | the middle loop gives the reports of the pairs (i, j) for every j after i |
| AstronomyApi.MockRowExtend | src/api/astronomyApi.js:89-110 | one pass of the middle loop extends the row by that pair's report |
| AstronomyApi.MockPairsOfAt | src/api/astronomyApi.js:90-91 | pair (i, j) of the sweep is the pair of bodies i and j |
| AstronomyApi.FirstMatch | src/api/astronomyApi.js:94-109 | the separation, then the scan that stops at the first entry within orb (`break`) |
| AstronomyApi.MockAspectsMembers | src/api/astronomyApi.js:84-114 | an aspect is reported exactly when it is the first match of some pair i < j |
| AstronomyApi.CatalogWindowsDisjoint | src/api/astronomyApi.js:53-59 | no separation is within the orb of two different catalog entries |
| AstronomyApi.FirstMatchIsOnlyMatch | src/api/astronomyApi.js:107 | with disjoint windows the first match is the only match, so the "closest aspect" comment holds for this catalog |
| AstronomyApi.SeparationIsOrb | src/api/astronomyApi.js:94-95 | for longitudes in [0, 360) the separation equals `calculateOrb`, and lies in [0, 180] |
| AstronomyApi.SeparationOutsideRange | src/api/astronomyApi.js:94-95 | outside [0, 360) the two disagree: 0 and 540 give an orb of 180 but a separation of -180 |
| AstronomyApi.CatalogIdsAreLowerNames | src/api/astronomyApi.js:53-59 | each catalog id is its lower-cased name |
| AstronomyApi.LowerNameOf | src/api/astronomyApi.js:53-59 | each catalog entry's id is its lower-cased name |
| AstronomyApi.PairAgrees | src/api/astronomyApi.js:94-109 | for one pair in [0, 360), the first-match report equals the entries of the all-matches detector |
| AstronomyApi.MockAgreesWithAllAspects | src/api/astronomyApi.js:84-114 | with the mock catalog and longitudes in [0, 360), `calculateAspects` returns exactly what `getAllAspects` returns, orbs compared as exact numbers |
| AstronomyApi.MockPairsAgree | src/api/astronomyApi.js:88-111 | pair by pair, the two detectors agree for longitudes in [0, 360) |
| AstronomyApi.MockPairAgreesAt | src/api/astronomyApi.js:90-109 | the two detectors agree on one pair |
| ChartAnalyzer.ElementOf | src/utils/chartAnalyzer.js:33 | the element recorded for a body is that of the sign its longitude falls in |
| ChartAnalyzer.ModalityOf | src/utils/chartAnalyzer.js:34 | the modality recorded for a body is that of its sign |
| ChartAnalyzer.PlanetEntries | src/utils/chartAnalyzer.js:25-36 | one entry per body |
| ChartAnalyzer.FindFirst | src/utils/chartAnalyzer.js:51-52 | `find` returns the first element satisfying the test, and none exactly when no element does |
| ChartAnalyzer.CreateChartSnapshot | src/utils/chartAnalyzer.js:9-126 | `null` exactly without chart data; with dates taken as given, throws exactly when the sign table lacks the sign of a cusp, the ascendant or the midheaven |
| ChartAnalyzer.BasicInfoFallbacks | src/utils/chartAnalyzer.js:15-22 | without birth data every field is 'Unknown'; with it, a field is 'Unknown' exactly when its value is falsy, so a latitude or longitude of 0 shows as 'Unknown' |
| ChartAnalyzer.SnapshotPlanets | src/utils/chartAnalyzer.js:25-36 | one entry per body, in order, with its name; the house is the one `getHouseNumber` finds; the element and modality are those of its sign |
| ChartAnalyzer.ElementAgreesWithSignTable | src/api/astronomyApi.js:7-20 | the element computed from the sign index agrees with the element column of the sign table |
| ChartAnalyzer.SnapshotHouses | src/utils/chartAnalyzer.js:39-47 | one entry per cusp, in order, naming its sign; for a cusp in [0, 360) its degree `longitude % 30` lies in [0, 30) and is the distance from the sign's start (a negative cusp keeps a negative remainder) |
| ChartAnalyzer.NameOrIdResolves | src/utils/chartAnalyzer.js:51-56 | the first body with the id gives its name, unless that name is empty; otherwise the id is kept |
| ChartAnalyzer.SnapshotAspects | src/utils/chartAnalyzer.js:50-59 | one entry per aspect, in order, with the display name where a body has the id, and the id otherwise |
| ChartAnalyzer.TransitAspectsMembers | src/utils/chartAnalyzer.js:95-106 | the transit entries are exactly those of the aspects flagged transit-to-natal, with both names resolved |
| ChartAnalyzer.TransitAspectsConcat | src/utils/chartAnalyzer.js:95-106 | the filter keeps the original order |
| ChartAnalyzer.SnapshotTransits | src/utils/chartAnalyzer.js:76-114 | a transit part exists exactly when transit data is given; its bodies are placed in the natal houses |
| ChartAnalyzer.TallyPlanets | src/utils/chartAnalyzer.js:159-165 | after the `forEach`, each count object holds every key, with the number of bodies of that element or modality |
| ChartAnalyzer.CountsSumToPlanets | src/utils/chartAnalyzer.js:162-165 | each body is counted once: the element counts and the modality counts each sum to the number of bodies |
| ChartAnalyzer.ElementEntries | src/utils/chartAnalyzer.js:159 | `Object.entries` lists the four elements in the order Fire, Earth, Air, Water |
| ChartAnalyzer.ModalityEntries | src/utils/chartAnalyzer.js:160 | the three modalities in the order Cardinal, Fixed, Mutable |
| ChartAnalyzer.InsertByCount | src/utils/chartAnalyzer.js:168-169 | inserting keeps every entry and adds one |
| ChartAnalyzer.SortByCount | src/utils/chartAnalyzer.js:168-169 | the sort by decreasing count is a permutation |
| ChartAnalyzer.InsertByCountHead | src/utils/chartAnalyzer.js:168-169 | after an insertion the head is the old head unless the new entry's count is larger |
| ChartAnalyzer.FirstMaximumKept | src/utils/chartAnalyzer.js:168-169 | a new last entry that is not larger leaves the first maximum in place |
| ChartAnalyzer.FirstMaximumReplaced | src/utils/chartAnalyzer.js:168-169 | a new last entry that is larger becomes the first maximum |
| ChartAnalyzer.DominantIndex | src/utils/chartAnalyzer.js:168-172 | the dominant entry is the first maximum of the unsorted entries |
| ChartAnalyzer.DominantIsFirstMaximum | src/utils/chartAnalyzer.js:168-172 | the sort is stable, so the dominant entry has the largest count and ties go to the key declared first |
| ChartAnalyzer.DominantReachesThree | src/utils/chartAnalyzer.js:313-319 | the dominant count reaches 3 exactly when some count does |
| ChartAnalyzer.KeysWithCountMembers | src/utils/chartAnalyzer.js:290-296 | the listed keys are exactly those with the given count |
| ChartAnalyzer.KeysWithCountConcat | src/utils/chartAnalyzer.js:290-296 | the listed keys keep the key order |
| ChartAnalyzer.BalanceNotesMeaning | src/utils/chartAnalyzer.js:290-319 | "Missing" appears exactly when some element has 0 bodies, and lists exactly those; "Underrepresented" likewise for 1; a dominant line appears exactly when some count reaches 3, and names the first maximum |
| ChartAnalyzer.NonEmptyWhenMember | src/utils/chartAnalyzer.js:298-304 | the list of keys with a count is non-empty exactly when some key has that count |
| ChartAnalyzer.GenerateElementAnalysis | src/utils/chartAnalyzer.js:259-321 | four element counts and three modality counts, each set summing to the number of bodies; the missing, underrepresented and dominant lines appear exactly when some count is 0, 1 or at least 3 |
| ChartAnalyzer.GenerateSummary | src/utils/chartAnalyzer.js:155-184 | the dominant element is the first, in the order Fire, Earth, Air, Water, with the largest count; likewise the dominant modality |
| ChartAnalyzer.SignOfBodyFirst | src/utils/chartAnalyzer.js:177-179 | the sign shown for the Sun, Moon or Mercury is that of the first entry with the name, or 'Unknown' when there is none |
| ChartAnalyzer.GenerateChartAnalysis | src/utils/chartAnalyzer.js:134-148 | the analysis throws exactly when the snapshot does |
| ChartAnalyzer.AnalysisShape | src/utils/chartAnalyzer.js:134-148 | the error result arises exactly from missing chart data; the transit section exactly from transit data; the balance section counts the snapshot's bodies |
| ChartAnalyzer.SectionsOfHeadings | src/utils/chartAnalyzer.js:688-697 | the five core headings come first, then "Transit Analysis" exactly when there is a transit part |
| ChartAnalyzer.ExportChartAnalysisAsText | src/utils/chartAnalyzer.js:685-700 | throws exactly when the snapshot does; otherwise Summary, Planetary Positions, House Placements, Aspects, Elemental Balance, then Transit Analysis exactly with chart and transit data; without chart data the five bodies read `undefined` |
| ChartAnalyzer.FormatAspectName | src/utils/chartAnalyzer.js:362-372 | a table key gives its display name; any other string is returned unchanged |
| ChartAnalyzer.FormatAspectNameIdempotent | src/utils/chartAnalyzer.js:362-372 | formatting twice is the same as formatting once |
| ChartAnalyzer.CatalogNamesDistinct | src/utils/chartAnalyzer.js:363-369 | every aspect of the catalog has its own display name |
| ChartContext.InitialState | src/context/ChartContext.js:5-12 | the initial state has nothing entered, computed or saved, is not loading and has no error |
| ChartContext.ChartReducer | src/context/ChartContext.js:18-85 | each action writes only the fields an independent table lists for it; an unknown action returns the state unchanged; setting transit data, the loading flag or the saved profiles stores the payload |
| ChartContext.StartsComputation | src/context/ChartContext.js:20-26 | setting birth data, or loading a profile, stores the data, sets loading and clears the error |
| ChartContext.EndsComputation | src/context/ChartContext.js:27-32 | delivering a chart or an error clears loading and stores the payload |
| ChartContext.SaveFreshAppends | src/context/ChartContext.js:38-51 | saving a profile with a new id appends it |
| ChartContext.SaveExistingReplaces | src/context/ChartContext.js:38-51 | saving under an existing id replaces every profile with that id and keeps the length and every other position |
| ChartContext.SaveStores | src/context/ChartContext.js:38-51 | after a save the payload is stored, and it is the only profile with its id |
| ChartContext.SaveIdempotent | src/context/ChartContext.js:38-51 | saving the same profile twice equals saving it once |
| ChartContext.DeleteKeepsOthers | src/context/ChartContext.js:52-58 | deleting keeps exactly the profiles with another id, in order |
| ChartContext.DeleteAbsent | src/context/ChartContext.js:52-58 | deleting an id that no profile has leaves the state equal |
| ChartContext.SaveThenDeleteRestores | src/context/ChartContext.js:38-58 | saving under a fresh id and then deleting that id restores the state |
| ChartContext.SaveExistingThenDelete | src/context/ChartContext.js:38-58 | after a save under an existing id, a delete removes the same profiles as a delete alone |
| ProfileLists.WithoutId | src/context/ChartContext.js:55-57 | the filter keeps only profiles with another id, and never grows the list |
| ProfileLists.ReplaceId | src/context/ChartContext.js:47-49 | the map keeps the length |
| ProfileLists.FirstIndexOf | src/utils/storageUtils.js:77 | `findIndex` returns the first profile with the id, or none exactly when no profile has it |
| ProfileLists.WithoutIdMembers | src/utils/storageUtils.js:127 | the filter keeps exactly the profiles whose id differs |
| ProfileLists.WithoutIdConcat | src/utils/storageUtils.js:127 | the filter keeps the order |
| ProfileLists.WithoutAbsentId | src/utils/storageUtils.js:127 | filtering out an absent id leaves the list equal |
| ProfileLists.WithoutIdShrinks | src/utils/storageUtils.js:127-132 | the list shrinks exactly when some profile has the id, which is what the length test of `deleteProfile` detects |
| ProfileLists.WithoutReplacedId | src/context/ChartContext.js:47-57 | replacing the profiles with an id and then filtering that id out equals filtering alone |
| ProfileLists.ReplaceIdIdempotent | src/context/ChartContext.js:47-49 | replacing a second time with the same profile changes nothing |
| StorageUtils.LocalStorage.constructor | src/utils/storageUtils.js:10 | the store starts with the given items and failure mode |
| StorageUtils.GetFromLocalStorage | src/utils/storageUtils.js:24-35 | a stored value that parses is returned; the default exactly when the key is absent, the text does not parse, or the store throws |
| StorageUtils.SaveToLocalStorage | src/utils/storageUtils.js:7-16 | returns true with the key written (a later read returns the data), or false with nothing written when the store throws |
| StorageUtils.RemoveFromLocalStorage | src/utils/storageUtils.js:42-50 | returns true with the key gone (a later read returns the default), or false with nothing changed |
| StorageUtils.ClearLocalStorage | src/utils/storageUtils.js:56-64 | returns true with every key gone, or false with nothing changed |
| StorageUtils.OrElse | src/utils/storageUtils.js:86-87 | `a \|\| b` keeps a non-empty string and otherwise gives `b` |
| StorageUtils.SavedList | src/utils/storageUtils.js:77-91 | the list written back has the same length, or one more |
| StorageUtils.GetAllProfiles | src/utils/storageUtils.js:105-107 | the value stored under the profiles key when it parses, otherwise the empty list |
| StorageUtils.SaveProfile | src/utils/storageUtils.js:71-99 | succeeds exactly when the store works and holds a list; the written list is the saved list; on failure nothing changes |
| StorageUtils.GetProfileById | src/utils/storageUtils.js:114-117 | the first stored profile with the id; `null` exactly when none has it; throws when the stored value is not a list |
| StorageUtils.DeleteProfile | src/utils/storageUtils.js:124-139 | returns true exactly when some stored profile has the id, and then writes the list without it, so a later lookup finds nothing; otherwise nothing changes |
| StorageUtils.GetSettings | src/utils/storageUtils.js:172-174 | the value stored under the settings key when it parses, otherwise the default |
| StorageUtils.SaveExistingOverwritesFirst | src/utils/storageUtils.js:79-81 | saving under a stored id overwrites only the first profile with it; the update time is whatever the caller passed |
| StorageUtils.SaveFreshAppends | src/utils/storageUtils.js:82-91 | saving under a new id appends one profile; it keeps a truthy id and creation time and takes generated ones otherwise; the update time is now |
| StorageUtils.IdlessMatchesIdless | src/utils/storageUtils.js:77-81 | a profile without an id overwrites the first stored profile without an id |
| StorageUtils.SavedProfileIsFound | src/utils/storageUtils.js:71-117 | after a save, looking up the saved id finds the saved record, provided a generated id does not collide |
| StorageUtils.FirstIndexAt | src/utils/storageUtils.js:77 | `findIndex` finds a matching profile that has no match before it |
| StorageUtils.SaveIdlessTwiceDuplicates | src/utils/storageUtils.js:77-91 | saving a profile without an id twice, when no stored profile lacks an id, stores two copies |
| DateUtils.IsValidTime | src/utils/dateUtils.js:113-123 | an accepted time has a colon, digits for an hour of at most 23 before it, and two digits for minutes of at most 59 after it |
| DateUtils.Valid24Meaning | src/utils/dateUtils.js:117 | an accepted 24-hour time has an hour of at most 23 and minutes of at most 59 |
| DateUtils.Valid12Meaning | src/utils/dateUtils.js:120 | an accepted 12-hour time has an hour in 1..12, two-digit minutes up to 59, then the meridiem |
| DateUtils.ShortDecimalValue | src/utils/dateUtils.js:117-120 | the value of a one- or two-digit string |
| DateUtils.TwoDigits | src/utils/dateUtils.js:117 | a number below 100 written as two digits reads back as itself |
| DateUtils.Every24HourTimeValid | src/utils/dateUtils.js:113-123 | every 24-hour reading is accepted, with one or two hour digits |
| DateUtils.Every12HourTimeValid | src/utils/dateUtils.js:113-123 | every 12-hour reading is accepted, with or without a space before the meridiem |
| DateUtils.RejectedTimes | src/utils/dateUtils.test.js:1-205 | a missing or empty time, "25:00", "14:60", "14:30 XM" and "2:30 Am" are rejected |
| DateUtils.AcceptedTimes | src/utils/dateUtils.test.js:1-205 | "00:00", "14:30", "23:59", "12:00 PM", "2:30 AM" and "11:59 pm" are accepted |
| DateUtils.BeforeColon | src/utils/dateUtils.js:38 | the first field of `split(':')` is a colon-free prefix |
| DateUtils.SplitRoundTrip | src/utils/dateUtils.js:38 | the first field, the colon and the rest give back the text |
| DateUtils.SplitAt | src/utils/dateUtils.js:38 | a first colon at k splits the text there |
| DateUtils.BeforeColonOfPrefix | src/utils/dateUtils.js:38 | the first field of a text whose first n characters hold no colon |
| DateUtils.PadStart2 | src/utils/dateUtils.js:39 | `padStart(2, '0')` keeps text of two or more characters and pads shorter text to width 2 |
| DateUtils.PaddedShape | src/utils/dateUtils.js:39 | padding puts only zeros in front of the text |
| DateUtils.IncludesPair | src/utils/dateUtils.js:31 | `toLowerCase().includes('am')` holds exactly when two neighbouring characters lower-case to 'a' and 'm' |
| DateUtils.PairInPart | src/utils/dateUtils.js:39 | a pair in a piece of the text is a pair in the whole text |
| DateUtils.PairInPadded | src/utils/dateUtils.js:39 | zero padding creates no pair that starts with a letter |
| DateUtils.PairAcrossColon | src/utils/dateUtils.js:39 | joining with a colon creates no pair of letters |
| DateUtils.FormatTime | src/utils/dateUtils.js:23-47 | empty for a missing or empty time; 12-hour input is marked as not modelled; colon-free text is returned unchanged |
| DateUtils.FormatTimeFields | src/utils/dateUtils.js:37-40 | with a colon, the result is the first two fields, each padded to width 2, joined by one colon |
| DateUtils.FormatTimeStaysTwentyFourHour | src/utils/dateUtils.js:31-40 | a result never takes the 12-hour branch when formatted again |
| DateUtils.FieldsKeepNoPair | src/utils/dateUtils.js:37-40 | padding and joining the fields creates no pair of letters the input lacks |
| DateUtils.PaddedJoinPairs | src/utils/dateUtils.js:39 | a pair in the padded, joined fields is a pair in one of the fields |
| DateUtils.FieldPairs | src/utils/dateUtils.js:38 | a pair in one of the first two fields is a pair in the text |
| DateUtils.FormatTimeIdempotent | src/utils/dateUtils.js:23-47 | formatting twice is formatting once, for every input outside the 12-hour branch |
| DateUtils.NoMeridiemIn24 | src/utils/dateUtils.js:31 | an accepted 24-hour time never takes the 12-hour branch |
| DateUtils.FormatTimeKeeps24Hour | src/utils/dateUtils.js:23-47 | an accepted 24-hour time comes out as HH:mm, stays valid, and gains a leading zero only for a one-digit hour |
| NatalChart.DisplayPlanets | src/components/Chart/NatalChart.js:119-125 | same bodies in the same order, only longitudes changed; unchanged unless in harmonic mode with a number above 1 |
| NatalChart.HarmonicLongitude | src/components/Chart/NatalChart.js:123 | a harmonic longitude lies in (-360, 360), and equals the normal form of the multiplied longitude when that is not negative |
| NatalChart.HarmonicRange | src/components/Chart/NatalChart.js:120-124 | a harmonic longitude of a non-negative longitude lies in [0, 360) |
| NatalChart.HarmonicFoldsMultiples | src/components/Chart/NatalChart.js:123 | longitudes a multiple of 360/n apart coincide in the harmonic chart of number n |
| NatalChart.HandleHarmonicChange | src/components/Chart/NatalChart.js:574-579 | the parsed input becomes the harmonic number exactly when it lies in 1..12; otherwise the number is kept |
| NatalChart.HarmonicNumberStaysInRange | src/components/Chart/NatalChart.js:574-579 | starting in 1..12, the harmonic number stays in 1..12 whatever is typed |
| NatalChart.InsertByLongitude | src/components/Chart/NatalChart.js:318 | inserting keeps every body and adds one |
| NatalChart.SortByLongitude | src/components/Chart/NatalChart.js:318 | the sort is a permutation |
| NatalChart.InsertBelow | src/components/Chart/NatalChart.js:318 | inserting a body keeps every longitude under an upper bound that the new body also respects |
| NatalChart.InsertKeepsSorted | src/components/Chart/NatalChart.js:318 | inserting into a sorted list keeps it sorted |
| NatalChart.SortByLongitudeSorted | src/components/Chart/NatalChart.js:318 | the sorted list is ordered by longitude and holds the same bodies |
| NatalChart.FirstAccepting | src/components/Chart/NatalChart.js:328-341 | a found group's first member is within 8 degrees of the body, along the shorter arc |
| NatalChart.FirstAcceptingIsFirst | src/components/Chart/NatalChart.js:328-341 | the scan stops at the first accepting group, and finds none exactly when no group accepts |
| NatalChart.PlaceInGroups | src/components/Chart/NatalChart.js:325-345 | the inner loop with `break` appends to the first accepting group, or opens a new group |
| NatalChart.GroupPlanets | src/components/Chart/NatalChart.js:318-346 | sorting and then the outer loop give the specified grouping |
| NatalChart.PlaceKeepsWellFormed | src/components/Chart/NatalChart.js:336-345 | placing a body keeps every group non-empty and every member close to its group's first member; no two first members are close |
| NatalChart.GroupsWellFormed | src/components/Chart/NatalChart.js:318-346 | every grouping is well formed in that sense |
| NatalChart.FlattenAppend | src/components/Chart/NatalChart.js:337 | pushing onto one group adds exactly that body to the groups |
| NatalChart.GroupsPermute | src/components/Chart/NatalChart.js:318-346 | every body is drawn exactly once: the groups hold the input bodies as a multiset |
| NatalChart.InFlatten | src/components/Chart/NatalChart.js:318-346 | every grouped body is in some group |
| NatalChart.InFlattenConverse | src/components/Chart/NatalChart.js:318-346 | every member of a group is among the grouped bodies |
| NatalChart.GroupMembersFromInput | src/components/Chart/NatalChart.js:318-346 | every member of every group is an input body |
| NatalChart.GroupsOfSortedAreSorted | src/components/Chart/NatalChart.js:318-346 | with the input sorted, each group is sorted, so its first member has the smallest longitude |
| NatalChart.AppendLargest | src/components/Chart/NatalChart.js:318 | appending a body no smaller than every member keeps the list sorted |
| NatalChart.GetHouseForDegree | src/components/Chart/NatalChart.js:536-561 | the loop's label is the house of the first interval holding the raw degree; '?' exactly when there are no houses or no interval holds it |
| NatalChart.HouseLabelAgreesWithHouseNumber | src/components/Chart/NatalChart.js:536-561 | for a degree in [0, 360) the panel agrees with `getHouseNumber`, except that the fallback house 1 shows as '?' |
| NatalChart.HouseLabelDoesNotNormalise | src/components/Chart/NatalChart.js:550-555 | 400 degrees shows as '?' with equal cusps, while `getHouseNumber` gives house 2 |
| NatalChart.SelectedAspects | src/components/Chart/NatalChart.js:669-672 | the list is never longer than the aspects, and is as long exactly when every aspect involves the key |
| NatalChart.SelectedAspectsMembers | src/components/Chart/NatalChart.js:669-672 | the list holds exactly the rows of the aspects that involve the key, each naming the other body |
| NatalChart.SelectedAspectsConcat | src/components/Chart/NatalChart.js:669-672 | the filter keeps the order |
| NatalChart.NoneInvolved | src/components/Chart/NatalChart.js:669-670 | when no aspect involves the key, the list is empty |
| NatalChart.SelectedByNameFindsNothing | src/components/Chart/NatalChart.js:669-670 | filtering by display name, as written, lists nothing whenever no body id equals that name |
| NatalChart.SunMoonExample | src/components/Chart/NatalChart.js:669-672 | Sun at 10 and Moon at 12 form one conjunction; selected by the name 'Sun' the list is empty; by the id 'sun' it lists the Moon |
| NatalChart.SelectedByIdListsAll | src/components/Chart/NatalChart.js:669-672 | filtered by id, the list contains every aspect the detector found for the body, seen from either side |

## Left out

- The prose of the analysis (the description tables, `generatePlanetaryAnalysis`,
  `generateHouseAnalysis`, `generateAspectAnalysis`, `generateTransitAnalysis`, the
  text of `generateSummary` and `generateElementAnalysis`) is not modelled. Each section
  is the structured data it is written from (`ChartAnalyzer.Body`), and the export
  is its sequence of headed sections; joining them into one string is not modelled.
- `toFixed`, `Math.round` and the percentages: orbs and degrees are kept as exact
  numbers. The mock API stores `degree` as a string from `toFixed(2)`, on which
  `createChartSnapshot`'s `degree.toFixed(1)` would throw; the model takes numeric degrees.
  Likewise both detectors store `orb` as a string from `toFixed` (`src/utils/chartUtils.js:188`,
  `src/api/astronomyApi.js:104`), and the chart panel calls `aspect.orb.toFixed(1)`
  (`src/components/Chart/NatalChart.js:679`) and `degree.toFixed(2)` (`:653`) on them, which
  would throw; `NatalChart.SelectedByIdListsAll` lists rows whose display would then fail.
- `AstronomyApi.StringHash`, `AstronomyApi.GetPseudoRandomDegree` and `DateUtils.PadStart2`:
  strings are sequences of Unicode code points, while `charCodeAt` and `padStart` count
  UTF-16 code units; a seed or a time field holding a character outside the Basic
  Multilingual Plane gives a different hash and a different padding length in the source.
- `new Date(...).toISOString()`, `toTimeString()`, `Date.now()` and the snapshot's
  `timestamp`: dates are passed as strings, and the clock readings of `saveProfile` are
  parameters (`now`, `freshId`). A transit part without a date or time would read the
  clock; the model keeps the date and time as given (`Option<string>`).
- `JSON.stringify` and `JSON.parse`: a stored value is either a parsed `Value` or text
  that does not parse (`Stored.Corrupt`); a store whose every access throws is the
  `failing` flag.
- The 12-hour branch of `formatTime`, which parses and formats with a date library:
  `DateUtils.FormatTime` returns `None` for it.
- `formatDate`, `combineDateAndTime`, `formatDateTimeForDisplay`, `isValidDate`,
  `getCurrentDateTime`, `parseDate`, `saveLastBirthData`, `getLastBirthData` and
  `saveSettings`: date-library and clock wrappers, or one-line calls to the save and
  get operations that are modelled.
- `fetchPlanetaryPositions`: both `map` callbacks build their seed from
  `longitude.toFixed(2)` (`src/api/astronomyApi.js:137` and `:160`) while their own
  `const longitude` (`:138` and `:164`) is not yet initialised, so every call throws a
  ReferenceError inside its timer and the promise never settles. The draw, cusp,
  retrograde and sign formulas of those callbacks are modelled in isolation, as the
  callbacks would compute them if the seed read the outer `longitude` parameter.
- `fetchPlanetaryPositions` and `geocodeAddress`: timers and promises. Their arithmetic is
  modelled: the seeds' hash, the longitude draw, the cusp formula, the retrograde draw
  and the sign lookup. Building the seed strings from `toFixed(2)` is not.
- The drawing itself (D3 calls, radii, tooltips, colours) and the React state hooks of
  the chart component: only the computations named above are modelled.
- `NatalChart.GroupPlanets`: the groups are values; aliasing and the in-place `push`
  onto an array shared with `planetGroups` are not modelled.
- `JsStrings.ToLower`: lower-cases the ASCII letters only; the identifiers and names it
  meets are ASCII.
- `ChartAnalyzer.FormatAspectName`: a key inherited from `Object.prototype` (such as
  "constructor") is not modelled; only the table's own keys are looked up.
- `ChartAnalyzer.CreateChartSnapshot`: a birth date that does not parse makes
  `toISOString` throw a RangeError (`src/utils/chartAnalyzer.js:17`); dates are taken as
  given text, so the model does not throw for them.
- `ChartAnalyzer.CreateChartSnapshot`: a chart that lacks the `planets`, `houses` or
  `aspects` arrays, or whose ascendant is missing, is not modelled; those fields are
  always present in `Entities.ChartData`.
- `StorageUtils.SaveProfile`: `createdAt` and `updatedAt` of a new profile read the clock
  twice (`src/utils/storageUtils.js:87-88`); the model takes both from one reading, `now`.
- `StorageUtils.SaveProfile`: a stored value that is not a list makes `findIndex`
  throw and the call return false; the model keeps that case but does not model other
  shapes, such as a list holding non-profiles.
- The ChartProvider's effects, which load the saved profiles from local storage and
  fetch charts, are not modelled; the reducer is.

## Findings

| source | as written | input that shows it | evidently intended | confidence | as-written member | corrected member |
|---|---|---|---|---|---|---|
| src/components/Chart/NatalChart.js:669-672 | the selected body's aspect list filters `aspect.planet1 === selectedElement.name`, but the detector stores body ids ('sun'), not names ('Sun') | Sun (id 'sun', name 'Sun') at 10 and Moon at 12: one conjunction is found, and the list for the selected Sun is empty | compare with the body's id, `selectedElement.planet`, so that the list shows every aspect of the body; the rows it then shows still pass their orb, a string from `toFixed` (chartUtils.js:188, astronomyApi.js:104), to `aspect.orb.toFixed(1)` at NatalChart.js:679, which would throw, so a working panel also needs numeric orbs (orbs are exact numbers in this model) | high (not executed) | NatalChart.SelectedByNameFindsNothing, NatalChart.SunMoonExample | NatalChart.SelectedByIdListsAll |
| src/utils/chartUtils.js:80-90 | after `end += 360`, the test `start > end` can never hold, so a longitude below the start is never lifted; a longitude just past 0 degrees in a house that spans 0 degrees is found only when that house is house 1, through the fallback | equal houses from 320 degrees, with house 2 spanning 350 to 20: longitude 5 is reported as house 1 | lift a longitude below the start by a turn, so that the house that spans 0 degrees is found | high (not executed) | ChartUtils.WrappingLaterHouseMissed | ChartUtils.HouseOnCircleOfRotated, ChartUtils.WrappingLaterHouseFound |
