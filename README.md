# Safe-route selection, modelled in Dafny

NavigateHer's backend answers `GET /api/crimes/safe-route?origin=…&destination=…`.
It resolves the two inputs to coordinates. A text with a comma is taken as a literal
"lat,lng"; any other text is geocoded. It then asks a directions service for candidate
routes and reads every row of the `crimes` table. Each route's crime count is the number
of (step, crime) pairs where the crime lies strictly within 0.5 km of the step's start or
end. The handler answers with the first route whose count is minimal.

The model keeps the handler's own shape:

- `Text`: JavaScript's `split` on one character, with its inverse `join`.
- `Geo`: coordinates, crime rows and routes (legs of steps). The distance is a parameter
  `distance(lat1, lon1, lat2, lon2)`; "near" means `distance < NEAR_KM` (0.5).
- `Scoring`: `RouteScore` is the recursive specification of a route's count.
  `CountCrimesNearRoute` is the nested leg/step/crime loop with its `crimeCount`
  accumulator, proved equal to `RouteScore`. The lemmas show the count is the number of
  near (step, crime) pairs, bound it, and say what one more crime adds.
- `Selection`: the route loop that scores each route and keeps it under a strict `<`.
  The best so far starts as `None`, which stands for the initial `null` route with an
  `Infinity` count. The loop is proved to return the first minimum (`FirstMinIndex`).
- `Coordinates`: resolution of one query text, either the literal comma path or the
  geocoder's first match.
- `SafeRoute`: the request outcomes. `SafeRouteResponse` gives the response and
  `HandleSafeRoute` is the step-by-step handler proved equal to it. The lemmas cover
  400, 404, 500 and 200.

The geocoding service, the directions service, the crimes-table read and the distance
function are inputs, collected in `SafeRoute.Services`. "Consults nothing" is stated as
independence: the response is the same whatever the unconsulted collaborator answers.

Behaviour of the code that the model keeps:

- Any text containing a comma takes the literal path (`backend/routes/crimeRoutes.js:56-62`).
  The first two comma-separated pieces are used and the rest are ignored.
- A parameter counts as missing when it is absent or empty (`!origin` at line 41).
- The crimes table is read after the 404 check (line 74 comes before lines 80-85).

## Model

| member | source | states |
|---|---|---|
| `Text.Split` | backend/routes/crimeRoutes.js:57 | Splitting on `,` gives at least one piece and no piece contains `,`. Joining the pieces with `,` gives back the input. There is more than one piece exactly when the input contains `,`. |
| `Text.SplitJoin` | backend/routes/crimeRoutes.js:57 | Splitting the join of comma-free pieces gives the same pieces back, so split and join are inverses. |
| `Text.SplitFirst` | backend/routes/crimeRoutes.js:57 | The first piece is the text before the first comma (`split(',')[0]`). |
| `Text.SplitSecond` | backend/routes/crimeRoutes.js:57 | The second piece is the text between the first comma and the next comma, or the end (`split(',')[1]`). |
| `Coordinates.Geocode` | backend/routes/crimeRoutes.js:46-54 | The `geocode` helper. A success is one of the geocoder's matches (its first, by `AddressUsesFirstMatch`). Zero matches is `AddressNotFound` and a failed call is `GeocoderFailed`, each exactly in that case. |
| `Coordinates.Resolve` | backend/routes/crimeRoutes.js:56-62 | The literal-or-geocode choice. The result is a literal pair exactly when the text contains a comma. A geocoded result is one of the geocoder's matches for that text. `LiteralBypassesGeocoder` and `AddressUsesFirstMatch` pin down both paths. |
| `Coordinates.LiteralBypassesGeocoder` | backend/routes/crimeRoutes.js:56-62 | A text containing a comma resolves to the literal pair (text before the first comma, text between the first and second comma). This holds for every geocoder, so no geocoding is involved. |
| `Coordinates.LiteralExample` | backend/routes/crimeRoutes.js:56-57 | `"1.0,1.0"` resolves to the literal pair ("1.0", "1.0") whatever the geocoder. |
| `Coordinates.AddressUsesFirstMatch` | backend/routes/crimeRoutes.js:46-54 | A comma-free text resolves exactly when the geocoder returns at least one match, and then to the first match. Zero matches gives `AddressNotFound`. |
| `Coordinates.ResolveConsultsOnlyInput` | backend/routes/crimeRoutes.js:56-62 | Two geocoders that agree on the input give the same resolution, and any two do when the input has a comma. The geocoder is asked only about that one comma-free text. |
| `Geo.NearStep` | backend/routes/crimeRoutes.js:96-99 | A crime is near a step when its distance to the start or to the end is strictly under 0.5 km. What this predicate means for the count is stated by `CountCrimesNearRoute`, `NearBothEndsCountsOnce` and `RouteScoreIsPairCount`. |
| `Scoring.CountCrimesNearRoute` | backend/routes/crimeRoutes.js:89-104 | The nested loop over legs, steps and crimes ends with `crimeCount == RouteScore(route, crimes, distance)`. It adds one per (step, crime) pair where the start or end distance is under 0.5 km. |
| `Scoring.LegsScoreFlat` | backend/routes/crimeRoutes.js:91-92 | Summing leg by leg equals summing over all the route's steps in path order. |
| `Scoring.RouteScoreIsPairCount` | backend/routes/crimeRoutes.js:89-102 | A route's count is the number of (step position, crime position) pairs, over all steps of all legs, where the crime is near the step's start or end. |
| `Scoring.NearBothEndsCountsOnce` | backend/routes/crimeRoutes.js:96-100 | A crime near both ends of the same step adds exactly 1 for that step, not 2. |
| `Scoring.RouteCrimeContribution` | backend/routes/crimeRoutes.js:91-101 | One more crime raises a route's count by the number of the route's steps it is near, counted by position. Crimes are not deduplicated across steps. |
| `Scoring.CrimeNearTwoStepsCountsTwice` | backend/routes/crimeRoutes.js:91-101 | A crime near exactly two distinct steps of a route adds 2 to its count. |
| `Scoring.RouteScoreBound` | backend/routes/crimeRoutes.js:88-102 | A route's count is at most (total steps over its legs) x (number of crimes). |
| `Scoring.NoCrimesScoreZero` | backend/routes/crimeRoutes.js:89-102 | With no crimes, every route's count is 0. |
| `Selection.FirstMinIndex` | backend/routes/crimeRoutes.js:106-109 | The chosen position holds a score no larger than any other, and every earlier score is strictly larger. |
| `Selection.FirstMinUnique` | backend/routes/crimeRoutes.js:106-109 | Only one position can be the first minimum, so the selection policy fixes the winner. |
| `Selection.SelectSafestRoute` | backend/routes/crimeRoutes.js:76-110 | The strict-`<` scan starting from "no route / infinite count" returns nothing exactly when there are no routes. Otherwise it returns the route at `FirstMinIndex` of the scores, unchanged, with its count. |
| `Selection.EqualScoresPickFirst` | backend/routes/crimeRoutes.js:106-109 | When all scores are equal, the first route wins: a later equal count never replaces an earlier one. |
| `Selection.NoCrimesPicksFirstRoute` | backend/routes/crimeRoutes.js:88-110 | With an empty crimes table, every score is 0 and the first route in provider order is selected. |
| `Selection.SelectionExamples` | backend/routes/crimeRoutes.js:106-109 | Scores [3, 1, 2] select position 1, and scores [2, 2, 5] select position 0. |
| `SafeRoute.SafeRouteResponse` | backend/routes/crimeRoutes.js:36-116 | The handler's outcome. The status is one of 200, 400, 404 and 500, and it is 200 exactly when the body carries a route. The lemmas below state when each status occurs. |
| `SafeRoute.HandleSafeRoute` | backend/routes/crimeRoutes.js:36-116 | The handler's validate / resolve / directions / 404 / read / score-and-select sequence returns exactly `SafeRouteResponse(query, env)`. |
| `SafeRoute.MissingParameterIs400` | backend/routes/crimeRoutes.js:41-43 | The status is 400 exactly when origin or destination is absent or empty. |
| `SafeRoute.MissingParameterConsultsNothing` | backend/routes/crimeRoutes.js:41-43 | With a parameter missing, the response does not depend on the geocoder, the directions service, the crimes table or the distance. |
| `SafeRoute.GeocoderOnlyForAddresses` | backend/routes/crimeRoutes.js:56-62 | Replacing the geocoder with one that agrees on the comma-free inputs leaves the response unchanged. Literal inputs are never geocoded. |
| `SafeRoute.AddressNotFoundIs500` | backend/routes/crimeRoutes.js:50-52 | A comma-free origin or destination with zero geocoding matches throws, and the response is 500 "Failed to compute safe route". |
| `SafeRoute.NoRoutesIs404` | backend/routes/crimeRoutes.js:73-74 | The status is 404 exactly when both parameters are present, both resolve and the directions service returns an empty route list. |
| `SafeRoute.NoRoutesReadsNoCrimes` | backend/routes/crimeRoutes.js:73-85 | A 404 response does not depend on the crimes table or the distance, so it is decided before the table is read. |
| `SafeRoute.FailureIs500` | backend/routes/crimeRoutes.js:113-115 | The status is 500 exactly when, with both parameters present, resolution or the directions call fails, or there are routes and the crimes read fails. |
| `SafeRoute.SuccessIsSafestRoute` | backend/routes/crimeRoutes.js:106-112 | A 200 carries one of the candidate routes, unchanged, with its own count. That count is at most every candidate's count, and every earlier candidate's count is strictly larger. |
| `SafeRoute.NoCrimesReturnsFirstRoute` | backend/routes/crimeRoutes.js:80-112 | With an empty crimes table, a request with routes gets 200 with the first route and count 0. |

## Left out

- `getDistance` (backend/routes/crimeRoutes.js:120-127): the haversine formula is floating-point trigonometry. It is the `distance` parameter, and NaN distances are not represented.
- `parseFloat` (lines 57 and 61): the literal path keeps the latitude and longitude texts unparsed, so NaN coordinates from malformed literals are not modelled.
- The Google geocoding and directions HTTP calls (lines 46-49 and 65-71), the API key and the `lat,lng` text sent to the directions service. These are the `geocoder` and `directions` inputs. Directions receive the resolved endpoints directly.
- A directions answer without a `routes` field, or route objects without `legs`, `steps` or locations, would throw and give 500. The model takes the provider's routes as well-formed and folds a missing route list into `DirectionsFailed`.
- Route legs and steps keep only the steps and the two step locations. Their other provider properties (distance, duration, polyline, instructions) are not represented, so "returned unchanged" holds for that projection plus `Route.fields`.
- SQLite access (`db.all` at lines 25 and 81, `db.run` at line 11) and the `/add` and `/fetch` handlers (lines 7-33): plain persistence. The crimes read is the `crimeTable` input.
- Server bootstrap in `backend/index.js` and `index.js` (dotenv, CORS, schema creation, `app.listen`): no algorithmic content.
- Async sequencing, `console.error` logging and Express response plumbing. A repeated query parameter, which Express turns into an array, is not modelled.
- Counts are unbounded naturals. JavaScript numbers are exact well beyond any realistic count.
