/**
 * The values the safe-route computation works on: coordinates, recorded
 * crimes (rows of the `crimes` table) and the routes a directions provider
 * returns (route -> legs -> steps, each step with a start and an end).
 *
 * The great-circle distance is not modelled: it is a parameter of type
 * `DistanceFn`, called as `distance(lat1, lon1, lat2, lon2)` in kilometres,
 * and "near" means strictly closer than `NEAR_KM`.
 */
module Geo {

  datatype Coordinate = Coordinate(lat: real, lng: real)

  /** One row of the crimes table. */
  datatype Crime = Crime(id: int, latitude: real, longitude: real, category: string, date: string)

  datatype Step = Step(startLocation: Coordinate, endLocation: Coordinate)

  datatype Leg = Leg(steps: seq<Step>)

  /**
   * A candidate route. `fields` stands for every other property of the
   * provider's route object; the model never reads or changes it.
   */
  datatype Route = Route(legs: seq<Leg>, fields: map<string, string>)

  /** Distance in kilometres between (lat1, lon1) and (lat2, lon2). */
  type DistanceFn = (real, real, real, real) -> real

  /** The proximity threshold in kilometres. */
  const NEAR_KM: real := 0.5

  /** The crime lies strictly within `NEAR_KM` of point `p`. */
  predicate Near(distance: DistanceFn, crime: Crime, p: Coordinate)
  {
    distance(crime.latitude, crime.longitude, p.lat, p.lng) < NEAR_KM
  }

  /** The crime is near the start or near the end of the step. */
  predicate NearStep(distance: DistanceFn, crime: Crime, step: Step)
  {
    Near(distance, crime, step.startLocation) || Near(distance, crime, step.endLocation)
  }
}
