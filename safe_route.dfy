/**
 * The `GET /safe-route` request handler. Its collaborators are inputs: the
 * geocoding service, the directions service (answering for a resolved origin
 * and destination), the one read of the crimes table and the distance
 * function. The outcomes are 400 for a missing parameter, 500 for any failure
 * of a collaborator (including an address with no match), 404 when the
 * directions service offers no route, and 200 with the safest route and its
 * crime count.
 */
module SafeRoute {
  import opened Wrappers
  import opened Geo
  import opened Scoring
  import opened Selection
  import opened Coordinates

  /** The two query parameters; `None` when absent. */
  datatype Query = Query(origin: Option<string>, destination: Option<string>)

  /** What the directions service answers: a failure, or its routes in provider order. */
  datatype DirectionsReply = DirectionsFailed | DirectionsRoutes(routes: seq<Route>)

  /** The outcome of reading every row of the crimes table. */
  datatype CrimeRead = CrimeReadFailed | CrimeRows(rows: seq<Crime>)

  datatype Services = Services(
    geocoder: Geocoder,
    directions: (Endpoint, Endpoint) -> DirectionsReply,
    crimeTable: CrimeRead,
    distance: DistanceFn)

  datatype Body = ErrorBody(error: string) | SafeRouteBody(safestRoute: Route, crimeCount: nat)

  datatype Response = Response(status: nat, body: Body)

  const MISSING_PARAMETERS := "Origin and destination are required"
  const NO_ROUTES := "No routes found"
  const FAILED := "Failed to compute safe route"

  /** A parameter that is absent or empty (both are falsy in the handler's test). */
  predicate Missing(param: Option<string>)
  {
    param.None? || param.value == ""
  }

  /** Both texts resolved and the directions service asked; `None` when any of the three fails. */
  function CandidateRoutes(origin: string, destination: string, env: Services): Option<seq<Route>>
  {
    match Resolve(origin, env.geocoder)
    case Failure(_) => None
    case Success(from) =>
      match Resolve(destination, env.geocoder)
      case Failure(_) => None
      case Success(to) =>
        match env.directions(from, to)
        case DirectionsFailed => None
        case DirectionsRoutes(routes) => Some(routes)
  }

  /** The response the handler sends for `query`. */
  function SafeRouteResponse(query: Query, env: Services): (r: Response)
    ensures r.status in {200, 400, 404, 500}
    ensures r.status == 200 <==> r.body.SafeRouteBody?
  {
    if Missing(query.origin) || Missing(query.destination) then
      Response(400, ErrorBody(MISSING_PARAMETERS))
    else
      match CandidateRoutes(query.origin.value, query.destination.value, env)
      case None => Response(500, ErrorBody(FAILED))
      case Some(routes) =>
        if |routes| == 0 then Response(404, ErrorBody(NO_ROUTES))
        else
          match env.crimeTable
          case CrimeReadFailed => Response(500, ErrorBody(FAILED))
          case CrimeRows(crimes) =>
            var k := FirstMinIndex(Scores(routes, crimes, env.distance));
            Response(200, SafeRouteBody(routes[k], RouteScore(routes[k], crimes, env.distance)))
  }

  /**
   * The handler, step by step: validate, resolve the origin then the
   * destination, fetch the routes, stop with 404 when there are none, read
   * the crimes, then score and select in one pass over the routes.
   */
  method HandleSafeRoute(query: Query, env: Services) returns (response: Response)
    ensures response == SafeRouteResponse(query, env)
  {
    if Missing(query.origin) || Missing(query.destination) {
      return Response(400, ErrorBody(MISSING_PARAMETERS));
    }
    var originCoords := Resolve(query.origin.value, env.geocoder);
    if originCoords.Failure? {
      return Response(500, ErrorBody(FAILED));
    }
    var destinationCoords := Resolve(query.destination.value, env.geocoder);
    if destinationCoords.Failure? {
      return Response(500, ErrorBody(FAILED));
    }
    var directionsResponse := env.directions(originCoords.value, destinationCoords.value);
    if directionsResponse.DirectionsFailed? {
      return Response(500, ErrorBody(FAILED));
    }
    var routes := directionsResponse.routes;
    if |routes| == 0 {
      return Response(404, ErrorBody(NO_ROUTES));
    }
    if env.crimeTable.CrimeReadFailed? {
      return Response(500, ErrorBody(FAILED));
    }
    var crimes := env.crimeTable.rows;
    var safest := SelectSafestRoute(routes, crimes, env.distance);
    response := Response(200, SafeRouteBody(safest.value.route, safest.value.crimeCount));
  }

  /** The response is 400 exactly when a parameter is missing. */
  lemma MissingParameterIs400(query: Query, env: Services)
    ensures SafeRouteResponse(query, env).status == 400 <==> Missing(query.origin) || Missing(query.destination)
  {
  }

  /** With a parameter missing, no collaborator is consulted: the response is the same for any of them. */
  lemma MissingParameterConsultsNothing(query: Query, env1: Services, env2: Services)
    requires Missing(query.origin) || Missing(query.destination)
    ensures SafeRouteResponse(query, env1) == SafeRouteResponse(query, env2)
  {
  }

  /**
   * The geocoder is asked only about inputs without a comma: replacing it by
   * one that agrees on those inputs changes nothing.
   */
  lemma GeocoderOnlyForAddresses(query: Query, env: Services, geocoder: Geocoder)
    requires !Missing(query.origin) && !Missing(query.destination)
    requires COMMA in query.origin.value || geocoder(query.origin.value) == env.geocoder(query.origin.value)
    requires COMMA in query.destination.value || geocoder(query.destination.value) == env.geocoder(query.destination.value)
    ensures SafeRouteResponse(query, env.(geocoder := geocoder)) == SafeRouteResponse(query, env)
  {
    ResolveConsultsOnlyInput(query.origin.value, geocoder, env.geocoder);
    ResolveConsultsOnlyInput(query.destination.value, geocoder, env.geocoder);
  }

  /** An origin or destination text with no comma and no geocoding match ends in 500. */
  lemma AddressNotFoundIs500(query: Query, env: Services)
    requires !Missing(query.origin) && !Missing(query.destination)
    requires || (COMMA !in query.origin.value && env.geocoder(query.origin.value) == GeocodeResults([]))
             || (COMMA !in query.destination.value && env.geocoder(query.destination.value) == GeocodeResults([]))
    ensures SafeRouteResponse(query, env) == Response(500, ErrorBody(FAILED))
  {
    if COMMA !in query.origin.value && env.geocoder(query.origin.value) == GeocodeResults([]) {
      AddressUsesFirstMatch(query.origin.value, env.geocoder);
    } else {
      AddressUsesFirstMatch(query.destination.value, env.geocoder);
    }
  }

  /** The response is 404 exactly when both inputs resolve and the provider offers no route. */
  lemma NoRoutesIs404(query: Query, env: Services)
    ensures SafeRouteResponse(query, env).status == 404
            <==> && !Missing(query.origin) && !Missing(query.destination)
                 && CandidateRoutes(query.origin.value, query.destination.value, env) == Some([])
  {
  }

  /** A 404 is decided before the crimes table is read: neither the table nor the distance matters. */
  lemma NoRoutesReadsNoCrimes(query: Query, env: Services, table: CrimeRead, distance: DistanceFn)
    requires SafeRouteResponse(query, env).status == 404
    ensures SafeRouteResponse(query, env.(crimeTable := table, distance := distance)) == SafeRouteResponse(query, env)
  {
    NoRoutesIs404(query, env);
  }

  /**
   * The response is 500 exactly when both parameters are present and either
   * resolving or the directions call fails, or there are routes and the
   * crimes table cannot be read.
   */
  lemma FailureIs500(query: Query, env: Services)
    ensures SafeRouteResponse(query, env).status == 500
            <==> && !Missing(query.origin) && !Missing(query.destination)
                 && var candidates := CandidateRoutes(query.origin.value, query.destination.value, env);
                    || candidates.None?
                    || (|candidates.value| > 0 && env.crimeTable.CrimeReadFailed?)
  {
  }

  /**
   * A 200 carries one of the candidate routes, unchanged, with its count;
   * that count is at most every candidate's count, and every earlier
   * candidate's count is strictly larger.
   */
  lemma SuccessIsSafestRoute(query: Query, env: Services)
    requires SafeRouteResponse(query, env).status == 200
    ensures !Missing(query.origin) && !Missing(query.destination)
    ensures CandidateRoutes(query.origin.value, query.destination.value, env).Some?
    ensures env.crimeTable.CrimeRows?
    ensures
      var routes := CandidateRoutes(query.origin.value, query.destination.value, env).value;
      var crimes := env.crimeTable.rows;
      var body := SafeRouteResponse(query, env).body;
      && body.SafeRouteBody?
      && exists k :: 0 <= k < |routes| && routes[k] == body.safestRoute
           && body.crimeCount == RouteScore(routes[k], crimes, env.distance)
           && (forall j :: 0 <= j < |routes| ==> body.crimeCount <= RouteScore(routes[j], crimes, env.distance))
           && (forall j :: 0 <= j < k ==> body.crimeCount < RouteScore(routes[j], crimes, env.distance))
  {
    var routes := CandidateRoutes(query.origin.value, query.destination.value, env).value;
    var crimes := env.crimeTable.rows;
    var scores := Scores(routes, crimes, env.distance);
    var k := FirstMinIndex(scores);
    assert forall j :: 0 <= j < |routes| ==> scores[j] == RouteScore(routes[j], crimes, env.distance);
    assert SafeRouteResponse(query, env).body == SafeRouteBody(routes[k], scores[k]);
  }

  /** With an empty crimes table the response is the first candidate route with count 0. */
  lemma NoCrimesReturnsFirstRoute(query: Query, env: Services)
    requires !Missing(query.origin) && !Missing(query.destination)
    requires CandidateRoutes(query.origin.value, query.destination.value, env).Some?
    requires |CandidateRoutes(query.origin.value, query.destination.value, env).value| > 0
    requires env.crimeTable == CrimeRows([])
    ensures SafeRouteResponse(query, env)
            == Response(200, SafeRouteBody(CandidateRoutes(query.origin.value, query.destination.value, env).value[0], 0))
  {
    NoCrimesPicksFirstRoute(CandidateRoutes(query.origin.value, query.destination.value, env).value, env.distance);
  }
}
