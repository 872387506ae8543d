/**
 * Resolution of the `origin` and `destination` query texts. A text with a
 * comma is read as a literal "lat,lng" pair: it is split on commas, the first
 * piece is the latitude text and the second the longitude text, further
 * pieces are ignored and nothing external is asked. Any other text is sent to
 * the geocoding service, whose first match is used; no match is an error.
 *
 * Number parsing is not modelled: the literal path keeps the two texts.
 */
module Coordinates {
  import opened Wrappers
  import opened Geo
  import opened Text

  /** A resolved origin or destination. */
  datatype Endpoint = Literal(latText: string, lngText: string) | Geocoded(location: Coordinate)

  /** What the geocoding service answers for an address: a failure, or its matches in order. */
  datatype GeocodeReply = GeocodeFailed | GeocodeResults(results: seq<Coordinate>)

  type Geocoder = string -> GeocodeReply

  datatype ResolveError = AddressNotFound | GeocoderFailed

  /** The separator that marks a literal coordinate pair. */
  const COMMA: char := ','

  /** The first two comma-separated pieces of `input`. */
  function LiteralEndpoint(input: string): Endpoint
    requires COMMA in input
  {
    var parts := Split(input, COMMA);
    Literal(parts[0], parts[1])
  }

  /** The handler's `geocode` helper: the first match, or an error. */
  function Geocode(address: string, geocoder: Geocoder): (r: Result<Coordinate, ResolveError>)
    ensures r.Success? ==> geocoder(address).GeocodeResults? && r.value in geocoder(address).results
    ensures r == Failure(AddressNotFound) <==> geocoder(address) == GeocodeResults([])
    ensures r == Failure(GeocoderFailed) <==> geocoder(address).GeocodeFailed?
  {
    match geocoder(address)
    case GeocodeFailed => Failure(GeocoderFailed)
    case GeocodeResults(results) =>
      if |results| == 0 then Failure(AddressNotFound) else Success(results[0])
  }

  /** One query text resolved, by the literal path or by geocoding. */
  function Resolve(input: string, geocoder: Geocoder): (r: Result<Endpoint, ResolveError>)
    ensures (r.Success? && r.value.Literal?) <==> COMMA in input
    ensures r.Success? && r.value.Geocoded? ==>
              geocoder(input).GeocodeResults? && r.value.location in geocoder(input).results
  {
    if COMMA in input then Success(LiteralEndpoint(input))
    else
      match Geocode(input, geocoder)
      case Failure(e) => Failure(e)
      case Success(location) => Success(Geocoded(location))
  }

  /**
   * A text whose first comma is at `i` and whose next comma (or end) is at
   * `j` resolves, whatever the geocoder, to the literal pair made of the
   * text before the first comma and the text between the two.
   */
  lemma LiteralBypassesGeocoder(input: string, geocoder: Geocoder, i: nat, j: nat)
    requires i < j <= |input|
    requires input[i] == COMMA && COMMA !in input[..i]
    requires COMMA !in input[i + 1..j]
    requires j == |input| || input[j] == COMMA
    ensures Resolve(input, geocoder) == Success(Literal(input[..i], input[i + 1..j]))
  {
    SplitFirst(input, COMMA, i);
    SplitSecond(input, COMMA, i, j);
  }

  /** "1.0,1.0" is the literal pair ("1.0", "1.0"), with no geocoding. */
  lemma LiteralExample(geocoder: Geocoder)
    ensures Resolve("1.0,1.0", geocoder) == Success(Literal("1.0", "1.0"))
  {
    var input := "1.0,1.0";
    assert input[..3] == "1.0" && input[4..7] == "1.0";
    LiteralBypassesGeocoder(input, geocoder, 3, 7);
  }

  /**
   * A text without a comma resolves exactly when the geocoder answers with
   * at least one match, and then to the first match; zero matches is
   * `AddressNotFound`.
   */
  lemma AddressUsesFirstMatch(input: string, geocoder: Geocoder)
    requires COMMA !in input
    ensures Resolve(input, geocoder).Success?
            <==> geocoder(input).GeocodeResults? && |geocoder(input).results| > 0
    ensures Resolve(input, geocoder).Success? ==> Resolve(input, geocoder).value == Geocoded(geocoder(input).results[0])
    ensures geocoder(input) == GeocodeResults([]) ==> Resolve(input, geocoder) == Failure(AddressNotFound)
  {
  }

  /** Resolution asks the geocoder about the input text and nothing else, and only when it has no comma. */
  lemma ResolveConsultsOnlyInput(input: string, g1: Geocoder, g2: Geocoder)
    requires COMMA in input || g1(input) == g2(input)
    ensures Resolve(input, g1) == Resolve(input, g2)
  {
  }
}
