/** Turning a free-text address into coordinates through an external geocoding
    service, with a fallback near Dublin city centre whenever the service does
    not produce a usable answer. The network exchange, JSON deserialisation,
    number parsing and random draws are parameters. */
module Geocoding {
  import opened Base
  import Text
  import opened Geo

  /** Dublin city centre, the reference point of every fallback. */
  const CentreLatitude: real := 53.3498
  const CentreLongitude: real := -6.2603
  const Centre: Coordinates := Coordinates(CentreLatitude, CentreLongitude)

  /** The fallback jitter is `r * JitterSpan - JitterHalf` per axis. */
  const JitterSpan: real := 0.1
  const JitterHalf: real := 0.05

  /** One element of the service's JSON array; `lat`/`lon` may be JSON null. */
  datatype SearchResult = SearchResult(lat: Option<string>, lon: Option<string>)

  /** `JsonSerializer.Deserialize<NominatimResult[]>(body)`: it throws, yields
      null (for the JSON literal `null`), or yields an array whose elements may
      themselves be null. */
  datatype Decoded = DecodeThrew | DecodedNull | DecodedArray(results: seq<Option<SearchResult>>)

  /** What the HTTP call produced: an exception anywhere between escaping the
      query and reading the body, or a status code and a body. */
  datatype Exchange = Faulted | Answered(status: int, body: string)

  /** The external collaborators: the request for a query text, the JSON
      deserialiser, and `double.TryParse`. */
  datatype Services = Services(
    fetch: string -> Exchange,
    deserialize: string -> Decoded,
    tryParseDouble: string -> Option<real>)

  /** `HttpResponseMessage.IsSuccessStatusCode`. */
  predicate IsSuccessStatus(status: int) {
    200 <= status <= 299
  }

  /** `Random.NextDouble()` draws from [0, 1). */
  predicate IsDraw(r: real) {
    0.0 <= r < 1.0
  }

  /** The query text: the address trimmed, then one pass turning each pair of
      spaces into one. It is never longer than the address, is empty exactly
      when the address is blank, and neither starts nor ends with whitespace.
      An address with a pair of spaces anywhere comes out strictly shorter; one
      without comes out merely trimmed. */
  function CleanAddress(address: string): (q: string)
    ensures |q| <= |address|
    ensures q == [] <==> Text.IsBlank(address)
    ensures q != [] ==> !Text.IsWhiteSpace(q[0]) && !Text.IsWhiteSpace(q[|q| - 1])
    ensures !Text.NoSpacePair(address) ==> |q| < |address|
    ensures Text.NoSpacePair(address) ==> Text.IsTrimOf(q, address)
  {
    var t := Text.Trim(address);
    Text.TrimSpacePairs(address);
    Text.ReplaceSpacePairs(t)
  }

  /** The fallback rule picks its branch on this: the lower-cased address
      contains "dublin" or "d02" at some position. */
  function MentionsDublin(address: string): (b: bool)
    ensures b <==> exists i :: Text.OccursAt(Text.ToLower(address), "dublin", i) || Text.OccursAt(Text.ToLower(address), "d02", i)
  {
    var lower := Text.ToLower(address);
    Text.Contains(lower, "dublin") || Text.Contains(lower, "d02")
  }

  /** The test ignores ASCII case: an address mentions Dublin exactly when its
      lower-cased form does. */
  lemma MentionsDublinIgnoresCase(address: string)
    ensures MentionsDublin(address) == MentionsDublin(Text.ToLower(address))
  {
    Text.ToLowerIdempotent(address);
  }

  /** `GetFallbackCoordinates`: Dublin addresses get the centre moved by an
      independent jitter on each axis, drawn from `r1` and `r2`; any other
      address gets the centre itself. */
  function Fallback(address: string, r1: real, r2: real): (c: Coordinates)
    requires IsDraw(r1) && IsDraw(r2)
    ensures !MentionsDublin(address) ==> c == Centre
    ensures MentionsDublin(address) ==>
      CentreLatitude - JitterHalf <= c.latitude < CentreLatitude + JitterHalf
      && CentreLongitude - JitterHalf <= c.longitude < CentreLongitude + JitterHalf
    ensures OnGlobe(c)
  {
    if MentionsDublin(address) then
      Coordinates(CentreLatitude + r1 * JitterSpan - JitterHalf, CentreLongitude + r2 * JitterSpan - JitterHalf)
    else
      Centre
  }

  /** The jitter covers its whole square: every point within [-0.05, 0.05) of
      the centre on both axes is the fallback for some pair of draws. */
  lemma FallbackCoversSquare(address: string, lat: real, lon: real)
    requires MentionsDublin(address)
    requires CentreLatitude - JitterHalf <= lat < CentreLatitude + JitterHalf
    requires CentreLongitude - JitterHalf <= lon < CentreLongitude + JitterHalf
    ensures exists r1: real, r2: real :: IsDraw(r1) && IsDraw(r2) && Fallback(address, r1, r2) == Coordinates(lat, lon)
  {
    var r1 := (lat - CentreLatitude + JitterHalf) / JitterSpan;
    var r2 := (lon - CentreLongitude + JitterHalf) / JitterSpan;
    assert IsDraw(r1) && IsDraw(r2);
    assert Fallback(address, r1, r2) == Coordinates(lat, lon);
  }

  /** The first result's coordinates, when the answer is usable: a success
      status, a body that is neither blank nor exactly "[]", a non-null
      non-empty array, a non-null first element, and both `lat` and `lon`
      parsing. Anything else, an exception included, gives `None`. */
  function FirstResult(exchange: Exchange, services: Services): (r: Option<Coordinates>)
    ensures r.Some? ==>
      (exchange.Answered? && IsSuccessStatus(exchange.status) && !Text.IsBlank(exchange.body) && exchange.body != "[]")
    ensures r.Some? ==> exists first: SearchResult, rest ::
      services.deserialize(exchange.body) == DecodedArray([Some(first)] + rest)
      && first.lat.Some? && services.tryParseDouble(first.lat.value) == Some(r.value.latitude)
      && first.lon.Some? && services.tryParseDouble(first.lon.value) == Some(r.value.longitude)
  {
    match exchange
    case Faulted => None
    case Answered(status, body) =>
      if !IsSuccessStatus(status) then None
      else if Text.IsBlank(body) || body == "[]" then None
      else match services.deserialize(body)
        case DecodeThrew => None
        case DecodedNull => None
        case DecodedArray(results) =>
          if |results| == 0 then None
          else match results[0]
            case None => None  // `results[0].lat` throws
            case Some(first) =>
              assert results == [Some(first)] + results[1..];
              var lat := if first.lat.Some? then services.tryParseDouble(first.lat.value) else None;
              var lon := if first.lon.Some? then services.tryParseDouble(first.lon.value) else None;
              if lat.Some? && lon.Some? then Some(Coordinates(lat.value, lon.value)) else None
  }

  /** `GetCoordinatesAsync` for a non-null address: the service is asked about
      the cleaned address; its first result wins when usable, and every other
      path, exceptions included, ends in the fallback for the address as given.
      The declared return type is nullable, but no path returns null. */
  function GetCoordinates(address: string, services: Services, r1: real, r2: real): (c: Option<Coordinates>)
    requires IsDraw(r1) && IsDraw(r2)
    ensures c.Some?
    ensures FirstResult(services.fetch(CleanAddress(address)), services).Some? ==>
      c == FirstResult(services.fetch(CleanAddress(address)), services)
    ensures FirstResult(services.fetch(CleanAddress(address)), services).None? ==>
      c == Some(Fallback(address, r1, r2))
  {
    var answer := FirstResult(services.fetch(CleanAddress(address)), services);
    if answer.Some? then answer else Some(Fallback(address, r1, r2))
  }

  /** Each of these answers leads to the fallback: an exception, a non-success
      status, a blank body, the body "[]", a null or empty array, a null first
      element, or a `lat` or `lon` that does not parse. */
  lemma FallbackCases(exchange: Exchange, services: Services)
    ensures exchange.Faulted? ==> FirstResult(exchange, services) == None
    ensures exchange.Answered? && !IsSuccessStatus(exchange.status) ==> FirstResult(exchange, services) == None
    ensures exchange.Answered? && (Text.IsBlank(exchange.body) || exchange.body == "[]") ==>
      FirstResult(exchange, services) == None
    ensures exchange.Answered? && services.deserialize(exchange.body) in {DecodeThrew, DecodedNull, DecodedArray([])} ==>
      FirstResult(exchange, services) == None
    ensures (exchange.Answered? && services.deserialize(exchange.body).DecodedArray?
             && |services.deserialize(exchange.body).results| > 0
             && services.deserialize(exchange.body).results[0].None?) ==>
      FirstResult(exchange, services) == None
    ensures (exchange.Answered? && services.deserialize(exchange.body).DecodedArray?
             && |services.deserialize(exchange.body).results| > 0
             && services.deserialize(exchange.body).results[0].Some?) ==>
      var first := services.deserialize(exchange.body).results[0].value;
      (first.lat.None? || services.tryParseDouble(first.lat.value).None?
       || first.lon.None? || services.tryParseDouble(first.lon.value).None?) ==>
      FirstResult(exchange, services) == None
  {
  }

  /** When the first result's `lat` and `lon` both parse, the answer is exactly
      those two numbers, whatever the later results hold. */
  lemma FirstResultWins(status: int, body: string, services: Services,
                        first: SearchResult, rest: seq<Option<SearchResult>>, lat: real, lon: real)
    requires IsSuccessStatus(status) && !Text.IsBlank(body) && body != "[]"
    requires services.deserialize(body) == DecodedArray([Some(first)] + rest)
    requires first.lat.Some? && services.tryParseDouble(first.lat.value) == Some(lat)
    requires first.lon.Some? && services.tryParseDouble(first.lon.value) == Some(lon)
    ensures FirstResult(Answered(status, body), services) == Some(Coordinates(lat, lon))
  {
  }

  // ----- A null address -----

  /** `GetCoordinatesAsync` as written, for a nullable address. A null address
      makes `Trim` throw inside the `try`; the handler then calls the fallback,
      whose `ToLower` throws again, outside any handler. */
  function GetCoordinatesAsWritten(address: Option<string>, services: Services, r1: real, r2: real)
    : (o: Outcome<Option<Coordinates>>)
    requires IsDraw(r1) && IsDraw(r2)
    ensures address.Some? ==> o == Returned(GetCoordinates(address.value, services, r1, r2))
  {
    match address
    case None => Threw
    case Some(a) => Returned(GetCoordinates(a, services, r1, r2))
  }

  /** The null address escapes as an exception. */
  lemma NullAddressThrows(services: Services, r1: real, r2: real)
    requires IsDraw(r1) && IsDraw(r2)
    ensures GetCoordinatesAsWritten(None, services, r1, r2) == Threw
  {
  }

  /** The null-safe reading: a null address is handled like any address that
      does not mention Dublin and gets the centre; no input throws. */
  function GetCoordinatesNullSafe(address: Option<string>, services: Services, r1: real, r2: real)
    : (o: Outcome<Option<Coordinates>>)
    requires IsDraw(r1) && IsDraw(r2)
    ensures o.Returned? && o.value.Some?
    ensures address.None? ==> o == Returned(Some(Centre))
    ensures address.Some? ==> o == GetCoordinatesAsWritten(address, services, r1, r2)
  {
    match address
    case None => Returned(Some(Centre))
    case Some(a) => Returned(GetCoordinates(a, services, r1, r2))
  }
}
