/** Classification and mapping of the location-search answer
    (`myTurnLocationSearch`): `null` for an error status, which makes the
    county be skipped, and otherwise the list of locations, empty when the
    answer holds none or when the call threw. */
module LocationSearch {
  import opened Options

  datatype Coordinates = Coordinates(lat: real, lng: real)

  /** A location record as the search endpoint returns it. Values that are
      only carried along (address, opening hours, URL) are kept as strings. */
  datatype RemoteLocation = RemoteLocation(
    extId: string,
    displayAddress: string,
    location: Option<Coordinates>,
    name: string,
    openHours: string,
    siteType: string,
    timezone: string,
    vaccineData: string,
    externalURL: string)

  /** A location as the collector records it. */
  datatype Location = Location(
    id: string,
    address: string,
    lat: real,
    long: real,
    name: string,
    hours: string,
    siteType: string,
    timezone: string,
    vaccineData: string,
    externalURL: string)

  /** What the search request produced: it threw, or it answered with a
      status and an optional `locations` list. */
  datatype SearchResponse =
    | SearchThrew
    | SearchAnswer(status: int, locations: Option<seq<RemoteLocation>>)

  /** The field-by-field mapping of one record. */
  predicate MapsTo(remote: RemoteLocation, loc: Location) {
    && remote.location.Some?
    && loc == Location(remote.extId, remote.displayAddress, remote.location.value.lat,
                       remote.location.value.lng, remote.name, remote.openHours,
                       remote.siteType, remote.timezone, remote.vaccineData, remote.externalURL)
  }

  /** Maps every record, in order; `None` when a record has no coordinates,
      where reading `location.lat` throws. */
  function MapLocations(remote: seq<RemoteLocation>): (r: Option<seq<Location>>)
    ensures r.Some? <==> forall i :: 0 <= i < |remote| ==> remote[i].location.Some?
    ensures r.Some? ==> |r.value| == |remote| && forall i :: 0 <= i < |remote| ==> MapsTo(remote[i], r.value[i])
  {
    if remote == [] then Some([])
    else if remote[0].location.None? then None
    else
      match MapLocations(remote[1..])
      case None => None
      case Some(rest) =>
        var c := remote[0].location.value;
        var head := Location(remote[0].extId, remote[0].displayAddress, c.lat, c.lng, remote[0].name,
                             remote[0].openHours, remote[0].siteType, remote[0].timezone,
                             remote[0].vaccineData, remote[0].externalURL);
        Some([head] + rest)
  }

  /** The search result: `None` (the source's `null`) only for an answer
      whose status is not 200; `Some([])` when the call threw, when the
      answer has no locations, or when mapping a record threw. */
  function SearchResult(response: SearchResponse): (r: Option<seq<Location>>)
    ensures r.None? <==> response.SearchAnswer? && response.status != 200
    ensures response.SearchThrew? ==> r == Some([])
    ensures r.Some? && r.value != [] ==>
      && response.SearchAnswer?
      && response.locations.Some?
      && |r.value| == |response.locations.value|
      && forall i :: 0 <= i < |r.value| ==>
           MapsTo(response.locations.value[i], r.value[i])
    ensures response.SearchAnswer? && response.status == 200 && response.locations.Some?
            && (forall i :: 0 <= i < |response.locations.value| ==> response.locations.value[i].location.Some?)
            ==> r.Some? && |r.value| == |response.locations.value|
  {
    match response
    case SearchThrew => Some([])
    case SearchAnswer(status, locations) =>
      if status != 200 then None
      else if locations.Some? && |locations.value| > 0 then
        match MapLocations(locations.value)
        case None => Some([])
        case Some(mapped) => Some(mapped)
      else Some([])
  }
}
