/** The upstream transit API's responses, as the integration reads them.
    A missing key is `None`; nested lookups that default to `{}` are
    flattened, since a missing level and a missing leaf read alike. */
module Api {
  import opened Values

  /** One entry of a departures board. */
  datatype Departure = Departure(
    line: Option<string>,                   // timeTableTrip.timeTableLine.line
    destination: Option<string>,            // timeTableTrip.destinationStopName
    direction: Option<string>,              // timeTableTrip.ezTripDirection
    plannedTimestamp: Option<int>,          // plannedDepartureTimestamp, epoch seconds
    delayMinutes: Option<int>,              // delayMinutes
    platform: Option<string>)               // platformNumber

  /** The JSON value of a stop's `stopID`: text or a number. */
  datatype IdValue = IdText(text: string) | IdNumber(number: int)

  /** One entry of the `stops` list. */
  datatype StopEntry = StopEntry(
    stopId: Option<IdValue>,
    stopName: Option<string>,
    ezLines: Option<seq<string>>)
  {
    /** The entry is `{}`, which Python treats as false. */
    predicate IsEmpty()
      ensures IsEmpty() <==> this == StopEntry(None, None, None)
    {
      stopId.None? && stopName.None? && ezLines.None?
    }
  }

  /** The stop-information response body `{status, stops}`. */
  datatype StopInfoBody = StopInfoBody(status: Option<string>, stops: Option<seq<StopEntry>>)

  /** The departures response body `{departures}`. */
  datatype DeparturesBody = DeparturesBody(departures: Option<seq<Departure>>)

  /** The outcome of one HTTP exchange: the client library failed
      (`aiohttp.ClientError`), or a status code and a decoded body. */
  datatype HttpResult<T> = ClientError | Response(status: int, body: T)
}
