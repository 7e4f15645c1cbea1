/** Constants of the integration. */
module Const {

  /** The direction setting of an entry. The source compares the configured
      value with `DIRECTION_ALL` and `DIRECTION_HERE` and treats any other
      value as the outbound direction. */
  datatype Direction = All | Here | There

  /** The text of a direction setting, as it appears in a unique id. */
  function DirectionValue(d: Direction): (r: string)
    ensures d == All <==> r == "all"
    ensures |r| > 0 && '_' !in r
  {
    match d
    case All => "all"
    case Here => "here"
    case There => "there"
  }

  /** The departures request's fixed `filter` and `cityID` fields. */
  const DefaultFilter: string := "urban"
  const DefaultCityId: string := "-1"

  /** Departures shown when the entry does not say otherwise. */
  const DefaultMaxDepartures: nat := 10
}
