/**
 * The values that flow through the station registry: the records the NS
 * station provider hands out, the trip provider's answers, and the entries
 * of a persisted travel-time dataset.
 */
module Records {

  datatype Option<T> = None | Some(value: T)

  /** Conditions the registry does not catch: they end the run. */
  datatype Fault =
    // `datetime.strptime(planned, "%H:%M")` raised ValueError
    | UnparsablePlannedTime(planned: string)
    // the trip query raised something other than TypeError or HTTPError
    | ProviderFailure(fromCode: string, toCode: string)

  datatype Result<T> = Ok(value: T) | Err(fault: Fault)

  /** The eight station classes of the NS API. */
  datatype StationType =
    | Stoptreinstation
    | Megastation
    | KnooppuntIntercitystation
    | Sneltreinstation
    | Intercitystation
    | KnooppuntStoptreinstation
    | FacultatiefStation
    | KnooppuntSneltreinstation
  {
    /** The enum member's name, which is what a station record's type is compared with. */
    function Name(): (r: string) {
      match this
      case Stoptreinstation => "stoptreinstation"
      case Megastation => "megastation"
      case KnooppuntIntercitystation => "knooppuntIntercitystation"
      case Sneltreinstation => "sneltreinstation"
      case Intercitystation => "intercitystation"
      case KnooppuntStoptreinstation => "knooppuntStoptreinstation"
      case FacultatiefStation => "facultatiefStation"
      case KnooppuntSneltreinstation => "knooppuntSneltreinstation"
    }
  }

  /** One station as the station provider lists it (coordinates left out). */
  datatype NsStation = NsStation(code: string, longName: string, country: string, stationType: string)

  /** One trip as the trip provider returns it: where it ends and its planned duration `H:MM`. */
  datatype Trip = Trip(destination: string, planned: string)

  /** The arguments of one trip query: timestamp, origin code, via code, destination code. */
  datatype Query = Query(timestamp: string, fromCode: string, via: string, toCode: string)

  /** What one trip query gives back: the trips, or the exception it raised. */
  datatype TripAnswer =
    | Trips(trips: seq<Trip>)
    | TypeFault     // TypeError, raised by the client when there are no results
    | HttpFault     // requests.exceptions.HTTPError, e.g. an internal server error
    | OtherFault    // anything else, which the registry does not catch

  /** The trip provider, as a total function from a query to its answer. */
  type TripProvider = Query -> TripAnswer

  /** One record `{name, id, travel_time_min, travel_time_planned}` of a travel-time dataset. */
  datatype Entry = Entry(name: string, id: Option<string>, travelTimeMin: int, planned: string)

  /** The `stations` list of a travel-time file. */
  type Dataset = seq<Entry>
}
