/**
  The stored measurements as one object whose record list the write paths
  change: `save` of one record (the weather route), `deleteMany` of all
  records and `insertMany` of a list (the seed script). The read routes are
  the functions `Measurements.Query` and `Metrics.Metrics` applied to
  `records`.
*/
module Store {
  import opened Wrappers
  import Measurements
  import Requests
  import Bearer
  import Dates

  /**
    The provider's reply for a city: its `current` readings and, when the reply
    has a `location` object, the resolved `location.name`; or a failed call
    (or a reply without `current`), which throws before anything is saved.
  */
  datatype ProviderReply =
    | Current(locationName: Option<string>, tempC: real, humidity: real, pressureMb: real)
    | ProviderFailed

  datatype WeatherError =
    | Unauthorized(reason: Bearer.Rejection)   // 401 from the middleware
    | MissingCity                              // 400 'City name is required'
    | UpstreamFailed                           // 500 'Failed to fetch or save weather data'

  /** The `data` object of a successful weather recording. */
  datatype WeatherData = WeatherData(city: string, temp: real, humidity: real, pressure: real)

  class MeasurementStore {
    var records: seq<Measurements.Measurement>

    constructor ()
      ensures records == []
    {
      records := [];
    }

    /** Appends one record; the records before it are untouched. */
    method Save(m: Measurements.Measurement)
      modifies this
      ensures records == old(records) + [m]
    {
      records := records + [m];
    }

    /** Deletes every record. */
    method Clear()
      modifies this
      ensures records == []
    {
      records := [];
    }

    /** Appends a list of records in order. */
    method InsertMany(ms: seq<Measurements.Measurement>)
      modifies this
      ensures records == old(records) + ms
    {
      records := records + ms;
    }

    /**
      `POST /api/measurements/weather`: the middleware decides on the
      `Authorization` header, then the body must name a city, then the
      provider's reply (a parameter: the call itself is network I/O) becomes
      one record stamped `now` with temperature, humidity and pressure as
      field1, field2 and field3. The record is saved before the reply's
      `location.name` is read, so a reply without a location is answered with
      the 500 after the record has been appended.
    */
    method RecordWeather<P>(header: Option<string>, verify: string -> Option<P>,
                            city: Option<string>, reply: ProviderReply, now: int)
      returns (r: Result<WeatherData, WeatherError>)
      modifies this
      ensures Bearer.Authenticate(header, verify).Reject? ==>
                r == Err(Unauthorized(Bearer.Authenticate(header, verify).reason))
      ensures Bearer.Authenticate(header, verify).Next? && !Requests.Present(city) ==> r == Err(MissingCity)
      ensures Bearer.Authenticate(header, verify).Next? && Requests.Present(city) && reply.ProviderFailed? ==>
                r == Err(UpstreamFailed)
      ensures Bearer.Authenticate(header, verify).Next? && Requests.Present(city) && reply.Current? ==>
                && records == old(records) + [Measurements.Measurement(now, reply.tempC, reply.humidity, reply.pressureMb)]
                && (reply.locationName.None? ==> r == Err(UpstreamFailed))
      ensures !(Bearer.Authenticate(header, verify).Next? && Requests.Present(city) && reply.Current?) ==>
                records == old(records)
      ensures r.Ok? <==>
                Bearer.Authenticate(header, verify).Next? && Requests.Present(city) && reply.Current? && reply.locationName.Some?
      ensures r.Ok? ==> r.value == WeatherData(reply.locationName.value, reply.tempC, reply.humidity, reply.pressureMb)
    {
      var decision := Bearer.Authenticate(header, verify);
      if decision.Reject? {
        return Err(Unauthorized(decision.reason));
      }
      if !Requests.Present(city) {
        return Err(MissingCity);
      }
      match reply
      case ProviderFailed =>
        r := Err(UpstreamFailed);
      case Current(location, temp, humidity, pressure) =>
        Save(Measurements.Measurement(now, temp, humidity, pressure));
        if location.None? {
          return Err(UpstreamFailed);
        }
        r := Ok(WeatherData(location.value, temp, humidity, pressure));
    }
  }

  /**
    A record appended at instant `now` is returned by every later query whose
    range covers `now`, with the requested field's value.
  */
  lemma AppendedRecordIsQueried(store: seq<Measurements.Measurement>, m: Measurements.Measurement,
                                field: Option<string>, startDate: Option<string>, endDate: Option<string>)
    requires Measurements.ParseField(field).Some? && Requests.Present(startDate) && Requests.Present(endDate)
    requires Dates.ParseDate(startDate.value).Some? && Dates.ParseDate(endDate.value).Some?
    requires var (lo, hi) := Measurements.Bounds(Dates.ParseDate(startDate.value).value,
                                                 Dates.ParseDate(endDate.value).value);
             lo <= m.timestamp <= hi
    ensures var r := Measurements.Query(store + [m], field, startDate, endDate);
            r.Ok? && Measurements.Project(m, Measurements.ParseField(field).value) in r.value
  {
    var r := Measurements.Query(store + [m], field, startDate, endDate);
    var (lo, hi) := Measurements.Bounds(Dates.ParseDate(startDate.value).value,
                                        Dates.ParseDate(endDate.value).value);
    assert Measurements.InRange(m, lo, hi);
    assert m in store + [m];
    Measurements.QueryContents(store + [m], field, startDate, endDate, Measurements.Project(m, Measurements.ParseField(field).value));
  }
}
