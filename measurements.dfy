/**
  The measurement records and the range query of `GET /api/measurements`:
  field-name validation, the fixed order of its 400 checks, the strict date
  parse, the inclusive timestamp filter, the projection onto one field, the
  ascending sort and the rule that an empty selection is a 404.
*/
module Measurements {
  import opened Wrappers
  import opened Requests
  import Dates

  /** A stored record. Timestamps are instants in milliseconds on the scale of `Dates.Midnight`. */
  datatype Measurement = Measurement(timestamp: int, field1: real, field2: real, field3: real)

  /** The three measurement channels. */
  datatype Field = Field1 | Field2 | Field3

  /** A record projected to its timestamp and one requested field. */
  datatype Point = Point(timestamp: int, value: real)

  datatype QueryError =
    | InvalidField        // 400 'Invalid or missing field name (field1, field2, field3)'
    | MissingRange        // 400 'start_date and end_date are required'
    | InvalidDateFormat   // 400 'Invalid date format. Use YYYY-MM-DD'
    | NoDataInRange       // 404 'No data found for the selected range'

  /** The membership test of the route module: one of the three names, nothing else. */
  predicate IsValidField(name: string) {
    name in ["field1", "field2", "field3"]
  }

  function FieldName(f: Field): string {
    match f
    case Field1 => "field1"
    case Field2 => "field2"
    case Field3 => "field3"
  }

  /** The field a `field` parameter names, if it names one. */
  function ParseField(p: Option<string>): (r: Option<Field>)
    ensures r.Some? <==> Present(p) && IsValidField(p.value)
    ensures r.Some? ==> FieldName(r.value) == p.value
  {
    if !Present(p) then None
    else if p.value == "field1" then Some(Field1)
    else if p.value == "field2" then Some(Field2)
    else if p.value == "field3" then Some(Field3)
    else None
  }

  /** Every field's own name is accepted and names that field. */
  lemma ParseFieldName(f: Field)
    ensures ParseField(Some(FieldName(f))) == Some(f)
  {
  }

  function Value(m: Measurement, f: Field): real {
    match f
    case Field1 => m.field1
    case Field2 => m.field2
    case Field3 => m.field3
  }

  function Project(m: Measurement, f: Field): Point {
    Point(m.timestamp, Value(m, f))
  }

  function ProjectAll(ms: seq<Measurement>, f: Field): (ps: seq<Point>)
    ensures |ps| == |ms|
    ensures forall i :: 0 <= i < |ms| ==> ps[i] == Project(ms[i], f)
  {
    seq(|ms|, i requires 0 <= i < |ms| => Project(ms[i], f))
  }

  predicate InRange(m: Measurement, lo: int, hi: int) {
    lo <= m.timestamp <= hi
  }

  /** The records with `lo <= timestamp <= hi`, in store order. */
  function Select(ms: seq<Measurement>, lo: int, hi: int): (r: seq<Measurement>)
    ensures forall m :: multiset(r)[m] == if InRange(m, lo, hi) then multiset(ms)[m] else 0
    ensures |r| <= |ms|
  {
    if ms == [] then []
    else
      assert ms == [ms[0]] + ms[1..];
      var rest := Select(ms[1..], lo, hi);
      if InRange(ms[0], lo, hi) then [ms[0]] + rest else rest
  }

  predicate SortedByTime(ps: seq<Point>) {
    forall i, j :: 0 <= i < j < |ps| ==> ps[i].timestamp <= ps[j].timestamp
  }

  /** Inserts `p` before the first point of `ps` whose timestamp is equal or later. */
  function Insert(p: Point, ps: seq<Point>): (r: seq<Point>)
    ensures multiset(r) == multiset(ps) + multiset{p}
    ensures |r| == |ps| + 1
    ensures r[0] == p || (ps != [] && r[0] == ps[0])
  {
    if ps == [] || p.timestamp <= ps[0].timestamp then [p] + ps
    else
      assert ps == [ps[0]] + ps[1..];
      [ps[0]] + Insert(p, ps[1..])
  }

  /** A point no later than the head of a sorted sequence can go in front of it. */
  lemma ConsSorted(q: Point, ps: seq<Point>)
    requires SortedByTime(ps)
    requires ps == [] || q.timestamp <= ps[0].timestamp
    ensures SortedByTime([q] + ps)
  {
    forall i, j | 0 <= i < j < |[q] + ps|
      ensures ([q] + ps)[i].timestamp <= ([q] + ps)[j].timestamp
    {
      if i == 0 && j > 1 {
        assert ps[0].timestamp <= ps[j - 1].timestamp;
      }
    }
  }

  /** Inserting into a sorted sequence keeps it sorted. */
  lemma {:induction false} InsertSorted(p: Point, ps: seq<Point>)
    requires SortedByTime(ps)
    ensures SortedByTime(Insert(p, ps))
  {
    if ps == [] || p.timestamp <= ps[0].timestamp {
      ConsSorted(p, ps);
    } else {
      assert SortedByTime(ps[1..]) by {
        forall i, j | 0 <= i < j < |ps| - 1
          ensures ps[1..][i].timestamp <= ps[1..][j].timestamp
        {
          assert ps[1..][i] == ps[i + 1] && ps[1..][j] == ps[j + 1];
        }
      }
      InsertSorted(p, ps[1..]);
      ConsSorted(ps[0], Insert(p, ps[1..]));
    }
  }

  /** The ascending sort by timestamp of the query. */
  function SortByTime(ps: seq<Point>): (r: seq<Point>)
    ensures SortedByTime(r)
    ensures multiset(r) == multiset(ps)
  {
    if ps == [] then []
    else
      assert ps == [ps[0]] + ps[1..];
      var rest := SortByTime(ps[1..]);
      InsertSorted(ps[0], rest);
      Insert(ps[0], rest)
  }

  /** Lower and upper bound instants of a query: the midnights of both dates. */
  function Bounds(start: Dates.Date, end: Dates.Date): (int, int)
    requires Dates.ValidDate(start) && Dates.ValidDate(end)
  {
    (Dates.Midnight(Dates.DayNumber(start)), Dates.Midnight(Dates.DayNumber(end)))
  }

  /**
    `GET /api/measurements?field=&start_date=&end_date=` over the stored
    records: 400s in the order field, presence of both dates, date format;
    then the selection, projection and sort; an empty result is a 404.
  */
  function Query(store: seq<Measurement>, field: Option<string>, startDate: Option<string>, endDate: Option<string>)
    : (r: Result<seq<Point>, QueryError>)
    ensures ParseField(field).None? ==> r == Err(InvalidField)
    ensures ParseField(field).Some? && !(Present(startDate) && Present(endDate)) ==> r == Err(MissingRange)
    ensures ParseField(field).Some? && Present(startDate) && Present(endDate) &&
            (Dates.ParseDate(startDate.value).None? || Dates.ParseDate(endDate.value).None?) ==>
              r == Err(InvalidDateFormat)
    ensures ParseField(field).Some? && Present(startDate) && Present(endDate) &&
            Dates.ParseDate(startDate.value).Some? && Dates.ParseDate(endDate.value).Some? ==>
              var (lo, hi) := Bounds(Dates.ParseDate(startDate.value).value, Dates.ParseDate(endDate.value).value);
              && (r.Ok? || r == Err(NoDataInRange))
              && (r == Err(NoDataInRange) <==> forall m :: m in store ==> !InRange(m, lo, hi))
    ensures r.Ok? ==>
              var f := ParseField(field).value;
              var (lo, hi) := Bounds(Dates.ParseDate(startDate.value).value, Dates.ParseDate(endDate.value).value);
              && r.value != []
              && SortedByTime(r.value)
              && multiset(r.value) == multiset(ProjectAll(Select(store, lo, hi), f))
  {
    match ParseField(field)
    case None => Err(InvalidField)
    case Some(f) =>
      if !Present(startDate) || !Present(endDate) then Err(MissingRange)
      else
        match (Dates.ParseDate(startDate.value), Dates.ParseDate(endDate.value))
        case (Some(start), Some(end)) =>
          var (lo, hi) := Bounds(start, end);
          var data := SortByTime(ProjectAll(Select(store, lo, hi), f));
          if |data| == 0 then
            Err(NoDataInRange)
          else Ok(data)
        case _ => Err(InvalidDateFormat)
  }

  lemma SelectMembership(ms: seq<Measurement>, lo: int, hi: int, m: Measurement)
    ensures m in Select(ms, lo, hi) <==> m in ms && InRange(m, lo, hi)
  {
    assert m in Select(ms, lo, hi) <==> m in multiset(Select(ms, lo, hi));
    assert m in ms <==> m in multiset(ms);
  }

  lemma ProjectMembership(ms: seq<Measurement>, f: Field, p: Point)
    ensures p in ProjectAll(ms, f) <==> exists m :: m in ms && p == Project(m, f)
  {
    var ps := ProjectAll(ms, f);
    if p in ps {
      var i :| 0 <= i < |ps| && ps[i] == p;
      assert ms[i] in ms;
    }
    if exists m :: m in ms && p == Project(m, f) {
      var m :| m in ms && p == Project(m, f);
      var i :| 0 <= i < |ms| && ms[i] == m;
      assert ps[i] == p;
    }
  }

  /** Exactly the in-range records appear in a successful result, each projected to the requested field. */
  lemma QueryContents(store: seq<Measurement>, field: Option<string>, startDate: Option<string>, endDate: Option<string>, p: Point)
    requires ParseField(field).Some? && Present(startDate) && Present(endDate)
    requires Dates.ParseDate(startDate.value).Some? && Dates.ParseDate(endDate.value).Some?
    ensures var f := ParseField(field).value;
            var (lo, hi) := Bounds(Dates.ParseDate(startDate.value).value, Dates.ParseDate(endDate.value).value);
            var r := Query(store, field, startDate, endDate);
            r.Ok? ==> (p in r.value <==> exists m :: m in store && InRange(m, lo, hi) && p == Project(m, f))
  {
    var f := ParseField(field).value;
    var (lo, hi) := Bounds(Dates.ParseDate(startDate.value).value, Dates.ParseDate(endDate.value).value);
    var r := Query(store, field, startDate, endDate);
    if r.Ok? {
      var sel := Select(store, lo, hi);
      var projected := ProjectAll(sel, f);
      assert p in r.value <==> p in projected by {
        assert p in r.value <==> p in multiset(r.value);
        assert p in projected <==> p in multiset(projected);
      }
      ProjectMembership(sel, f, p);
      forall m ensures m in sel <==> m in store && InRange(m, lo, hi) {
        SelectMembership(store, lo, hi, m);
      }
    }
  }

  /** A start date after the end date selects nothing: the answer is the 404, never an empty success. */
  lemma StartAfterEndIsNotFound(store: seq<Measurement>, field: Option<string>, startDate: Option<string>, endDate: Option<string>)
    requires ParseField(field).Some? && Present(startDate) && Present(endDate)
    requires Dates.ParseDate(startDate.value).Some? && Dates.ParseDate(endDate.value).Some?
    requires Dates.Precedes(Dates.ParseDate(endDate.value).value, Dates.ParseDate(startDate.value).value)
    ensures Query(store, field, startDate, endDate) == Err(NoDataInRange)
  {
    var start, end := Dates.ParseDate(startDate.value).value, Dates.ParseDate(endDate.value).value;
    Dates.DayNumberOrder(end, start);
    Dates.MidnightOrder(Dates.DayNumber(end), Dates.DayNumber(start));
    assert forall m :: m in store ==> !InRange(m, Dates.Midnight(Dates.DayNumber(start)), Dates.Midnight(Dates.DayNumber(end)));
  }

  /**
    The upper bound is the midnight that begins the end date: a record at the
    start date's midnight is returned, one later on the end date is not.
  */
  lemma BoundaryInstants(store: seq<Measurement>, field: Option<string>, startDate: Option<string>, endDate: Option<string>, m: Measurement)
    requires ParseField(field).Some? && Present(startDate) && Present(endDate)
    requires Dates.ParseDate(startDate.value).Some? && Dates.ParseDate(endDate.value).Some?
    requires !Dates.Precedes(Dates.ParseDate(endDate.value).value, Dates.ParseDate(startDate.value).value)
    requires m in store
    ensures var start, end := Dates.ParseDate(startDate.value).value, Dates.ParseDate(endDate.value).value;
            var r := Query(store, field, startDate, endDate);
            && (m.timestamp == Dates.Midnight(Dates.DayNumber(start)) ==>
                  r.Ok? && Project(m, ParseField(field).value) in r.value)
            && (m.timestamp > Dates.Midnight(Dates.DayNumber(end)) && r.Ok? ==>
                  forall p :: p in r.value ==> p.timestamp != m.timestamp)
  {
    var start, end := Dates.ParseDate(startDate.value).value, Dates.ParseDate(endDate.value).value;
    Dates.DayNumberOrder(start, end);
    Dates.MidnightOrder(Dates.DayNumber(start), Dates.DayNumber(end));
    var (lo, hi) := Bounds(start, end);
    var r := Query(store, field, startDate, endDate);
    var f := ParseField(field).value;
    if m.timestamp == lo {
      assert InRange(m, lo, hi);
      QueryContents(store, field, startDate, endDate, Project(m, f));
    }
    if m.timestamp > hi && r.Ok? {
      forall p | p in r.value ensures p.timestamp != m.timestamp {
        QueryContents(store, field, startDate, endDate, p);
      }
    }
  }

  /** A single record at noon of 2024-03-10 is not found by the query for 2024-03-10 to 2024-03-10. */
  lemma NoonOfEndDateIsOutside()
    ensures var day := Dates.DayNumber(Dates.Date(2024, 3, 10));
            var noon := Measurement(Dates.Midnight(day) + Dates.MsPerDay / 2, 1.0, 2.0, 3.0);
            Query([noon], Some("field1"), Some("2024-03-10"), Some("2024-03-10")) == Err(NoDataInRange)
  {
    var d := Dates.Date(2024, 3, 10);
    Dates.ParseFormat(d);
    assert Dates.FormatDate(d) == "2024-03-10";
  }
}
