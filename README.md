# Measurement dashboard back end — a Dafny model

This project models the sequential logic of an Express back end for
time-series environmental measurements (three numeric fields and a
timestamp per record):

- the measurement routes: field-name validation, the strict `YYYY-MM-DD`
  date parse, the range query (filter, projection onto one field, ascending
  sort, empty result reported as 404), the dataset-wide metrics (mean,
  minimum, maximum, population variance) and the weather route that appends
  one record;
- the authentication routes over the user table: `register`, `login`,
  `verify` and the token they issue;
- the `auth` middleware that takes a bearer token from the `Authorization`
  header and accepts or rejects the request;
- the seed script that replaces the store with 31 daily records.

Files and modules:

| file | module | models |
|---|---|---|
| `wrappers.dfy` | `Wrappers` | `Option`, `Result` |
| `requests.dfy` | `Requests` | request parameters and the routes' `!x` presence test |
| `dates.dfy` | `Dates` | the strict date grammar (full-date of section 5.6 of RFC 3339, day limits of section 5.7), day numbers, midnights |
| `measurements.dfy` | `Measurements` | records, fields, `GET /api/measurements` |
| `metrics.dfy` | `Metrics` | `GET /api/measurements/metrics` |
| `store.dfy` | `Store` | the record store as an object, `POST /api/measurements/weather` |
| `bearer.dfy` | `Bearer` | the `auth` middleware |
| `users.dfy` | `Users` | `POST /auth/register`, `POST /auth/login`, `GET /auth/verify` |
| `seed.dfy` | `Seed` | the seed script |

Modelling choices:

- Timestamps are integers (milliseconds). A calendar date is a day number
  counted from 0000-01-01, and `Dates.Midnight(day)` is the instant at which
  that day begins. The query's bounds are the midnights of the two dates.
- The stores are objects: `Store.MeasurementStore` holds `records: seq<Measurement>`,
  `Users.UserTable` holds `users: seq<User>` and the id of the next user.
  Their methods change those fields. The read-only routes (`Measurements.Query`,
  `Metrics.Metrics`, `Users.Login`, `Users.VerifyRequest`) are functions of
  the stored sequence.
- The database's `find`/`sort` is an explicit filter (`Select`), projection
  (`ProjectAll`) and insertion sort (`SortByTime`). The database does not
  promise an order between records with equal timestamps. So the query's
  contract promises only what the database promises: the result is sorted by
  timestamp and is a permutation of the projected selection.
- Field values are `real`. The metrics state the variance (`÷ N`). The route
  reports its square root as the standard deviation.
- Query-string and body parameters are `Option<string>`: `None` is an absent
  parameter. Like the route's `!x` test, an empty string counts as missing
  (`Requests.Present`). The password of register and login is a
  `Requests.BodyValue`, because the routes treat a non-string password in a
  particular way.
- Library calls are parameters. The token verifier is a function
  `string -> Option<P>`. The password hash, hash check and token signer are
  the three functions of a `Users.Crypto` value. The one property assumed of
  them is `compare(p, hash(p))` (`Users.CompareAcceptsOwnHash`). The weather
  provider's reply, the clock (`now`, also the instant a token is signed at)
  and the seed's `Math.random` values are plain arguments.
- Responses carry a `Users.Identity` (id, username, email). No response type
  has a field for the password hash, so no response can contain it.

Behaviour of the code worth knowing, which the model keeps:

- The query's upper bound is the midnight that begins the end date
  (routes/api.js:23, 32). A record later on the end date is not returned.
  `Measurements.BoundaryInstants` and `Measurements.NoonOfEndDateIsOutside`
  state this.
- The code never checks that the start date is not after the end date. Such a
  query selects nothing and answers 404 (`Measurements.StartAfterEndIsNotFound`).
- The weather route's 401s come from the middleware, with its own two
  messages (missing token; invalid or expired token), and the model keeps
  that distinction.
- The weather route saves the record before it reads `location.name` from
  the provider's reply (routes/api.js:70, 75). A reply without a location is
  answered with the 500 although the record has been stored.

## Model

| member | source | states |
|---|---|---|
| `Dates.ParseDate` | routes/api.js:22-23 | a string is accepted only if it is the canonical `YYYY-MM-DD` spelling of a date with year 0000-9999, month 01-12 and a day that exists in that month and year |
| `Dates.ParseFormat` | routes/api.js:22-23 | every valid date is accepted when spelled canonically, and parses back to itself |
| `Dates.ParseAcceptsExactlyCanonical` | routes/api.js:22-25 | `ParseDate(s) == Some(d)` if and only if `d` is valid and `s` is its canonical spelling |
| `Dates.RejectsUnpaddedDate` | routes/api.js:22-26 | "2024-1-1" is not a valid date format: the parse is strict and lengths are fixed |
| `Dates.RejectsOverflowingDate` | routes/api.js:22-26 | "2024-13-40" is rejected rather than rolled over into a later date |
| `Dates.LeapDayExistsOnlyInLeapYears` | routes/api.js:22-26 | "2023-02-29" is rejected and "2024-02-29" parses to 29 February 2024 |
| `Dates.FormatDate` | routes/api.js:22 | the canonical spelling has the `dddd-dd-dd` shape |
| `Dates.DayNumberOrder` | routes/api.js:29-34 | for valid dates, day numbers follow calendar order in both directions, and equal day numbers mean equal dates |
| `Dates.MidnightOrder` | routes/api.js:31-32 | midnights are strictly increasing in the day number, in both directions |
| `Measurements.ParseField` | routes/api.js:8 | a `field` parameter is accepted exactly when it is present, non-empty and one of "field1", "field2", "field3", and the accepted field has that name |
| `Measurements.ParseFieldName` | routes/api.js:8 | each field's own name is accepted and parses back to that field |
| `Measurements.Select` | routes/api.js:29-36 | every record with `lo <= timestamp <= hi` is kept with its multiplicity, and no other record is kept |
| `Measurements.SortByTime` | routes/api.js:38 | the result is sorted by ascending timestamp and is a permutation of the input |
| `Measurements.Insert` | routes/api.js:38 | inserting adds exactly the one point to the multiset of points, and the new head is the point or the old head |
| `Measurements.InsertSorted` | routes/api.js:38 | inserting into a sequence sorted by timestamp keeps it sorted |
| `Measurements.ConsSorted` | routes/api.js:38 | a point no later than the head of a sorted sequence can be put in front of it |
| `Measurements.SelectMembership` | routes/api.js:29-36 | a record is in the selection if and only if it is stored and within the bounds |
| `Measurements.ProjectMembership` | routes/api.js:37 | a point is in the projection if and only if it is the projection of some record |
| `Measurements.ProjectAll` | routes/api.js:37 | each record becomes its timestamp and the requested field's value, in order |
| `Measurements.Query` | routes/api.js:10-44 | a bad field gives 400 first, then missing dates, then a bad date format; a valid request is answered either with a success or with the 404, and with the 404 exactly when no record is in range; a success is non-empty, sorted and a permutation of the projected in-range records |
| `Measurements.QueryContents` | routes/api.js:29-38 | a point is in a successful result if and only if it is the projection of a stored record within the two midnights |
| `Measurements.StartAfterEndIsNotFound` | routes/api.js:29-42 | a start date after the end date always gives the 404 |
| `Measurements.BoundaryInstants` | routes/api.js:29-34 | a record at the start date's midnight is returned; a record after the end date's midnight never is |
| `Measurements.NoonOfEndDateIsOutside` | routes/api.js:32 | a record at noon on the end date is not found by a one-day query for that date |
| `Metrics.Min` | routes/api.js:99 | the minimum is one of the values and bounds all of them from below |
| `Metrics.Max` | routes/api.js:100 | the maximum is one of the values and bounds all of them from above |
| `Metrics.SquaredDeviations` | routes/api.js:101 | the sum of squared deviations is never negative |
| `Metrics.SumBounds` | routes/api.js:98 | values in `[lo, hi]` sum to between `N * lo` and `N * hi` |
| `Metrics.MeanBounds` | routes/api.js:98 | the mean times `N` is the sum, and the mean lies between any lower and upper bound of the values |
| `Metrics.QuotientBounds` | routes/api.js:98 | a total between `N * lo` and `N * hi`, divided by `N`, lies between `lo` and `hi` |
| `Metrics.Summarize` | routes/api.js:94-104 | the average is the sum divided by N; min and max are attained and bound every value; min <= average <= max; the variance is the sum of squared deviations from the average divided by N, and is never negative |
| `Metrics.Values` | routes/api.js:98-101 | one value of the requested field per stored record, in store order |
| `Metrics.Metrics` | routes/api.js:86-108 | a bad field gives 400; with a valid field the 404 is returned exactly when the store is empty and a non-empty store always gives a success; a success describes the field's values over the whole store as `Summarize` does |
| `Metrics.ConstantValuesHaveNoSpread` | routes/api.js:98-101 | when all values are equal, the sum is N times the value and the variance is zero |
| `Metrics.PopulationExample` | routes/api.js:94-104 | for 10, 20, 30: average 20, min 10, max 30, variance 200/3 (divide by N) |
| `Store.MeasurementStore.Save` | routes/api.js:63-70 | one record is appended and the earlier records are unchanged |
| `Store.MeasurementStore.RecordWeather` | routes/api.js:52-84 | rejected by the middleware gives 401, then a missing city gives 400, then a failed provider call gives 500, and these leave the store unchanged; a reply with readings appends exactly one record (now, temp_c, humidity, pressure_mb), even when it lacks a location and is answered with the 500; success happens exactly when the reply also has a location, and repeats the provider's city and readings |
| `Store.AppendedRecordIsQueried` | routes/api.js:29-44 | a record appended at `now` is returned by any later query whose range covers `now` |
| `Store.MeasurementStore.Clear` | scripts/seed.js:14 | every record is deleted |
| `Store.MeasurementStore.InsertMany` | scripts/seed.js:33 | the list is appended in order |
| `Bearer.ExtractToken` | middleware/auth.js:4-5 | a token is found only when the header is exactly "Bearer " followed by it, and the token is non-empty |
| `Bearer.ExtractExactly` | middleware/auth.js:5 | `ExtractToken(h) == Some(t)` if and only if `h` is "Bearer " + `t` and `t` is non-empty: the round trip in both directions |
| `Bearer.NoTokenExamples` | middleware/auth.js:4-9 | "Bearer " alone, "bearer abc", "Bearerabc", an empty header and no header carry no token |
| `Bearer.Authenticate` | middleware/auth.js:3-17 | no token gives 'Missing Authorization token'; a token the verifier refuses gives 'Invalid or expired token'; otherwise the request proceeds once with the verifier's payload as its user |
| `Bearer.BearerHeaderReachesVerifier` | middleware/auth.js:5-14 | for a header "Bearer t" the verifier decides alone, on exactly `t` |
| `Users.FindByUsername` | routes/auth.js:55 | a user is found only if it has that username, and nothing is found only if no user has it |
| `Users.FindById` | routes/auth.js:77 | a user is found only if it has that id, and nothing is found only if no user has it |
| `Users.FoundUserIsTheOne` | routes/auth.js:55 | in a table with unique usernames, the lookup finds the one user with that name |
| `Users.TokenIgnoresPasswordHash` | routes/auth.js:12-18 | the token (`SignToken`) claims only the public fields: at one instant, users with the same id, username and email get the same token whatever their stored hash |
| `Users.UserTable.Register` | routes/auth.js:20-46 | missing fields, then a non-string or short password, then a taken username or email, in that order, each answered without changing the table; success adds exactly one user with the next id and `hash(password)`, keeps usernames, emails and ids unique, and returns a token and the public fields |
| `Users.Login` | routes/auth.js:48-73 | missing fields give 400; an unknown username gives 'Invalid credentials'; for a known user and a string password, login succeeds exactly when the stored hash accepts the password and otherwise gives 'Invalid credentials'; a non-string password for a known user gives the 500; a success carries the token signed at the login instant and the public fields of that user |
| `Users.LoginFailureIsUniform` | routes/auth.js:55-63 | in a table with unique usernames, login fails with 'Invalid credentials' exactly when no user of that name accepts the password, so an unknown user and a wrong password look the same |
| `Users.LoginAfterRegister` | routes/auth.js:35-69 | logging in after a registration, with the same username and password, succeeds with the same public fields as the registration and the token signed for that user at the login instant |
| `Users.VerifyRequest` | routes/auth.js:75-85 | the middleware's 401s pass through; then the answer is a success or 'User not found', and 'User not found' exactly when no user has the token's id; a success is the public view of the user with that id |
| `Seed.Draw` | scripts/seed.js:27-29 | `floor(r * n) + base` lies in `[base, base + n - 1]` for `0 <= r < 1` |
| `Seed.GenerateMeasurements` | scripts/seed.js:17-31 | 31 records at the midnights of today-30 up to today; record k uses draws 3k, 3k+1 and 3k+2, with field1 in 50-149, field2 in 100-299 and field3 in 10-59 |
| `Seed.SeedStore` | scripts/seed.js:9-34 | afterwards the store holds exactly the generated records and nothing else |
| `Seed.SeededTimestampsAscend` | scripts/seed.js:20-23 | seeded timestamps are strictly ascending, one day apart, and the last is today's midnight |
| `Seed.SeededField1Metrics` | scripts/seed.js:27 | after seeding, field1 metrics satisfy 50 <= min <= average <= max <= 149 |

## Left out

- Storage failures (the 500 'Server error' of every route when the database is unavailable) are not modelled. The provider failure of the weather route is modelled as one generic outcome (`ProviderFailed`).
- The weather provider call itself (URL construction with the API key, the HTTP request, its time-out) is network I/O. Its reply is a parameter.
- Tokens depend on the clock: the signer embeds the issue instant and an expiry seven days later, so tokens signed at different instants differ. The model passes the instant to `sign` and does not model expiry checks beyond the verifier parameter.
- Password hashing with salt and cost factor, token signing and token expiry (`'7d'`) are library internals. They are the functions of `Users.Crypto` and the verifier parameter of `Bearer.Authenticate`. Only `compare(p, hash(p))` is assumed.
- `toFixed(2)` rounding of the average and standard deviation, and the square root itself, are floating-point formatting. The model states the exact mean and variance over `real`.
- Time zones: the date library takes midnights in local time. The model uses one integer scale with `Midnight(day) = day * 86400000`.
- Database details are not modelled: records missing a field (which the aggregation would skip), unique indexes, and concurrent appends or registrations.
- Non-string `username`, `email`, `field`, `city`, `start_date` or `end_date` values (arrays, numbers, objects) are out of scope: every such parameter is a string or absent in this model. Only the password's type is modelled, because the routes test it.
- Users.UserTable.Register: password length is counted in Unicode characters. JavaScript counts UTF-16 code units, so a password with characters outside the Basic Multilingual Plane has a different length.
- Users.UserTable.Register: a new user's id is the next value of a counter. The database's generated identifiers are only modelled as fresh and distinct.
- The browser dashboard, server start-up and wiring, console logging and `process.exit` of the seed script are not part of this model.
