# GPark parking-spot booking: a Dafny model

GPark is a small parking-spot booking service. This project models its core:

- **The operator's spot registry.** This is the `/admin` router in `public/routes/admin.js`. It creates a spot, switches it on or off, deletes it, replaces its rate table and records an operator booking against an active spot.
- **The public booking endpoint.** This is `server.js`. It builds a fixed list of twenty five-digit spot ids. `POST /api/bookings` then refuses a request with a missing field, an unknown spot, or a spot that an earlier booking already names.
- **The computations of the operator page.** These are in `public/js/admin.js`: the table of duration tiers, the rate shown for a tier, the "time left" column and the `msToTime` rendering that column uses.

Modules:

- `JsValues` (`js_values.dfy`): the JSON values a request body carries and the JavaScript operations the handlers apply to them.
  - An absent key is `Undefined`.
  - Truthiness is the value of `!!v`.
  - `===` compares primitives by value. It never holds between two arrays or two objects parsed from requests.
  - It also covers `typeof v === 'object'`, `Object.entries` and the decimal rendering of a whole number, which comes with its inverse.
- `AdminRoutes` (`admin_routes.dfy`): the class `AdminStore` holds the spot list and the booking list. Each route handler is one method that changes them. Its `Response` carries the status and the exact message the route answers with.
- `Server` (`server.dfy`): the start-up loop that builds the spot list, and the class `BookingServer` with `PostBooking`. Its invariant is exclusivity: no two bookings name the same spot.
- `AdminView` (`admin_view.dfy`): covers the following.
  - The tier table.
  - The rate-form default.
  - `msToTime`: a method doing the source's successive appends and trim, proved equal to a word-list specification `TimeText`. A reader function recovers hours, minutes and seconds from that text.
  - The time-left/"Expired" rule.

The model follows the code, including these behaviours:

- **Server conflict check.** `POST /api/bookings` refuses a spot if any earlier booking names it. It does not ask whether that booking has expired.
- **Operator bookings.** The operator booking route does not look at other bookings at all.
- **Spot deletion.** Deleting a spot does not look at its bookings.
- **Rates at booking time.** No rate is checked when a booking is made.

## Model

| member | source | states |
|---|---|---|
| JsValues.NatToString | server.js:18-19 | `i.toString()` of a whole number is a non-empty string of decimal digits, and it begins with '0' only for 0 |
| JsValues.ParseNatToString | server.js:18-19 | reading back the decimal rendering of any whole number gives the number |
| JsValues.NatToStringInjective | server.js:18-19 | distinct numbers render as distinct strings |
| AdminRoutes.FindIndex | public/routes/admin.js:48 | `find`/`findIndex` by `===` on the id: the result is the first spot whose id is strictly equal, and none exactly when no spot's id is |
| AdminRoutes.FindIndexSameIds | public/routes/admin.js:90 | lookup depends only on the ids, so changing a spot's flag or rates leaves every lookup unchanged |
| AdminRoutes.EntryError | public/routes/admin.js:95-100 | one rates entry is refused with "Invalid duration" exactly when its key is not a tier, and with "Invalid rate" exactly when the key is a tier but the value is not a number of zero or more |
| AdminRoutes.FirstRateError | public/routes/admin.js:93-101 | no error exactly when every entry passes; otherwise the error is that of the first failing entry, with all earlier entries passing |
| AdminRoutes.ValidateRates | public/routes/admin.js:93-101 | the validation loop returns at the first failing entry, giving exactly the error FirstRateError specifies |
| AdminRoutes.RatesMap | public/routes/admin.js:103 | a rate table stored after validation names only tiers and holds only prices of zero or more |
| AdminRoutes.RatesMapKeys | public/routes/admin.js:103 | the stored table has exactly the keys of the request's object, so nothing of the previous table survives |
| AdminRoutes.RatesMapValue | public/routes/admin.js:103 | each key of the request's object is stored with the number given for it (a parsed object lists each key once, so the lemma's condition that no later entry repeats the key always holds) |
| AdminRoutes.AppendKeepsIdsDistinct | public/routes/admin.js:48-52 | appending a spot whose id no spot has keeps the ids pairwise distinct under `===` |
| AdminRoutes.AppendThenFound | public/routes/admin.js:48-52 | after creation a primitive id is found at the new last position; an array or object id can never be found again |
| AdminRoutes.RemoveKeepsIdsDistinct | public/routes/admin.js:73-76 | removing one spot keeps the registry valid |
| AdminRoutes.RemoveThenNotFound | public/routes/admin.js:73-76 | once the spot found for an id is spliced out, no spot answers to that id |
| AdminRoutes.UpdateKeepsRegistryValid | public/routes/admin.js:62-65 | changing a spot's flag or rates, not its id, keeps the registry valid when the new rates are valid |
| AdminRoutes.AdminStore.constructor | public/routes/admin.js:9-10 | both lists start empty and the registry is valid |
| AdminRoutes.AdminStore.CreateSpot | public/routes/admin.js:44-55 | a falsy id gives 400 "Spot ID required"; an id already present gives 400 "Spot already exists"; otherwise an active spot with an empty rate table is appended and 201 "Spot added" answered; errors change nothing; ids stay distinct |
| AdminRoutes.AdminStore.SetActive | public/routes/admin.js:58-68 | an unknown id gives 404 "Spot not found"; otherwise only the first matching spot's flag becomes `!!active` and every other spot is unchanged |
| AdminRoutes.AdminStore.DeleteSpot | public/routes/admin.js:71-79 | an unknown id gives 404; otherwise exactly the matching spot is removed, the others keep their order, and the bookings are untouched |
| AdminRoutes.AdminStore.SetRates | public/routes/admin.js:82-106 | the checks run in the source's order: non-object rates give 400, then an unknown spot gives 404, then the first bad entry gives its 400; on success only that spot's rate table is replaced by the request's, and the reply carries the updated spot |
| AdminRoutes.AdminStore.AddBooking | public/routes/admin.js:116-132 | a falsy field gives 400 "Missing booking details"; an unknown or inactive spot gives 400; otherwise one booking stamped with `now` is appended and 201 answered, without regard to other bookings |
| AdminRoutes.SetRatesTwice | public/routes/admin.js:103 | the rates request is idempotent: repeating it gives the same answer and leaves the registry as the first call left it |
| Server.BuildSpotList | server.js:17-20 | the start-up loop yields twenty ids, the k-th being `(10000 + k).toString()`, i.e. exactly "10000" to "10019" |
| Server.SpotIdText | server.js:18-19 | `(10000 + k).toString()` is "100" followed by the two digits of k, for k below 20 |
| Server.SpotListIsLiterals | server.js:17-20 | the loop's list is the literal list "10000" … "10019" |
| Server.SpotListAscending | server.js:17-20 | every id has five digits and reads back as 10000 + k, so the ids ascend and are distinct |
| Server.AppendKeepsExclusive | server.js:42-48 | appending a booking for a spot no booking names keeps exclusivity |
| Server.BookingServer.constructor | server.js:14-20 | the spot list is the built list, there are no bookings, and the invariant holds |
| Server.BookingServer.PostBooking | server.js:28-51 | a falsy field gives 400 "Missing required fields"; an unlisted spot gives 400 "Invalid parking spot ID"; a spot some booking names gives 409; otherwise one booking stamped with `now` is appended and the three fields are echoed; exclusivity is preserved |
| Server.SecondBookingConflicts | server.js:42-45 | once a booking for a spot succeeds, a second complete request for that spot is refused with a conflict, whatever its plate, duration and time |
| AdminView.DurationsMatchTiers | public/js/admin.js:1-10 | the rate form offers exactly the eight tiers the rates route accepts, in the same order |
| AdminView.DurationsAscend | public/js/admin.js:1-10 | the tier values are the decimal renderings of 30, 45, 60, 120, 240, 480, 720 and 1440 minutes, which ascend |
| AdminView.RateShown | public/js/admin.js:208 | the form shows the stored rate for a tier, or 0 when there is none, so what it shows is never negative for a valid table |
| AdminView.RateShownAfterSetRates | public/js/admin.js:208 | after a successful rates request the form shows, for each tier, the number the request gave it, and 0 for a tier the request left out |
| AdminView.ClockOf | public/js/admin.js:115-117 | the seconds, minutes and hours `msToTime` shows are below 60, 60 and 24 respectively |
| AdminView.MsToTime | public/js/admin.js:114-124 | the successive appends, trim and "0s" fallback yield exactly TimeText: the non-zero parts among hours, minutes and seconds, in that order, separated by single spaces, or "0s" when all are zero |
| AdminView.ReadTimeTextRoundTrip | public/js/admin.js:119-123 | reading the shown text back gives the hours, minutes and seconds it was made from |
| AdminView.TimeTextInjective | public/js/admin.js:119-123 | different hour/minute/second triples are shown differently |
| AdminView.TimeTextZero | public/js/admin.js:123 | the text is never empty, and it is "0s" exactly when all three parts are zero |
| AdminView.TimeTextStartsWithDigit | public/js/admin.js:119-123 | the text always starts with a digit, so it can never be "Expired" |
| AdminView.UnderOneSecond | public/js/admin.js:115-123 | less than a second shows as "0s" |
| AdminView.TimeLeft | public/js/admin.js:95-98 | the column shows "Expired" exactly when the booking's minutes have fully elapsed, and otherwise the remaining milliseconds as `msToTime` renders them |
| AdminView.ExpiryBoundary | public/js/admin.js:95-98 | a 30-minute booking shows "Expired" at exactly 30 minutes and "1s" one second before |
| AdminView.LastSecondShowsZero | public/js/admin.js:95-98 | in its last second a booking is not yet expired but shows "0s" |
| AdminView.FullDayShowsZero | public/js/admin.js:95-98 | since hours wrap at 24, a 24-hour booking viewed at the instant it is made shows "0s" |

## Left out

- Persistence is not modelled. This covers loading and creating `spots.json` and `bookings.json` at start-up, and `saveSpots`/`saveBookings` after each change. The model starts from empty lists, as when no files exist. It assumes a loaded file would satisfy the registry invariant: distinct ids and valid rate tables.
- The GET routes (`/spots`, `/bookings`, `/api/spots`) only return the current lists, so they are not modelled.
- Express wiring, static file serving, the body parsers and `app.listen` are not modelled. Request bodies are given as already-parsed `Json` values. This covers both parsers that reach the operator routes: JSON bodies, and URL-encoded bodies (`express.urlencoded({ extended: true })`, public/app.js:6). A URL-encoded body has string leaves: `rates[30]=5` arrives as `Str("5")` and is refused as "Invalid rate for 30", and `active=false` arrives as the truthy `Str("false")`.
- Requests are processed one at a time. Concurrency is out of scope.
- The clock (`Date.now()`) is the `now` parameter.
- On the operator page, the DOM, `fetch`, alerts, navigation, logout, the bulk activate/deactivate actions (`Promise.all` over requests) and the rate-form submission are not modelled. They are I/O around the routes modelled above.
- `public/app.js` is the Express app that mounts the operator routes at `/admin` (public/app.js:11-12) and installs the JSON and URL-encoded body parsers. Only its effect on the request bodies is modelled, as described above; its 404 fallback and home route are not.
- AdminRoutes.RatesMap: stores the validated rate entries as a table from tier to price, not as the request's object itself. An empty array passes validation just as an empty object does, and both are modelled as the empty table.
- AdminView.TimeLeft: takes the booking's duration as a whole number of minutes. The page would also coerce a numeric string such as "30". It would compute with fractional or non-numeric values, which the model does not cover.
- AdminView.MsToTime: takes a whole, non-negative number of milliseconds. The page can pass a non-whole remainder, because both booking routes accept any truthy duration (server.js:32, public/routes/admin.js:118): a duration of `30.00001` minutes gives 1800000.6 ms minus the time elapsed. For a positive `d` every part `msToTime` shows is a floor, so `msToTime(d)` shows the same text as `msToTime(floor(d))`. The model does not state or prove that step.
- Numbers are real numbers. A JSON literal out of the double range, such as `1e400` or `-1e400`, parses to `Infinity` or `-Infinity`, which `Num` does not represent. The rate check treats them as it treats a large positive or negative real: `Infinity` is accepted and stored (public/routes/admin.js:98, 103), and `-Infinity` is refused. NaN cannot arise from a JSON body.
