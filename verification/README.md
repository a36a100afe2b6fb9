# Park-point store of parkyeri, in Dafny

parkyeri is a prototype "find a parking spot" app. Its backend keeps an
in-memory list of park points. A park point is a time-boxed claim that a
coordinate is occupied: it has an id, a coordinate, a `duration` in minutes
and a creation `timestamp` in milliseconds. This project models that store
and the three `/park-points` handlers as pure functions on `seq<ParkPoint>`.
It also models the map view's colour choice for a street's parking
probability.

The clock (`Date.now()`) and `Math.random()` become parameters. `now` is an
integer number of milliseconds. The random values are a sequence of reals in
[0, 1).

Modules, one per concept:

- `Seqs` (`seqs.dfy`): order-preserving filter. The sweep and the delete
  both use it. It comes with subsequence, concatenation, idempotence,
  absorption and commutation lemmas.
- `Decimal` (`decimal.dfy`): `toString` of an integer and its inverse parse.
  Point ids are built with it.
- `ParkPoints` (`park_points.dfy`): the record, its end time, the
  remaining-time calculation and the expiry sweep.
- `NearbyPoints` (`nearby_points.dfy`): the four seed points created when a
  POST finds the store empty.
- `Routes` (`routes.dfy`): the GET, POST and DELETE handler bodies. Each
  returns the new store together with the response body.
- `ProbabilityColor` (`probability_color.dfy`): the three-band colour
  classification used by the map view.

The store's behaviour follows `backend/src/server.ts`. Points there have
no owner, and DELETE answers every request with 204. There is no report
endpoint and no street-probability estimator. DELETE removes every point
with the given id, so deleting twice equals deleting once
(`Routes.DeleteIdempotent`).

## Model

| member | source | states |
|---|---|---|
| Seqs.Filter | backend/src/server.ts:48-51 | The filter keeps exactly the elements satisfying the condition and never grows the sequence |
| Seqs.FilterMultiplicity | backend/src/server.ts:48-51 | Each kept element occurs as often as in the input; each rejected one does not occur |
| Decimal.NatToString | backend/src/server.ts:33 | The decimal rendering of a natural number is a non-empty digit string with no leading zero; it starts with '0' only for zero |
| Decimal.ParseNatToString | backend/src/server.ts:33 | Reading the decimal rendering of a natural number back gives that number |
| Decimal.IntToString | backend/src/server.ts:74 | `toString` of an integer starts with '-' exactly for negative numbers, followed by a canonical numeral |
| Decimal.ParseIntToString | backend/src/server.ts:74 | Every integer's rendering is a well-formed literal that parses back to the same integer |
| Decimal.IntToStringInjective | backend/src/server.ts:74 | Two clock readings give the same id exactly when they are equal |
| ParkPoints.CeilMinutes | backend/src/server.ts:58 | The result is the whole number of minutes r with (r-1) minutes < ms <= r minutes, that is the ceiling of ms / 60000 |
| ParkPoints.CeilMinutesUnique | backend/src/server.ts:58 | That ceiling is the only integer bracketing ms that way |
| ParkPoints.RemainingTime | backend/src/server.ts:55-59 | Remaining time is never negative; it is zero exactly when the end time is not after now; otherwise it is the ceiling of the milliseconds left in minutes |
| ParkPoints.RemainingTimeAfterElapsed | backend/src/server.ts:56-58 | At e ms after creation (any integer e) the remaining time is max(0, duration - floor(e / 60000)): the full duration for the first minute, one less after exactly 60 s |
| ParkPoints.RemainingTimeMonotone | backend/src/server.ts:55-59 | Remaining time never increases as the clock advances |
| ParkPoints.Sweep | backend/src/server.ts:46-52 | A point survives the sweep iff its end time is strictly after now; every survivor has remaining time at least 1 |
| ParkPoints.SweepMultiplicity | backend/src/server.ts:48-51 | A live point survives as many times as it was stored; an expired one not at all |
| ParkPoints.SweepIsSubsequence | backend/src/server.ts:48-51 | Survivors of the sweep keep their relative order |
| ParkPoints.SweepIdempotent | backend/src/server.ts:46-52 | Sweeping twice at the same instant gives the same store as sweeping once |
| ParkPoints.SweepLaterSubsumes | backend/src/server.ts:46-52 | Sweeps at an earlier and a later instant, in either order, leave what the later sweep alone leaves |
| ParkPoints.SweepKeepsLiveStore | backend/src/server.ts:48-51 | A store whose points are all live is unchanged by the sweep |
| ParkPoints.SweepConcat | backend/src/server.ts:48-51 | Sweeping a concatenation equals concatenating the sweeps of its parts |
| NearbyPoints.SeedDuration | backend/src/server.ts:38 | A seed duration drawn from a sample in [0, 1) lies between 30 and 89 minutes |
| NearbyPoints.SeedAgeMinutes | backend/src/server.ts:39 | A seed age drawn from a sample in [0, 1) lies between 0 and 29 minutes |
| NearbyPoints.CreateNearbyPoints | backend/src/server.ts:24-41 | Four seeds with ids "1" to "4" at the base shifted by 0.001 degrees towards the four distinct corners, durations in [30, 89], timestamps whole minutes in [now - 29 min, now], all live at now |
| NearbyPoints.SeedsSurviveSweep | backend/src/server.ts:38-39 | A sweep at the seeding instant keeps all four seeds |
| Routes.WithRemainingTime | backend/src/server.ts:64-67 | Annotating a point keeps every stored field and only adds the remaining time |
| Routes.Annotate | backend/src/server.ts:64-67 | One entry per point, in order; each entry has that point's stored fields unchanged plus its remaining time |
| Routes.GetParkPointsAt | backend/src/server.ts:62-69 | With the sweep reading the clock at one instant and the annotation at another, GET leaves exactly the store as swept at the first instant, every live copy kept in order, and lists each remaining point with its remaining time at the second instant; that is never negative, and at least 1 when the second instant is not later |
| Routes.GetParkPoints | backend/src/server.ts:62-69 | When both clock reads agree, GET leaves exactly the swept store (every live copy kept, in store order) and returns one entry per remaining point equal to it plus its remaining time, which is at least 1 |
| Routes.ClockTickCanListZero | backend/src/server.ts:63-66 | One millisecond between the sweep's clock read and the annotation's is enough for a listed point to show 0 minutes remaining |
| Routes.GetIdempotent | backend/src/server.ts:62-69 | A second GET at the same instant returns the same store and the same listing |
| Routes.PostParkPoint | backend/src/server.ts:71-91 | POST appends the new point last with id toString(now), timestamp now and the request's coordinate and duration, after the swept store, or after the four seeds when the sweep left nothing (5 points then); every other point is live; the response is the new point with remainingTime = duration |
| Routes.PostedPointListed | backend/src/server.ts:86-90 | With a positive duration, a GET right after the POST keeps the whole store and lists the new point last, exactly as the POST answered |
| Routes.PostedNonPositiveDurationHidden | backend/src/server.ts:73-90 | A duration of zero or less is stored and echoed, yet a GET at the same instant does not list the point |
| Routes.PostedPointLifetime | backend/src/server.ts:73-78 | A GET at any instant lists a posted point iff that instant is before the point's end time; its remaining time is its duration less the whole minutes elapsed, never below 0 |
| Routes.DeleteParkPoint | backend/src/server.ts:93-97 | DELETE keeps exactly the points whose id differs from the given one and removes all points with that id |
| Routes.DeleteMultiplicity | backend/src/server.ts:95 | Every point DELETE keeps stays as many times as it was stored |
| Routes.DeleteIsSubsequence | backend/src/server.ts:95 | The points a DELETE keeps stay in store order |
| Routes.DeleteAbsentIsNoop | backend/src/server.ts:94-96 | Deleting an id no point carries leaves the store unchanged |
| Routes.DeleteIdempotent | backend/src/server.ts:93-97 | Deleting the same id twice equals deleting it once |
| Routes.DeleteCommute | backend/src/server.ts:95 | Deletes of two ids give the same store in either order |
| Routes.SweepDeleteCommute | backend/src/server.ts:95 | The sweep and a DELETE give the same store in either order |
| Routes.SameInstantPostsShareId | backend/src/server.ts:74 | Two POSTs in the same millisecond store two points under one id, and one DELETE of that id removes both |
| ProbabilityColor.ColorBand | parkyeri/src/components/map/Map.tsx:19-23 | Each of the three colours reads back as the band that produces it |
| ProbabilityColor.GetProbabilityColor | parkyeri/src/components/map/Map.tsx:19-23 | Always one of the three colours: red iff p < 0.3, orange iff 0.3 <= p < 0.7, green iff p >= 0.7 |
| ProbabilityColor.ColorIdentifiesBand | parkyeri/src/components/map/Map.tsx:19-23 | The colour of a probability determines its band |
| ProbabilityColor.BandMonotone | parkyeri/src/components/map/Map.tsx:19-23 | The band rank is non-decreasing in the probability |

## Left out

- Express setup, CORS and JSON middleware, `app.listen` and the HTTP status codes (201, 204) are framework wiring. The handler bodies are modelled as functions.
- The 10-second `setInterval` sweep is timer machinery. `ParkPoints.SweepLaterSubsumes` shows that such a sweep never changes what a later sweep leaves.
- `Date.now()` is a parameter. server.ts reads the clock several times per handler, and those readings can differ by a millisecond or so. GET's two reads are modelled separately by `Routes.GetParkPointsAt`. The annotation takes one instant for all points, whereas server.ts reads the clock once per point.
- Routes.GetParkPoints: its "remaining time at least 1" holds only because the sweep's clock read and the annotation's are taken to be the same instant. `Routes.ClockTickCanListZero` shows a listed point with 0 minutes when they differ by 1 ms.
- Routes.PostParkPoint: the id and the timestamp come from two clock reads in server.ts, lines 74 and 77, and the seeds' timestamps come from further reads. The model gives all of them one `now`, so `id == toString(timestamp)` holds in the model but is not guaranteed by server.ts.
- `Math.random()` is a sequence of eight samples in [0, 1). Point i's duration uses sample 2i and its age uses sample 2i+1, in the order server.ts draws them.
- Floating point: coordinates are exact reals, so the rounding of `± 0.001` is not modelled. The remaining-time division is exact rational arithmetic on integer milliseconds; double-precision rounding of the quotient is not modelled.
- Request bodies are taken to hold a coordinate and an integer `duration`, as the client sends with `parseInt`. Missing fields, non-integer or non-numeric durations (including NaN) are not modelled.
- `Decimal.IntToString` does not model JavaScript's exponent notation for magnitudes of 10^21 and above. Clock values are far below that.
- `ProbabilityColor.GetProbabilityColor` takes a real. A NaN probability, which JavaScript would colour green, is not modelled.
- MongoDB persistence (`parkyeri/backend`), the fetch-based API client, every React screen and component, styles and configuration are out of scope. They are UI, network or storage code with no logic of the store.
