/** `createNearbyPoints`: the four test points seeded around a location when
    the store is empty. `Math.random()` becomes a sequence of samples in
    [0, 1), consumed in the order the server draws them: for the point at
    index i, sample 2i gives its duration and sample 2i+1 its age. */
module NearbyPoints {
  import opened ParkPoints
  import Decimal

  /** Degrees added to the base location: upper right, lower right, upper
      left, lower left. */
  const Offsets: seq<Coordinate> := [
    Coordinate(0.001, 0.001),
    Coordinate(-0.001, 0.001),
    Coordinate(0.001, -0.001),
    Coordinate(-0.001, -0.001)
  ]

  const SeedCount: nat := 4

  predicate IsUnitSample(x: real) {
    0.0 <= x < 1.0
  }

  /** Enough `Math.random()` values for every seed point. */
  predicate ValidSamples(rand: seq<real>) {
    |rand| == 2 * SeedCount && forall i :: 0 <= i < |rand| ==> IsUnitSample(rand[i])
  }

  /** `Math.floor(Math.random() * 60) + 30`: between 30 and 89 minutes. */
  function SeedDuration(x: real): (d: int)
    requires IsUnitSample(x)
    ensures 30 <= d <= 89
  {
    (x * 60.0).Floor + 30
  }

  /** `Math.floor(Math.random() * 30)`: the seed's age, 0 to 29 minutes. */
  function SeedAgeMinutes(x: real): (m: int)
    requires IsUnitSample(x)
    ensures 0 <= m <= 29
  {
    (x * 30.0).Floor
  }

  function Shift(base: Coordinate, offset: Coordinate): Coordinate {
    Coordinate(base.latitude + offset.latitude, base.longitude + offset.longitude)
  }

  function SeedPoint(base: Coordinate, now: int, rand: seq<real>, i: nat): ParkPoint
    requires ValidSamples(rand) && i < SeedCount
  {
    ParkPoint(
      Decimal.IntToString(i + 1),
      Shift(base, Offsets[i]),
      SeedDuration(rand[2 * i]),
      now - SeedAgeMinutes(rand[2 * i + 1]) * 60 * 1000)
  }

  function Abs(x: real): real {
    if x < 0.0 then -x else x
  }

  function CreateNearbyPoints(base: Coordinate, now: int, rand: seq<real>): (r: seq<ParkPoint>)
    requires ValidSamples(rand)
    ensures |r| == SeedCount
    ensures forall i :: 0 <= i < |r| ==> r[i].id == Decimal.IntToString(i + 1)
    ensures r[0].id == "1" && r[1].id == "2" && r[2].id == "3" && r[3].id == "4"
    ensures r[0].coordinate == Coordinate(base.latitude + 0.001, base.longitude + 0.001)
    ensures r[1].coordinate == Coordinate(base.latitude - 0.001, base.longitude + 0.001)
    ensures r[2].coordinate == Coordinate(base.latitude + 0.001, base.longitude - 0.001)
    ensures r[3].coordinate == Coordinate(base.latitude - 0.001, base.longitude - 0.001)
    ensures forall i, j :: 0 <= i < j < |r| ==> r[i].coordinate != r[j].coordinate
    ensures forall i :: 0 <= i < |r| ==>
              && Abs(r[i].coordinate.latitude - base.latitude) == 0.001
              && Abs(r[i].coordinate.longitude - base.longitude) == 0.001
    ensures forall i :: 0 <= i < |r| ==> 30 <= r[i].duration <= 89
    ensures forall i :: 0 <= i < |r| ==>
              && now - 29 * MsPerMinute <= r[i].timestamp <= now
              && (now - r[i].timestamp) % MsPerMinute == 0
    ensures forall i :: 0 <= i < |r| ==> Alive(r[i], now) && RemainingTime(r[i], now) >= 1
  {
    seq(SeedCount, i requires 0 <= i < SeedCount => SeedPoint(base, now, rand, i))
  }

  /** Freshly seeded points are all live, so a sweep at the seeding instant
      keeps every one of them. */
  lemma SeedsSurviveSweep(base: Coordinate, now: int, rand: seq<real>)
    requires ValidSamples(rand)
    ensures Sweep(CreateNearbyPoints(base, now, rand), now) == CreateNearbyPoints(base, now, rand)
  {
    SweepKeepsLiveStore(CreateNearbyPoints(base, now, rand), now);
  }
}
