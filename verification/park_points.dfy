/** The park point record, its remaining time and the expiry sweep of the
    in-memory store (backend/src/server.ts). Time is integer milliseconds
    since the epoch; the current time `now` is a parameter. */
module ParkPoints {
  import Seqs

  /** Milliseconds in a minute (`60 * 1000` in server.ts). */
  const MsPerMinute: int := 60000

  datatype Coordinate = Coordinate(latitude: real, longitude: real)

  /** A time-boxed parking claim: `duration` in minutes, `timestamp` (the
      creation time) in milliseconds. */
  datatype ParkPoint = ParkPoint(id: string, coordinate: Coordinate, duration: int, timestamp: int)

  /** The instant the claim runs out. */
  function EndTime(p: ParkPoint): int {
    p.timestamp + p.duration * MsPerMinute
  }

  /** A point survives a sweep at `now` when its end lies strictly after `now`. */
  predicate Alive(p: ParkPoint, now: int) {
    EndTime(p) > now
  }

  function Max(a: int, b: int): (m: int)
    ensures m >= a && m >= b && (m == a || m == b)
  {
    if a >= b then a else b
  }

  /** Whole minutes needed to cover `ms` milliseconds, rounding up
      (`Math.ceil(ms / 60000)`). */
  function CeilMinutes(ms: int): (r: int)
    ensures (r - 1) * MsPerMinute < ms <= r * MsPerMinute
  {
    -((-ms) / MsPerMinute)
  }

  /** The ceiling is the only whole number of minutes with that property. */
  lemma CeilMinutesUnique(ms: int, r: int)
    requires (r - 1) * MsPerMinute < ms <= r * MsPerMinute
    ensures CeilMinutes(ms) == r
  {
    var c := CeilMinutes(ms);
    assert (c - 1) * MsPerMinute < ms <= c * MsPerMinute;
  }

  /** `calculateRemainingTime`: minutes left until the end time, rounded up
      and clamped at zero. */
  function RemainingTime(p: ParkPoint, now: int): (r: int)
    ensures r >= 0
    ensures r == 0 <==> !Alive(p, now)
    ensures Alive(p, now) ==> (r - 1) * MsPerMinute < EndTime(p) - now <= r * MsPerMinute
  {
    Max(0, CeilMinutes(EndTime(p) - now))
  }

  /** After `elapsed` milliseconds a point has its duration less the whole
      minutes elapsed left, never less than zero: it shows its full duration
      for the whole first minute and one minute less after exactly 60 s. */
  lemma RemainingTimeAfterElapsed(p: ParkPoint, elapsed: int)
    ensures RemainingTime(p, p.timestamp + elapsed) == Max(0, p.duration - elapsed / MsPerMinute)
  {
    var q, m := elapsed / MsPerMinute, elapsed % MsPerMinute;
    assert elapsed == q * MsPerMinute + m && 0 <= m < MsPerMinute;
    var left := EndTime(p) - (p.timestamp + elapsed);
    assert left == (p.duration - q) * MsPerMinute - m;
    CeilMinutesUnique(left, p.duration - q);
  }

  /** Remaining time never grows as the clock advances. */
  lemma RemainingTimeMonotone(p: ParkPoint, earlier: int, later: int)
    requires earlier <= later
    ensures RemainingTime(p, later) <= RemainingTime(p, earlier)
  {
    var a, b := EndTime(p) - earlier, EndTime(p) - later;
    var ca, cb := CeilMinutes(a), CeilMinutes(b);
    assert (ca - 1) * MsPerMinute < a && b <= cb * MsPerMinute && b <= a;
  }

  /** The keep-condition of the sweep at `now`. */
  function AliveAt(now: int): ParkPoint -> bool {
    p => Alive(p, now)
  }

  /** `cleanExpiredParkPoints`: the store filtered down to the live points. */
  function Sweep(store: seq<ParkPoint>, now: int): (r: seq<ParkPoint>)
    ensures |r| <= |store|
    ensures forall p :: p in r <==> p in store && Alive(p, now)
    ensures forall i :: 0 <= i < |r| ==> RemainingTime(r[i], now) >= 1
  {
    Seqs.Filter(AliveAt(now), store)
  }

  /** A live point survives the sweep as many times as it was stored. */
  lemma SweepMultiplicity(store: seq<ParkPoint>, now: int)
    ensures forall p :: multiset(Sweep(store, now))[p] == if Alive(p, now) then multiset(store)[p] else 0
  {
    Seqs.FilterMultiplicity(AliveAt(now), store);
  }

  /** Survivors of a sweep keep their relative order. */
  lemma SweepIsSubsequence(store: seq<ParkPoint>, now: int)
    ensures Seqs.IsSubsequence(Sweep(store, now), store)
  {
    Seqs.FilterIsSubsequence(AliveAt(now), store);
  }

  /** Sweeping twice at the same instant is sweeping once. */
  lemma SweepIdempotent(store: seq<ParkPoint>, now: int)
    ensures Sweep(Sweep(store, now), now) == Sweep(store, now)
  {
    Seqs.FilterIdempotent(AliveAt(now), store);
  }

  /** A sweep at a later instant subsumes one at an earlier instant, in
      either order: the periodic timer sweep never changes what a later
      sweep leaves behind. */
  lemma SweepLaterSubsumes(store: seq<ParkPoint>, earlier: int, later: int)
    requires earlier <= later
    ensures Sweep(Sweep(store, earlier), later) == Sweep(store, later)
    ensures Sweep(Sweep(store, later), earlier) == Sweep(store, later)
  {
    Seqs.FilterAbsorbs(AliveAt(later), AliveAt(earlier), store);
    Seqs.FilterCommute(AliveAt(later), AliveAt(earlier), store);
  }

  /** A store holding only live points is left as it is. */
  lemma SweepKeepsLiveStore(store: seq<ParkPoint>, now: int)
    requires forall i :: 0 <= i < |store| ==> Alive(store[i], now)
    ensures Sweep(store, now) == store
  {
    Seqs.FilterKeepsAll(AliveAt(now), store);
  }

  /** Sweeping a concatenation sweeps each part. */
  lemma SweepConcat(a: seq<ParkPoint>, b: seq<ParkPoint>, now: int)
    ensures Sweep(a + b, now) == Sweep(a, now) + Sweep(b, now)
  {
    Seqs.FilterConcat(AliveAt(now), a, b);
  }
}
