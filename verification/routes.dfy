/** The bodies of the `/park-points` handlers of backend/src/server.ts as pure
    transitions of the store. Each handler takes the store and the current
    time and returns the new store together with the response body. */
module Routes {
  import opened ParkPoints
  import Seqs
  import Decimal
  import NearbyPoints

  /** A park point as the API returns it: the stored fields plus
      `remainingTime` (the object spread `{...point, remainingTime}`). */
  datatype ParkPointView = ParkPointView(
    id: string, coordinate: Coordinate, duration: int, timestamp: int, remainingTime: int)

  /** The store after a handler ran, and the handler's response body. */
  datatype Outcome<B> = Outcome(store: seq<ParkPoint>, body: B)

  /** The body of a `POST /park-points` request. */
  datatype PostRequest = PostRequest(coordinate: Coordinate, duration: int)

  /** The stored fields of a returned point: `remainingTime` dropped. */
  function Stored(v: ParkPointView): ParkPoint {
    ParkPoint(v.id, v.coordinate, v.duration, v.timestamp)
  }

  function WithRemainingTime(p: ParkPoint, remaining: int): (v: ParkPointView)
    ensures Stored(v) == p && v.remainingTime == remaining
  {
    ParkPointView(p.id, p.coordinate, p.duration, p.timestamp, remaining)
  }

  function Annotate(points: seq<ParkPoint>, now: int): (r: seq<ParkPointView>)
    ensures |r| == |points|
    ensures forall i :: 0 <= i < |r| ==>
              Stored(r[i]) == points[i] && r[i].remainingTime == RemainingTime(points[i], now)
  {
    seq(|points|, i requires 0 <= i < |points| => WithRemainingTime(points[i], RemainingTime(points[i], now)))
  }

  /** `GET /park-points` with its two clock reads: the sweep reads the clock
      at `sweptAt`, the annotation reads it again at `readAt`. Every point
      the sweep keeps is listed, in store order, with its remaining time as
      of `readAt`; that is at least 1 unless the clock moved forward between
      the two reads. */
  function GetParkPointsAt(store: seq<ParkPoint>, sweptAt: int, readAt: int)
    : (r: Outcome<seq<ParkPointView>>)
    ensures r.store == Sweep(store, sweptAt)
    ensures forall p :: p in r.store <==> p in store && Alive(p, sweptAt)
    ensures Seqs.IsSubsequence(r.store, store)
    ensures |r.body| == |r.store|
    ensures forall i :: 0 <= i < |r.body| ==>
              && Stored(r.body[i]) == r.store[i]
              && r.body[i].remainingTime == RemainingTime(r.store[i], readAt)
              && r.body[i].remainingTime >= 0
              && (readAt <= sweptAt ==> r.body[i].remainingTime >= 1)
  {
    SweepIsSubsequence(store, sweptAt);
    var live := Sweep(store, sweptAt);
    forall i | 0 <= i < |live| && readAt <= sweptAt
      ensures RemainingTime(live[i], readAt) >= 1
    {
      RemainingTimeMonotone(live[i], readAt, sweptAt);
    }
    Outcome(live, Annotate(live, readAt))
  }

  /** `GET /park-points` when both clock reads return the same instant:
      exactly the live points, every copy kept, in store order, each with
      a remaining time of at least 1. */
  function GetParkPoints(store: seq<ParkPoint>, now: int): (r: Outcome<seq<ParkPointView>>)
    ensures r.store == Sweep(store, now)
    ensures forall p :: p in r.store <==> p in store && Alive(p, now)
    ensures Seqs.IsSubsequence(r.store, store)
    ensures |r.body| == |r.store|
    ensures forall i :: 0 <= i < |r.body| ==>
              && Stored(r.body[i]) == r.store[i]
              && r.body[i].remainingTime == RemainingTime(r.store[i], now)
              && r.body[i].remainingTime >= 1
  {
    GetParkPointsAt(store, now, now)
  }

  /** A millisecond between the sweep's clock read and the annotation's is
      enough for a listed point to show zero minutes remaining. */
  lemma ClockTickCanListZero()
    ensures var p := ParkPoint("1", Coordinate(0.0, 0.0), 1, 1 - MsPerMinute);
            GetParkPointsAt([p], 0, 1).body == [WithRemainingTime(p, 0)]
  {
    var p := ParkPoint("1", Coordinate(0.0, 0.0), 1, 1 - MsPerMinute);
    assert Alive(p, 0) && RemainingTime(p, 1) == 0;
    SweepKeepsLiveStore([p], 0);
  }

  /** Listing twice at the same instant changes nothing the second time. */
  lemma GetIdempotent(store: seq<ParkPoint>, now: int)
    ensures GetParkPoints(GetParkPoints(store, now).store, now) == GetParkPoints(store, now)
  {
    SweepIdempotent(store, now);
  }

  /** The point a POST at `now` creates: id and timestamp both from the clock. */
  function NewParkPoint(req: PostRequest, now: int): ParkPoint {
    ParkPoint(Decimal.IntToString(now), req.coordinate, req.duration, now)
  }

  /** `POST /park-points`: sweep; when nothing is left, seed the four test
      points around the request's coordinate; append the new point. The
      response echoes the new point with `remainingTime` set to its duration. */
  function PostParkPoint(store: seq<ParkPoint>, now: int, req: PostRequest, rand: seq<real>)
    : (r: Outcome<ParkPointView>)
    requires NearbyPoints.ValidSamples(rand)
    ensures |r.store| >= 1
    ensures var last := r.store[|r.store| - 1];
            && last.id == Decimal.IntToString(now)
            && last.timestamp == now
            && last.coordinate == req.coordinate
            && last.duration == req.duration
    ensures Stored(r.body) == r.store[|r.store| - 1]
    ensures r.body.remainingTime == req.duration
    ensures Sweep(store, now) != [] ==>
              r.store[..|r.store| - 1] == Sweep(store, now)
    ensures Sweep(store, now) == [] ==>
              && r.store[..|r.store| - 1] == NearbyPoints.CreateNearbyPoints(req.coordinate, now, rand)
              && |r.store| == 5
    ensures forall p :: p in store && Alive(p, now) ==> p in r.store
    ensures forall i :: 0 <= i < |r.store| - 1 ==> Alive(r.store[i], now)
  {
    var live := Sweep(store, now);
    var before := if |live| == 0 then NearbyPoints.CreateNearbyPoints(req.coordinate, now, rand) else live;
    var point := NewParkPoint(req, now);
    assert (before + [point])[..|before|] == before;
    Outcome(before + [point], WithRemainingTime(point, req.duration))
  }

  /** With a positive duration, a point listed right after its POST is listed
      exactly as the POST answered it, behind everything else in the store. */
  lemma PostedPointListed(store: seq<ParkPoint>, now: int, req: PostRequest, rand: seq<real>)
    requires NearbyPoints.ValidSamples(rand)
    requires req.duration >= 1
    ensures var post := PostParkPoint(store, now, req, rand);
            var get := GetParkPoints(post.store, now);
            && get.store == post.store
            && get.body[|get.body| - 1] == post.body
  {
    var post := PostParkPoint(store, now, req, rand);
    var n := |post.store|;
    assert post.store == post.store[..n - 1] + [post.store[n - 1]];
    RemainingTimeAfterElapsed(post.store[n - 1], 0);
    SweepKeepsLiveStore(post.store, now);
  }

  /** No validation happens: a POST with a duration of zero or less is
      stored and answered with that duration, but it is already expired, so
      a listing at the same instant omits it. */
  lemma PostedNonPositiveDurationHidden(store: seq<ParkPoint>, now: int, req: PostRequest, rand: seq<real>)
    requires NearbyPoints.ValidSamples(rand)
    requires req.duration <= 0
    ensures var post := PostParkPoint(store, now, req, rand);
            && NewParkPoint(req, now) in post.store
            && post.body.remainingTime == req.duration
            && NewParkPoint(req, now) !in GetParkPoints(post.store, now).store
  {
    var post := PostParkPoint(store, now, req, rand);
    assert post.store[|post.store| - 1] == NewParkPoint(req, now);
  }

  /** A posted point is listed until its duration has run out, showing its
      duration less the whole minutes elapsed; from then on it is gone. */
  lemma PostedPointLifetime(store: seq<ParkPoint>, now: int, req: PostRequest, rand: seq<real>, later: int)
    requires NearbyPoints.ValidSamples(rand)
    ensures var p := NewParkPoint(req, now);
            && (p in GetParkPoints(PostParkPoint(store, now, req, rand).store, later).store
                <==> later < now + req.duration * MsPerMinute)
            && RemainingTime(p, later) == Max(0, req.duration - (later - now) / MsPerMinute)
  {
    var post := PostParkPoint(store, now, req, rand);
    assert post.store[|post.store| - 1] == NewParkPoint(req, now);
    RemainingTimeAfterElapsed(NewParkPoint(req, now), later - now);
  }

  /** The keep-condition of a delete. */
  function IdIsNot(id: string): ParkPoint -> bool {
    (p: ParkPoint) => p.id != id
  }

  /** `DELETE /park-points/:id`: drop every point carrying the id. No
      existence or ownership check and no sweep; it always answers 204. */
  function DeleteParkPoint(store: seq<ParkPoint>, id: string): (r: seq<ParkPoint>)
    ensures forall p :: p in r <==> p in store && p.id != id
  {
    Seqs.Filter(IdIsNot(id), store)
  }

  /** Every kept point stays as many times as it was stored. */
  lemma DeleteMultiplicity(store: seq<ParkPoint>, id: string)
    ensures forall p :: multiset(DeleteParkPoint(store, id))[p] == if p.id != id then multiset(store)[p] else 0
  {
    Seqs.FilterMultiplicity(IdIsNot(id), store);
  }

  /** The points a delete keeps stay in store order. */
  lemma DeleteIsSubsequence(store: seq<ParkPoint>, id: string)
    ensures Seqs.IsSubsequence(DeleteParkPoint(store, id), store)
  {
    Seqs.FilterIsSubsequence(IdIsNot(id), store);
  }

  /** Deleting an id nobody carries leaves the store as it is. */
  lemma DeleteAbsentIsNoop(store: seq<ParkPoint>, id: string)
    requires forall i :: 0 <= i < |store| ==> store[i].id != id
    ensures DeleteParkPoint(store, id) == store
  {
    Seqs.FilterKeepsAll(IdIsNot(id), store);
  }

  /** Deleting twice is deleting once (the second call also succeeds). */
  lemma DeleteIdempotent(store: seq<ParkPoint>, id: string)
    ensures DeleteParkPoint(DeleteParkPoint(store, id), id) == DeleteParkPoint(store, id)
  {
    Seqs.FilterIdempotent(IdIsNot(id), store);
  }

  /** Deletes of two ids may run in either order. */
  lemma DeleteCommute(store: seq<ParkPoint>, a: string, b: string)
    ensures DeleteParkPoint(DeleteParkPoint(store, a), b) == DeleteParkPoint(DeleteParkPoint(store, b), a)
  {
    Seqs.FilterCommute(IdIsNot(b), IdIsNot(a), store);
  }

  /** The periodic sweep and a delete may interleave in either order. */
  lemma SweepDeleteCommute(store: seq<ParkPoint>, id: string, now: int)
    ensures Sweep(DeleteParkPoint(store, id), now) == DeleteParkPoint(Sweep(store, now), id)
  {
    Seqs.FilterCommute(AliveAt(now), IdIsNot(id), store);
  }

  /** Two POSTs in the same millisecond store two points under one id, and a
      single delete of that id removes both. */
  lemma SameInstantPostsShareId(
    store: seq<ParkPoint>, now: int, a: PostRequest, b: PostRequest, rand: seq<real>)
    requires NearbyPoints.ValidSamples(rand)
    ensures var first := PostParkPoint(store, now, a, rand).store;
            var second := PostParkPoint(first, now, b, rand).store;
            && NewParkPoint(a, now).id == NewParkPoint(b, now).id
            && NewParkPoint(b, now) in second
            && (a.duration >= 1 ==> NewParkPoint(a, now) in second)
            && NewParkPoint(a, now) !in DeleteParkPoint(second, Decimal.IntToString(now))
            && NewParkPoint(b, now) !in DeleteParkPoint(second, Decimal.IntToString(now))
  {
    var first := PostParkPoint(store, now, a, rand).store;
    assert first[|first| - 1] == NewParkPoint(a, now);
    var second := PostParkPoint(first, now, b, rand).store;
    assert second[|second| - 1] == NewParkPoint(b, now);
  }
}
