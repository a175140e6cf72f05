// GPS trips: points arrive in batches in any order, the distance is taken over them in time order.
//
// The point-to-point distance and the rounding to a number of decimals are arbitrary functions.
module Trips {
  import opened Common
  import opened Sorting

  datatype Point = Point(ts: int, lat: real, lng: real)
  // `now` is the clock reading that stands in for a missing timestamp.
  datatype PointIn = PointIn(ts: Option<int>, now: int, lat: real, lng: real)
  datatype PointRow = PointRow(tripId: nat, point: Point)
  datatype Trip = Trip(
    userId: nat, startedAt: int, finishedAt: Option<int>,
    distance: real, duration: int, avgSpeed: real, fuel: real)
  datatype Tables = Tables(trips: seq<Trip>, points: seq<PointRow>)

  datatype Metric = Metric(between: (Point, Point) -> real, rounded: (real, nat) -> real)

  datatype Answer = Started(id: nat) | Appended(count: nat) | Finished(trip: Trip) | NotFound | NotOwner | TripFinished

  function Stamped(p: PointIn): Point {
    Point(if p.ts.Some? then p.ts.value else p.now, p.lat, p.lng)
  }

  function Rows(tripId: nat, batch: seq<PointIn>): seq<PointRow> {
    seq(|batch|, i requires 0 <= i < |batch| => PointRow(tripId, Stamped(batch[i])))
  }

  function PointsOf(rows: seq<PointRow>, tripId: nat): seq<Point> {
    if rows == [] then []
    else
      var last := rows[|rows| - 1];
      PointsOf(rows[..|rows| - 1], tripId) + if last.tripId == tripId then [last.point] else []
  }

  predicate Earlier(a: Point, b: Point) {
    a.ts <= b.ts
  }

  function PathLength(d: Metric, pts: seq<Point>): real {
    if |pts| < 2 then 0.0
    else PathLength(d, pts[..|pts| - 1]) + d.between(pts[|pts| - 2], pts[|pts| - 1])
  }

  // ---- specification -----------------------------------------------------------------------------

  function Start(t: Tables, userId: nat, now: int): (Tables, Answer) {
    (t.(trips := t.trips + [Trip(userId, now, None, 0.0, 0, 0.0, 0.0)]), Started(|t.trips|))
  }

  function AppendPoints(t: Tables, tripId: nat, userId: nat, batch: seq<PointIn>): (Tables, Answer) {
    if tripId >= |t.trips| then (t, NotFound)
    else if t.trips[tripId].userId != userId then (t, NotOwner)
    else if t.trips[tripId].finishedAt.Some? then (t, TripFinished)
    else (t.(points := t.points + Rows(tripId, batch)), Appended(|batch|))
  }

  // Kilometres per hour; the distance is taken before it is rounded.
  function Speed(distance: real, duration: int): real {
    if duration > 0 then distance / (duration as real / 3600.0) else 0.0
  }

  function Measured(d: Metric, trip: Trip, path: seq<Point>, now: int): Trip {
    var length, duration := PathLength(d, path), WholeSeconds(now - trip.startedAt);
    trip.(finishedAt := Some(now), distance := d.rounded(length, 3), duration := duration,
    avgSpeed := d.rounded(Speed(length, duration), 2), fuel := d.rounded(length * 0.07, 3))
  }

  function Finish(d: Metric, t: Tables, tripId: nat, userId: nat, now: int): (Tables, Answer) {
    if tripId >= |t.trips| then (t, NotFound)
    else if t.trips[tripId].userId != userId then (t, NotOwner)
    else if t.trips[tripId].finishedAt.Some? then (t, Finished(t.trips[tripId]))
    else
      var trip := Measured(d, t.trips[tripId], Sort(Earlier, PointsOf(t.points, tripId)), now);
      (t.(trips := t.trips[tripId := trip]), Finished(trip))
  }

  class TripDb {
    var trips: seq<Trip>
    var points: seq<PointRow>

    ghost function View(): Tables
      reads this
    {
      Tables(trips, points)
    }

    method DoStart(userId: nat, now: int) returns (answer: Answer)
      modifies this
      ensures (View(), answer) == Start(old(View()), userId, now)
    {
      trips := trips + [Trip(userId, now, None, 0.0, 0, 0.0, 0.0)];
      return Started(|trips| - 1);
    }

    method DoAppend(tripId: nat, userId: nat, batch: seq<PointIn>) returns (answer: Answer)
      modifies this
      ensures (View(), answer) == AppendPoints(old(View()), tripId, userId, batch)
    {
      if tripId >= |trips| {
        return NotFound;
      }
      if trips[tripId].userId != userId {
        return NotOwner;
      }
      if trips[tripId].finishedAt.Some? {
        return TripFinished;
      }
      points := points + Rows(tripId, batch);
      return Appended(|batch|);
    }

    method Measure(d: Metric, pts: seq<Point>) returns (distance: real)
      ensures distance == PathLength(d, pts)
    {
      distance := 0.0;
      if |pts| >= 2 {
        for i := 1 to |pts|
          invariant distance == PathLength(d, pts[..i])
        {
          assert pts[..i + 1][..i] == pts[..i];
          distance := distance + d.between(pts[i - 1], pts[i]);
        }
        assert pts[..|pts|] == pts;
      }
    }

    method DoFinish(d: Metric, tripId: nat, userId: nat, now: int) returns (answer: Answer)
      modifies this
      ensures (View(), answer) == Finish(d, old(View()), tripId, userId, now)
    {
      if tripId >= |trips| {
        return NotFound;
      }
      var trip := trips[tripId];
      if trip.userId != userId {
        return NotOwner;
      }
      if trip.finishedAt.Some? {
        return Finished(trip);
      }
      var distance := Measure(d, Sort(Earlier, PointsOf(points, tripId)));
      var duration := WholeSeconds(now - trip.startedAt);
      var avgSpeed := 0.0;
      if duration > 0 {
        avgSpeed := distance / (duration as real / 3600.0);
      }
      trip := trip.(finishedAt := Some(now));
      trip := trip.(distance := d.rounded(distance, 3));
      trip := trip.(duration := duration);
      trip := trip.(avgSpeed := d.rounded(avgSpeed, 2));
      trip := trip.(fuel := d.rounded(distance * 0.07, 3));
      trips := trips[tripId := trip];
      return Finished(trip);
    }
  }

  // ---- runs ------------------------------------------------------------------------------------------

  datatype Event =
    | Begin(userId: nat, now: int)
    | Append(tripId: nat, userId: nat, batch: seq<PointIn>)
    | End(tripId: nat, userId: nat, now: int)

  function Apply(d: Metric, t: Tables, e: Event): (Tables, Answer) {
    match e
    case Begin(userId, now) => Start(t, userId, now)
    case Append(tripId, userId, batch) => AppendPoints(t, tripId, userId, batch)
    case End(tripId, userId, now) => Finish(d, t, tripId, userId, now)
  }

  function Run(d: Metric, t: Tables, es: seq<Event>): Tables {
    if es == [] then t else Apply(d, Run(d, t, es[..|es| - 1]), es[|es| - 1]).0
  }

  lemma {:induction false} PointsOfConcat(a: seq<PointRow>, b: seq<PointRow>, tripId: nat)
    ensures PointsOf(a + b, tripId) == PointsOf(a, tripId) + PointsOf(b, tripId)
  {
    if b == [] {
      assert a + b == a;
    } else {
      assert (a + b)[..|a + b| - 1] == a + b[..|b| - 1];
      PointsOfConcat(a, b[..|b| - 1], tripId);
    }
  }

  // The points a batch brings to a trip.
  function Brought(batch: seq<PointIn>): seq<Point> {
    seq(|batch|, i requires 0 <= i < |batch| => Stamped(batch[i]))
  }

  lemma {:induction false} PointsOfRows(owner: nat, batch: seq<PointIn>, tripId: nat)
    ensures PointsOf(Rows(owner, batch), tripId) == if owner == tripId then Brought(batch) else []
  {
    if batch != [] {
      var front := batch[..|batch| - 1];
      PointsOfRows(owner, front, tripId);
      assert Rows(owner, batch)[..|batch| - 1] == Rows(owner, front);
      assert Brought(batch) == Brought(front) + [Stamped(batch[|batch| - 1])];
    }
  }

  function BroughtBy(e: Event, tripId: nat, userId: nat): seq<Point> {
    if e.Append? && e.tripId == tripId && e.userId == userId then Brought(e.batch) else []
  }

  // Every point the owner delivered for a trip in a run, in delivery order.
  function Delivered(es: seq<Event>, tripId: nat, userId: nat): seq<Point> {
    if es == [] then []
    else
      var e := es[|es| - 1];
      Delivered(es[..|es| - 1], tripId, userId) + BroughtBy(e, tripId, userId)
  }

  ghost predicate StaysOpen(es: seq<Event>, tripId: nat) {
    forall i | 0 <= i < |es| :: !(es[i].End? && es[i].tripId == tripId)
  }

  // One event adds to a trip's points exactly what an accepted batch for it brings.
  lemma StepPoints(d: Metric, t: Tables, e: Event, tripId: nat)
    ensures PointsOf(Apply(d, t, e).0.points, tripId)
         == PointsOf(t.points, tripId)
            + if e.Append? && e.tripId == tripId && Apply(d, t, e).1.Appended? then Brought(e.batch) else []
  {
    if e.Append? {
      PointsOfConcat(t.points, Rows(e.tripId, e.batch), tripId);
      PointsOfRows(e.tripId, e.batch, tripId);
    }
    assert PointsOf(t.points, tripId) + [] == PointsOf(t.points, tripId);
  }

  lemma StepTrip(d: Metric, t: Tables, e: Event, tripId: nat)
    requires tripId < |t.trips|
    requires t.trips[tripId].finishedAt.Some? || !(e.End? && e.tripId == tripId)
    ensures tripId < |Apply(d, t, e).0.trips| && Apply(d, t, e).0.trips[tripId] == t.trips[tripId]
    ensures e.Append? && e.tripId == tripId ==>
              (Apply(d, t, e).1.Appended? <==>
                 e.userId == t.trips[tripId].userId && t.trips[tripId].finishedAt.None?)
  {}

  lemma StepOpenTrip(d: Metric, t: Tables, e: Event, tripId: nat)
    requires tripId < |t.trips| && t.trips[tripId].finishedAt.None? && !(e.End? && e.tripId == tripId)
    ensures var t' := Apply(d, t, e).0;
            && tripId < |t'.trips| && t'.trips[tripId] == t.trips[tripId]
            && PointsOf(t'.points, tripId) == PointsOf(t.points, tripId) + BroughtBy(e, tripId, t.trips[tripId].userId)
  {
    StepTrip(d, t, e, tripId);
    StepPoints(d, t, e, tripId);
  }

  lemma {:induction false} OpenTripStays(d: Metric, t: Tables, es: seq<Event>, tripId: nat)
    requires tripId < |t.trips| && t.trips[tripId].finishedAt.None? && StaysOpen(es, tripId)
    ensures tripId < |Run(d, t, es).trips| && Run(d, t, es).trips[tripId] == t.trips[tripId]
  {
    if es != [] {
      OpenTripStays(d, t, es[..|es| - 1], tripId);
      StepTrip(d, Run(d, t, es[..|es| - 1]), es[|es| - 1], tripId);
    }
  }

  lemma ConcatIsAssociative<T>(a: seq<T>, b: seq<T>, c: seq<T>)
    ensures (a + b) + c == a + (b + c)
  {}

  lemma {:induction false} OpenTripHoldsDelivered(d: Metric, t: Tables, es: seq<Event>, tripId: nat)
    requires tripId < |t.trips| && t.trips[tripId].finishedAt.None? && StaysOpen(es, tripId)
    ensures PointsOf(Run(d, t, es).points, tripId)
         == PointsOf(t.points, tripId) + Delivered(es, tripId, t.trips[tripId].userId)
  {
    var held, user := PointsOf(t.points, tripId), t.trips[tripId].userId;
    if es == [] {
      assert held + [] == held;
    } else {
      var front, e := es[..|es| - 1], es[|es| - 1];
      OpenTripHoldsDelivered(d, t, front, tripId);
      OpenTripStays(d, t, front, tripId);
      StepOpenTrip(d, Run(d, t, front), e, tripId);
      ConcatIsAssociative(held, Delivered(front, tripId, user), BroughtBy(e, tripId, user));
    }
  }

  // Points taken at one instant are one point, delivered once or again.
  ghost predicate OnePointATime(pts: seq<Point>) {
    forall i, j | 0 <= i < j < |pts| && pts[i].ts == pts[j].ts :: pts[i] == pts[j]
  }

  lemma OnePointATimeDoesNotTie(pts: seq<Point>)
    requires OnePointATime(pts)
    ensures Tieless(Earlier, multiset(pts))
  {
    forall a, b | a in multiset(pts) && b in multiset(pts) && Earlier(a, b) && Earlier(b, a)
      ensures a == b
    {
      var i :| 0 <= i < |pts| && pts[i] == a;
      var j :| 0 <= j < |pts| && pts[j] == b;
    }
  }

  // With one point at a time any order the database may return the points in is the sorted one.
  lemma AnyOrderedResultIsTheSort(pts: seq<Point>, result: seq<Point>)
    requires OnePointATime(pts) && multiset(result) == multiset(pts) && Sorted(Earlier, result)
    ensures result == Sort(Earlier, pts)
  {
    SortKeepsElements(Earlier, pts);
    SortSorts(Earlier, pts);
    OnePointATimeDoesNotTie(pts);
    OrderIsUnique(Earlier, Sort(Earlier, pts), result);
  }

  lemma ArrivalOrderIsForgotten(held: seq<Point>, xs: seq<Point>, ys: seq<Point>)
    requires OnePointATime(held + xs) && multiset(xs) == multiset(ys)
    ensures Sort(Earlier, held + xs) == Sort(Earlier, held + ys)
  {
    assert multiset(held + xs) == multiset(held + ys);
    SortKeepsElements(Earlier, held + ys);
    SortSorts(Earlier, held + ys);
    AnyOrderedResultIsTheSort(held + xs, Sort(Earlier, held + ys));
  }

  // Two runs that deliver the same points for a trip - split into any batches, in any order, mixed
  // with any other traffic - finish it with the same distance, for every metric.
  lemma DistanceIsIndependentOfDelivery(
    d: Metric, t: Tables, es: seq<Event>, fs: seq<Event>, tripId: nat, now: int, now': int)
    requires tripId < |t.trips| && t.trips[tripId].finishedAt.None?
    requires StaysOpen(es, tripId) && StaysOpen(fs, tripId)
    requires var user := t.trips[tripId].userId;
             && multiset(Delivered(es, tripId, user)) == multiset(Delivered(fs, tripId, user))
             && OnePointATime(PointsOf(t.points, tripId) + Delivered(es, tripId, user))
    ensures var user := t.trips[tripId].userId;
            var a, b := Finish(d, Run(d, t, es), tripId, user, now).1, Finish(d, Run(d, t, fs), tripId, user, now').1;
            a.Finished? && b.Finished? && a.trip.distance == b.trip.distance
  {
    var user := t.trips[tripId].userId;
    OpenTripHoldsDelivered(d, t, es, tripId);
    OpenTripHoldsDelivered(d, t, fs, tripId);
    OpenTripStays(d, t, es, tripId);
    OpenTripStays(d, t, fs, tripId);
    ArrivalOrderIsForgotten(PointsOf(t.points, tripId), Delivered(es, tripId, user), Delivered(fs, tripId, user));
  }

  // ---- points delivered more than once ---------------------------------------------------------------

  lemma PathGrows(d: Metric, s: seq<Point>, x: Point)
    requires s != []
    ensures PathLength(d, s + [x]) == PathLength(d, s) + d.between(s[|s| - 1], x)
  {
    assert (s + [x])[..|s|] == s;
  }

  // In order and without ties, a point either is the last one or comes before it.
  lemma LastOrBefore(s: seq<Point>, x: Point)
    requires Sorted(Earlier, s) && x in s && Tieless(Earlier, multiset(s))
    ensures if Earlier(s[|s| - 1], x) then x == s[|s| - 1] else x in s[..|s| - 1]
  {
    LastIsGreatest(Earlier, s, x);
    assert s[|s| - 1] in multiset(s) && x in multiset(s);
    assert s == s[..|s| - 1] + [s[|s| - 1]];
  }

  // `r` ends as `s` does and is as long a path.
  ghost predicate SamePath(d: Metric, r: seq<Point>, s: seq<Point>) {
    r != [] && s != [] && r[|r| - 1] == s[|s| - 1] && PathLength(d, r) == PathLength(d, s)
  }

  lemma SamePathGrows(d: Metric, r: seq<Point>, s: seq<Point>, x: Point)
    requires SamePath(d, r, s)
    ensures SamePath(d, r + [x], s + [x])
  {
    PathGrows(d, r, x);
    PathGrows(d, s, x);
  }

  // Sorting a repeated point in puts it beside itself.
  lemma {:induction false} InsertRepeat(d: Metric, x: Point, s: seq<Point>)
    requires Sorted(Earlier, s) && x in s && Tieless(Earlier, multiset(s)) && d.between(x, x) == 0.0
    ensures SamePath(d, Insert(Earlier, x, s), s)
  {
    var front, last := s[..|s| - 1], s[|s| - 1];
    LastOrBefore(s, x);
    if Earlier(last, x) {
      PathGrows(d, s, x);
    } else {
      FrontsStayTieless(Earlier, s);
      FrontsStaySorted(Earlier, s);
      InsertRepeat(d, x, front);
      SamePathGrows(d, Insert(Earlier, x, front), front, last);
      assert front + [last] == s;
    }
  }

  ghost predicate AllIn(xs: seq<Point>, ys: seq<Point>) {
    forall p | p in xs :: p in ys
  }

  ghost predicate NoSelfDistance(d: Metric) {
    forall p :: d.between(p, p) == 0.0
  }

  lemma RepeatsDoNotTie(pts: seq<Point>, again: seq<Point>)
    requires OnePointATime(pts) && AllIn(again, pts)
    ensures OnePointATime(pts + again)
  {
    var all := pts + again;
    forall i, j | 0 <= i < j < |all| && all[i].ts == all[j].ts ensures all[i] == all[j] {
      assert all[i] in pts && all[j] in pts;
    }
  }

  lemma RepeatAddsNoLength(d: Metric, pts: seq<Point>, x: Point)
    requires OnePointATime(pts) && x in pts && d.between(x, x) == 0.0
    ensures PathLength(d, Sort(Earlier, pts + [x])) == PathLength(d, Sort(Earlier, pts))
  {
    assert (pts + [x])[..|pts + [x]| - 1] == pts;
    SortKeepsElements(Earlier, pts);
    SortSorts(Earlier, pts);
    OnePointATimeDoesNotTie(pts);
    assert x in multiset(Sort(Earlier, pts));
    InsertRepeat(d, x, Sort(Earlier, pts));
  }

  lemma SnocOfConcat<T>(a: seq<T>, b: seq<T>)
    requires b != []
    ensures a + b == a + b[..|b| - 1] + [b[|b| - 1]]
  {}

  lemma {:induction false} RepeatsAddNoLength(d: Metric, pts: seq<Point>, again: seq<Point>)
    requires OnePointATime(pts) && AllIn(again, pts) && NoSelfDistance(d)
    ensures PathLength(d, Sort(Earlier, pts + again)) == PathLength(d, Sort(Earlier, pts))
  {
    if again == [] {
      assert pts + again == pts;
    } else {
      var front, x := again[..|again| - 1], again[|again| - 1];
      assert AllIn(front, pts) && x in pts;
      RepeatsAddNoLength(d, pts, front);
      RepeatsDoNotTie(pts, front);
      RepeatAddsNoLength(d, pts + front, x);
      SnocOfConcat(pts, again);
    }
  }

  lemma SamePointsSameLength(d: Metric, xs: seq<Point>, ys: seq<Point>)
    requires OnePointATime(xs) && AllIn(xs, ys) && AllIn(ys, xs) && NoSelfDistance(d)
    ensures PathLength(d, Sort(Earlier, xs)) == PathLength(d, Sort(Earlier, ys))
  {
    RepeatsDoNotTie(xs, ys);
    assert OnePointATime(ys) by {
      forall i, j | 0 <= i < j < |ys| && ys[i].ts == ys[j].ts ensures ys[i] == ys[j] {
        assert ys[i] in xs && ys[j] in xs;
      }
    }
    RepeatsAddNoLength(d, xs, ys);
    RepeatsAddNoLength(d, ys, xs);
    assert multiset(xs + ys) == multiset(ys + xs);
    SortKeepsElements(Earlier, ys + xs);
    SortSorts(Earlier, ys + xs);
    AnyOrderedResultIsTheSort(xs + ys, Sort(Earlier, ys + xs));
  }

  // Two runs that deliver the same points however often - retried batches, overlapping batches -
  // finish with the same distance when the distance from a point to itself is none.
  lemma RetriesDoNotLengthenTheTrip(
    d: Metric, t: Tables, es: seq<Event>, fs: seq<Event>, tripId: nat, now: int, now': int)
    requires tripId < |t.trips| && t.trips[tripId].finishedAt.None? && NoSelfDistance(d)
    requires StaysOpen(es, tripId) && StaysOpen(fs, tripId)
    requires var held, user := PointsOf(t.points, tripId), t.trips[tripId].userId;
             && OnePointATime(held + Delivered(es, tripId, user))
             && AllIn(held + Delivered(es, tripId, user), held + Delivered(fs, tripId, user))
             && AllIn(held + Delivered(fs, tripId, user), held + Delivered(es, tripId, user))
    ensures var user := t.trips[tripId].userId;
            var a, b := Finish(d, Run(d, t, es), tripId, user, now).1, Finish(d, Run(d, t, fs), tripId, user, now').1;
            a.Finished? && b.Finished? && a.trip.distance == b.trip.distance
  {
    var held, user := PointsOf(t.points, tripId), t.trips[tripId].userId;
    OpenTripHoldsDelivered(d, t, es, tripId);
    OpenTripHoldsDelivered(d, t, fs, tripId);
    OpenTripStays(d, t, es, tripId);
    OpenTripStays(d, t, fs, tripId);
    SamePointsSameLength(d, held + Delivered(es, tripId, user), held + Delivered(fs, tripId, user));
  }

  // ---- what each request is answered ----------------------------------------------------------------

  // A path of fewer than two points has no length; any other goes from its first point to its second
  // and on from there.
  lemma {:induction false} PathFromTheFront(d: Metric, pts: seq<Point>)
    ensures |pts| < 2 ==> PathLength(d, pts) == 0.0
    ensures |pts| >= 2 ==> PathLength(d, pts) == d.between(pts[0], pts[1]) + PathLength(d, pts[1..])
  {
    if |pts| >= 2 {
      var front, last := pts[..|pts| - 1], pts[|pts| - 1];
      assert front + [last] == pts;
      PathGrows(d, front, last);
      if |pts| == 2 {
        assert |front| < 2 && |pts[1..]| < 2;
      } else {
        PathFromTheFront(d, front);
        PathGrows(d, front[1..], last);
        assert front[1..] + [last] == pts[1..];
      }
    }
  }

  lemma StartAnswers(t: Tables, userId: nat, now: int)
    ensures var (t', answer) := Start(t, userId, now);
            && answer == Started(|t.trips|) && t'.points == t.points
            && |t'.trips| == |t.trips| + 1 && t'.trips[..|t.trips|] == t.trips
            && var trip := t'.trips[|t.trips|];
               && trip.userId == userId && trip.startedAt == now && trip.finishedAt == None
               && trip.distance == 0.0 && trip.duration == 0 && trip.avgSpeed == 0.0 && trip.fuel == 0.0
  {}

  // Points are taken for an open trip by its owner, one by one in order, each with its own timestamp
  // or, when it has none, the clock's.
  lemma AppendAnswers(t: Tables, tripId: nat, userId: nat, batch: seq<PointIn>)
    ensures var (t', answer) := AppendPoints(t, tripId, userId, batch);
            var mine := tripId < |t.trips| && t.trips[tripId].userId == userId;
            && (answer == NotFound <==> |t.trips| <= tripId)
            && (answer == NotOwner <==> tripId < |t.trips| && !mine)
            && (answer == TripFinished <==> mine && t.trips[tripId].finishedAt.Some?)
            && (answer == Appended(|batch|) <==> mine && t.trips[tripId].finishedAt.None?)
            && (answer != Appended(|batch|) ==> t' == t)
            && (answer == Appended(|batch|) ==>
                  && t'.trips == t.trips && |t'.points| == |t.points| + |batch|
                  && t'.points[..|t.points|] == t.points
                  && forall i | 0 <= i < |batch| ::
                       var row := t'.points[|t.points| + i];
                       && row.tripId == tripId && row.point.lat == batch[i].lat && row.point.lng == batch[i].lng
                       && row.point.ts == match batch[i].ts case Some(ts) => ts case None => batch[i].now)
  {}

  // Finishing is for the owner, and done once.
  lemma FinishAnswers(d: Metric, t: Tables, tripId: nat, userId: nat, now: int)
    ensures var (t', answer) := Finish(d, t, tripId, userId, now);
            var mine := tripId < |t.trips| && t.trips[tripId].userId == userId;
            && (answer == NotFound <==> |t.trips| <= tripId)
            && (answer == NotOwner <==> tripId < |t.trips| && !mine)
            && (answer.Finished? <==> mine)
            && (t' != t ==> mine && t.trips[tripId].finishedAt.None?)
            && (mine ==> tripId < |t'.trips| && answer == Finished(t'.trips[tripId]) && t'.trips[tripId].finishedAt.Some?)
  {}

  // ---- what finishing records -----------------------------------------------------------------------

  // At `speed` km/h, `duration` seconds cover the distance; a trip of no time has no speed.
  ghost predicate Travels(speed: real, duration: int, distance: real) {
    if duration > 0 then speed * duration as real == distance * 3600.0 else speed == 0.0
  }

  lemma SpeedTravels(distance: real, duration: int)
    ensures Travels(Speed(distance, duration), duration, distance)
  {
    if duration > 0 {
      var hours := duration as real / 3600.0;
      assert hours * 3600.0 == duration as real;
      assert distance / hours * hours == distance;
      assert Speed(distance, duration) * duration as real == distance / hours * hours * 3600.0;
    }
  }

  // `seconds` are the whole ones in so many microseconds, toward zero when the clock stepped back.
  ghost predicate TowardZero(seconds: int, micros: int) {
    if micros >= 0 then seconds * 1_000_000 <= micros < (seconds + 1) * 1_000_000
    else (seconds - 1) * 1_000_000 < micros <= seconds * 1_000_000
  }

  // `done` records `path`: its length, the whole seconds from start to `now`, the speed that
  // covers the one in the other, and seven litres to a hundred kilometres.
  ghost predicate Records(d: Metric, done: Trip, trip: Trip, path: seq<Point>, now: int) {
    && done.userId == trip.userId && done.startedAt == trip.startedAt && done.finishedAt == Some(now)
    && TowardZero(done.duration, now - trip.startedAt)
    && done.distance == d.rounded(PathLength(d, path), 3)
    && done.fuel == d.rounded(PathLength(d, path) * 0.07, 3)
    && exists v: real :: done.avgSpeed == d.rounded(v, 2) && Travels(v, done.duration, PathLength(d, path))
  }

  lemma MeasuredRecords(d: Metric, trip: Trip, path: seq<Point>, now: int)
    ensures Records(d, Measured(d, trip, path, now), trip, path, now)
  {
    var done, length := Measured(d, trip, path, now), PathLength(d, path);
    SpeedTravels(length, done.duration);
    assert done.avgSpeed == d.rounded(Speed(length, done.duration), 2);
  }

  // Finishing records an open trip's points in time order, and nothing of any other trip.
  lemma FinishMeasuresTheTrip(d: Metric, t: Tables, tripId: nat, now: int, ordered: seq<Point>)
    requires tripId < |t.trips| && t.trips[tripId].finishedAt.None?
    requires OnePointATime(PointsOf(t.points, tripId)) && Sorted(Earlier, ordered)
    requires multiset(ordered) == multiset(PointsOf(t.points, tripId))
    ensures var trip, (t', answer) := t.trips[tripId], Finish(d, t, tripId, t.trips[tripId].userId, now);
            && answer.Finished? && Records(d, answer.trip, trip, ordered, now)
            && t'.points == t.points && |t'.trips| == |t.trips| && t'.trips[tripId] == answer.trip
            && forall other | 0 <= other < |t.trips| && other != tripId :: t'.trips[other] == t.trips[other]
  {
    AnyOrderedResultIsTheSort(PointsOf(t.points, tripId), ordered);
    MeasuredRecords(d, t.trips[tripId], ordered, now);
  }

  // A finished trip is frozen: its record and points never change, and finishing again returns it.
  lemma {:induction false} FinishedTripIsFrozen(d: Metric, t: Tables, es: seq<Event>, tripId: nat)
    requires tripId < |t.trips| && t.trips[tripId].finishedAt.Some?
    ensures tripId < |Run(d, t, es).trips| && Run(d, t, es).trips[tripId] == t.trips[tripId]
    ensures PointsOf(Run(d, t, es).points, tripId) == PointsOf(t.points, tripId)
    ensures forall now ::
              Finish(d, Run(d, t, es), tripId, t.trips[tripId].userId, now).1 == Finished(t.trips[tripId])
  {
    if es != [] {
      var front, e := es[..|es| - 1], es[|es| - 1];
      FinishedTripIsFrozen(d, t, front, tripId);
      StepTrip(d, Run(d, t, front), e, tripId);
      StepPoints(d, Run(d, t, front), e, tripId);
    }
  }
}
