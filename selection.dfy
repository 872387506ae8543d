/**
 * Choice of the safest candidate: the routes are scanned in provider order
 * and a route replaces the best so far only when its count is strictly
 * smaller, starting from "infinity" (no route yet). The winner is therefore
 * the earliest route whose count is minimal.
 */
module Selection {
  import opened Wrappers
  import opened Geo
  import opened Scoring

  /** A route together with its crime count, as the handler responds with them. */
  datatype ScoredRoute = ScoredRoute(route: Route, crimeCount: nat)

  /** `k` holds a minimal score and every earlier score is strictly larger. */
  predicate IsFirstMin(scores: seq<nat>, k: nat)
  {
    && k < |scores|
    && (forall j :: 0 <= j < |scores| ==> scores[k] <= scores[j])
    && (forall j :: 0 <= j < k ==> scores[k] < scores[j])
  }

  /** At most one position is the first minimum. */
  lemma FirstMinUnique(scores: seq<nat>, k1: nat, k2: nat)
    requires IsFirstMin(scores, k1) && IsFirstMin(scores, k2)
    ensures k1 == k2
  {
    assert scores[k1] == scores[k2];
  }

  /** The position of the first minimal score. */
  function FirstMinIndex(scores: seq<nat>): (k: nat)
    requires |scores| > 0
    ensures IsFirstMin(scores, k)
  {
    if |scores| == 1 then 0
    else
      var n := |scores| - 1;
      var k := FirstMinIndex(scores[..n]);
      if scores[n] < scores[k] then n else k
  }

  /** The crime count of every route, in provider order. */
  function Scores(routes: seq<Route>, crimes: seq<Crime>, distance: DistanceFn): seq<nat>
  {
    seq(|routes|, i requires 0 <= i < |routes| => RouteScore(routes[i], crimes, distance))
  }

  /**
   * The route loop of the handler: score each route in turn and keep it when
   * its count is below the best so far. `None` for the best so far plays the
   * part of the initial `null` route with an infinite count.
   */
  method SelectSafestRoute(routes: seq<Route>, crimes: seq<Crime>, distance: DistanceFn) returns (best: Option<ScoredRoute>)
    ensures best.None? <==> |routes| == 0
    ensures best.Some? ==>
              var k := FirstMinIndex(Scores(routes, crimes, distance));
              best.value == ScoredRoute(routes[k], RouteScore(routes[k], crimes, distance))
  {
    best := None;
    ghost var bestIndex := 0;
    for i := 0 to |routes|
      invariant best.None? <==> i == 0
      invariant best.Some? ==>
                  && bestIndex < i
                  && best.value == ScoredRoute(routes[bestIndex], RouteScore(routes[bestIndex], crimes, distance))
                  && (forall j :: 0 <= j < i ==> best.value.crimeCount <= RouteScore(routes[j], crimes, distance))
                  && (forall j :: 0 <= j < bestIndex ==> best.value.crimeCount < RouteScore(routes[j], crimes, distance))
    {
      var crimeCount := CountCrimesNearRoute(routes[i], crimes, distance);
      if best.None? || crimeCount < best.value.crimeCount {
        best := Some(ScoredRoute(routes[i], crimeCount));
        bestIndex := i;
      }
    }
    if best.Some? {
      var scores := Scores(routes, crimes, distance);
      assert IsFirstMin(scores, bestIndex);
      FirstMinUnique(scores, bestIndex, FirstMinIndex(scores));
    }
  }

  /** When every route scores the same, the first route is chosen. */
  lemma {:induction false} EqualScoresPickFirst(scores: seq<nat>)
    requires |scores| > 0
    requires forall j :: 0 <= j < |scores| ==> scores[j] == scores[0]
    ensures FirstMinIndex(scores) == 0
  {
    FirstMinUnique(scores, 0, FirstMinIndex(scores));
  }

  /** With an empty crime table every route scores 0 and the first route wins. */
  lemma NoCrimesPicksFirstRoute(routes: seq<Route>, distance: DistanceFn)
    requires |routes| > 0
    ensures FirstMinIndex(Scores(routes, [], distance)) == 0
    ensures Scores(routes, [], distance)[0] == 0
  {
    var scores := Scores(routes, [], distance);
    forall j | 0 <= j < |routes| ensures scores[j] == 0 {
      NoCrimesScoreZero(routes[j], distance);
    }
    EqualScoresPickFirst(scores);
  }

  /** Scores [3, 1, 2] select position 1; scores [2, 2, 5] select position 0 (the earlier tie). */
  lemma SelectionExamples()
    ensures FirstMinIndex([3, 1, 2]) == 1
    ensures FirstMinIndex([2, 2, 5]) == 0
  {
    FirstMinUnique([3, 1, 2], 1, FirstMinIndex([3, 1, 2]));
    FirstMinUnique([2, 2, 5], 0, FirstMinIndex([2, 2, 5]));
  }
}
