/**
 * Proximity scoring of one candidate route against the crime snapshot.
 *
 * The handler walks every leg, every step of the leg and every crime, and
 * adds one for each (step, crime) pair where the crime is near the step's
 * start or end. `RouteScore` is the recursive specification of that count,
 * `CountCrimesNearRoute` the nested loop, and the lemmas below say what the
 * count means: the number of near (step, crime) pairs over the flattened
 * steps, bounded by steps x crimes, with each new crime adding the number of
 * steps it is near.
 */
module Scoring {
  import opened Geo

  /** Crimes near `step`, a crime near both of its ends counted once. */
  function CrimesNearStep(step: Step, crimes: seq<Crime>, distance: DistanceFn): nat
  {
    if |crimes| == 0 then 0
    else
      var n := |crimes| - 1;
      CrimesNearStep(step, crimes[..n], distance) + (if NearStep(distance, crimes[n], step) then 1 else 0)
  }

  /** The per-step counts summed over `steps`. */
  function StepsScore(steps: seq<Step>, crimes: seq<Crime>, distance: DistanceFn): nat
  {
    if |steps| == 0 then 0
    else
      var n := |steps| - 1;
      StepsScore(steps[..n], crimes, distance) + CrimesNearStep(steps[n], crimes, distance)
  }

  /** The per-leg scores summed over `legs`. */
  function LegsScore(legs: seq<Leg>, crimes: seq<Crime>, distance: DistanceFn): nat
  {
    if |legs| == 0 then 0
    else
      var n := |legs| - 1;
      LegsScore(legs[..n], crimes, distance) + StepsScore(legs[n].steps, crimes, distance)
  }

  /** The crime count of a route, as the handler accumulates it. */
  function RouteScore(route: Route, crimes: seq<Crime>, distance: DistanceFn): nat
  {
    LegsScore(route.legs, crimes, distance)
  }

  /** The steps of all legs, in path order. */
  function AllSteps(legs: seq<Leg>): seq<Step>
  {
    if |legs| == 0 then []
    else AllSteps(legs[..|legs| - 1]) + legs[|legs| - 1].steps
  }

  /** How many of the `steps` (counted by position) the crime is near. */
  function StepsNearCrime(steps: seq<Step>, crime: Crime, distance: DistanceFn): nat
  {
    if |steps| == 0 then 0
    else
      var n := |steps| - 1;
      StepsNearCrime(steps[..n], crime, distance) + (if NearStep(distance, crime, steps[n]) then 1 else 0)
  }

  /** The (step position, crime position) pairs where the crime is near the step. */
  ghost function NearPairs(steps: seq<Step>, crimes: seq<Crime>, distance: DistanceFn): set<(int, int)>
  {
    set i, j | 0 <= i < |steps| && 0 <= j < |crimes| && NearStep(distance, crimes[j], steps[i]) :: (i, j)
  }

  /** The pairs of `NearPairs` whose step position is `i`, for the step `step`. */
  ghost function NearRow(step: Step, i: int, crimes: seq<Crime>, distance: DistanceFn): set<(int, int)>
  {
    set j | 0 <= j < |crimes| && NearStep(distance, crimes[j], step) :: (i, j)
  }

  /**
   * The nested `forEach` over legs, steps and crimes, with the accumulator
   * `crimeCount`; both distances are computed and either being under the
   * threshold adds one.
   */
  method CountCrimesNearRoute(route: Route, crimes: seq<Crime>, distance: DistanceFn) returns (crimeCount: nat)
    ensures crimeCount == RouteScore(route, crimes, distance)
  {
    crimeCount := 0;
    var legs := route.legs;
    for li := 0 to |legs|
      invariant crimeCount == LegsScore(legs[..li], crimes, distance)
    {
      var steps := legs[li].steps;
      for si := 0 to |steps|
        invariant crimeCount == LegsScore(legs[..li], crimes, distance) + StepsScore(steps[..si], crimes, distance)
      {
        var step := steps[si];
        for ci := 0 to |crimes|
          invariant crimeCount == LegsScore(legs[..li], crimes, distance) + StepsScore(steps[..si], crimes, distance)
                                  + CrimesNearStep(step, crimes[..ci], distance)
        {
          var crime := crimes[ci];
          var crimeDistanceStart := distance(crime.latitude, crime.longitude, step.startLocation.lat, step.startLocation.lng);
          var crimeDistanceEnd := distance(crime.latitude, crime.longitude, step.endLocation.lat, step.endLocation.lng);
          if crimeDistanceStart < NEAR_KM || crimeDistanceEnd < NEAR_KM {
            crimeCount := crimeCount + 1;
          }
          assert crimes[..ci + 1][..ci] == crimes[..ci];
        }
        assert crimes[..|crimes|] == crimes;
        assert steps[..si + 1][..si] == steps[..si];
      }
      assert steps[..|steps|] == steps;
      assert legs[..li + 1][..li] == legs[..li];
    }
    assert legs[..|legs|] == legs;
  }

  /** Scores add up over concatenated step lists. */
  lemma {:induction false} StepsScoreAppend(a: seq<Step>, b: seq<Step>, crimes: seq<Crime>, distance: DistanceFn)
    ensures StepsScore(a + b, crimes, distance) == StepsScore(a, crimes, distance) + StepsScore(b, crimes, distance)
  {
    if |b| == 0 {
      assert a + b == a;
    } else {
      var n := |b| - 1;
      StepsScoreAppend(a, b[..n], crimes, distance);
      assert (a + b)[..|a + b| - 1] == a + b[..n];
    }
  }

  /** Summing leg by leg is summing over all the route's steps in path order. */
  lemma {:induction false} LegsScoreFlat(legs: seq<Leg>, crimes: seq<Crime>, distance: DistanceFn)
    ensures LegsScore(legs, crimes, distance) == StepsScore(AllSteps(legs), crimes, distance)
  {
    if |legs| > 0 {
      var n := |legs| - 1;
      LegsScoreFlat(legs[..n], crimes, distance);
      StepsScoreAppend(AllSteps(legs[..n]), legs[n].steps, crimes, distance);
    }
  }

  /** The pairs for one step are as many as the crimes near it. */
  lemma {:induction false} NearRowCard(step: Step, i: int, crimes: seq<Crime>, distance: DistanceFn)
    ensures |NearRow(step, i, crimes, distance)| == CrimesNearStep(step, crimes, distance)
  {
    if |crimes| > 0 {
      var n := |crimes| - 1;
      var init := crimes[..n];
      NearRowCard(step, i, init, distance);
      var extra: set<(int, int)> := if NearStep(distance, crimes[n], step) then {(i, n)} else {};
      assert forall j :: 0 <= j < n ==> init[j] == crimes[j];
      assert NearRow(step, i, crimes, distance) == NearRow(step, i, init, distance) + extra;
      assert (i, n) !in NearRow(step, i, init, distance);
    }
  }

  /** The pairs of a step list extended by one step: the old pairs plus that step's row. */
  lemma NearPairsSnoc(steps: seq<Step>, crimes: seq<Crime>, distance: DistanceFn)
    requires |steps| > 0
    ensures NearPairs(steps, crimes, distance)
            == NearPairs(steps[..|steps| - 1], crimes, distance) + NearRow(steps[|steps| - 1], |steps| - 1, crimes, distance)
  {
    var n := |steps| - 1;
    var init := steps[..n];
    var all, before, row := NearPairs(steps, crimes, distance), NearPairs(init, crimes, distance), NearRow(steps[n], n, crimes, distance);
    forall p | p in all ensures p in before + row {
      var i, j :| 0 <= i < |steps| && 0 <= j < |crimes| && NearStep(distance, crimes[j], steps[i]) && p == (i, j);
      if i < n {
        assert init[i] == steps[i];
        assert p in before;
      } else {
        assert p in row;
      }
    }
    forall p | p in before ensures p in all {
      var i, j :| 0 <= i < n && 0 <= j < |crimes| && NearStep(distance, crimes[j], init[i]) && p == (i, j);
      assert init[i] == steps[i];
    }
  }

  /** The score of a list of steps is the number of near (step, crime) pairs. */
  lemma {:induction false} StepsScoreIsPairCount(steps: seq<Step>, crimes: seq<Crime>, distance: DistanceFn)
    ensures StepsScore(steps, crimes, distance) == |NearPairs(steps, crimes, distance)|
  {
    if |steps| > 0 {
      var n := |steps| - 1;
      StepsScoreIsPairCount(steps[..n], crimes, distance);
      NearRowCard(steps[n], n, crimes, distance);
      NearPairsSnoc(steps, crimes, distance);
      assert NearPairs(steps[..n], crimes, distance) !! NearRow(steps[n], n, crimes, distance);
    }
  }

  /**
   * A route's crime count is the number of (step, crime) pairs, over all
   * steps of all legs, where the crime is near the step's start or end.
   */
  lemma RouteScoreIsPairCount(route: Route, crimes: seq<Crime>, distance: DistanceFn)
    ensures RouteScore(route, crimes, distance) == |NearPairs(AllSteps(route.legs), crimes, distance)|
  {
    LegsScoreFlat(route.legs, crimes, distance);
    StepsScoreIsPairCount(AllSteps(route.legs), crimes, distance);
  }

  /** Appending a crime adds one to a step's count exactly when it is near the step. */
  lemma CrimeIncrement(step: Step, crimes: seq<Crime>, crime: Crime, distance: DistanceFn)
    ensures CrimesNearStep(step, crimes + [crime], distance)
            == CrimesNearStep(step, crimes, distance) + (if NearStep(distance, crime, step) then 1 else 0)
  {
    assert (crimes + [crime])[..|crimes|] == crimes;
  }

  /** A crime near both ends of a step adds one for that step, not two. */
  lemma NearBothEndsCountsOnce(step: Step, crimes: seq<Crime>, crime: Crime, distance: DistanceFn)
    requires Near(distance, crime, step.startLocation) && Near(distance, crime, step.endLocation)
    ensures CrimesNearStep(step, crimes + [crime], distance) == CrimesNearStep(step, crimes, distance) + 1
  {
    CrimeIncrement(step, crimes, crime, distance);
  }

  /** Appending a crime adds, over a list of steps, the number of steps it is near. */
  lemma {:induction false} StepsCrimeContribution(steps: seq<Step>, crimes: seq<Crime>, crime: Crime, distance: DistanceFn)
    ensures StepsScore(steps, crimes + [crime], distance)
            == StepsScore(steps, crimes, distance) + StepsNearCrime(steps, crime, distance)
  {
    if |steps| > 0 {
      var n := |steps| - 1;
      StepsCrimeContribution(steps[..n], crimes, crime, distance);
      CrimeIncrement(steps[n], crimes, crime, distance);
    }
  }

  /** Each crime adds to a route's count once per step of the route it is near. */
  lemma RouteCrimeContribution(route: Route, crimes: seq<Crime>, crime: Crime, distance: DistanceFn)
    ensures RouteScore(route, crimes + [crime], distance)
            == RouteScore(route, crimes, distance) + StepsNearCrime(AllSteps(route.legs), crime, distance)
  {
    LegsScoreFlat(route.legs, crimes, distance);
    LegsScoreFlat(route.legs, crimes + [crime], distance);
    StepsCrimeContribution(AllSteps(route.legs), crimes, crime, distance);
  }

  /** The steps a crime is near, counted by position. */
  lemma {:induction false} StepsNearCrimeIsCard(steps: seq<Step>, crime: Crime, distance: DistanceFn)
    ensures StepsNearCrime(steps, crime, distance)
            == |set i | 0 <= i < |steps| && NearStep(distance, crime, steps[i])|
  {
    if |steps| > 0 {
      var n := |steps| - 1;
      var init := steps[..n];
      StepsNearCrimeIsCard(init, crime, distance);
      var extra: set<int> := if NearStep(distance, crime, steps[n]) then {n} else {};
      assert forall i :: 0 <= i < n ==> init[i] == steps[i];
      assert (set i | 0 <= i < |steps| && NearStep(distance, crime, steps[i]))
          == (set i | 0 <= i < n && NearStep(distance, crime, init[i])) + extra;
    }
  }

  /**
   * A crime near exactly two distinct steps of a route (positions `i` and
   * `j` among all its steps) adds two to the route's count.
   */
  lemma CrimeNearTwoStepsCountsTwice(route: Route, crimes: seq<Crime>, crime: Crime, distance: DistanceFn, i: nat, j: nat)
    requires i != j && i < |AllSteps(route.legs)| && j < |AllSteps(route.legs)|
    requires NearStep(distance, crime, AllSteps(route.legs)[i]) && NearStep(distance, crime, AllSteps(route.legs)[j])
    requires forall k :: 0 <= k < |AllSteps(route.legs)| && k != i && k != j ==> !NearStep(distance, crime, AllSteps(route.legs)[k])
    ensures RouteScore(route, crimes + [crime], distance) == RouteScore(route, crimes, distance) + 2
  {
    var steps := AllSteps(route.legs);
    RouteCrimeContribution(route, crimes, crime, distance);
    StepsNearCrimeIsCard(steps, crime, distance);
    assert (set k | 0 <= k < |steps| && NearStep(distance, crime, steps[k])) == {i, j};
  }

  /** One step is near at most every crime. */
  lemma {:induction false} CrimesNearStepBound(step: Step, crimes: seq<Crime>, distance: DistanceFn)
    ensures CrimesNearStep(step, crimes, distance) <= |crimes|
  {
    if |crimes| > 0 {
      CrimesNearStepBound(step, crimes[..|crimes| - 1], distance);
    }
  }

  /** A list of steps scores at most (number of steps) x (number of crimes). */
  lemma {:induction false} StepsScoreBound(steps: seq<Step>, crimes: seq<Crime>, distance: DistanceFn)
    ensures StepsScore(steps, crimes, distance) <= |steps| * |crimes|
  {
    if |steps| > 0 {
      var n := |steps| - 1;
      StepsScoreBound(steps[..n], crimes, distance);
      CrimesNearStepBound(steps[n], crimes, distance);
      assert n * |crimes| + |crimes| == |steps| * |crimes|;
    }
  }

  /** A route scores at most (total steps over its legs) x (number of crimes). */
  lemma RouteScoreBound(route: Route, crimes: seq<Crime>, distance: DistanceFn)
    ensures RouteScore(route, crimes, distance) <= |AllSteps(route.legs)| * |crimes|
  {
    LegsScoreFlat(route.legs, crimes, distance);
    StepsScoreBound(AllSteps(route.legs), crimes, distance);
  }

  /** With no recorded crimes every route scores zero. */
  lemma NoCrimesScoreZero(route: Route, distance: DistanceFn)
    ensures RouteScore(route, [], distance) == 0
  {
    RouteScoreBound(route, [], distance);
  }
}
