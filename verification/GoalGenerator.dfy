/** Random goals on a map. */
module GoalGenerators {
  import opened Options
  import opened GridMaps

  /** A number drawn uniformly from the unit interval. */
  type Fraction = u: real | 0.0 <= u < 1.0 witness 0.0

  datatype Draw = Draw(x: Fraction, y: Fraction, orientation: (Fraction, Fraction, Fraction, Fraction))

  datatype Goal = Goal(x: real, y: real, orientation: (Fraction, Fraction, Fraction, Fraction))

  /** A uniform draw from the interval. */
  function Uniform(lo: real, hi: real, u: Fraction): real {
    lo + (hi - lo) * u
  }

  /** The goal a draw stands for. */
  function Sample(range: ((real, real), (real, real)), draw: Draw): Goal {
    Goal(Uniform(range.0.0, range.0.1, draw.x), Uniform(range.1.0, range.1.1, draw.y), draw.orientation)
  }

  lemma Within(lo: real, hi: real, u: Fraction)
    requires lo <= hi
    ensures lo <= Uniform(lo, hi, u) <= hi
  {
    Product(hi - lo, u);
    Product(hi - lo, 1.0 - u);
  }

  lemma Product(a: real, b: real)
    requires a >= 0.0 && b >= 0.0
    ensures a * b >= 0.0 && a * (1.0 - b) == a - a * b
  {
  }

  /** The fraction that yields a given value. */
  function FractionFor(lo: real, hi: real, v: real): (u: Fraction)
    requires lo <= v < hi
    ensures Uniform(lo, hi, u) == v
  {
    Quotient(v - lo, hi - lo);
    (v - lo) / (hi - lo)
  }

  lemma Quotient(a: real, b: real)
    requires 0.0 <= a < b
    ensures 0.0 <= a / b < 1.0 && b * (a / b) == a
  {
    var q := a / b;
    assert b * q == a;
    if q >= 1.0 {
      Product(b, q - 1.0);
    }
  }

  lemma Larger(lo: real, hi: real, u: Fraction, w: Fraction)
    requires lo < hi && u < w
    ensures Uniform(lo, hi, u) < Uniform(lo, hi, w)
  {
    assert (hi - lo) * (w - u) > 0.0;
  }

  /** Every point of the map in every orientation is the sample of exactly one draw; and what is drawn
      for one coordinate decides that coordinate alone, larger draws giving larger values. */
  lemma SamplesCoverTheRange(range: ((real, real), (real, real)), goal: Goal) returns (draw: Draw)
    requires range.0.0 <= goal.x < range.0.1 && range.1.0 <= goal.y < range.1.1
    ensures Sample(range, draw) == goal
    ensures forall other: Draw :: Sample(range, other) == goal <==> other == draw
    ensures forall other: Draw :: (other.x < draw.x <==> Sample(range, other).x < goal.x)
                                && (other.y < draw.y <==> Sample(range, other).y < goal.y)
  {
    draw := Draw(FractionFor(range.0.0, range.0.1, goal.x), FractionFor(range.1.0, range.1.1, goal.y),
                 goal.orientation);
    hide Uniform;
    forall other: Draw
      ensures Sample(range, other) == goal <==> other == draw
      ensures (other.x < draw.x <==> Sample(range, other).x < goal.x)
              && (other.y < draw.y <==> Sample(range, other).y < goal.y)
    {
      InOrder(range.0.0, range.0.1, other.x, draw.x);
      InOrder(range.1.0, range.1.1, other.y, draw.y);
    }
  }

  lemma InOrder(lo: real, hi: real, u: Fraction, w: Fraction)
    requires lo < hi
    ensures u < w <==> Uniform(lo, hi, u) < Uniform(lo, hi, w)
    ensures u == w <==> Uniform(lo, hi, u) == Uniform(lo, hi, w)
  {
    hide Uniform;
    if u < w {
      Larger(lo, hi, u, w);
    } else if w < u {
      Larger(lo, hi, w, u);
    }
  }

  lemma SampleWithin(range: ((real, real), (real, real)), draw: Draw)
    requires range.0.0 <= range.0.1 && range.1.0 <= range.1.1
    ensures range.0.0 <= Sample(range, draw).x <= range.0.1 && range.1.0 <= Sample(range, draw).y <= range.1.1
  {
    hide Uniform;
    Within(range.0.0, range.0.1, draw.x);
    Within(range.1.0, range.1.1, draw.y);
  }

  /** The goal is within the bounds, and further from every obstacle than the distance less one cell. */
  ghost predicate InsideAndClear(g: Grid, range: ((real, real), (real, real)), goal: Goal, distance: real) {
    && range.0.0 <= goal.x <= range.0.1 && range.1.0 <= goal.y <= range.1.1
    && forall p | p in g.occupied :: Clearance(g, p, goal.x, goal.y) > distance - g.resolution
  }

  class RandomGoalGenerator {
    const gridMap: GridMap
    const distance: real

    constructor (gridMap: GridMap, distance: real)
      ensures this.gridMap == gridMap && this.distance == distance
    {
      this.gridMap := gridMap;
      this.distance := distance;
    }

    ghost predicate Accepts(goal: Goal)
      requires gridMap.Valid()
      reads gridMap, gridMap.gridMap
    {
      ValidPose(gridMap.Map(), goal.x, goal.y, distance)
    }

    lemma AcceptedHere(draw: Draw)
      requires gridMap.Valid() && distance > 0.0 && Accepts(Sample(gridMap.GetRange(), draw))
      ensures InsideAndClear(gridMap.Map(), gridMap.GetRange(), Sample(gridMap.GetRange(), draw), distance)
    {
      hide ValidPose, InsideAndClear, Sample, Bounds;
      AcceptedIsClear(gridMap.Map(), gridMap.GetRange(), draw, distance);
    }

    /** Rejection sampling: the first accepted sample within the limit is returned, and nothing if
        there is none.  A returned goal is on the map and clear of obstacles. */
    method GenerateGoal(draws: nat -> Draw, maxNumOfTrials: int) returns (goal: Option<Goal>)
      requires gridMap.Valid() && distance > 0.0
      ensures goal.None? <==> forall k: nat | k < maxNumOfTrials :: !Accepts(Sample(gridMap.GetRange(), draws(k)))
      ensures goal.Some? ==>
                exists k: nat :: k < maxNumOfTrials && goal.value == Sample(gridMap.GetRange(), draws(k))
                  && Accepts(goal.value) &&
                                 forall j: nat | j < k :: !Accepts(Sample(gridMap.GetRange(), draws(j)))
      ensures goal.Some? ==> InsideAndClear(gridMap.Map(), gridMap.GetRange(), goal.value, distance)
    {
      hide ValidPose, InsideAndClear, Sample, GridMap.Map;
      var range := gridMap.GetRange();
      var trialCount := 0;
      while trialCount < maxNumOfTrials
        invariant 0 <= trialCount && (trialCount <= maxNumOfTrials || trialCount == 0)
        invariant forall k: nat | k < trialCount :: !Accepts(Sample(range, draws(k)))
      {
        var sample := Sample(range, draws(trialCount));
        var valid := gridMap.IsValidPose(sample.x, sample.y, distance);
        if valid {
          AcceptedHere(draws(trialCount));
          return Some(sample);
        }
        trialCount := trialCount + 1;
      }
      return None;
    }
  }

  /** An accepted sample is on the map and further from every obstacle than the distance less one
      cell. */
  lemma AcceptedIsClear(g: Grid, range: ((real, real), (real, real)), draw: Draw, distance: real)
    requires g.Valid() && distance > 0.0
    requires range == Bounds(g.height, g.width, g.resolution, g.originX, g.originY)
    requires ValidPose(g, Sample(range, draw).x, Sample(range, draw).y, distance)
    ensures InsideAndClear(g, range, Sample(range, draw), distance)
  {
    assert range.0.1 == Width(g, g.width) + g.originX && range.1.1 == Width(g, g.height) + g.originY;
    hide ValidPose, NotWrapped, Clearance, Sample, Width;
    var goal := Sample(range, draw);
    Widths(g, 0, g.width);
    Widths(g, 0, g.height);
    SampleWithin(range, draw);
    NearbyIsNotWrapped(g, goal.x, goal.y, distance);
    ClearanceBounds(g, goal.x, goal.y, distance);
  }
}
