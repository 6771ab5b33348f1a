/** The rate curve of a ladder and its marginal costs: `buildCurve` and
    `computeMarginalCosts` of route/ladder.go. */
module LadderCurve {
  import opened Results
  import opened Corridor
  import opened Ladder

  /** What a priced rung contributes to either. */
  datatype Sample = Sample(size: real, rate: real, received: real)

  function SampleOf(r: Rung): Sample requires r.Priced() { Sample(r.size, r.Quote().grade.rate, r.Quote().received) }

  /** The priced rungs, in order. */
  function Samples(rungs: seq<Rung>): seq<Sample> {
    if rungs == [] then []
    else
      var r := rungs[|rungs| - 1];
      Samples(rungs[..|rungs| - 1]) + if r.Priced() then [SampleOf(r)] else []
  }

  lemma SamplesSnoc(rungs: seq<Rung>, i: nat)
    requires i < |rungs|
    ensures Samples(rungs[..i + 1])
         == if rungs[i].Priced() then Samples(rungs[..i]) + [SampleOf(rungs[i])] else Samples(rungs[..i])
  {
    assert rungs[..i + 1][..i] == rungs[..i];
  }

  function RateAt(rungs: seq<Rung>, i: nat): real
    requires i < |rungs| && rungs[i].Priced()
  {
    rungs[i].Quote().grade.rate
  }

  predicate TwoPriced(rungs: seq<Rung>) { exists i, j | 0 <= i < j < |rungs| :: rungs[i].Priced() && rungs[j].Priced() }

  predicate RateRises(rungs: seq<Rung>) {
    exists i, j | 0 <= i < j < |rungs| :: rungs[i].Priced() && rungs[j].Priced() && RateAt(rungs, i) < RateAt(rungs, j)
  }

  predicate SomeRateBelow(rungs: seq<Rung>, x: real) { exists i | 0 <= i < |rungs| :: rungs[i].Priced() && RateAt(rungs, i) < x }

  /** What the samples say is what the rungs say. */
  ghost predicate Agree(ss: seq<Sample>, rungs: seq<Rung>) {
    && (|ss| > 0 <==> exists r | r in rungs :: r.Priced())
    && (|ss| > 1 <==> TwoPriced(rungs))
    && (RisesSomewhere(ss) <==> RateRises(rungs))
    && forall x: real :: SampleBelow(ss, x) <==> SomeRateBelow(rungs, x)
  }

  lemma {:induction false} SamplesAgree(rungs: seq<Rung>)
    ensures Agree(Samples(rungs), rungs)
  {
    if rungs != [] {
      hide Agree, SampleOf;
      var front, r := rungs[..|rungs| - 1], rungs[|rungs| - 1];
      assert rungs == front + [r];
      SamplesAgree(front);
      AgreeSnoc(Samples(front), front, r);
      assert Samples(front) + [] == Samples(front);
    }
  }

  lemma AgreeSnoc(ss: seq<Sample>, front: seq<Rung>, r: Rung)
    requires Agree(ss, front)
    ensures Agree(if r.Priced() then ss + [SampleOf(r)] else ss, front + [r])
  {
    TwoPricedSnoc(front, r);
    RateRisesSnoc(front, r);
    if r.Priced() {
      SamplesRiseSnoc(ss, SampleOf(r));
      assert SampleOf(r).rate == r.Quote().grade.rate;
    }
    hide SampleOf, TwoPriced, RateRises, RisesSomewhere, SampleBelow, SomeRateBelow;
  }

  lemma TwoPricedSnoc(front: seq<Rung>, r: Rung)
    ensures TwoPriced(front + [r]) <==> TwoPriced(front) || (r.Priced() && exists x | x in front :: x.Priced())
  {
    var rungs := front + [r];
    assert forall i | 0 <= i < |front| :: rungs[i] == front[i] && rungs[i] in front;
    assert rungs[|front|] == r;
  }

  lemma RateRisesSnoc(front: seq<Rung>, r: Rung)
    ensures RateRises(front + [r]) <==> RateRises(front) || (r.Priced() && SomeRateBelow(front, r.Quote().grade.rate))
    ensures forall x: real :: SomeRateBelow(front + [r], x) <==> SomeRateBelow(front, x) || (r.Priced() && r.Quote().grade.rate < x)
  {
    var rungs := front + [r];
    assert forall i | 0 <= i < |front| :: rungs[i] == front[i];
    assert rungs[|front|] == r;
    assert forall i | 0 <= i < |front| && front[i].Priced() :: RateAt(rungs, i) == RateAt(front, i);
  }

  lemma CurveMeans(rungs: seq<Rung>)
    ensures |Samples(rungs)| > 0 <==> exists r | r in rungs :: r.Priced()
    ensures |Samples(rungs)| > 1 <==> TwoPriced(rungs)
    ensures RisesSomewhere(Samples(rungs)) <==> RateRises(rungs)
  {
    SamplesAgree(rungs);
  }

  predicate SampleBelow(ss: seq<Sample>, x: real) { exists i | 0 <= i < |ss| :: ss[i].rate < x }

  lemma SamplesRiseSnoc(ss: seq<Sample>, s: Sample)
    ensures RisesSomewhere(ss + [s]) <==> RisesSomewhere(ss) || SampleBelow(ss, s.rate)
    ensures forall x: real :: SampleBelow(ss + [s], x) <==> SampleBelow(ss, x) || s.rate < x
  {
    var all := ss + [s];
    assert forall i | 0 <= i < |ss| :: all[i] == ss[i];
    assert all[|ss|] == s;
  }

  // -------------------------------------------------------------------- curve

  datatype Point = Point(size: real, rate: Option<real>)

  function PointOf(r: Rung): Point { Point(r.size, if r.Priced() then Some(SampleOf(r).rate) else None) }

  /** A point is a size and, if it was priced against a mid, what arrived for each unit. */
  lemma PointMeans(reg: Registry, r: Rung)
    requires Proper(reg, r)
    ensures PointOf(r).size == r.size && (PointOf(r).rate.Some? <==> r.Priced())
    ensures r.Priced() && r.result.value.reference.mid != 0.0 ==> PointOf(r).rate.value * r.size == r.Quote().received
  {
    if r.Priced() {
      var o := r.result.value;
      var env: Env :| env.reg == reg && Describes(env, r.size, o.reference, o);
      assert r.Quote() in o.quotes;
      QuoteMeans(env, r.size, o.reference, o, r.Quote());
    }
  }

  datatype Curve = Curve(points: seq<Point>, pricedCount: nat, nonMonotonic: bool)

  /** Some larger size got a better rate than some smaller one. */
  predicate RisesSomewhere(ss: seq<Sample>) { exists i, j | 0 <= i < j < |ss| :: ss[i].rate < ss[j].rate }

  /** `buildCurve` compares neighbours only; that is enough to find any rise at all. */
  method BuildCurve(rungs: seq<Rung>) returns (curve: Option<Curve>)
    ensures curve.None? <==> !TwoPriced(rungs)
    ensures curve.Some? ==>
              && curve.value.pricedCount == |Samples(rungs)|
              && (curve.value.nonMonotonic <==> RateRises(rungs))
              && |curve.value.points| == |rungs|
              && forall i | 0 <= i < |rungs| :: curve.value.points[i] == PointOf(rungs[i])
  {
    hide RisesSomewhere, PointOf, SampleOf, TwoPriced, RateRises;
    var points: seq<Point>, priced: nat, nonMonotonic, previous: Option<real> := [], 0, false, None;
    RiseAtTheEnd([], Sample(0.0, 0.0, 0.0));
    for i := 0 to |rungs|
      invariant |points| == i && forall k | 0 <= k < i :: points[k] == PointOf(rungs[k])
      invariant priced == |Samples(rungs[..i])| && (nonMonotonic <==> RisesSomewhere(Samples(rungs[..i])))
      invariant previous == if priced == 0 then None else Some(Samples(rungs[..i])[priced - 1].rate)
    {
      SamplesSnoc(rungs, i);
      hide Samples;
      var r := rungs[i];
      points := points + [PointOf(r)];
      if r.Priced() {
        var rate := SampleOf(r).rate;
        RiseAtTheEnd(Samples(rungs[..i]), SampleOf(r));
        if previous.Some? && rate > previous.value {
          nonMonotonic := true;
        }
        priced, previous := priced + 1, Some(rate);
      }
    }
    assert rungs[..|rungs|] == rungs;
    CurveMeans(rungs);
    if priced < 2 {
      return None;
    }
    return Some(Curve(points, priced, nonMonotonic));
  }

  lemma RiseAtTheEnd(ss: seq<Sample>, s: Sample)
    ensures RisesSomewhere(ss + [s]) <==> RisesSomewhere(ss) || (ss != [] && ss[|ss| - 1].rate < s.rate)
    ensures !RisesSomewhere([])
  {
    var all := ss + [s];
    if RisesSomewhere(ss) {
      var i, j :| 0 <= i < j < |ss| && ss[i].rate < ss[j].rate;
      assert all[i].rate < all[j].rate;
    }
    if ss != [] && ss[|ss| - 1].rate < s.rate {
      assert all[|ss| - 1].rate < all[|ss|].rate;
    }
  }

  // ----------------------------------------------------------- marginal costs

  datatype MarginalCost = MarginalCost(from: real, to: real, cost: real)

  datatype Trend = Improving | Flat | Worsening | Undetermined

  const TOLERANCE := 0.0000001

  /** What a size gave up against mid, in the receive asset. */
  function CostOf(s: Sample, mid: real): real { s.size * mid - s.received }

  function Costs(ss: seq<Sample>, mid: real): seq<MarginalCost> {
    if |ss| < 2 then [] else Costs(ss[..|ss| - 1], mid) + [Between(ss[|ss| - 2], ss[|ss| - 1], mid)]
  }

  function Between(a: Sample, b: Sample, mid: real): MarginalCost {
    MarginalCost(a.size, b.size, CostOf(b, mid) - CostOf(a, mid))
  }

  function Sum(ms: seq<MarginalCost>): real {
    if ms == [] then 0.0 else Sum(ms[..|ms| - 1]) + ms[|ms| - 1].cost
  }

  /** However many sizes failed in between, the marginal costs add up to what the
      largest priced size costs over the smallest. */
  lemma {:induction false} MarginalCostsTelescope(ss: seq<Sample>, mid: real)
    requires ss != []
    ensures Sum(Costs(ss, mid)) == CostOf(ss[|ss| - 1], mid) - CostOf(ss[0], mid)
    ensures |Costs(ss, mid)| == |ss| - 1
  {
    hide CostOf;
    if |ss| > 1 {
      var front := ss[..|ss| - 1];
      MarginalCostsTelescope(front, mid);
      var ms, m := Costs(front, mid), Between(ss[|ss| - 2], ss[|ss| - 1], mid);
      assert Costs(ss, mid) == ms + [m];
      assert (ms + [m])[..|ms|] == ms;
    }
  }

  /** The first and the last rung that were priced. */
  predicate Ends(rungs: seq<Rung>, a: nat, z: nat) {
    && a <= z < |rungs| && rungs[a].Priced() && rungs[z].Priced()
    && forall k | 0 <= k < |rungs| && rungs[k].Priced() :: a <= k <= z
  }

  lemma {:induction false} EndsOfSamples(rungs: seq<Rung>, a: nat, z: nat)
    requires Ends(rungs, a, z)
    ensures var ss := Samples(rungs); ss != [] && ss[0] == SampleOf(rungs[a]) && ss[|ss| - 1] == SampleOf(rungs[z])
  {
    hide SampleOf;
    var front, r := rungs[..|rungs| - 1], rungs[|rungs| - 1];
    assert rungs == front + [r];
    if !r.Priced() {
      EndsOfSamples(front, a, z);
    } else if a < |front| {
      LastPriced(front, a);
      var b: nat :| Ends(front, a, b);
      EndsOfSamples(front, a, b);
    } else {
      CurveMeans(front);
      assert forall x | x in front :: !x.Priced();
    }
  }

  lemma {:induction false} LastPriced(rungs: seq<Rung>, a: nat)
    requires a < |rungs| && rungs[a].Priced() && forall k | 0 <= k < a :: !rungs[k].Priced()
    ensures exists z: nat :: Ends(rungs, a, z)
  {
    var front, r := rungs[..|rungs| - 1], rungs[|rungs| - 1];
    if r.Priced() {
      assert Ends(rungs, a, |front|);
    } else {
      LastPriced(front, a);
      var z: nat :| Ends(front, a, z);
      assert Ends(rungs, a, z);
    }
  }

  /** In terms of the quotes: all marginal costs together are what the last priced size
      gave up against mid, over what the first did. */
  lemma MarginalCostsSpan(rungs: seq<Rung>, a: nat, z: nat, mid: real)
    requires Ends(rungs, a, z)
    ensures Sum(Costs(Samples(rungs), mid))
         == (rungs[z].size * mid - rungs[z].Quote().received) - (rungs[a].size * mid - rungs[a].Quote().received)
  {
    EndsOfSamples(rungs, a, z);
    MarginalCostsTelescope(Samples(rungs), mid);
  }

  predicate Steps(ms: seq<MarginalCost>, up: bool) {
    exists i | 1 <= i < |ms| ::
      if up then ms[i].cost - ms[i - 1].cost > TOLERANCE else ms[i].cost - ms[i - 1].cost < -TOLERANCE
  }

  /** `computeMarginalCosts`. */
  method ComputeMarginalCosts(rungs: seq<Rung>, mid: real) returns (marginal: seq<MarginalCost>, trend: Trend)
    ensures marginal == Costs(Samples(rungs), mid)
    ensures trend == Undetermined <==> |Samples(rungs)| < 2
    ensures trend == Improving <==> Steps(marginal, false) && !Steps(marginal, true)
    ensures trend == Worsening <==> Steps(marginal, true) && !Steps(marginal, false)
  {
    marginal := [];
    var previous: Option<Sample> := None;
    for i := 0 to |rungs|
      invariant marginal == Costs(Samples(rungs[..i]), mid)
      invariant var ss := Samples(rungs[..i]); previous == if ss == [] then None else Some(ss[|ss| - 1])
    {
      hide Costs, CostOf;
      SamplesSnoc(rungs, i);
      hide Samples;
      var r := rungs[i];
      if !r.Priced() {
        continue;
      }
      if previous.Some? {
        marginal := marginal + [Between(previous.value, SampleOf(r), mid)];
      }
      previous := Some(SampleOf(r));
    }
    assert rungs[..|rungs|] == rungs;
    if Samples(rungs) != [] {
      MarginalCostsTelescope(Samples(rungs), mid);
    }
    trend := Classify(marginal);
  }

  method Classify(marginal: seq<MarginalCost>) returns (trend: Trend)
    ensures trend == Undetermined <==> marginal == []
    ensures trend == Improving <==> Steps(marginal, false) && !Steps(marginal, true)
    ensures trend == Worsening <==> Steps(marginal, true) && !Steps(marginal, false)
  {
    if |marginal| == 0 {
      return Undetermined;
    }
    var improving, worsening := false, false;
    for i := 1 to |marginal|
      invariant improving <==> exists k | 1 <= k < i :: marginal[k].cost - marginal[k - 1].cost < -TOLERANCE
      invariant worsening <==> exists k | 1 <= k < i :: marginal[k].cost - marginal[k - 1].cost > TOLERANCE
    {
      var delta := marginal[i].cost - marginal[i - 1].cost;
      if delta < -TOLERANCE {
        improving := true;
      }
      if delta > TOLERANCE {
        worsening := true;
      }
    }
    trend := if improving && !worsening then Improving else if worsening && !improving then Worsening else Flat;
  }
}
