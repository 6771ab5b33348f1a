/** The square root behind published deviations: `decimalSqrt` of analysis/analysis.go,
    over exact reals. How many of its fifty rounds an input needs is decided by the size of
    the input alone: the excess of a guess over the root, taken relative to the input,
    follows one recurrence. */
module NewtonSqrt {
  import opened Reals

  const TOLERANCE := 0.000_000_000_001
  const MAX_STEPS := 50

  function Abs(x: real): real { if x < 0.0 then -x else x }

  function Next(d: real, x: real): real requires x > 0.0 { (x + d / x) / 2.0 }

  /** How far one iteration moves. */
  function Move(d: real, x: real): real requires x > 0.0 { Abs(Next(d, x) - x) }

  function Start(d: real): real { if d > 100.0 then d / 2.0 else d }

  function Pow2(n: nat): real { if n == 0 then 1.0 else 2.0 * Pow2(n - 1) }

  /** By how much the square of `r` misses `d`. */
  function Excess(d: real, r: real): real { Square(r) - d }

  // ---------------------------------------------------------------- one iteration

  lemma QuotientSign(x: real, y: real)
    requires x >= 0.0 && y > 0.0
    ensures x / y >= 0.0
  {
    var q := x / y;
    assert q * y == x;
  }

  /** The iterate's square misses by exactly the square of the step that led to it, so
      every iterate but the first lies on or above the root; no step is longer than the
      iterate it leads to, and that is no less than half the one before. */
  lemma StepSquared(d: real, x: real)
    requires d > 0.0 && x > 0.0
    ensures var y := Next(d, x);
            Excess(d, y) == Square(Move(d, x)) && y > 0.0 && Move(d, x) <= y && 2.0 * y >= x
  {
    var q := d / x;
    assert q * x == d;
    QuotientSign(d, x);
    var y := (x + q) / 2.0;
    assert 4.0 * (y * y) == x * x + 2.0 * (q * x) + q * q;
    assert 4.0 * ((y - x) * (y - x)) == q * q - 2.0 * (q * x) + x * x;
  }

  /** Newton's recurrence for the steps: from an iterate on or above the root, reached by
      a step `e`, the next step is `e` squared over twice the iterate. */
  lemma NextMove(d: real, x: real)
    requires d > 0.0 && x > 0.0
    ensures var y := Next(d, x);
            y > 0.0 && 2.0 * (Move(d, y) * y) == Square(Move(d, x)) && Next(d, y) == y - Move(d, y) && Move(d, y) >= 0.0
  {
    StepSquared(d, x);
    var y := Next(d, x);
    var q := d / y;
    assert q * y == d;
    var e := Move(d, x);
    assert (y - q) * y == Square(e) by { assert Excess(d, y) == y * y - d; }
    Product(e, e);
    NonNegativeFactor(y - q, y);
    assert Next(d, y) - y == (q - y) / 2.0;
  }

  /** So the error itself falls quadratically, from any guess. */
  lemma ExcessSquares(d: real, x: real)
    requires d > 0.0 && x > 0.0
    ensures Next(d, x) > 0.0 && Excess(d, Next(d, x)) * (4.0 * Square(x)) == Square(Excess(d, x))
  {
    StepSquared(d, x);
    var q := d / x;
    assert q * x == d;
    var m := (x - q) / 2.0;
    assert Square(Move(d, x)) == m * m;
    assert Excess(d, x) == 2.0 * (m * x);
    assert (m * m) * (4.0 * (x * x)) == (2.0 * (m * x)) * (2.0 * (m * x));
  }

  /** Each step is at most half the one before. */
  lemma StepsHalve(d: real, x: real)
    requires d > 0.0 && x > 0.0
    ensures Next(d, x) > 0.0 && 2.0 * Move(d, Next(d, x)) <= Move(d, x) && Move(d, x) >= 0.0
  {
    StepSquared(d, x);
    NextMove(d, x);
    var y, e := Next(d, x), Move(d, x);
    ScaleUp(e, e, y);
    Scale(y, 2.0 * Move(d, y), e);
    assert e * y == y * e;
  }

  /** The first step. */
  lemma FirstMove(d: real)
    requires d > 0.0
    ensures Start(d) > 0.0
    ensures Move(d, Start(d)) == if d > 100.0 then d / 4.0 - 1.0 else Abs(d - 1.0) / 2.0
  {
    if d > 100.0 {
      assert (d / 2.0) * 2.0 == d;
      assert d / (d / 2.0) == 2.0;
    } else {
      assert d / d == 1.0;
    }
  }

  // ------------------------------------------------------------------- iterates

  /** The guess after `n` rounds. */
  function Guess(d: real, x: real, n: nat): (y: real)
    requires d > 0.0 && x > 0.0
    ensures y > 0.0
  {
    if n == 0 then x
    else
      var before := Guess(d, x, n - 1);
      StepSquared(d, before);
      Next(d, before)
  }

  lemma {:induction false} Pow2IsPositive(n: nat)
    ensures Pow2(n) >= 1.0
  {
    if n > 0 {
      Pow2IsPositive(n - 1);
    }
  }

  /** A step length, scaled up by the halvings it should have seen. */
  function Scaled(move: real, halvings: nat): real { move * Pow2(halvings) }

  lemma {:induction false} MovesHalve(d: real, x: real, n: nat)
    requires d > 0.0 && x > 0.0
    ensures Scaled(Move(d, Guess(d, x, n)), n) <= Move(d, x) && Move(d, Guess(d, x, n)) >= 0.0
  {
    if n == 0 {
      StepsHalve(d, x);
    } else {
      hide Move, Scaled, Next;
      var before := Guess(d, x, n - 1);
      MovesHalve(d, x, n - 1);
      StepsHalve(d, before);
      StepsHalve(d, Next(d, before));
      Halved(Move(d, before), Move(d, Next(d, before)), n - 1);
    }
  }

  lemma Halved(a: real, b: real, n: nat)
    requires 2.0 * b <= a
    ensures Scaled(b, n + 1) <= Scaled(a, n)
  {
    var p := Pow2(n);
    Pow2IsPositive(n);
    Product(a - 2.0 * b, p);
    assert Pow2(n + 1) == 2.0 * p;
    assert (a - 2.0 * b) * p == a * p - b * (2.0 * p);
  }

  lemma Pow2Of49()
    ensures Pow2(49) == 562_949_953_421_312.0
  {
    assert Pow2(10) == 1024.0;
    assert Pow2(20) == 1_048_576.0;
    assert Pow2(30) == 1_073_741_824.0;
    assert Pow2(40) == 1_099_511_627_776.0;
  }

  // ------------------------------------------------------------ the relative excess

  function Weight(r: real): (k: real)
    requires r > -1.0
    ensures k > 0.0
  {
    4.0 * (1.0 + r)
  }

  /** What one round makes of an excess of `r` times the input. */
  function Fall(r: real): (v: real)
    requires r > -1.0
    ensures v >= 0.0
  {
    FallIs(r);
    Square(r) / Weight(r)
  }

  lemma FallIs(r: real)
    requires r > -1.0
    ensures Square(r) / Weight(r) >= 0.0 && Square(r) / Weight(r) * Weight(r) == Square(r)
  {
    var k := Weight(r);
    assert Square(r) >= 0.0 by { if r != 0.0 { SquareIsPositive(r); } }
    hide Square, Weight;
    assert Square(r) / k * k == Square(r);
    NonNegativeFactor(Square(r) / k, k);
  }

  /** And what `n` rounds make of it. */
  function Ratio(r: real, n: nat): (v: real)
    requires r > -1.0
    ensures v > -1.0 && (n > 0 || r >= 0.0 ==> v >= 0.0)
  {
    if n == 0 then r else Fall(Ratio(r, n - 1))
  }

  /** The guess `x` has relative excess `r`. */
  predicate Relative(d: real, x: real, r: real)
    requires d > 0.0
  {
    Excess(d, x) == d * r
  }

  /** The rounds depend on the input only through the relative excess of the guess. */
  lemma {:induction false} ExcessIsRatio(d: real, x: real, r: real, n: nat)
    requires d > 0.0 && x > 0.0 && r > -1.0 && Relative(d, x, r)
    ensures Relative(d, Guess(d, x, n), Ratio(r, n))
  {
    if n > 0 {
      hide Fall, Next, Relative;
      ExcessIsRatio(d, x, r, n - 1);
      FallIsRound(d, Guess(d, x, n - 1), Ratio(r, n - 1));
    }
  }

  lemma FallIsRound(d: real, x: real, r: real)
    requires d > 0.0 && x > 0.0 && r > -1.0 && Relative(d, x, r)
    ensures Next(d, x) > 0.0 && Relative(d, Next(d, x), Fall(r))
  {
    ExcessSquares(d, x);
    FallIs(r);
    hide Next;
    RoundCancels(d, Square(x), r, Excess(d, Next(d, x)), Fall(r));
  }

  lemma RoundCancels(d: real, s: real, r: real, e: real, v: real)
    requires d > 0.0 && r > -1.0 && s - d == d * r && e * (4.0 * s) == Square(d * r)
    requires v * Weight(r) == Square(r)
    ensures e == d * v
  {
    var k := Weight(r);
    assert 4.0 * s == k * d;
    assert (e * k) * d == e * (k * d);
    assert Square(d * r) == Square(r) * d * d;
    assert ((d * v) * k) * d == (v * k) * d * d;
    Cancel(e, d * v, k, d);
  }

  lemma Cancel(a: real, b: real, j: real, k: real)
    requires j > 0.0 && k > 0.0 && (a * j) * k == (b * j) * k
    ensures a == b
  {
    Scale(k, a * j, b * j);
    Scale(k, b * j, a * j);
    Scale(j, a, b);
    Scale(j, b, a);
  }

  /** The relative excess of the starting guess. */
  function StartRatio(d: real): real { if d > 100.0 then d / 4.0 - 1.0 else d - 1.0 }

  lemma StartIsRelative(d: real)
    requires d > 0.0
    ensures Start(d) > 0.0 && StartRatio(d) > -1.0 && Relative(d, Start(d), StartRatio(d))
  {
  }

  lemma GuessExcess(d: real, n: nat)
    requires d > 0.0
    ensures Start(d) > 0.0 && StartRatio(d) > -1.0
    ensures Excess(d, Guess(d, Start(d), n)) == d * Ratio(StartRatio(d), n)
  {
    hide Ratio, Guess, Next, Start, StartRatio, Excess;
    StartIsRelative(d);
    ExcessIsRatio(d, Start(d), StartRatio(d), n);
  }

  lemma FallIsMonotone(r: real, s: real)
    requires 0.0 <= r <= s
    ensures Fall(r) <= Fall(s)
  {
    SquaresCross(r, s);
    hide Square, Weight;
    QuotientsCross(Square(r), Square(s), Weight(r), Weight(s));
  }

  lemma SquaresCross(r: real, s: real)
    requires 0.0 <= r <= s
    ensures Square(r) * Weight(s) <= Square(s) * Weight(r)
  {
    var p := r * s;
    assert p >= 0.0 by { Product(r, s); }
    var t := (s - r) * (s + r + p);
    assert t >= 0.0 by { Product(s - r, s + r + p); }
    assert (s - r) * p == s * s * r - r * r * s;
    assert (s - r) * (s + r) == s * s - r * r;
    assert t == (s - r) * (s + r) + (s - r) * p;
    assert Square(r) * Weight(s) == 4.0 * (r * r + r * r * s);
    assert Square(s) * Weight(r) == 4.0 * (s * s + s * s * r);
  }

  lemma QuotientsCross(a: real, b: real, j: real, k: real)
    requires j > 0.0 && k > 0.0 && a * k <= b * j
    ensures a / j <= b / k
  {
    var u, v := a / j, b / k;
    assert u * j == a && v * k == b;
    assert (u * j) * k == (u * k) * j;
    Scale(j, u * k, b);
    Scale(k, u, v);
  }

  lemma QuotientBounds(a: real, k: real, low: real, high: real)
    requires k > 0.0
    ensures a / k <= high <==> a <= high * k
    ensures low <= a / k <==> low * k <= a
  {
    var v := a / k;
    assert v * k == a;
    Scale(k, v, high);
    Scale(k, low, v);
  }

  lemma {:induction false} RatioIsMonotone(r: real, s: real, n: nat)
    requires 0.0 <= r <= s
    ensures 0.0 <= Ratio(r, n) <= Ratio(s, n)
  {
    if n > 0 {
      RatioIsMonotone(r, s, n - 1);
      FallIsMonotone(Ratio(r, n - 1), Ratio(s, n - 1));
    }
  }

  /** A round leaves at most a quarter, and hardly less while the excess is large. */
  lemma FallIsAQuarter(r: real)
    requires r >= 0.0
    ensures (r + 1.0 / 3.0) / 4.0 - 1.0 / 3.0 <= Fall(r) <= r / 4.0
  {
    var k := Weight(r);
    assert (r / 4.0) * k == Square(r) + r;
    assert ((r - 1.0) / 4.0) * k == Square(r) - 1.0;
    hide Square, Weight;
    QuotientBounds(Square(r), k, (r - 1.0) / 4.0, r / 4.0);
  }

  lemma {:induction false} RatioIsQuartered(r: real, n: nat)
    requires r >= 0.0
    ensures Scaled(Ratio(r, n), 2 * n) <= r
    ensures Scaled(Ratio(r, n) + 1.0 / 3.0, 2 * n) >= r + 1.0 / 3.0
  {
    if n > 0 {
      hide Fall, Scaled;
      var v := Ratio(r, n - 1);
      RatioIsQuartered(r, n - 1);
      FallIsAQuarter(v);
      Quartered(v, Fall(v), n - 1);
      Quartered(Fall(v) + 1.0 / 3.0, v + 1.0 / 3.0, n - 1);
    }
  }

  lemma Quartered(a: real, b: real, n: nat)
    ensures 4.0 * b <= a ==> Scaled(b, 2 * (n + 1)) <= Scaled(a, 2 * n)
    ensures 4.0 * a >= b ==> Scaled(a, 2 * (n + 1)) >= Scaled(b, 2 * n)
  {
    var p := Pow2(2 * n);
    Pow2IsPositive(2 * n);
    assert Pow2(2 * (n + 1)) == 2.0 * Pow2(2 * n + 1) == 4.0 * p;
    if 4.0 * b <= a {
      ScaleUp(p, 4.0 * b, a);
    }
    if 4.0 * a >= b {
      ScaleUp(p, b, 4.0 * a);
    }
  }

  lemma FallsTo(r: real, n: nat, u: real, v: real)
    requires r >= 0.0 && Ratio(r, n) <= u && Square(u) <= v * Weight(u)
    ensures Ratio(r, n + 1) <= v
  {
    FallIsMonotone(Ratio(r, n), u);
    QuotientBounds(Square(u), Weight(u), v, v);
  }

  lemma FallsNoFurther(r: real, n: nat, u: real, v: real)
    requires r >= 0.0 && 0.0 <= u <= Ratio(r, n) && v * Weight(u) <= Square(u)
    ensures v <= Ratio(r, n + 1)
  {
    FallIsMonotone(u, Ratio(r, n));
    QuotientBounds(Square(u), Weight(u), v, v);
  }

  // ---------------------------------------------------------------- the tolerance

  /** The tolerance is met within the fifty rounds. */
  predicate Reaches(d: real)
    requires d > 0.0
  {
    Start(d) > 0.0 && Move(d, Guess(d, Start(d), MAX_STEPS - 1)) < TOLERANCE
  }

  lemma ReachesMeans(d: real)
    requires d > 0.0
    ensures StartRatio(d) > -1.0
    ensures Reaches(d) <==> d * Ratio(StartRatio(d), 50) < Square(TOLERANCE)
  {
    FirstMove(d);
    GuessExcess(d, 50);
    var x := Guess(d, Start(d), 49);
    StepSquared(d, x);
    StepsHalve(d, x);
    hide Next, Move, Square, Ratio;
    if Move(d, x) < TOLERANCE {
      SquareIsStrict(Move(d, x), TOLERANCE);
    } else {
      SquareIsMonotone(TOLERANCE, Move(d, x));
    }
  }

  lemma SmallInputsReach(d: real)
    requires 0.0 < d <= 100.0
    ensures Reaches(d)
  {
    FirstMove(d);
    MovesHalve(d, Start(d), 49);
    Pow2Of49();
  }

  /** There is one threshold: whatever is below an input that reaches the tolerance
      reaches it too. */
  lemma ReachingIsDownward(d: real, e: real)
    requires 0.0 < d <= e && Reaches(e)
    ensures Reaches(d)
  {
    hide Reaches, Square, Ratio;
    if d <= 100.0 {
      SmallInputsReach(d);
    } else {
      ReachesMeans(d);
      ReachesMeans(e);
      RatioIsMonotone(StartRatio(d), StartRatio(e), 50);
      ProductGrows(d, e, Ratio(StartRatio(d), 50), Ratio(StartRatio(e), 50));
    }
  }

  lemma ProductGrows(d: real, e: real, v: real, w: real)
    requires 0.0 <= d <= e && 0.0 <= v <= w
    ensures d * v <= e * w
  {
    ScaleUp(d, v, w);
    ScaleUp(w, d, e);
    assert d * w == w * d && e * w == w * e;
  }

  /** It lies between these two. */
  const REACHED := 1_428_080_000_000_000_000_000_000_000.0
  const MISSED := 1_428_100_000_000_000_000_000_000_000.0

  lemma Pow2Of70()
    ensures Pow2(70) == 1_180_591_620_717_411_303_424.0
  {
    Pow2Of49();
    assert Pow2(59) == 576_460_752_303_423_488.0;
    assert Pow2(69) == 590_295_810_358_705_651_712.0;
  }

  lemma LastFifteenBelow(r: real)
    requires r >= 0.0 && Ratio(r, 35) <= 302_407.71
    ensures Ratio(r, 50) <= 0.000_000_000_000_000_000_000_000_000_000_000_000_000_000_000_000_000_700_240_6
  {
    hide Ratio;
    FallsTo(r, 35, 302_407.71, 75_601.678);
    FallsTo(r, 36, 75_601.678, 18_900.17);
    FallsTo(r, 37, 18_900.17, 4_724.792_6);
    FallsTo(r, 38, 4_724.792_6, 1_180.948_3);
    FallsTo(r, 39, 1_180.948_3, 294.987_29);
    FallsTo(r, 40, 294.987_29, 73.497_668);
    FallsTo(r, 41, 73.497_668, 18.127_773);
    FallsTo(r, 42, 18.127_773, 4.295_013_3);
    FallsTo(r, 43, 4.295_013_3, 0.870_967_56);
    FallsTo(r, 44, 0.870_967_56, 0.101_362_6);
    FallsTo(r, 45, 0.101_362_6, 0.002_332_196_7);
    FallsTo(r, 46, 0.002_332_196_7, 0.000_001_356_621_5);
    FallsTo(r, 47, 0.000_001_356_621_5, 0.000_000_000_000_460_104_85);
    FallsTo(r, 48, 0.000_000_000_000_460_104_85, 0.000_000_000_000_000_000_000_000_052_924_119);
    FallsTo(r, 49, 0.000_000_000_000_000_000_000_000_052_924_119, 0.000_000_000_000_000_000_000_000_000_000_000_000_000_000_000_000_000_700_240_6);
  }

  lemma FiftyRoundsAreEnough(r: real)
    requires r == REACHED / 4.0 - 1.0
    ensures REACHED * Ratio(r, 50) < Square(TOLERANCE)
  {
    RatioIsQuartered(r, 35);
    Pow2Of70();
    LastFifteenBelow(r);
  }

  lemma LastFifteenAbove(r: real)
    requires r >= 0.0 && Ratio(r, 35) >= 302_411.6
    ensures Ratio(r, 50) >= 0.000_000_000_000_000_000_000_000_000_000_000_000_000_000_000_000_000_700_762_23
  {
    hide Ratio;
    FallsNoFurther(r, 35, 302_411.6, 75_602.65);
    FallsNoFurther(r, 36, 75_602.65, 18_900.412);
    FallsNoFurther(r, 37, 18_900.412, 4_724.853);
    FallsNoFurther(r, 38, 4_724.853, 1_180.963_3);
    FallsNoFurther(r, 39, 1_180.963_3, 294.991_03);
    FallsNoFurther(r, 40, 294.991_03, 73.498_602);
    FallsNoFurther(r, 41, 73.498_602, 18.128_006);
    FallsNoFurther(r, 42, 18.128_006, 4.295_071_3);
    FallsNoFurther(r, 43, 4.295_071_3, 0.870_981_54);
    FallsNoFurther(r, 44, 0.870_981_54, 0.101_365_08);
    FallsNoFurther(r, 45, 0.101_365_08, 0.002_332_305_5);
    FallsNoFurther(r, 46, 0.002_332_305_5, 0.000_001_356_747_8);
    FallsNoFurther(r, 47, 0.000_001_356_747_8, 0.000_000_000_000_460_190_52);
    FallsNoFurther(r, 48, 0.000_000_000_000_460_190_52, 0.000_000_000_000_000_000_000_000_052_943_828);
    FallsNoFurther(r, 49, 0.000_000_000_000_000_000_000_000_052_943_828, 0.000_000_000_000_000_000_000_000_000_000_000_000_000_000_000_000_000_700_762_23);
  }

  lemma FiftyRoundsAreTooFew(r: real)
    requires r == MISSED / 4.0 - 1.0
    ensures MISSED * Ratio(r, 50) >= Square(TOLERANCE)
  {
    RatioIsQuartered(r, 35);
    Pow2Of70();
    LastFifteenAbove(r);
  }

  lemma ReachedOrMissed(d: real)
    requires d > 0.0
    ensures d <= REACHED ==> Reaches(d)
    ensures d >= MISSED ==> !Reaches(d)
  {
    hide Reaches, Ratio;
    if d <= REACHED {
      ReachesMeans(REACHED);
      FiftyRoundsAreEnough(StartRatio(REACHED));
      ReachingIsDownward(d, REACHED);
    }
    if d >= MISSED {
      ReachesMeans(MISSED);
      FiftyRoundsAreTooFew(StartRatio(MISSED));
      if Reaches(d) {
        ReachingIsDownward(MISSED, d);
      }
    }
  }

  const TWO_101 := 2_535_301_200_456_458_802_993_406_410_752.0

  /** From two to the 101st on, the excess after fifty rounds is still a seventh of the
      input. */
  lemma ExcessStaysLarge(d: real)
    requires d >= TWO_101
    ensures Start(d) > 0.0 && 7.0 * Excess(d, Guess(d, Start(d), 50)) >= d
  {
    var r := StartRatio(d);
    RatioIsQuartered(r, 50);
    Pow2Of70();
    assert Pow2(80) == 1_208_925_819_614_629_174_706_176.0;
    assert Pow2(90) == 1_237_940_039_285_380_274_899_124_224.0;
    assert Pow2(100) == 1_267_650_600_228_229_401_496_703_205_376.0;
    assert Ratio(r, 50) >= 1.0 / 7.0;
    GuessExcess(d, 50);
    hide Ratio, Excess;
    ScaleUp(d, 1.0 / 7.0, Ratio(r, 50));
  }

  // ------------------------------------------------------------------- the method

  /** No more than forty-nine halvings of the first step leave. */
  predicate Halvings(d: real, excess: real)
    requires d > 0.0
  {
    Start(d) > 0.0 && excess * Square(Pow2(49)) <= Square(Move(d, Start(d)))
  }

  lemma SquaresScale(d: real, a: real)
    requires d > 0.0 && Start(d) > 0.0 && a >= 0.0 && Scaled(a, 49) <= Move(d, Start(d))
    ensures Halvings(d, Square(a))
  {
    var p := Pow2(49);
    Pow2IsPositive(49);
    hide Pow2;
    Product(a, p);
    SquareIsMonotone(a * p, Move(d, Start(d)));
    assert Square(a) * Square(p) == Square(a * p);
  }

  /** What the result is worth. It is never below the root. It is within the tolerance
      exactly for the inputs below one threshold near two to the power 90.2; from two to
      the 101st on, its square is off by a seventh of the input or more; and whatever the
      input, by less than the square of the tolerance or by no more than forty-nine
      halvings of the first step leave. */
  ghost predicate Accurate(d: real, r: real)
    requires d > 0.0
  {
    && r > 0.0 && Excess(d, r) >= 0.0
    && (Excess(d, r) < Square(TOLERANCE) <==> Reaches(d))
    && (d <= REACHED ==> Reaches(d))
    && (d >= MISSED ==> !Reaches(d))
    && (d >= TWO_101 ==> 7.0 * Excess(d, r) >= d)
    && (Excess(d, r) < Square(TOLERANCE) || Halvings(d, Excess(d, r)))
  }

  /** `decimalSqrt`. */
  method DecimalSqrt(d: real) returns (r: real)
    ensures d <= 0.0 ==> r == 0.0
    ensures d > 0.0 ==> Accurate(d, r)
  {
    if d <= 0.0 {
      return 0.0;
    }
    FirstMove(d);
    var x := d;
    if d > 100.0 {
      x := d / 2.0;
    }
    assert x == Start(d) && x == Guess(d, x, 0);
    hide Next, Move, Start, Accurate, Guess;
    for i := 0 to MAX_STEPS
      invariant x == Guess(d, Start(d), i)
    {
      var next := Next(d, x);
      if Abs(next - x) < TOLERANCE {
        ToleranceExit(d, i, next);
        return next;
      }
      x := next;
    }
    RanOut(d, x);
    return x;
  }

  /** A round that meets the tolerance is followed only by such rounds. */
  lemma {:induction false} LaterMovesAreSmaller(d: real, x: real, i: nat, n: nat)
    requires d > 0.0 && x > 0.0 && i <= n
    ensures Move(d, Guess(d, x, n)) <= Move(d, Guess(d, x, i))
  {
    if i < n {
      LaterMovesAreSmaller(d, x, i, n - 1);
      StepsHalve(d, Guess(d, x, n - 1));
      StepsHalve(d, Guess(d, x, n));
    }
  }

  lemma ToleranceExit(d: real, i: nat, r: real)
    requires d > 0.0 && Start(d) > 0.0 && i < MAX_STEPS
    requires r == Guess(d, Start(d), i + 1) && Move(d, Guess(d, Start(d), i)) < TOLERANCE
    ensures Accurate(d, r)
  {
    var x := Guess(d, Start(d), i);
    ReachedOrMissed(d);
    LaterMovesAreSmaller(d, Start(d), i, 49);
    StepSquared(d, x);
    StepsHalve(d, x);
    SquareIsStrict(Move(d, x), TOLERANCE);
  }

  lemma RanOut(d: real, r: real)
    requires d > 0.0 && Start(d) > 0.0 && r == Guess(d, Start(d), 50)
    ensures Accurate(d, r)
  {
    var x := Guess(d, Start(d), 49);
    StepSquared(d, x);
    MovesHalve(d, Start(d), 49);
    SquaresScale(d, Move(d, x));
    Product(Move(d, x), Move(d, x));
    ReachedOrMissed(d);
    ReachesMeans(d);
    GuessExcess(d, 50);
    if d >= TWO_101 {
      ExcessStaysLarge(d);
    }
  }
}
