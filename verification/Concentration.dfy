/** How concentrated executable value is across paths: checks/metric_fragmentation.go,
    and the reading of the stored figure in runstore/fragmentation.go. Decimal sums and
    products are exact; the one rounding, to sixteen places, is modelled. */
module Concentration {
  import opened Results
  import opened Corridor
  import opened Reals

  // -------------------------------------------------------------------- sums

  function Total(vs: seq<real>): real { if vs == [] then 0.0 else Total(vs[..|vs| - 1]) + vs[|vs| - 1] }

  function Squares(vs: seq<real>): real {
    if vs == [] then 0.0 else Squares(vs[..|vs| - 1]) + Square(vs[|vs| - 1])
  }

  predicate AllPositive(vs: seq<real>) { forall i | 0 <= i < |vs| :: vs[i] > 0.0 }

  predicate AtMost(vs: seq<real>, top: real) { forall i | 0 <= i < |vs| :: vs[i] <= top }

  /** The sums against the largest value. */
  lemma {:induction false} SumBounds(vs: seq<real>, top: real)
    requires AllPositive(vs) && AtMost(vs, top)
    ensures Total(vs) >= 0.0 && Squares(vs) <= top * Total(vs)
    ensures vs != [] ==> Total(vs) > 0.0
  {
    if vs != [] {
      var front, v := vs[..|vs| - 1], vs[|vs| - 1];
      SumBounds(front, top);
      Product(top - v, v);
      assert top * Total(vs) == top * Total(front) + top * v;
      assert (top - v) * v == top * v - v * v;
    }
  }

  lemma {:induction false} SumsHoldTop(vs: seq<real>, k: nat)
    requires AllPositive(vs) && k < |vs|
    ensures vs[k] <= Total(vs) && Square(vs[k]) <= Squares(vs)
  {
    hide Square;
    var front, v := vs[..|vs| - 1], vs[|vs| - 1];
    SquareIsPositive(v);
    if k < |front| {
      SumsHoldTop(front, k);
      assert front[k] == vs[k];
    } else {
      NonNegativeSums(front);
    }
  }

  lemma {:induction false} NonNegativeSums(vs: seq<real>)
    requires AllPositive(vs)
    ensures Total(vs) >= 0.0 && Squares(vs) >= 0.0
  {
    hide Square;
    if vs != [] {
      NonNegativeSums(vs[..|vs| - 1]);
      SquareIsPositive(vs[|vs| - 1]);
    }
  }

  /** Cauchy-Schwarz for the loop's two sums. */
  lemma {:induction false} CauchySchwarz(vs: seq<real>)
    ensures Square(Total(vs)) <= |vs| as real * Squares(vs) && Squares(vs) >= 0.0
  {
    if vs != [] {
      var front, v := vs[..|vs| - 1], vs[|vs| - 1];
      CauchySchwarz(front);
      var n := |front| as real;
      SquareOfSum(n, Total(front), Squares(front), v);
      assert |vs| as real == n + 1.0;
    }
  }

  lemma SquareOfSum(n: real, t: real, q: real, v: real)
    requires n >= 0.0 && t * t <= n * q && q >= 0.0 && (n == 0.0 ==> t == 0.0)
    ensures (t + v) * (t + v) <= (n + 1.0) * (q + v * v)
  {
    var slack := n * (v * v) + q - 2.0 * (t * v);
    assert (n + 1.0) * (q + v * v) - (t + v) * (t + v) == n * q - t * t + slack;
    if n > 0.0 {
      var w := t - n * v;
      assert w * w >= 0.0;
      assert w * w == t * t - 2.0 * (n * (t * v)) + n * (n * (v * v));
      assert n * slack == n * (n * (v * v)) + n * q - 2.0 * (n * (t * v));
      NonNegativeFactor(slack, n);
    }
  }

  // ----------------------------------------------------------------- rounding

  const UNIT := 10_000_000_000_000_000.0

  /** How many units of the sixteenth place, halves away from zero. Every ratio here is
      positive. */
  function Units(x: real): int { (x * UNIT + 0.5).Floor }

  function Round16(x: real): real { Units(x) as real / UNIT }

  lemma FloorIsMonotone(a: real, b: real)
    requires a <= b
    ensures a.Floor <= b.Floor
  {
  }

  lemma RoundIsMonotone(x: real, y: real)
    requires x <= y
    ensures Round16(x) <= Round16(y)
  {
    FloorIsMonotone(x * UNIT + 0.5, y * UNIT + 0.5);
  }

  /** A positive ratio rounds to nothing exactly below half a unit in the last place. */
  lemma RoundsToZero(x: real)
    requires x > 0.0
    ensures Round16(x) >= 0.0 && (Round16(x) > 0.0 <==> x * UNIT >= 0.5)
    ensures Round16(1.0) == 1.0
  {
    assert (1.0 * UNIT + 0.5).Floor == 10_000_000_000_000_000;
  }

  /** Rounding moves a figure by half a unit of the sixteenth place at most, and a tie up. */
  lemma RoundIsNearest(x: real)
    ensures -0.5 < (Round16(x) - x) * 10_000_000_000_000_000.0 <= 0.5
  {
  }

  // ------------------------------------------------------------ concentration

  datatype Problem = NoValues | BadValue(index: nat)

  datatype PathConcentration = PathConcentration(pathCount: nat, total: real, top: real, topShare: real, hhi: real)

  /** The Herfindahl-Hirschman index before rounding. */
  function Hhi(vs: seq<real>): real requires Total(vs) > 0.0 {
    SquareIsPositive(Total(vs));
    Squares(vs) / Square(Total(vs))
  }

  function Shares(vs: seq<real>): seq<real> requires Total(vs) > 0.0 {
    seq(|vs|, i requires 0 <= i < |vs| => vs[i] / Total(vs))
  }

  /** The one division of exact sums is the sum of the squared shares. */
  lemma HhiIsOfShares(vs: seq<real>)
    requires Total(vs) > 0.0
    ensures Squares(Shares(vs)) == Hhi(vs) && Total(Shares(vs)) == 1.0
  {
    var t := Total(vs);
    SquareIsPositive(t);
    SumsOfQuotients(vs, t);
    SelfQuotient(t);
    hide Total, Squares, Square;
  }

  lemma SelfQuotient(t: real)
    requires t > 0.0
    ensures t / t == 1.0
  {
  }

  lemma {:induction false} SumsOfQuotients(vs: seq<real>, t: real)
    requires t > 0.0 && Square(t) > 0.0
    ensures var qs := seq(|vs|, i requires 0 <= i < |vs| => vs[i] / t);
            Total(qs) == Total(vs) / t && Squares(qs) == Squares(vs) / Square(t)
  {
    if vs != [] {
      var front, v := vs[..|vs| - 1], vs[|vs| - 1];
      SumsOfQuotients(front, t);
      var qs := seq(|vs|, i requires 0 <= i < |vs| => vs[i] / t);
      assert qs[..|front|] == seq(|front|, i requires 0 <= i < |front| => front[i] / t);
      SquareOfQuotient(v, t);
      SumOfQuotients(Total(front), v, t);
      SumOfQuotients(Squares(front), Square(v), Square(t));
    }
  }

  lemma SquareOfQuotient(v: real, t: real)
    requires t > 0.0 && Square(t) > 0.0
    ensures Square(v / t) == Square(v) / Square(t)
  {
    var q := v / t;
    assert q * t == v;
    assert (q * q) * (t * t) == v * v;
  }

  lemma SumOfQuotients(a: real, b: real, t: real)
    requires t > 0.0
    ensures a / t + b / t == (a + b) / t
  {
  }

  /** `ConcentrationOfPaths`. */
  method ConcentrationOfPaths(values: seq<real>) returns (r: Result<PathConcentration, Problem>)
    ensures r == Err(NoValues) <==> values == []
    ensures r.Ok? <==> values != [] && AllPositive(values)
    ensures r.Err? && values != [] ==>
              var i := r.error.index;
              i < |values| && values[i] <= 0.0 && AllPositive(values[..i])
    ensures r.Ok? ==>
              var c := r.value;
              && c.pathCount == |values| && c.total == Total(values) > 0.0
              && AtMost(values, c.top) && (exists k | 0 <= k < |values| :: values[k] == c.top)
              && c.topShare == Round16(c.top / c.total) && c.hhi == Round16(Hhi(values))
  {
    hide Square, Round16;
    if |values| == 0 {
      return Err(NoValues);
    }
    var total, sumSquares, top := 0.0, 0.0, values[0];
    for i := 0 to |values|
      invariant AllPositive(values[..i])
      invariant total == Total(values[..i]) && sumSquares == Squares(values[..i])
      invariant AtMost(values[..i], top) && exists k | 0 <= k < |values| :: values[k] == top
    {
      var v := values[i];
      if v <= 0.0 {
        return Err(BadValue(i));
      }
      assert values[..i + 1][..i] == values[..i];
      total, sumSquares := total + v, sumSquares + Square(v);
      if v > top {
        top := v;
      }
    }
    assert values[..|values|] == values;
    TotalIsPositive(values);
    SquareIsPositive(total);
    return Ok(PathConcentration(|values|, total, top, Round16(top / total), Round16(sumSquares / Square(total))));
  }

  lemma TotalIsPositive(vs: seq<real>)
    requires AllPositive(vs) && vs != []
    ensures Total(vs) > 0.0
  {
    hide Square;
    NonNegativeSums(vs[..|vs| - 1]);
  }

  predicate SumFacts(n: real, t: real, q: real, top: real) {
    && n >= 1.0 && t > 0.0 && q > 0.0 && 0.0 < top <= t
    && q <= top * t && Square(top) <= q && Square(t) <= n * q
  }

  /** Between an even split and the best path's share, whose square is no larger. */
  predicate IndexFits(index: real, n: real, share: real) {
    n > 0.0 && 1.0 / n <= index <= share <= 1.0 && share * share <= index && index > 0.0
  }

  /** The index lies between an even split and the best path's share, whose square it
      is at least. */
  lemma HhiBounds(vs: seq<real>, top: real, k: nat)
    requires AllPositive(vs) && AtMost(vs, top) && k < |vs| && vs[k] == top
    ensures Total(vs) > 0.0 && IndexFits(Hhi(vs), |vs| as real, top / Total(vs))
  {
    hide IndexFits, Hhi, Total, Squares, Square;
    TotalIsPositive(vs);
    SumBounds(vs, top);
    SumsHoldTop(vs, k);
    CauchySchwarz(vs);
    SquareIsPositive(top);
    hide AllPositive, AtMost;
    BoundsFollow(|vs| as real, Total(vs), Squares(vs), top);
    HhiIs(vs);
  }

  lemma BoundsFollow(n: real, t: real, q: real, top: real)
    requires SumFacts(n, t, q, top)
    ensures Square(t) > 0.0 && IndexFits(q / Square(t), n, top / t)
  {
    hide Square;
    ShareBounds(t, q, top);
    EvenBound(n, t, q);
  }

  lemma HhiIs(vs: seq<real>)
    requires Total(vs) > 0.0
    ensures Square(Total(vs)) > 0.0 && Hhi(vs) == Squares(vs) / Square(Total(vs))
  {
    SquareIsPositive(Total(vs));
  }

  lemma ShareBounds(t: real, q: real, top: real)
    requires t > 0.0 && 0.0 < top <= t && q <= top * t && Square(top) <= q && q > 0.0
    ensures Square(t) > 0.0
    ensures q / Square(t) <= top / t <= 1.0 && (top / t) * (top / t) <= q / Square(t) && q / Square(t) > 0.0
  {
    SquareIsPositive(t);
    var h, share := q / Square(t), top / t;
    assert h * Square(t) == q && share * t == top;
    HhiBelowShare(t, h, share);
    ShareSquared(t, h, share);
    assert (1.0 - share) * t == t - top;
    NonNegativeFactor(1.0 - share, t);
    PositiveFactor(h, Square(t));
  }

  lemma HhiBelowShare(t: real, h: real, share: real)
    requires t > 0.0 && h * Square(t) <= (share * t) * t
    ensures h <= share
  {
    SquareIsPositive(t);
    assert (share - h) * Square(t) == (share * t) * t - h * Square(t);
    NonNegativeFactor(share - h, Square(t));
  }

  lemma ShareSquared(t: real, h: real, share: real)
    requires t > 0.0 && Square(share * t) <= h * Square(t)
    ensures share * share <= h
  {
    SquareIsPositive(t);
    assert (h - share * share) * Square(t) == h * Square(t) - Square(share * t);
    NonNegativeFactor(h - share * share, Square(t));
  }

  lemma EvenBound(n: real, t: real, q: real)
    requires n >= 1.0 && t > 0.0 && Square(t) <= n * q
    ensures Square(t) > 0.0 && 1.0 / n <= q / Square(t)
  {
    SquareIsPositive(t);
    var h, even, tt := q / Square(t), 1.0 / n, Square(t);
    assert h * tt == q && even * n == 1.0;
    hide Square;
    PositiveProduct(tt, n);
    assert (h - even) * (tt * n) == n * (h * tt) - tt * (even * n);
    NonNegativeFactor(h - even, tt * n);
  }

  lemma PositiveFactor(x: real, y: real)
    requires y > 0.0 && x * y > 0.0
    ensures x > 0.0
  {
  }

  lemma PositiveEven(x: real, n: real)
    requires n > 0.0 && x * n == 1.0
    ensures x > 0.0
  {
  }

  /** What is published keeps the order of what was computed, and is read back as a
      ratio exactly when the index is at least half of the last place kept. */
  lemma PublishedFigures(vs: seq<real>, top: real, k: nat)
    requires AllPositive(vs) && AtMost(vs, top) && k < |vs| && vs[k] == top
    ensures Total(vs) > 0.0
    ensures Round16(1.0 / |vs| as real) <= Round16(Hhi(vs)) <= Round16(top / Total(vs)) <= 1.0
    ensures AcceptedAsRatio(Round16(Hhi(vs))) <==> Hhi(vs) * UNIT >= 0.5
    ensures |vs| <= 10_000_000_000_000_000 ==> AcceptedAsRatio(Round16(Hhi(vs)))
  {
    HhiBounds(vs, top, k);
    var h, share, n := Hhi(vs), top / Total(vs), |vs| as real;
    hide Hhi, Total, Squares, Square, Round16;
    RoundIsMonotone(1.0 / n, h);
    RoundIsMonotone(h, share);
    RoundIsMonotone(share, 1.0);
    RoundsToZero(h);
    if n <= UNIT {
      EvenIsKept(n);
      assert h * UNIT >= (1.0 / n) * UNIT;
    }
  }

  lemma EvenIsKept(n: real)
    requires 1.0 <= n <= UNIT
    ensures (1.0 / n) * UNIT >= 1.0
  {
    var even := 1.0 / n;
    assert even * n == 1.0;
    PositiveEven(even, n);
    Product(even, UNIT - n);
    assert even * (UNIT - n) == even * UNIT - even * n;
  }

  /** The test of `FragmentationOfRecord` on a stored figure. */
  predicate AcceptedAsRatio(v: real) { v > 0.0 && !(v > 1.0) }

  // ------------------------------------------------------------ distinct paths

  function HopName(h: Asset): string { if h.IsNative() then "native" else Key(h) }

  /** `pathIdentity`: the hops' names, joined by '>'. */
  function Identity(hops: seq<Asset>): string {
    if hops == [] then ""
    else if |hops| == 1 then HopName(hops[0])
    else HopName(hops[0]) + ">" + Identity(hops[1..])
  }

  predicate SameHop(a: Asset, b: Asset) {
    (a.IsNative() && b.IsNative()) || (!a.IsNative() && !b.IsNative() && a.code == b.code && a.issuer == b.issuer)
  }

  /** Account identifiers and asset codes do not contain the separator. */
  predicate Plain(hops: seq<Asset>) { forall h | h in hops :: '>' !in h.code && '>' !in h.issuer }

  lemma HopNameIsInjective(a: Asset, b: Asset)
    ensures HopName(a) == HopName(b) <==> SameHop(a, b)
    ensures HopName(a) != ""
  {
    SameKey(a, b);
    assert Key(a)[|a.code|] == ':' && Key(b)[|b.code|] == ':';
    assert ':' !in "native";
  }

  lemma SeparatorSplits(s: string, x: string, t: string, y: string)
    requires '>' !in s && '>' !in t && s + ">" + x == t + ">" + y
    ensures s == t && x == y
  {
    var l, r := s + ">" + x, t + ">" + y;
    assert forall i | 0 <= i < |s| :: l[i] == s[i];
    assert forall i | 0 <= i < |t| :: r[i] == t[i];
    assert l[|s|] == '>' && r[|t|] == '>';
    assert |s| == |t|;
    assert s == l[..|s|] && t == r[..|t|];
    assert x == l[|s| + 1..] && y == r[|t| + 1..];
  }

  predicate SameRoute(x: seq<Asset>, y: seq<Asset>) { |x| == |y| && forall i | 0 <= i < |x| :: SameHop(x[i], y[i]) }

  lemma RouteTail(x: seq<Asset>, y: seq<Asset>)
    requires x != [] && y != []
    ensures SameRoute(x, y) <==> SameHop(x[0], y[0]) && SameRoute(x[1..], y[1..])
  {
    hide SameHop;
    if SameRoute(x[1..], y[1..]) && SameHop(x[0], y[0]) {
      forall i | 0 <= i < |x|
        ensures SameHop(x[i], y[i])
      {
        if i > 0 {
          assert SameHop(x[1..][i - 1], y[1..][i - 1]);
        }
      }
    }
    if SameRoute(x, y) {
      forall i | 0 <= i < |x[1..]|
        ensures SameHop(x[1..][i], y[1..][i])
      {
        assert SameHop(x[i + 1], y[i + 1]);
      }
    }
  }

  /** Two paths are one exactly when they go through the same assets in the same order. */
  lemma {:induction false} IdentityIsInjective(x: seq<Asset>, y: seq<Asset>)
    requires Plain(x) && Plain(y)
    ensures Identity(x) == Identity(y) <==> SameRoute(x, y)
  {
    hide HopName, SameHop, Key;
    if x != [] && y != [] {
      PlainNames(x);
      PlainNames(y);
      HopNameIsInjective(x[0], y[0]);
      RouteTail(x, y);
      if |x| > 1 && |y| > 1 {
        IdentityIsInjective(x[1..], y[1..]);
        if Identity(x) == Identity(y) {
          SeparatorSplits(HopName(x[0]), Identity(x[1..]), HopName(y[0]), Identity(y[1..]));
        }
      } else if |x| > 1 {
        assert '>' in Identity(x);
      } else if |y| > 1 {
        assert '>' in Identity(y);
      }
    } else if x != [] {
      HopNameIsInjective(x[0], x[0]);
    } else if y != [] {
      HopNameIsInjective(y[0], y[0]);
    }
  }

  lemma PlainNames(hops: seq<Asset>)
    requires Plain(hops) && hops != []
    ensures '>' !in HopName(hops[0]) && Plain(hops[1..])
  {
    assert hops[0] in hops;
  }

  function PathId(p: Path): string { Identity(p.hops) }

  predicate Contradictory(paths: seq<Path>) {
    exists i, j | 0 <= i < j < |paths| :: PathId(paths[i]) == PathId(paths[j]) && paths[i].destAmount != paths[j].destAmount
  }

  /** The distinct identities, in the order in which they first occur. */
  function FirstIds(paths: seq<Path>): seq<string> {
    if paths == [] then []
    else
      var before, id := FirstIds(paths[..|paths| - 1]), PathId(paths[|paths| - 1]);
      if id in before then before else before + [id]
  }

  ghost predicate Tabulates(m: map<string, real>, paths: seq<Path>) {
    && (forall i | 0 <= i < |paths| :: PathId(paths[i]) in m && m[PathId(paths[i])] == paths[i].destAmount)
    && (forall id :: id in m <==> id in FirstIds(paths))
  }

  function Amounts(m: map<string, real>, ids: seq<string>): seq<real>
    requires forall id | id in ids :: id in m
  {
    seq(|ids|, i requires 0 <= i < |ids| => m[ids[i]])
  }

  /** `distinctPathValues`. */
  method DistinctPathValues(paths: seq<Path>) returns (r: Result<(seq<real>, nat), string>, ghost m: map<string, real>)
    ensures r.Err? <==> Contradictory(paths)
    ensures r.Ok? ==> Tabulates(m, paths) && r.value.0 == Amounts(m, FirstIds(paths))
    ensures r.Ok? ==> r.value.1 == |paths| - |FirstIds(paths)|
  {
    hide PathId;
    var seen: map<string, real> := map[];
    var values, duplicates := [], 0;
    m := map[];
    for i := 0 to |paths|
      invariant Tabulates(seen, paths[..i]) && values == Amounts(seen, FirstIds(paths[..i]))
      invariant duplicates == i - |FirstIds(paths[..i])|
    {
      var p := paths[i];
      OnePathMoreSeen(seen, paths, i);
      hide Tabulates, Amounts, FirstIds, Contradictory;
      var key := PathId(p);
      if key in seen {
        if seen[key] != p.destAmount {
          SeenBefore(seen, paths, i);
          return Err("the same path is listed twice with different destination amounts"), m;
        }
        duplicates := duplicates + 1;
        continue;
      }
      seen, values := seen[key := p.destAmount], values + [p.destAmount];
    }
    assert paths[..|paths|] == paths;
    m := seen;
    return Ok((values, duplicates)), m;
  }

  lemma OnePathMoreSeen(seen: map<string, real>, paths: seq<Path>, i: nat)
    requires i < |paths| && Tabulates(seen, paths[..i])
    ensures var id, amount := PathId(paths[i]), paths[i].destAmount;
            && (id in seen && seen[id] == amount ==>
                  Tabulates(seen, paths[..i + 1]) && FirstIds(paths[..i + 1]) == FirstIds(paths[..i]))
            && (id !in seen ==>
                  var now := seen[id := amount];
                  && Tabulates(now, paths[..i + 1]) && FirstIds(paths[..i + 1]) == FirstIds(paths[..i]) + [id]
                  && Amounts(now, FirstIds(paths[..i + 1])) == Amounts(seen, FirstIds(paths[..i])) + [amount])
  {
    hide PathId;
    assert paths[..i + 1][..i] == paths[..i];
  }

  lemma {:induction false} FirstIdsAreIds(paths: seq<Path>)
    ensures forall id :: id in FirstIds(paths) <==> exists k :: 0 <= k < |paths| && PathId(paths[k]) == id
    ensures forall i, j | 0 <= i < j < |FirstIds(paths)| :: FirstIds(paths)[i] != FirstIds(paths)[j]
  {
    hide PathId;
    if paths != [] {
      FirstIdsAreIds(paths[..|paths| - 1]);
    }
  }

  /** Nothing new came between: the ids of a prefix come first, in the same order. */
  lemma {:induction false} FirstIdsOfPrefix(paths: seq<Path>, k: nat)
    requires k <= |paths|
    ensures FirstIds(paths[..k]) <= FirstIds(paths)
  {
    if k == |paths| {
      assert paths[..k] == paths;
    } else {
      FirstIdsOfPrefix(paths[..|paths| - 1], k);
      assert paths[..|paths| - 1][..k] == paths[..k];
    }
  }

  /** A path that is the first of its identity stands right after the identities that
      occurred before it. */
  lemma FirstIdsInOrder(paths: seq<Path>, k: nat)
    requires k < |paths| && forall j | 0 <= j < k :: PathId(paths[j]) != PathId(paths[k])
    ensures |FirstIds(paths[..k])| < |FirstIds(paths)|
    ensures FirstIds(paths)[|FirstIds(paths[..k])|] == PathId(paths[k])
  {
    hide PathId;
    FirstIdsAreIds(paths[..k]);
    FirstIdsOfPrefix(paths, k + 1);
    assert paths[..k + 1][..k] == paths[..k];
    assert FirstIds(paths[..k + 1]) == FirstIds(paths[..k]) + [PathId(paths[k])] by {
      assert forall j | 0 <= j < k :: paths[..k][j] == paths[j];
    }
  }

  lemma SeenBefore(seen: map<string, real>, paths: seq<Path>, i: nat)
    requires i < |paths| && Tabulates(seen, paths[..i])
    requires PathId(paths[i]) in seen && seen[PathId(paths[i])] != paths[i].destAmount
    ensures Contradictory(paths)
  {
    hide PathId;
    FirstIdsAreIds(paths[..i]);
    var k :| 0 <= k < i && PathId(paths[..i][k]) == PathId(paths[i]);
    assert paths[..i][k] == paths[k];
  }

  // ---------------------------------------------------- order and repetition

  /** The same paths with the same amounts, in any order and any number of times. */
  ghost predicate SameOffers(p: seq<Path>, q: seq<Path>) {
    forall id, amount :: Offers(p, id, amount) <==> Offers(q, id, amount)
  }

  predicate Offers(p: seq<Path>, id: string, amount: real) {
    exists i | 0 <= i < |p| :: PathId(p[i]) == id && p[i].destAmount == amount
  }

  lemma {:induction false} SumsOfConcat(a: seq<real>, b: seq<real>)
    ensures Total(a + b) == Total(a) + Total(b) && Squares(a + b) == Squares(a) + Squares(b)
  {
    hide Square;
    if b == [] {
      assert a + b == a;
    } else {
      assert (a + b)[..|a + b| - 1] == a + b[..|b| - 1];
      SumsOfConcat(a, b[..|b| - 1]);
    }
  }

  lemma Without<T>(ys: seq<T>, i: nat)
    requires i < |ys|
    ensures ys == ys[..i] + [ys[i]] + ys[i + 1..]
    ensures multiset(ys[..i] + ys[i + 1..]) == multiset(ys) - multiset{ys[i]}
    ensures multiset(ys) == multiset(ys[..i] + ys[i + 1..]) + multiset{ys[i]}
  {
    assert ys == ys[..i] + [ys[i]] + ys[i + 1..];
  }

  lemma Front<T>(xs: seq<T>)
    requires xs != []
    ensures multiset(xs[..|xs| - 1]) == multiset(xs) - multiset{xs[|xs| - 1]}
    ensures xs[|xs| - 1] in multiset(xs)
  {
    assert xs == xs[..|xs| - 1] + [xs[|xs| - 1]];
  }

  /** The figures depend on the values only, not on their order. */
  lemma {:induction false} SumsIgnoreOrder(xs: seq<real>, ys: seq<real>)
    requires multiset(xs) == multiset(ys)
    ensures Total(xs) == Total(ys) && Squares(xs) == Squares(ys) && |xs| == |ys|
  {
    assert |multiset(xs)| == |multiset(ys)|;
    if xs != [] {
      hide Square;
      var v := xs[|xs| - 1];
      Front(xs);
      assert v in multiset(ys);
      var i :| 0 <= i < |ys| && ys[i] == v;
      Without(ys, i);
      SumsIgnoreOrder(xs[..|xs| - 1], ys[..i] + ys[i + 1..]);
      SumsOfConcat(ys[..i], ys[i + 1..]);
      SumsOfConcat(ys[..i] + [v], ys[i + 1..]);
      SumsOfConcat(ys[..i], [v]);
      SumsOfOne(v);
    }
  }

  lemma SumsOfOne(v: real)
    ensures Total([v]) == v && Squares([v]) == Square(v)
  {
    assert [v][..0] == [];
  }

  predicate Once<T(==)>(xs: seq<T>) { forall i, j | 0 <= i < j < |xs| :: xs[i] != xs[j] }

  /** Values looked up for the same keys, each taken once, are the same up to order. */
  lemma {:induction false} AmountsIgnoreOrder(m: map<string, real>, xs: seq<string>, ys: seq<string>)
    requires forall id | id in xs :: id in m
    requires forall id :: id in xs <==> id in ys
    requires Once(xs) && Once(ys)
    ensures multiset(Amounts(m, xs)) == multiset(Amounts(m, ys))
  {
    if xs == [] {
      NothingIn(ys);
    } else {
      var front, id := xs[..|xs| - 1], xs[|xs| - 1];
      assert id in ys;
      var i :| 0 <= i < |ys| && ys[i] == id;
      var rest := ys[..i] + ys[i + 1..];
      assert xs[..|xs| - 1] + xs[|xs| - 1 + 1..] == front;
      OnceWithout(xs, |xs| - 1);
      OnceWithout(ys, i);
      AmountsWithout(m, xs, |xs| - 1);
      AmountsWithout(m, ys, i);
      AmountsIgnoreOrder(m, front, rest);
      hide Once, Amounts;
      Back(Amounts(m, xs), |xs| - 1, Amounts(m, ys), i);
    }
  }

  lemma NothingIn(xs: seq<string>)
    requires forall x :: x !in xs
    ensures xs == []
  {
    if xs != [] {
      SomethingIn(xs);
    }
  }

  lemma SomethingIn(xs: seq<string>)
    requires xs != []
    ensures exists x :: x in xs
  {
    assert xs[0] in xs;
  }

  lemma OnceWithout<T>(xs: seq<T>, i: nat)
    requires Once(xs) && i < |xs|
    ensures var rest := xs[..i] + xs[i + 1..];
            Once(rest) && forall x :: x in rest <==> x in xs && x != xs[i]
  {
    var rest := xs[..i] + xs[i + 1..];
    forall x | x in xs && x != xs[i]
      ensures x in rest
    {
      var k :| 0 <= k < |xs| && xs[k] == x;
      assert rest[if k < i then k else k - 1] == x;
    }
  }

  lemma AmountsWithout(m: map<string, real>, xs: seq<string>, i: nat)
    requires i < |xs| && forall id | id in xs :: id in m
    ensures var rest := xs[..i] + xs[i + 1..];
            && (forall id | id in rest :: id in m)
            && Amounts(m, rest) == Amounts(m, xs)[..i] + Amounts(m, xs)[i + 1..]
            && |Amounts(m, xs)| == |xs| && Amounts(m, xs)[i] == m[xs[i]]
  {
  }

  lemma Back<T>(xs: seq<T>, i: nat, ys: seq<T>, j: nat)
    requires i < |xs| && j < |ys| && xs[i] == ys[j]
    requires multiset(xs[..i] + xs[i + 1..]) == multiset(ys[..j] + ys[j + 1..])
    ensures multiset(xs) == multiset(ys)
  {
    Without(xs, i);
    Without(ys, j);
  }

  /** The figures are the same however the response orders its paths and however often
      it repeats one: contradictory or not, how many, their sums and their largest. */
  lemma FiguresIgnoreOrderAndRepeats(p: seq<Path>, q: seq<Path>, m: map<string, real>, n: map<string, real>)
    requires SameOffers(p, q) && Tabulates(m, p) && Tabulates(n, q)
    ensures var v, w := Amounts(m, FirstIds(p)), Amounts(n, FirstIds(q));
            && |v| == |w| && Total(v) == Total(w) && Squares(v) == Squares(w)
            && multiset(v) == multiset(w)
  {
    SameTable(p, q, m, n);
    FirstIdsAreIds(p);
    FirstIdsAreIds(q);
    hide Identity, FirstIds, SameOffers;
    AmountsIgnoreOrder(m, FirstIds(p), FirstIds(q));
    SumsIgnoreOrder(Amounts(m, FirstIds(p)), Amounts(n, FirstIds(q)));
  }

  lemma SameTable(p: seq<Path>, q: seq<Path>, m: map<string, real>, n: map<string, real>)
    requires SameOffers(p, q) && Tabulates(m, p) && Tabulates(n, q)
    ensures m == n && forall id :: id in FirstIds(p) <==> id in FirstIds(q)
  {
    TableIsOffers(m, p);
    TableIsOffers(n, q);
    hide Offers, PathId;
    forall id | id in m
      ensures id in n && n[id] == m[id]
    {
      assert Offers(p, id, m[id]);
    }
    forall id | id in n
      ensures id in m
    {
      assert Offers(q, id, n[id]);
    }
  }

  lemma TableIsOffers(m: map<string, real>, p: seq<Path>)
    requires Tabulates(m, p)
    ensures forall id, amount :: Offers(p, id, amount) <==> id in m && m[id] == amount
  {
    hide PathId;
    FirstIdsAreIds(p);
    forall id | id in m
      ensures Offers(p, id, m[id])
    {
      var k :| 0 <= k < |p| && PathId(p[k]) == id;
    }
  }

  /** And a response that contradicts itself still does. */
  lemma ContradictionIgnoresOrder(p: seq<Path>, q: seq<Path>)
    requires SameOffers(p, q) && Contradictory(p)
    ensures Contradictory(q)
  {
    hide PathId;
    var i, j :| 0 <= i < j < |p| && PathId(p[i]) == PathId(p[j]) && p[i].destAmount != p[j].destAmount;
    TwoAmounts(q, PathId(p[i]), p[i].destAmount, p[j].destAmount) by {
      assert Offers(p, PathId(p[i]), p[i].destAmount) && Offers(p, PathId(p[j]), p[j].destAmount);
    }
  }

  lemma TwoAmounts(q: seq<Path>, id: string, x: real, y: real)
    requires Offers(q, id, x) && Offers(q, id, y) && x != y
    ensures Contradictory(q)
  {
    hide PathId;
    var a :| 0 <= a < |q| && PathId(q[a]) == id && q[a].destAmount == x;
    var b :| 0 <= b < |q| && PathId(q[b]) == id && q[b].destAmount == y;
    var i, j := if a < b then a else b, if a < b then b else a;
    assert PathId(q[i]) == PathId(q[j]) && q[i].destAmount != q[j].destAmount;
  }
}
