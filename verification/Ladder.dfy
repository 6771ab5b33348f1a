/** Pricing one size, and folding a ladder of sizes into one result:
    `Engine.Quote` of route/route.go and `summarise` of route/ladder.go. */
module Ladder {
  import opened Results
  import opened Ordering
  import opened Corridor
  import opened Scoring
  import Reference

  /** A priced quote, as a value. */
  datatype Offer = Offer(sent: real, received: real, grade: Grade)

  /** What pricing one size found out. */
  datatype Outcome = Outcome(reference: Reference.Rate, integrity: Integrity, dependsOn: seq<Asset>, chain: seq<Node>,
                             quotes: seq<Offer>, recommended: Option<Offer>)

  datatype Rung = Rung(size: real, result: Result<Outcome, string>)
  {
    predicate Priced() { result.Ok? && result.value.quotes != [] }

    predicate Unmeasured() { result.Err? || result.value.integrity == Unknown }

    function Quote(): Offer requires Priced() { result.value.quotes[0] }

    predicate Is(i: Integrity) { result.Ok? && result.value.integrity == i }
  }

  // ------------------------------------------------------------------ one size

  function Withheld(g: Grade): Grade { g.(lossPct := 0.0, lossAmount := 0.0, verdict := Ungraded) }

  function GradeAgainst(ref: Reference.Rate, sent: real, received: real): Grade {
    var g := GradeOf(sent, received, ref.mid, UNGRADED);
    if ref.Scorable() then g else Withheld(g)
  }

  predicate IsBest(paths: seq<Path>, amount: real) {
    && (exists p | p in paths :: p.destAmount == amount)
    && forall p | p in paths :: p.destAmount <= amount
  }

  /** What the outcome must say, given the answers of the pathfinder: structure from all
      the paths, the price from the best of them, a verdict only if the reference allows. */
  ghost predicate Describes(env: Env, size: real, ref: Reference.Rate, o: Outcome) {
    && o.reference == ref
    && match env.finder([])
       case Err(_) => o.integrity == Unknown && o.dependsOn == [] && o.chain == [] && o.quotes == [] && o.recommended == None
       case Ok(paths) =>
         && o.integrity == IntegrityOf(env.reg, env.dest, paths)
         && AscendingBy(CodeOf, o.dependsOn)
         && (forall a :: a in o.dependsOn <==> DependsOn(env.reg, env.dest, paths, a))
         && (o.dependsOn != [] <==> o.integrity == Derivative)
         && Assets(o.chain) == o.dependsOn && ExplainsAll(env, [], o.chain)
         && |o.quotes| == (if paths == [] then 0 else 1)
         && (forall q | q in o.quotes :: IsBest(paths, q.received) && q == Offer(size, q.received, GradeAgainst(ref, size, q.received)))
         && o.recommended == if paths != [] && o.quotes[0].grade.verdict.Acceptable() then Some(o.quotes[0]) else None
  }

  /** What a quote says: what was sent and received, their ratio as its rate and, when the
      reference may not be scored, nothing of a loss or a verdict, and no recommendation. */
  lemma QuoteMeans(env: Env, size: real, ref: Reference.Rate, o: Outcome, q: Offer)
    requires size > 0.0 && Describes(env, size, ref, o) && q in o.quotes
    ensures env.finder([]).Ok? && IsBest(env.finder([]).value, q.received)
    ensures q.sent == size && q.grade.mid == ref.mid
    ensures ref.mid != 0.0 ==> q.grade.rate * q.sent == q.received
    ensures !ref.Scorable() ==>
              q.grade.lossPct == 0.0 && q.grade.lossAmount == 0.0 && q.grade.verdict == Ungraded && o.recommended == None
  {
    if ref.mid != 0.0 {
      RateIsReceivedPerSent(size, q.received, ref.mid, UNGRADED);
    }
  }

  method BestPath(paths: seq<Path>) returns (amount: real)
    requires paths != []
    ensures IsBest(paths, amount)
  {
    var best := paths[0];
    for i := 1 to |paths|
      invariant best in paths && forall k | 0 <= k < i :: paths[k].destAmount <= best.destAmount
    {
      if paths[i].destAmount > best.destAmount {
        best := paths[i];
      }
    }
    amount := best.destAmount;
  }

  /** `Engine.Quote`, with `quoteDEX` and `unscored`. */
  method PriceSize(env: Env, size: real, reference: Result<Reference.Rate, string>) returns (r: Result<Outcome, string>)
    requires Sound(env.reg)
    ensures r.Err? <==> size <= 0.0 || reference.Err?
    ensures r.Ok? ==> Describes(env, size, reference.value, r.value)
  {
    hide Sound, DependsOn, ExplainsAll, GradeAgainst, AscendingBy, IsBest, Independent;
    if size <= 0.0 {
      return Err("send amount must be positive");
    }
    if reference.Err? {
      return Err("reference rate unavailable");
    }
    var ref := reference.value;
    if env.finder([]).Err? {
      return Ok(Outcome(ref, Unknown, [], [], [], None));
    }
    var paths := env.finder([]).value;
    var integrity, deps, chain := Structure(env, paths);
    if integrity == NoMarket {
      return Ok(Outcome(ref, integrity, deps, chain, [], None));
    }
    var received := BestPath(paths);
    var offer := OfferAgainst(ref, size, received);
    var recommended := if offer.grade.verdict.Acceptable() then Some(offer) else None;
    return Ok(Outcome(ref, integrity, deps, chain, [offer], recommended));
  }

  /** The quote, scored; what may not be scored keeps its route only. */
  method OfferAgainst(ref: Reference.Rate, size: real, received: real) returns (offer: Offer)
    ensures offer == Offer(size, received, GradeAgainst(ref, size, received))
  {
    var q := new Quote(size, received);
    q.Score(ref.mid);
    offer := Offer(size, received, if ref.Scorable() then q.Graded() else Withheld(q.Graded()));
  }

  method Structure(env: Env, paths: seq<Path>) returns (integrity: Integrity, deps: seq<Asset>, chain: seq<Node>)
    requires Sound(env.reg)
    ensures integrity == IntegrityOf(env.reg, env.dest, paths) && AscendingBy(CodeOf, deps)
    ensures forall a :: a in deps <==> DependsOn(env.reg, env.dest, paths, a)
    ensures deps != [] <==> integrity == Derivative
    ensures Assets(chain) == deps && ExplainsAll(env, [], chain)
  {
    var unknown;
    integrity, deps, unknown := Classify(env.reg, env.dest, paths);
    chain := [];
    if integrity == Derivative {
      var calls;
      chain, calls := MeasureChain(env, [], deps, {Key(env.dest)}, 0);
    }
  }

  // ----------------------------------------------------------------- the ladder

  /** A rung as `PriceSize` leaves it, for the registry `reg`. */
  ghost predicate Proper(reg: Registry, r: Rung) {
    r.result.Ok? ==>
      && r.size > 0.0
      && exists env: Env :: env.reg == reg && Describes(env, r.size, r.result.value.reference, r.result.value)
  }

  /** What the fold relies on. */
  ghost predicate Sane(reg: Registry, r: Rung) {
    r.result.Ok? ==>
      var o := r.result.value;
      && r.size > 0.0
      && (r.Priced() <==> o.integrity in {Direct, Derivative})
      && (o.dependsOn != [] <==> o.integrity == Derivative)
      && (forall a | a in o.dependsOn :: ClassifyHop(reg, a) == Fiat)
      && Assets(o.chain) == o.dependsOn
      && (r.Priced() ==> r.Quote().sent == r.size && r.Quote().grade.lossPct >= 0.0)
      && (o.recommended == if r.Priced() && r.Quote().grade.verdict.Acceptable() then Some(r.Quote()) else None)
  }

  lemma ProperIsSane(reg: Registry, r: Rung)
    requires Proper(reg, r)
    ensures Sane(reg, r)
  {
    if r.result.Ok? {
      var o := r.result.value;
      var env: Env :| env.reg == reg && Describes(env, r.size, o.reference, o);
      if env.finder([]).Ok? {
        var paths := env.finder([]).value;
        if paths != [] {
          assert o.quotes[0] in o.quotes;
        }
      }
    }
  }

  ghost predicate AllSane(reg: Registry, rungs: seq<Rung>) { forall r | r in rungs :: Sane(reg, r) }

  predicate Sorted(rungs: seq<Rung>) { forall i, j | 0 <= i < j < |rungs| :: rungs[i].size <= rungs[j].size }

  predicate AnyIs(rungs: seq<Rung>, i: Integrity) { exists r | r in rungs :: r.Is(i) }

  /** The corridor's structure, as the ladder's own definition puts it: it depends only
      on which answers occur among the rungs. */
  function LadderIntegrity(rungs: seq<Rung>): Integrity {
    if forall r | r in rungs :: r.Is(NoMarket) then NoMarket
    else if AnyIs(rungs, Direct) then Direct
    else if AnyIs(rungs, Derivative) then Derivative
    else Unknown
  }

  predicate RungDependsOn(r: Rung, a: Asset) { r.result.Ok? && a in r.result.value.dependsOn }

  predicate AnyDependsOn(rungs: seq<Rung>, a: Asset) { exists r | r in rungs :: RungDependsOn(r, a) }

  function ChainOf(r: Rung): seq<Node> { if r.result.Ok? then r.result.value.chain else [] }

  function AllNodes(rungs: seq<Rung>): seq<Node> {
    if rungs == [] then [] else AllNodes(rungs[..|rungs| - 1]) + ChainOf(rungs[|rungs| - 1])
  }

  /** The node kept for a key: the first measured one, or the first if none is measured. */
  function BestNode(nodes: seq<Node>, key: string): Option<Node> {
    if nodes == [] then None else BestOf(BestNode(nodes[..|nodes| - 1], key), key, nodes[|nodes| - 1])
  }

  function BestOf(best: Option<Node>, key: string, n: Node): Option<Node> {
    if Key(n.asset) == key && (best.None? || (n.measured && !best.value.measured)) then Some(n) else best
  }

  /** The first of the nodes under this key that are as well measured. */
  predicate FirstAsMeasured(nodes: seq<Node>, key: string, i: nat) {
    && i < |nodes| && Key(nodes[i].asset) == key
    && (forall k | 0 <= k < i && Key(nodes[k].asset) == key :: nodes[i].measured && !nodes[k].measured)
    && (forall k | i < k < |nodes| && Key(nodes[k].asset) == key && nodes[k].measured :: nodes[i].measured)
  }

  /** What being kept means: a measurement is never lost to a rung that failed to make it;
      of several it is the first that is kept. */
  lemma {:induction false} BestNodeMeans(nodes: seq<Node>, key: string)
    ensures var best := BestNode(nodes, key);
            && (best.Some? <==> exists n | n in nodes :: Key(n.asset) == key)
            && (best.Some? ==> best.value in nodes && Key(best.value.asset) == key)
            && (best.Some? ==> (best.value.measured <==> exists n | n in nodes :: Key(n.asset) == key && n.measured))
            && (best.Some? ==> exists i: nat :: FirstAsMeasured(nodes, key, i) && nodes[i] == best.value)
  {
    if nodes != [] {
      hide Key;
      var front, n := nodes[..|nodes| - 1], nodes[|nodes| - 1];
      assert nodes == front + [n];
      BestNodeMeans(front, key);
      BestSoFar(front, key, n);
    }
  }

  lemma BestSoFar(front: seq<Node>, key: string, n: Node)
    requires var best := BestNode(front, key);
             && (best.Some? <==> exists x | x in front :: Key(x.asset) == key)
             && (best.Some? ==> exists i: nat :: FirstAsMeasured(front, key, i) && front[i] == best.value)
    ensures var best := BestOf(BestNode(front, key), key, n);
            best.Some? ==> exists i: nat :: FirstAsMeasured(front + [n], key, i) && (front + [n])[i] == best.value
  {
    hide Key, BestNode;
    var before, best, nodes := BestNode(front, key), BestOf(BestNode(front, key), key, n), front + [n];
    assert forall k | 0 <= k < |front| :: front[k] in front && nodes[k] == front[k];
    if best.Some? {
      if best == before {
        var i: nat :| FirstAsMeasured(front, key, i) && front[i] == before.value;
        assert FirstAsMeasured(nodes, key, i) && nodes[i] == best.value;
      } else {
        if before.Some? {
          var i: nat :| FirstAsMeasured(front, key, i) && front[i] == before.value;
        }
        assert FirstAsMeasured(nodes, key, |front|) && nodes[|front|] == n;
      }
    }
  }

  ghost predicate Merged(nodes: seq<Node>, m: map<string, Node>) {
    forall k :: (k in m <==> BestNode(nodes, k).Some?) && (k in m ==> BestNode(nodes, k) == Some(m[k]))
  }

  /** The inner loop over one rung's chain. */
  method MergeChain(ghost before: seq<Node>, m0: map<string, Node>, chain: seq<Node>) returns (m: map<string, Node>)
    requires Merged(before, m0)
    ensures Merged(before + chain, m)
  {
    m := m0;
    assert before + chain[..0] == before;
    for i := 0 to |chain|
      invariant Merged(before + chain[..i], m)
    {
      var c := chain[i];
      var key := Key(c.asset);
      assert before + chain[..i] + [c] == before + chain[..i + 1];
      if key !in m || (c.measured && !m[key].measured) {
        m := m[key := c];
      }
    }
    assert chain[..|chain|] == chain;
  }

  ghost predicate Gathered(rungs: seq<Rung>, deps: set<Asset>) { forall a :: a in deps <==> AnyDependsOn(rungs, a) }

  method MergeDeps(reg: Registry, ghost before: seq<Rung>, deps0: map<string, Asset>, r: Rung) returns (deps: map<string, Asset>)
    requires Sound(reg) && KeyedFiat(reg, deps0) && Gathered(before, deps0.Values)
    requires r.result.Ok? && forall a | a in r.result.value.dependsOn :: ClassifyHop(reg, a) == Fiat
    ensures KeyedFiat(reg, deps) && Gathered(before + [r], deps.Values)
  {
    hide Sound, ClassifyHop, Key;
    var ds := r.result.value.dependsOn;
    deps := deps0;
    for i := 0 to |ds|
      invariant KeyedFiat(reg, deps) && forall a :: a in deps.Values <==> a in deps0.Values || a in ds[..i]
    {
      assert ds[..i + 1] == ds[..i] + [ds[i]];
      AddFiat(reg, deps, ds[i]);
      deps := deps[Key(ds[i]) := ds[i]];
    }
    assert ds[..|ds|] == ds;
    OneRungMore(before, r);
  }

  lemma OneRungMore(before: seq<Rung>, r: Rung)
    ensures forall a :: AnyDependsOn(before + [r], a) <==> AnyDependsOn(before, a) || RungDependsOn(r, a)
    ensures forall i :: AnyIs(before + [r], i) <==> AnyIs(before, i) || r.Is(i)
  {
  }

  lemma NoDepsToGather(before: seq<Rung>, deps: set<Asset>, r: Rung)
    requires Gathered(before, deps) && (r.result.Ok? ==> r.result.value.dependsOn == [])
    ensures Gathered(before + [r], deps)
  {
  }

  // ------------------------------------------------------------------- prices

  datatype Prices = Prices(floor: real, floorSize: real, floorRate: real, worstLoss: real, worstSize: real,
                           recommended: Option<Offer>, recommendedSize: real)

  const NO_PRICES := Prices(0.0, 0.0, 0.0, 0.0, 0.0, None, 0.0)

  predicate AnyPriced(rungs: seq<Rung>) { exists r | r in rungs :: r.Priced() }

  predicate FirstPriced(rungs: seq<Rung>, i: nat) {
    i < |rungs| && rungs[i].Priced() && forall k | 0 <= k < i :: !rungs[k].Priced()
  }

  function Loss(r: Rung): real requires r.Priced() { r.Quote().grade.lossPct }

  predicate WorstPriced(rungs: seq<Rung>, i: nat) {
    && i < |rungs| && rungs[i].Priced()
    && (forall k | 0 <= k < |rungs| && rungs[k].Priced() :: Loss(rungs[k]) <= Loss(rungs[i]))
    && (forall k | i < k < |rungs| && rungs[k].Priced() :: Loss(rungs[k]) < Loss(rungs[i]))
  }

  predicate Acceptable(r: Rung) { r.Priced() && r.Quote().grade.verdict.Acceptable() }

  predicate AnyAcceptable(rungs: seq<Rung>) { exists r | r in rungs :: Acceptable(r) }

  predicate FirstAcceptable(rungs: seq<Rung>, i: nat) {
    i < |rungs| && Acceptable(rungs[i]) && forall k | 0 <= k < i :: !Acceptable(rungs[k])
  }

  /** The loss at the first priced rung. */
  ghost predicate FloorIs(rungs: seq<Rung>, p: Prices) {
    if AnyPriced(rungs) then
      exists i: nat :: FirstPriced(rungs, i) && p.floor == Loss(rungs[i]) && p.floorSize == rungs[i].size
                       && p.floorRate == rungs[i].Quote().grade.rate
    else (p.floor, p.floorSize, p.floorRate) == (0.0, 0.0, 0.0)
  }

  /** The largest loss, and the last rung it occurs at. */
  ghost predicate WorstIs(rungs: seq<Rung>, p: Prices) {
    if AnyPriced(rungs) then
      exists i: nat :: WorstPriced(rungs, i) && p.worstLoss == Loss(rungs[i]) && p.worstSize == rungs[i].size
    else (p.worstLoss, p.worstSize) == (0.0, 0.0)
  }

  /** The quote of the first acceptable rung. */
  ghost predicate RecommendationIs(rungs: seq<Rung>, p: Prices) {
    if AnyAcceptable(rungs) then
      exists i: nat :: FirstAcceptable(rungs, i) && p.recommended == Some(rungs[i].Quote()) && p.recommendedSize == rungs[i].size
    else p.recommended == None && p.recommendedSize == 0.0
  }

  ghost predicate PricesAre(rungs: seq<Rung>, p: Prices) {
    FloorIs(rungs, p) && WorstIs(rungs, p) && RecommendationIs(rungs, p)
  }

  /** One rung's contribution. */
  method NotePrice(reg: Registry, ghost before: seq<Rung>, p0: Prices, r: Rung) returns (p: Prices)
    requires AllSane(reg, before) && Sane(reg, r) && r.result.Ok? && PricesAre(before, p0)
    ensures PricesAre(before + [r], p)
  {
    p := p0;
    if !r.Priced() {
      UnpricedKeepsFloor(before, p, r);
      UnpricedKeepsWorst(before, p, r);
      UnpricedKeepsRecommendation(before, p, r);
      return;
    }
    var q := r.Quote();
    if p.floorSize == 0.0 {
      p := p.(floor := q.grade.lossPct, floorSize := r.size, floorRate := q.grade.rate);
    }
    FloorStep(reg, before, p0, r);
    if q.grade.lossPct >= p.worstLoss {
      p := p.(worstLoss := q.grade.lossPct, worstSize := r.size);
    }
    WorstStep(reg, before, p0, r);
    if p.recommended == None && r.result.value.recommended.Some? {
      p := p.(recommended := r.result.value.recommended, recommendedSize := r.size);
    }
    RecommendationStep(reg, before, p0, r);
  }

  lemma UnpricedKeepsFloor(before: seq<Rung>, p: Prices, r: Rung)
    requires FloorIs(before, p) && !r.Priced()
    ensures FloorIs(before + [r], p)
  {
    var rungs := before + [r];
    assert AnyPriced(rungs) == AnyPriced(before);
    if AnyPriced(before) {
      var i: nat :| FirstPriced(before, i) && p.floor == Loss(before[i]) && p.floorSize == before[i].size
                    && p.floorRate == before[i].Quote().grade.rate;
      assert FirstPriced(rungs, i);
    }
  }

  lemma UnpricedKeepsWorst(before: seq<Rung>, p: Prices, r: Rung)
    requires WorstIs(before, p) && !r.Priced()
    ensures WorstIs(before + [r], p)
  {
    var rungs := before + [r];
    assert AnyPriced(rungs) == AnyPriced(before);
    if AnyPriced(before) {
      var j: nat :| WorstPriced(before, j) && p.worstLoss == Loss(before[j]) && p.worstSize == before[j].size;
      assert WorstPriced(rungs, j);
    }
  }

  lemma UnpricedKeepsRecommendation(before: seq<Rung>, p: Prices, r: Rung)
    requires RecommendationIs(before, p) && !r.Priced()
    ensures RecommendationIs(before + [r], p)
  {
    var rungs := before + [r];
    assert AnyAcceptable(rungs) == AnyAcceptable(before);
    if AnyAcceptable(before) {
      var i: nat :| FirstAcceptable(before, i) && p.recommended == Some(before[i].Quote()) && p.recommendedSize == before[i].size;
      assert FirstAcceptable(rungs, i);
    }
  }

  lemma FloorStep(reg: Registry, before: seq<Rung>, p: Prices, r: Rung)
    requires AllSane(reg, before) && Sane(reg, r) && r.Priced() && FloorIs(before, p)
    ensures forall q: Prices |
              (if p.floorSize == 0.0 then q.floor == Loss(r) && q.floorSize == r.size && q.floorRate == r.Quote().grade.rate
               else q.floor == p.floor && q.floorSize == p.floorSize && q.floorRate == p.floorRate) ::
              FloorIs(before + [r], q)
  {
    var rungs := before + [r];
    assert r in rungs;
    if AnyPriced(before) {
      var i: nat :| FirstPriced(before, i) && p.floor == Loss(before[i]) && p.floorSize == before[i].size
                    && p.floorRate == before[i].Quote().grade.rate;
      assert before[i] in before;
      assert FirstPriced(rungs, i) && rungs[i] == before[i];
    } else {
      assert FirstPriced(rungs, |before|) by {
        assert forall k | 0 <= k < |before| :: rungs[k] in before;
      }
      assert rungs[|before|] == r;
    }
  }

  lemma WorstStep(reg: Registry, before: seq<Rung>, p: Prices, r: Rung)
    requires AllSane(reg, before) && Sane(reg, r) && r.Priced() && WorstIs(before, p)
    ensures forall q: Prices |
              (if Loss(r) >= p.worstLoss then q.worstLoss == Loss(r) && q.worstSize == r.size
               else q.worstLoss == p.worstLoss && q.worstSize == p.worstSize) ::
              WorstIs(before + [r], q)
  {
    var rungs := before + [r];
    assert r in rungs && rungs[|before|] == r;
    if AnyPriced(before) {
      var j: nat :| WorstPriced(before, j) && p.worstLoss == Loss(before[j]) && p.worstSize == before[j].size;
      if Loss(r) < p.worstLoss {
        WorstStays(before, j, r);
      }
    } else {
      assert forall k | 0 <= k < |before| :: before[k] in before;
    }
  }

  lemma WorstStays(before: seq<Rung>, j: nat, r: Rung)
    requires WorstPriced(before, j) && r.Priced() && Loss(r) < Loss(before[j])
    ensures WorstPriced(before + [r], j) && (before + [r])[j] == before[j]
  {
  }

  lemma RecommendationStep(reg: Registry, before: seq<Rung>, p: Prices, r: Rung)
    requires Sane(reg, r) && r.Priced() && RecommendationIs(before, p)
    ensures forall q: Prices |
              (if p.recommended == None && r.result.value.recommended.Some?
               then q.recommended == r.result.value.recommended && q.recommendedSize == r.size
               else q.recommended == p.recommended && q.recommendedSize == p.recommendedSize) ::
              RecommendationIs(before + [r], q)
  {
    var rungs := before + [r];
    assert r in rungs && rungs[|before|] == r;
    assert forall k | 0 <= k < |before| :: rungs[k] == before[k] && rungs[k] in before;
    assert AnyAcceptable(rungs) <==> AnyAcceptable(before) || Acceptable(r);
    if AnyAcceptable(before) {
      var i: nat :| FirstAcceptable(before, i) && p.recommended == Some(before[i].Quote()) && p.recommendedSize == before[i].size;
      assert FirstAcceptable(rungs, i);
    } else if Acceptable(r) {
      assert FirstAcceptable(rungs, |before|);
    }
  }

  /** The reference shown for the ladder: the first with a mid other than zero, or else the last. */
  function PickReference(rungs: seq<Rung>): Option<Reference.Rate> {
    if rungs == [] then None
    else
      var before, r := PickReference(rungs[..|rungs| - 1]), rungs[|rungs| - 1];
      if r.result.Err? || (before.Some? && before.value.mid != 0.0) then before else Some(r.result.value.reference)
  }

  /** Rung `i` is the first with a mid other than zero or, if none has one, the last that answered. */
  predicate ShowsReference(rungs: seq<Rung>, i: nat) {
    && i < |rungs| && rungs[i].result.Ok?
    && if rungs[i].result.value.reference.mid != 0.0
       then forall k | 0 <= k < i && rungs[k].result.Ok? :: rungs[k].result.value.reference.mid == 0.0
       else forall k | 0 <= k < |rungs| && rungs[k].result.Ok? :: k <= i && rungs[k].result.value.reference.mid == 0.0
  }

  lemma {:induction false} PickedReferenceMeans(rungs: seq<Rung>)
    ensures var ref := PickReference(rungs);
            && (ref.Some? <==> exists r | r in rungs :: r.result.Ok?)
            && (ref.Some? ==> exists i: nat :: ShowsReference(rungs, i) && rungs[i].result.value.reference == ref.value)
  {
    if rungs != [] {
      var front, r := rungs[..|rungs| - 1], rungs[|rungs| - 1];
      assert rungs == front + [r];
      PickedReferenceMeans(front);
      var before := PickReference(front);
      assert forall k | 0 <= k < |front| :: front[k] in front && rungs[k] == front[k];
      if r.result.Err? || (before.Some? && before.value.mid != 0.0) {
        if before.Some? {
          var i: nat :| ShowsReference(front, i) && front[i].result.value.reference == before.value;
          assert ShowsReference(rungs, i);
        }
      } else {
        if before.Some? {
          var i: nat :| ShowsReference(front, i) && front[i].result.value.reference == before.value;
        }
        assert ShowsReference(rungs, |front|);
      }
    }
  }

  // -------------------------------------------------------------------- lists

  lemma {:induction false} NodesAreDependencies(reg: Registry, rungs: seq<Rung>)
    requires AllSane(reg, rungs)
    ensures forall a :: MentionsAsset(AllNodes(rungs), a) <==> AnyDependsOn(rungs, a)
    ensures forall a | AnyDependsOn(rungs, a) :: ClassifyHop(reg, a) == Fiat
    ensures (exists a :: AnyDependsOn(rungs, a)) <==> AnyIs(rungs, Derivative)
  {
    hide ClassifyHop;
    if rungs != [] {
      var front, r := rungs[..|rungs| - 1], rungs[|rungs| - 1];
      assert rungs == front + [r];
      NodesAreDependencies(reg, front);
      OneRungMore(front, r);
      MentionedInEither(AllNodes(front), ChainOf(r));
      AssetsMentioned(ChainOf(r));
      assert Sane(reg, r);
      assert forall a :: MentionsAsset(ChainOf(r), a) <==> RungDependsOn(r, a);
      if r.Is(Derivative) {
        assert RungDependsOn(r, r.result.value.dependsOn[0]);
      }
    }
  }

  lemma MentionedInEither(xs: seq<Node>, ys: seq<Node>)
    ensures forall a :: MentionsAsset(xs + ys, a) <==> MentionsAsset(xs, a) || MentionsAsset(ys, a)
  {
  }

  /** Listing what was gathered: both lists ascend strictly and name the same assets. */
  method ListCorridor(reg: Registry, ghost rungs: seq<Rung>, deps: map<string, Asset>, chainMap: map<string, Node>)
    returns (dependsOn: seq<Asset>, chain: seq<Node>)
    requires Sound(reg) && AllSane(reg, rungs)
    requires KeyedFiat(reg, deps) && Gathered(rungs, deps.Values) && Merged(AllNodes(rungs), chainMap)
    ensures AscendingBy(CodeOf, dependsOn) && forall a :: a in dependsOn <==> AnyDependsOn(rungs, a)
    ensures Assets(chain) == dependsOn
    ensures forall n | n in chain :: BestNode(AllNodes(rungs), Key(n.asset)) == Some(n)
  {
    hide Sound, ClassifyHop, Sane, Key, BestNode, AllNodes, CodeOf, NodeCode;
    NodesAreDependencies(reg, rungs);
    DistinctByCode(reg, deps.Values);
    dependsOn := ListBy(CodeOf, deps.Values);
    KeptNodes(reg, rungs, chainMap);
    chain := ListBy(NodeCode, chainMap.Values);
    SameLists(dependsOn, chain);
  }

  lemma DistinctByCode(reg: Registry, s: set<Asset>)
    requires Sound(reg) && forall a | a in s :: ClassifyHop(reg, a) == Fiat
    ensures DistinctKeys(CodeOf, s)
  {
    forall a, b | a in s && b in s && CodeOf(a) == CodeOf(b)
      ensures a == b
    {
      CodeNamesFiatToken(reg, a, b);
    }
  }

  lemma KeptNodes(reg: Registry, rungs: seq<Rung>, m: map<string, Node>)
    requires Sound(reg) && AllSane(reg, rungs) && Merged(AllNodes(rungs), m)
    ensures DistinctKeys(NodeCode, m.Values)
    ensures forall n | n in m.Values :: BestNode(AllNodes(rungs), Key(n.asset)) == Some(n)
    ensures forall a :: (exists n | n in m.Values :: n.asset == a) <==> AnyDependsOn(rungs, a)
  {
    hide Sound, ClassifyHop, BestNode, AllNodes, Key;
    var nodes := AllNodes(rungs);
    NodesAreDependencies(reg, rungs);
    forall n | n in m.Values
      ensures BestNode(nodes, Key(n.asset)) == Some(n) && n in nodes && AnyDependsOn(rungs, n.asset)
    {
      var k :| k in m && m[k] == n;
      BestNodeMeans(nodes, k);
      assert MentionsAsset(nodes, n.asset);
    }
    forall x, y | x in m.Values && y in m.Values && NodeCode(x) == NodeCode(y)
      ensures x == y
    {
      CodeNamesFiatToken(reg, x.asset, y.asset);
    }
    forall a | AnyDependsOn(rungs, a)
      ensures exists n | n in m.Values :: n.asset == a
    {
      assert MentionsAsset(nodes, a);
      BestNodeMeans(nodes, Key(a));
      var n := m[Key(a)];
      assert n in m.Values && Key(n.asset) == Key(a);
      SameKey(n.asset, a);
      CodeNamesFiatToken(reg, n.asset, a);
    }
  }

  lemma SameLists(dependsOn: seq<Asset>, chain: seq<Node>)
    requires AscendingBy(CodeOf, dependsOn) && AscendingBy(NodeCode, chain)
    requires forall a :: a in dependsOn <==> MentionsAsset(chain, a)
    ensures Assets(chain) == dependsOn
  {
    AssetsMentioned(chain);
    assert AscendingBy(CodeOf, Assets(chain));
    AscendingIsUnique(CodeOf, Assets(chain), dependsOn);
  }

  // ------------------------------------------------------------------- result

  class LadderResult {
    const rungs: seq<Rung>
    var integrity: Integrity
    var dependsOn: seq<Asset>
    var chain: seq<Node>
    var reference: Option<Reference.Rate>
    var prices: Prices

    constructor (rungs: seq<Rung>)
      ensures this.rungs == rungs && integrity == Unknown && dependsOn == [] && chain == []
      ensures reference == None && prices == NO_PRICES
    {
      this.rungs := rungs;
      integrity, dependsOn, chain, reference, prices := Unknown, [], [], None, NO_PRICES;
    }

    /** `summarise`, called once on a fresh result. */
    method Summarise(reg: Registry)
      requires Sound(reg) && AllSane(reg, rungs)
      requires dependsOn == [] && chain == [] && reference == None && prices == NO_PRICES
      modifies this
      ensures integrity == LadderIntegrity(rungs)
      ensures integrity == NoMarket <==> forall r | r in rungs :: r.Is(NoMarket)
      ensures integrity == Direct <==> exists r | r in rungs :: r.Is(Direct)
      ensures integrity == Derivative <==> (exists r | r in rungs :: r.Is(Derivative)) && forall r | r in rungs :: !r.Is(Direct)
      ensures AscendingBy(CodeOf, dependsOn)
      ensures forall a :: a in dependsOn <==> integrity == Derivative && AnyDependsOn(rungs, a)
      ensures Assets(chain) == dependsOn
      ensures forall n | n in chain :: BestNode(AllNodes(rungs), Key(n.asset)) == Some(n)
      ensures PricesAre(rungs, prices) && reference == PickReference(rungs)
    {
      hide *;
      var f := NOTHING;
      NothingYet(reg);
      assert rungs[..0] == [];
      for i := 0 to |rungs|
        invariant Absorbed(reg, rungs[..i], f)
      {
        assert rungs[..i + 1] == rungs[..i] + [rungs[i]];
        SaneUpTo(reg, rungs, i);
        f := Absorb(reg, rungs[..i], f, rungs[i]);
      }
      assert rungs[..|rungs|] == rungs;
      Conclude(reg, f);
    }

    /** The end of `summarise`: what the flags and maps come to. */
    method Conclude(reg: Registry, f: Fold)
      requires Sound(reg) && AllSane(reg, rungs) && Absorbed(reg, rungs, f)
      modifies this
      ensures integrity == LadderIntegrity(rungs)
      ensures integrity == NoMarket <==> forall r | r in rungs :: r.Is(NoMarket)
      ensures integrity == Direct <==> exists r | r in rungs :: r.Is(Direct)
      ensures integrity == Derivative <==> (exists r | r in rungs :: r.Is(Derivative)) && forall r | r in rungs :: !r.Is(Direct)
      ensures AscendingBy(CodeOf, dependsOn)
      ensures forall a :: a in dependsOn <==> integrity == Derivative && AnyDependsOn(rungs, a)
      ensures Assets(chain) == dependsOn
      ensures forall n | n in chain :: BestNode(AllNodes(rungs), Key(n.asset)) == Some(n)
      ensures PricesAre(rungs, prices) && reference == PickReference(rungs)
    {
      hide Sane, ClassifyHop, Sound, BestNode, PricesAre, Gathered, Merged, KeyedFiat, AllNodes, PickReference;
      GatheredExactly(reg, rungs, f.deps.Values);
      reference, prices, dependsOn, chain := f.reference, f.prices, [], [];
      if f.allNoMarket && !f.anyPriced {
        integrity := NoMarket;
      } else if f.anyDirect {
        integrity := Direct;
      } else if |f.deps.Values| > 0 {
        integrity := Derivative;
        dependsOn, chain := ListCorridor(reg, rungs, f.deps, f.chainMap);
      } else {
        integrity := Unknown;
      }
    }
  }

  /** The variables of `summarise`'s loop. */
  datatype Fold = Fold(anyPriced: bool, anyDirect: bool, allNoMarket: bool, deps: map<string, Asset>,
                       chainMap: map<string, Node>, reference: Option<Reference.Rate>, prices: Prices)

  const NOTHING := Fold(false, false, true, map[], map[], None, NO_PRICES)

  ghost predicate Absorbed(reg: Registry, rungs: seq<Rung>, f: Fold) {
    && f.anyPriced == AnyPriced(rungs) && f.anyDirect == AnyIs(rungs, Direct)
    && f.allNoMarket == (forall r | r in rungs :: r.Is(NoMarket))
    && KeyedFiat(reg, f.deps) && Gathered(rungs, f.deps.Values)
    && Merged(AllNodes(rungs), f.chainMap)
    && PricesAre(rungs, f.prices) && f.reference == PickReference(rungs)
  }

  lemma SaneUpTo(reg: Registry, rungs: seq<Rung>, i: nat)
    requires AllSane(reg, rungs) && i < |rungs|
    ensures AllSane(reg, rungs[..i]) && Sane(reg, rungs[i])
  {
  }

  /** The body of the loop: one rung into the summary. */
  method Absorb(reg: Registry, ghost before: seq<Rung>, f0: Fold, r: Rung) returns (f: Fold)
    requires Sound(reg) && AllSane(reg, before) && Sane(reg, r) && Absorbed(reg, before, f0)
    ensures Absorbed(reg, before + [r], f)
  {
    hide Sane, Sound, ClassifyHop, BestNode, FloorIs, WorstIs, RecommendationIs, Gathered, Merged, KeyedFiat, AllNodes, AnyPriced, AnyIs;
    RungSteps(reg, before, r);
    if r.result.Err? {
      assert Absorbed(reg, before + [r], f0.(allNoMarket := false)) by {
        UnpricedKeepsFloor(before, f0.prices, r);
        UnpricedKeepsWorst(before, f0.prices, r);
        UnpricedKeepsRecommendation(before, f0.prices, r);
        NoDepsToGather(before, f0.deps.Values, r);
        assert AllNodes(before) + [] == AllNodes(before);
      }
      return f0.(allNoMarket := false);
    }
    var reference := f0.reference;
    if reference.None? || reference.value.mid == 0.0 {
      reference := Some(r.result.value.reference);
    }
    var deps, chainMap := MergeStructure(reg, before, f0.deps, f0.chainMap, r);
    var prices := NotePrice(reg, before, f0.prices, r);
    f := Fold(f0.anyPriced || r.Priced(), f0.anyDirect || r.Is(Direct), f0.allNoMarket && r.Is(NoMarket),
              deps, chainMap, reference, prices);
  }

  method MergeStructure(reg: Registry, ghost before: seq<Rung>, deps0: map<string, Asset>, chain0: map<string, Node>, r: Rung)
    returns (deps: map<string, Asset>, chainMap: map<string, Node>)
    requires Sound(reg) && Sane(reg, r) && r.result.Ok?
    requires KeyedFiat(reg, deps0) && Gathered(before, deps0.Values) && Merged(AllNodes(before), chain0)
    ensures KeyedFiat(reg, deps) && Gathered(before + [r], deps.Values) && Merged(AllNodes(before + [r]), chainMap)
  {
    hide Sane, Sound, ClassifyHop, BestNode, Gathered, Merged, KeyedFiat, AllNodes;
    RungSteps(reg, before, r);
    deps, chainMap := deps0, chain0;
    if r.result.value.integrity == Derivative {
      deps := MergeDeps(reg, before, deps, r);
      chainMap := MergeChain(AllNodes(before), chainMap, r.result.value.chain);
    } else {
      NoDepsToGather(before, deps.Values, r);
      assert AllNodes(before) + [] == AllNodes(before);
    }
  }

  lemma NothingYet(reg: Registry)
    ensures Absorbed(reg, [], NOTHING)
  {
  }

  /** How the running summaries of a prefix grow by one rung. */
  lemma RungSteps(reg: Registry, before: seq<Rung>, r: Rung)
    requires Sane(reg, r)
    ensures AnyPriced(before + [r]) <==> AnyPriced(before) || r.Priced()
    ensures forall i :: AnyIs(before + [r], i) <==> AnyIs(before, i) || r.Is(i)
    ensures (forall x | x in before + [r] :: x.Is(NoMarket)) <==> (forall x | x in before :: x.Is(NoMarket)) && r.Is(NoMarket)
    ensures AllNodes(before + [r]) == AllNodes(before) + ChainOf(r)
    ensures !r.Is(Derivative) ==> ChainOf(r) == [] && (r.result.Ok? ==> r.result.value.dependsOn == [])
    ensures r.Is(Derivative) ==> forall a | a in r.result.value.dependsOn :: ClassifyHop(reg, a) == Fiat
    ensures r.Priced() ==> r.Is(Direct) || r.Is(Derivative)
    ensures PickReference(before + [r])
         == var ref := PickReference(before);
            if r.result.Err? || (ref.Some? && ref.value.mid != 0.0) then ref else Some(r.result.value.reference)
  {
  }

  lemma GatheredExactly(reg: Registry, rungs: seq<Rung>, deps: set<Asset>)
    requires AllSane(reg, rungs) && Gathered(rungs, deps)
    ensures deps != {} <==> AnyIs(rungs, Derivative)
    ensures AnyPriced(rungs) <==> AnyIs(rungs, Direct) || AnyIs(rungs, Derivative)
  {
    hide ClassifyHop;
    NodesAreDependencies(reg, rungs);
    assert deps != {} <==> exists a :: AnyDependsOn(rungs, a);
  }

  // ------------------------------------------------------------- main results

  lemma {:induction false} FirstPricedExists(rungs: seq<Rung>)
    requires AnyPriced(rungs)
    ensures exists i: nat :: FirstPriced(rungs, i)
  {
    var front, r := rungs[..|rungs| - 1], rungs[|rungs| - 1];
    assert rungs == front + [r];
    if AnyPriced(front) {
      FirstPricedExists(front);
      var i: nat :| FirstPriced(front, i);
      assert FirstPriced(rungs, i);
    } else {
      assert forall k | 0 <= k < |front| :: rungs[k] == front[k] && rungs[k] in front;
      assert FirstPriced(rungs, |front|);
    }
  }

  /** On an ascending ladder the floor is the loss at the smallest priced size, no loss
      exceeds the worst, and so the floor does not either. */
  lemma FloorAndWorst(rungs: seq<Rung>, p: Prices, r: Rung)
    requires Sorted(rungs) && PricesAre(rungs, p) && r in rungs && r.Priced()
    ensures p.floorSize <= r.size && Loss(r) <= p.worstLoss && p.floor <= p.worstLoss
    ensures Loss(r) == p.worstLoss ==> r.size <= p.worstSize
    ensures exists x | x in rungs :: x.Priced() && x.size == p.floorSize && Loss(x) == p.floor
    ensures exists x | x in rungs :: x.Priced() && x.size == p.worstSize && Loss(x) == p.worstLoss
  {
  }

  /** A recommendation is made exactly when some size earned a verdict of poor or
      better; it is the one at the smallest such size, its loss is at most twenty
      percent, and the reference it was scored against was usable. */
  lemma RecommendsExactly(reg: Registry, rungs: seq<Rung>, p: Prices)
    requires Sorted(rungs) && PricesAre(rungs, p) && forall r | r in rungs :: Proper(reg, r)
    ensures p.recommended.Some? <==> AnyAcceptable(rungs)
    ensures p.recommended.Some? ==>
              exists r | r in rungs ::
                && Acceptable(r) && p.recommended == Some(r.Quote()) && p.recommendedSize == r.size
                && Loss(r) <= THRESHOLD_POOR && r.result.value.reference.Scorable()
                && forall x | x in rungs && Acceptable(x) :: p.recommendedSize <= x.size
  {
    if AnyAcceptable(rungs) {
      var i: nat :| FirstAcceptable(rungs, i) && p.recommended == Some(rungs[i].Quote()) && p.recommendedSize == rungs[i].size;
      var r := rungs[i];
      AcceptableMeans(reg, r);
      forall x | x in rungs && Acceptable(x)
        ensures p.recommendedSize <= x.size
      {
        var k :| 0 <= k < |rungs| && rungs[k] == x;
      }
    }
  }

  /** An acceptable rung's quote was scored, and delivers at least four fifths of what
      the reference mid would. */
  lemma AcceptableMeans(reg: Registry, r: Rung)
    requires Proper(reg, r) && Acceptable(r)
    ensures var ref, q := r.result.value.reference, r.Quote();
            && ref.Scorable() && q.sent == r.size && q.grade.lossPct <= THRESHOLD_POOR
            && (ref.mid > 0.0 ==> q.received >= q.sent * ref.mid * 80.0 / 100.0)
  {
    var o := r.result.value;
    var env: Env :| env.reg == reg && Describes(env, r.size, o.reference, o);
    var q := r.Quote();
    assert q in o.quotes;
    if o.reference.mid > 0.0 {
      VerdictMeans(r.size, q.received, o.reference.mid, UNGRADED);
    }
  }

  /** When every reference is a malfunction, nothing is recommended at any size. */
  lemma MalfunctionRecommendsNothing(reg: Registry, rungs: seq<Rung>, p: Prices)
    requires PricesAre(rungs, p) && forall r | r in rungs :: Proper(reg, r)
    requires forall r | r in rungs && r.result.Ok? :: !r.result.value.reference.Scorable()
    ensures p.recommended == None
  {
    if AnyAcceptable(rungs) {
      var r :| r in rungs && Acceptable(r);
      AcceptableMeans(reg, r);
    }
  }

  /** A corridor's structure stays unknown exactly when some size was not measured and
      no size was priced; so when nothing was measured, nothing is claimed. */
  lemma UnknownExactly(reg: Registry, rungs: seq<Rung>)
    requires AllSane(reg, rungs)
    ensures LadderIntegrity(rungs) == Unknown <==> !AnyPriced(rungs) && exists r | r in rungs :: r.Unmeasured()
  {
  }

  /** Order and repetition of rungs do not matter to the structure reported. */
  lemma IntegrityIsOfTheSet(xs: seq<Rung>, ys: seq<Rung>)
    requires forall r :: r in xs <==> r in ys
    ensures LadderIntegrity(xs) == LadderIntegrity(ys)
  {
  }

  /** A node of the ladder's chain is measured iff some rung measured that dependency. */
  lemma ChainKeepsMeasurements(rungs: seq<Rung>, chain: seq<Node>, n: Node)
    requires n in chain && forall m | m in chain :: BestNode(AllNodes(rungs), Key(m.asset)) == Some(m)
    ensures n.measured <==> exists r, m | r in rungs && m in ChainOf(r) :: Key(m.asset) == Key(n.asset) && m.measured
  {
    BestNodeMeans(AllNodes(rungs), Key(n.asset));
    NodesOfRungs(rungs);
  }

  lemma {:induction false} NodesOfRungs(rungs: seq<Rung>)
    ensures forall m :: m in AllNodes(rungs) <==> exists r | r in rungs :: m in ChainOf(r)
  {
    if rungs != [] {
      var front, r := rungs[..|rungs| - 1], rungs[|rungs| - 1];
      assert rungs == front + [r];
      NodesOfRungs(front);
    }
  }

  /** `Failed` and `PartiallyFailed`. */
  method Failed(rungs: seq<Rung>) returns (failed: bool)
    ensures failed <==> forall r | r in rungs :: r.Unmeasured()
  {
    if |rungs| == 0 {
      return true;
    }
    for i := 0 to |rungs|
      invariant forall k | 0 <= k < i :: rungs[k].Unmeasured()
    {
      if !rungs[i].Unmeasured() {
        return false;
      }
    }
    return true;
  }

  method PartiallyFailed(rungs: seq<Rung>) returns (partial: bool)
    ensures partial <==> (exists r | r in rungs :: r.Unmeasured()) && (exists r | r in rungs :: !r.Unmeasured())
  {
    if |rungs| == 0 {
      return false;
    }
    var unmeasured := 0;
    for i := 0 to |rungs|
      invariant 0 <= unmeasured <= i
      invariant unmeasured > 0 <==> exists k | 0 <= k < i :: rungs[k].Unmeasured()
      invariant unmeasured < i <==> exists k | 0 <= k < i :: !rungs[k].Unmeasured()
    {
      if rungs[i].Unmeasured() {
        unmeasured := unmeasured + 1;
      }
    }
    return 0 < unmeasured < |rungs|;
  }

  // ------------------------------------------------------------------ running

  /** What the outside world answers while one size is priced. */
  datatype Answers = Answers(env: Env, reference: Result<Reference.Rate, string>)

  predicate Ascends(sizes: seq<real>) { forall i, j | 0 <= i < j < |sizes| :: sizes[i] <= sizes[j] }

  function InsertSize(sizes: seq<real>, x: real): (out: seq<real>)
    ensures multiset(out) == multiset(sizes) + multiset{x}
  {
    if sizes == [] || x < sizes[0] then [x] + sizes
    else
      assert sizes == [sizes[0]] + sizes[1..];
      [sizes[0]] + InsertSize(sizes[1..], x)
  }

  lemma {:induction false} InsertKeepsOrder(sizes: seq<real>, x: real)
    requires Ascends(sizes)
    ensures Ascends(InsertSize(sizes, x))
  {
    if sizes != [] && x >= sizes[0] {
      var rest := InsertSize(sizes[1..], x);
      InsertKeepsOrder(sizes[1..], x);
      InsertHolds(sizes[1..], x);
      assert forall j | 0 <= j < |rest| :: rest[j] in rest;
    }
  }

  lemma InsertHolds(sizes: seq<real>, x: real)
    ensures forall y | y in InsertSize(sizes, x) :: y in sizes || y == x
  {
  }

  const DEFAULT_SIZES := [0.1, 1.0, 5.0, 10.0, 25.0, 50.0, 100.0, 250.0, 500.0, 1000.0, 2500.0, 5000.0]

  method SortSizes(asked: seq<real>) returns (sorted: seq<real>)
    ensures Ascends(sorted) && multiset(sorted) == multiset(asked) && |sorted| == |asked|
  {
    sorted := [];
    for i := 0 to |asked|
      invariant Ascends(sorted) && multiset(sorted) == multiset(asked[..i])
    {
      InsertKeepsOrder(sorted, asked[i]);
      sorted := InsertSize(sorted, asked[i]);
      assert asked[..i + 1] == asked[..i] + [asked[i]];
    }
    assert asked[..|asked|] == asked;
    assert |multiset(sorted)| == |multiset(asked)|;
  }

  method PriceAll(reg: Registry, sizes: seq<real>, answers: nat -> Answers) returns (rungs: seq<Rung>)
    requires Sound(reg) && forall i :: answers(i).env.reg == reg
    ensures |rungs| == |sizes| && forall k | 0 <= k < |sizes| :: rungs[k].size == sizes[k] && Proper(reg, rungs[k])
  {
    hide Sound, ExplainsAll, IsBest, DependsOn;
    rungs := [];
    for i := 0 to |sizes|
      invariant |rungs| == i && forall k | 0 <= k < i :: rungs[k].size == sizes[k] && Proper(reg, rungs[k])
    {
      var env := answers(i).env;
      var r := PriceSize(env, sizes[i], answers(i).reference);
      rungs := rungs + [Rung(sizes[i], r)];
    }
  }

  /** `Engine.Ladder`: every size is priced, and the rungs come in ascending order
      whatever order the sizes were given in and the answers came in. */
  method RunLadder(reg: Registry, sizes: seq<real>, answers: nat -> Answers) returns (l: LadderResult)
    requires Sound(reg) && forall i :: answers(i).env.reg == reg
    ensures fresh(l) && Sorted(l.rungs) && forall r | r in l.rungs :: Proper(reg, r)
    ensures var asked := if sizes == [] then DEFAULT_SIZES else sizes;
            && |l.rungs| == |asked|
            && multiset(seq(|l.rungs|, i requires 0 <= i < |l.rungs| => l.rungs[i].size)) == multiset(asked)
    ensures l.integrity == NoMarket <==> forall r | r in l.rungs :: r.Is(NoMarket)
    ensures l.integrity == Direct <==> exists r | r in l.rungs :: r.Is(Direct)
    ensures l.integrity == Derivative <==> (exists r | r in l.rungs :: r.Is(Derivative)) && forall r | r in l.rungs :: !r.Is(Direct)
    ensures l.integrity == LadderIntegrity(l.rungs) && PricesAre(l.rungs, l.prices) && l.reference == PickReference(l.rungs)
    ensures AscendingBy(CodeOf, l.dependsOn) && Assets(l.chain) == l.dependsOn
    ensures forall a :: a in l.dependsOn <==> l.integrity == Derivative && AnyDependsOn(l.rungs, a)
    ensures forall n | n in l.chain :: BestNode(AllNodes(l.rungs), Key(n.asset)) == Some(n)
  {
    hide Sound, Proper, Sane;
    var sorted := SortSizes(if sizes == [] then DEFAULT_SIZES else sizes);
    var rungs := PriceAll(reg, sorted, answers);
    forall r | r in rungs
      ensures Sane(reg, r)
    {
      ProperIsSane(reg, r);
    }
    assert seq(|rungs|, i requires 0 <= i < |rungs| => rungs[i].size) == sorted;
    l := new LadderResult(rungs);
    l.Summarise(reg);
  }
}
