/** What measuring a corridor's dependencies can cost: the worst case of `measureChain`
    in route/route.go, and the bound its comment states. */
module CorridorCost {
  import opened Results
  import opened Ordering
  import opened Corridor
  import opened Strings

  /** A pathfinder that answers every question with one path through every token. */
  function Tangled(reg: Registry, dest: Asset, tokens: seq<Asset>): Env {
    Env(reg, dest, _ => Ok([Path(tokens, 1.0)]))
  }

  /** Fiat tokens other than the destination, as `classify` lists them. */
  predicate FiatTokens(reg: Registry, dest: Asset, tokens: seq<Asset>) {
    AscendingBy(CodeOf, tokens) && forall a | a in tokens :: ClassifyHop(reg, a) == Fiat && Key(a) != Key(dest)
  }

  function Keys(tokens: seq<Asset>): set<string> { set a | a in tokens :: Key(a) }

  /** With such answers a corridor depends on every token but itself. */
  lemma TangledDependencies(reg: Registry, dest: Asset, tokens: seq<Asset>)
    requires forall a | a in tokens :: ClassifyHop(reg, a) == Fiat
    ensures forall a :: DependsOn(reg, dest, [Path(tokens, 1.0)], a) <==> a in tokens && Key(a) != Key(dest)
  {
    hide ClassifyHop, Key;
    var p := Path(tokens, 1.0);
    forall a | a in tokens && Key(a) != Key(dest)
      ensures DependsOn(reg, dest, [p], a)
    {
      assert p in [p] && FiatHop(reg, dest, a) && !Independent(reg, dest, p);
    }
  }

  lemma {:induction false} CallsPerNodeExactly(trail: seq<Asset>, nodes: seq<Node>, per: nat)
    requires AscendingBy(NodeCode, nodes)
    requires forall n | n in nodes && Asked(n) :: |CallsUnder(trail + [n.asset], n.dependencies)| == per
    ensures |CallsUnder(trail, nodes)| == Times(|AskedKeys(nodes)|, 1 + per)
  {
    if nodes == [] {
      TimesSteps(0, 1 + per);
    } else {
      hide *;
      var front, n := nodes[..|nodes| - 1], nodes[|nodes| - 1];
      assert nodes == front + [n];
      AscendingFront(front, n);
      CallsPerNodeExactly(trail, front, per);
      CallsPerStepExactly(trail, front, n, per);
    }
  }

  lemma CallsPerStepExactly(trail: seq<Asset>, front: seq<Node>, n: Node, per: nat)
    requires AscendingBy(NodeCode, front + [n])
    requires Asked(n) ==> |CallsUnder(trail + [n.asset], n.dependencies)| == per
    requires |CallsUnder(trail, front)| == Times(|AskedKeys(front)|, 1 + per)
    ensures |CallsUnder(trail, front + [n])| == Times(|AskedKeys(front + [n])|, 1 + per)
  {
    hide *;
    CallsStep(trail, front, n);
    if Asked(n) {
      NewKey(front, n);
      TimesSteps(|AskedKeys(front)|, 1 + per);
    }
  }

  function Times(groups: nat, size: nat): nat { groups * size }

  lemma TimesSteps(groups: nat, size: nat)
    ensures Times(groups + 1, size) == Times(groups, size) + size && Times(0, size) == 0
  {
  }

  /** A chain measured by such a pathfinder makes as many calls as any could. */
  lemma {:induction false} TangledCalls(env: Env, tokens: seq<Asset>, trail: seq<Asset>, nodes: seq<Node>)
    requires FiatTokens(env.reg, env.dest, tokens) && env == Tangled(env.reg, env.dest, tokens)
    requires ExplainsAll(env, trail, nodes) && AscendingBy(NodeCode, nodes) && |trail| <= MAX_DEPTH
    requires forall n | n in nodes :: n.asset in tokens
    requires forall a | a in tokens && Key(a) !in Ancestors(env, trail) :: MentionsAsset(nodes, a)
    ensures |CallsUnder(trail, nodes)| == Fan(|Keys(tokens) - Ancestors(env, trail)|, MAX_DEPTH - |trail|)
    decreases MAX_DEPTH - |trail|
  {
    hide ClassifyHop, Key, IntegrityOf, CallsUnder, Ancestors, AscendingBy, Tangled, Keys, DependsOn, AskedKeys, Explains, MentionsAsset;
    var left := Keys(tokens) - Ancestors(env, trail);
    var m, d := |left|, MAX_DEPTH - |trail|;
    AskedExactly(env, tokens, trail, nodes);
    if d == 0 || m == 0 {
      assert AskedKeys(nodes) == {};
      NoneAsked(nodes);
      CallsPerNodeExactly(trail, nodes, 0);
    } else {
      forall n | n in nodes && Asked(n)
        ensures |CallsUnder(trail + [n.asset], n.dependencies)| == Fan(m - 1, d - 1)
      {
        var here := trail + [n.asset];
        AskedIsOpen(env, trail, n);
        AskedOfAll(env, tokens, trail, n);
        AncestorsBelow(env, trail, n.asset);
        assert Key(n.asset) in AskedKeys(nodes) by { AskedHasKey(nodes, n); }
        assert Keys(tokens) - Ancestors(env, here) == left - {Key(n.asset)};
        TangledCalls(env, tokens, here, n.dependencies);
      }
      CallsPerNodeExactly(trail, nodes, Fan(m - 1, d - 1));
    }
  }

  lemma AskedHasKey(nodes: seq<Node>, n: Node)
    requires n in nodes && Asked(n)
    ensures Key(n.asset) in AskedKeys(nodes)
  {
  }

  lemma NoneAsked(nodes: seq<Node>)
    requires AskedKeys(nodes) == {}
    ensures forall n | n in nodes :: !Asked(n)
  {
    assert forall n | n in nodes && Asked(n) :: Key(n.asset) in AskedKeys(nodes);
  }

  /** A node that was asked about depends on every other token. */
  lemma AskedOfAll(env: Env, tokens: seq<Asset>, trail: seq<Asset>, n: Node)
    requires FiatTokens(env.reg, env.dest, tokens) && env == Tangled(env.reg, env.dest, tokens)
    requires Explains(env, trail, n) && Asked(n)
    ensures forall k | k in n.dependencies :: k.asset in tokens
    ensures forall a | a in tokens && Key(a) !in Ancestors(env, trail + [n.asset]) :: MentionsAsset(n.dependencies, a)
  {
    assert env.finder(trail + [n.asset]) == Ok([Path(tokens, 1.0)]);
    TangledDependencies(env.reg, n.asset, tokens);
    hide ClassifyHop, Key, IntegrityOf, Ancestors, AscendingBy, DependsOn;
    AncestorsBelow(env, trail, n.asset);
    assert forall k | k in n.dependencies :: MentionsAsset(n.dependencies, k.asset);
  }

  /** Above the depth cap, exactly the tokens not on the way down are asked about. */
  lemma AskedExactly(env: Env, tokens: seq<Asset>, trail: seq<Asset>, nodes: seq<Node>)
    requires ExplainsAll(env, trail, nodes)
    requires env == Tangled(env.reg, env.dest, tokens)
    requires forall n | n in nodes :: n.asset in tokens
    requires forall a | a in tokens && Key(a) !in Ancestors(env, trail) :: MentionsAsset(nodes, a)
    ensures AskedKeys(nodes) == if |trail| >= MAX_DEPTH then {} else Keys(tokens) - Ancestors(env, trail)
  {
    hide Key, IntegrityOf, Ancestors, DependsOn, AscendingBy;
    assert forall n | n in nodes ::
        Asked(n) <==> |trail| < MAX_DEPTH && Key(n.asset) !in Ancestors(env, trail) by {
      forall n | n in nodes
        ensures Asked(n) <==> |trail| < MAX_DEPTH && Key(n.asset) !in Ancestors(env, trail)
      {
        assert Explains(env, trail, n);
      }
    }
    if |trail| < MAX_DEPTH {
      forall a | a in tokens && Key(a) !in Ancestors(env, trail)
        ensures Key(a) in AskedKeys(nodes)
      {
        var n :| n in nodes && n.asset == a;
      }
    }
  }

  lemma {:induction false} KeysOfTokens(tokens: seq<Asset>)
    requires AscendingBy(CodeOf, tokens)
    ensures |Keys(tokens)| == |tokens|
  {
    if tokens != [] {
      var front, a := tokens[..|tokens| - 1], tokens[|tokens| - 1];
      KeysOfTokens(front);
      if Key(a) in Keys(front) {
        var b :| b in front && Key(b) == Key(a);
        SameKey(a, b);
        LessIrreflexive(a.code);
      }
      assert tokens == front + [a];
      assert Keys(tokens) == Keys(front) + {Key(a)};
    }
  }

  /** The bound of `CallsAreBounded` is met: the corridor depends on all the tokens, by
      `TangledDependencies`, and measuring them takes m + m(m-1) + ... calls, five terms deep. */
  method MeasureTangled(reg: Registry, dest: Asset, tokens: seq<Asset>) returns (nodes: seq<Node>, calls: seq<seq<Asset>>)
    requires Sound(reg) && FiatTokens(reg, dest, tokens)
    ensures Assets(nodes) == tokens && ExplainsAll(Tangled(reg, dest, tokens), [], nodes)
    ensures calls == CallsUnder([], nodes) && |calls| == Fan(|tokens|, MAX_DEPTH)
  {
    var env := Tangled(reg, dest, tokens);
    nodes, calls := MeasureChain(env, [], tokens, {Key(dest)}, 0);
    AssetsMentioned(nodes);
    assert Assets(nodes) == tokens;
    assert Keys(tokens) - Ancestors(env, []) == Keys(tokens);
    KeysOfTokens(tokens);
    TangledCalls(env, tokens, [], nodes);
  }

  /** The stated bound, dependencies times depth, against the worst case. */
  lemma FanAgainstComment(m: nat)
    ensures Fan(m, MAX_DEPTH) <= m * MAX_DEPTH <==> m <= 3
    ensures Fan(4, MAX_DEPTH) == 64 && Fan(7, MAX_DEPTH) == 7 + 42 + 210 + 840 + 2520
  {
    assert Fan(3, 4) == 15 && Fan(6, 4) == 516;
    if m >= 4 {
      FanIsLarge(m);
    }
  }

  lemma FanIsLarge(m: nat)
    requires m >= 4
    ensures Fan(m, 5) > m * 5
  {
    var b, a := Fan(m - 2, 3), Fan(m - 1, 4);
    var inner := Fan(m - 3, 2);
    assert b == (m - 2) * (1 + inner) && a == (m - 1) * (1 + b) && Fan(m, 5) == m * (1 + a);
    hide Fan;
    MoreThan(m - 2, 1, 1 + inner);
    MoreThan(m - 1, 3, 1 + b);
    MoreThan(m, 10, 1 + a);
  }

  lemma MoreThan(x: nat, low: nat, y: nat)
    requires low <= y
    ensures x * low <= x * y
  {
  }

  /** With at most three fiat tokens besides the destination the stated bound holds, for
      every pathfinder and every corridor; from four on `MeasureTangled` exceeds it. */
  lemma CommentHoldsUpToThree(env: Env, nodes: seq<Node>, fiat: set<string>)
    requires ExplainsAll(env, [], nodes) && AscendingBy(NodeCode, nodes)
    requires HoldsFiat(env.reg, fiat) && forall n | n in nodes :: ClassifyHop(env.reg, n.asset) == Fiat
    requires |fiat - {Key(env.dest)}| <= 3
    ensures |CallsUnder([], nodes)| <= |nodes| * MAX_DEPTH
  {
    hide ClassifyHop, Key, CallsUnder, AscendingBy, Explains, IntegrityOf;
    assert Ancestors(env, []) == {Key(env.dest)};
    assert Fan(0, 4) == 0 && Fan(1, 4) == 1 && Fan(2, 4) == 4;
    forall n | n in nodes && Asked(n)
      ensures |CallsUnder([] + [n.asset], n.dependencies)| <= 4
    {
      AskedIsOpen(env, [], n);
      DependenciesAreFiat(env, [], n);
      AncestorsBelow(env, [], n.asset);
      assert fiat - Ancestors(env, [] + [n.asset]) == fiat - {Key(env.dest)} - {Key(n.asset)};
      CallsAreBounded(env, [] + [n.asset], n.dependencies, fiat);
    }
    CallsPerNode([], nodes, 4);
    FewerKeys(nodes);
    Corridor.Scale(|CallsUnder([], nodes)|, |AskedKeys(nodes)|, |nodes|, 5);
  }

  lemma {:induction false} FewerKeys(nodes: seq<Node>)
    ensures |AskedKeys(nodes)| <= |nodes|
  {
    if nodes != [] {
      var front, n := nodes[..|nodes| - 1], nodes[|nodes| - 1];
      assert nodes == front + [n];
      FewerKeys(front);
      assert AskedKeys(nodes) <= AskedKeys(front) + {Key(n.asset)};
      Subset(AskedKeys(nodes), AskedKeys(front) + {Key(n.asset)});
    }
  }

  /** A registration; what the other fields say does not matter here. */
  function Registration(code: Code): Entry { Entry(code, code, code, code, code, code, code) }

  /** A registry of four tokens for which four dependencies cost 64 calls, not 20. */
  method FourTokens() returns (nodes: seq<Node>, calls: seq<seq<Asset>>)
    ensures |nodes| == 4 && |calls| == 64 > |nodes| * MAX_DEPTH
  {
    var codes: seq<Code> := ["A", "B", "C", "D"];
    var es := seq(4, i requires 0 <= i < 4 => Registration(codes[i]));
    var tokens := seq(4, i requires 0 <= i < 4 => Asset(Stellar, codes[i], es[i].issuer));
    FourAreValid(codes, es);
    var reg, pegs := Index(es);
    assert Sound(reg);
    var dest := Asset(Stellar, "E", "elsewhere");
    assert FiatTokens(reg, dest, tokens) by { FourAreFiat(reg, dest, codes, es, tokens); }
    nodes, calls := MeasureTangled(reg, dest, tokens);
    assert |Assets(nodes)| == |nodes|;
    FanAgainstComment(4);
  }

  lemma FourAreValid(codes: seq<Code>, es: seq<Entry>)
    requires codes == ["A", "B", "C", "D"] && es == seq(4, i requires 0 <= i < 4 => Registration(codes[i]))
    ensures ValidRegistry(es)
  {
    hide ValidEntry;
    forall e | e in es
      ensures ValidEntry(e)
    {
      var i :| 0 <= i < 4 && es[i] == e;
      RegistrationIsValid(codes[i]);
    }
  }

  lemma RegistrationIsValid(code: Code)
    requires code != "" && !IsSpace(code[0]) && !IsSpace(code[|code| - 1])
    ensures ValidEntry(Registration(code))
  {
    assert code[0] in code;
  }

  lemma FourAreFiat(reg: Registry, dest: Asset, codes: seq<Code>, es: seq<Entry>, tokens: seq<Asset>)
    requires codes == ["A", "B", "C", "D"] && es == seq(4, i requires 0 <= i < 4 => Registration(codes[i]))
    requires tokens == seq(4, i requires 0 <= i < 4 => Asset(Stellar, codes[i], es[i].issuer))
    requires Indexes(reg, es) && dest == Asset(Stellar, "E", "elsewhere")
    ensures FiatTokens(reg, dest, tokens)
  {
    forall i | 0 <= i < 4
      ensures ClassifyHop(reg, tokens[i]) == Fiat && Key(tokens[i]) != Key(dest)
    {
      hide Key, EntryKey;
      var a := tokens[i];
      assert es[i] in es;
      NamesByKey(es[i], a);
      var j: nat :| LastUnder(es, Key(a), j) && reg[Key(a)] == es[j];
      assert codes[j] != "" && es[j].peg == codes[j];
      SameKey(a, dest);
    }
    hide ClassifyHop, Key, Indexes;
    assert AscendingBy(CodeOf, tokens) by { CodesAscend(codes, tokens); }
  }

  lemma CodesAscend(codes: seq<Code>, tokens: seq<Asset>)
    requires codes == ["A", "B", "C", "D"] && |tokens| == 4 && forall i | 0 <= i < 4 :: tokens[i].code == codes[i]
    ensures AscendingBy(CodeOf, tokens)
  {
  }
}
