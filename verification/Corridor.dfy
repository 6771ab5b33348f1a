/** The structure of a corridor: asset/known.go and route/route.go. */
module Corridor {
  import opened Results
  import opened Ordering
  import opened Strings

  // ----------------------------------------------------------------- registry

  datatype Kind = Stellar | OffChain

  /** A Stellar asset code is alphanumeric; that it has no colon is what makes the
      "code:issuer" keys of the source's maps mean something. */
  type Code = s: string | ':' !in s witness ""

  datatype Asset = Asset(kind: Kind, code: Code, issuer: string)
  {
    predicate IsNative() { kind == Stellar && code == "XLM" && issuer == "" }
  }

  datatype Entry = Entry(code: Code, issuer: string, peg: string, status: string, verificationDate: string,
                         sourceURL: string, homeDomain: string)

  function KeyOf(code: Code, issuer: string): string { code + ":" + issuer }

  function Key(a: Asset): string { KeyOf(a.code, a.issuer) }

  function CodeOf(a: Asset): string { a.code }

  /** A key determines code and issuer. */
  lemma {:induction false} KeyIsInjective(c: Code, i: string, d: Code, j: string)
    requires KeyOf(c, i) == KeyOf(d, j)
    ensures c == d && i == j
  {
    assert KeyOf(c, i)[|c|] == ':' && KeyOf(d, j)[|d|] == ':';
    assert forall k | 0 <= k < |c| :: KeyOf(c, i)[k] == c[k];
    assert forall k | 0 <= k < |d| :: KeyOf(d, j)[k] == d[k];
    assert |c| == |d|;
    assert c == KeyOf(c, i)[..|c|] && d == KeyOf(d, j)[..|d|];
    assert i == KeyOf(c, i)[|c| + 1..] && j == KeyOf(d, j)[|d| + 1..];
  }

  lemma SameKey(a: Asset, b: Asset)
    ensures Key(a) == Key(b) <==> a.code == b.code && a.issuer == b.issuer
  {
    if Key(a) == Key(b) {
      KeyIsInjective(a.code, a.issuer, b.code, b.issuer);
    }
  }

  /** `ValidateEntry`: every field is given, the peg by all but the settlement asset. */
  predicate ValidEntry(e: Entry) {
    && !Blank(e.code) && !Blank(e.issuer) && !Blank(e.status) && !Blank(e.verificationDate)
    && !Blank(e.sourceURL) && !Blank(e.homeDomain) && (e.code != "USDC" ==> !Blank(e.peg))
  }

  /** The texts an entry must give. */
  function Required(e: Entry): seq<string> {
    [e.code, e.issuer, e.status, e.verificationDate, e.sourceURL, e.homeDomain] + if e.code == "USDC" then [] else [e.peg]
  }

  lemma ValidEntryMeans(e: Entry)
    ensures ValidEntry(e) <==> forall i | 0 <= i < |Required(e)| :: exists c | c in Required(e)[i] :: !IsSpace(c)
  {
    hide IsSpace;
    var fs := Required(e);
    assert fs[0] == e.code && fs[1] == e.issuer && fs[2] == e.status && fs[3] == e.verificationDate;
    assert fs[4] == e.sourceURL && fs[5] == e.homeDomain && (e.code != "USDC" ==> fs[6] == e.peg);
    hide Required;
    assert forall s: string :: Blank(s) <==> forall c | c in s :: IsSpace(c);
  }

  predicate ValidRegistry(es: seq<Entry>) {
    && (forall e | e in es :: ValidEntry(e))
    && (forall e, f | e in es && f in es && e.code == f.code :: e.issuer == f.issuer)
  }

  /** `validateRegistry`: every entry is valid and no code has two issuers. */
  method ValidateRegistry(es: seq<Entry>) returns (ok: bool)
    ensures ok <==> ValidRegistry(es)
  {
    hide ValidEntry;
    var seen: map<Code, string> := map[];
    for i := 0 to |es|
      invariant forall k | 0 <= k < i :: ValidEntry(es[k]) && es[k].code in seen && seen[es[k].code] == es[k].issuer
      invariant forall c | c in seen :: exists k :: 0 <= k < i && es[k].code == c && es[k].issuer == seen[c]
    {
      var e := es[i];
      if !ValidEntry(e) {
        return false;
      }
      if e.code in seen && seen[e.code] != e.issuer {
        return false;
      }
      seen := seen[e.code := e.issuer];
    }
    return true;
  }

  type Registry = map<string, Entry>

  function EntryKey(e: Entry): string { KeyOf(e.code, e.issuer) }

  /** Of several entries under one key the last one counts. */
  predicate LastUnder(es: seq<Entry>, k: string, i: nat) {
    i < |es| && EntryKey(es[i]) == k && forall j | i < j < |es| :: EntryKey(es[j]) != k
  }

  ghost predicate Indexes(m: Registry, es: seq<Entry>) {
    && (forall e | e in es :: EntryKey(e) in m)
    && (forall k | k in m :: exists i: nat :: LastUnder(es, k, i) && m[k] == es[i])
  }

  /** The keys of which some entry gives a peg. */
  ghost predicate PegsOf(pegs: map<string, string>, es: seq<Entry>) {
    forall k :: k in pegs <==> PeggedUnder(es, k)
  }

  predicate PeggedUnder(es: seq<Entry>, k: string) { exists e | e in es :: EntryKey(e) == k && e.peg != "" }

  /** `init`: the entries by key, and the pegs by key. */
  method Index(es: seq<Entry>) returns (m: Registry, pegs: map<string, string>)
    ensures Indexes(m, es) && PegsOf(pegs, es)
  {
    m, pegs := map[], map[];
    for i := 0 to |es|
      invariant Indexes(m, es[..i]) && PegsOf(pegs, es[..i])
    {
      hide Indexes, PegsOf;
      assert es[..i + 1] == es[..i] + [es[i]];
      OneEntryMore(m, es[..i], es[i]);
      OnePegMore(pegs, es[..i], es[i]);
      m := m[EntryKey(es[i]) := es[i]];
      if es[i].peg != "" {
        pegs := pegs[EntryKey(es[i]) := es[i].peg];
      }
    }
    assert es[..|es|] == es;
  }

  lemma OneEntryMore(m: Registry, es: seq<Entry>, e: Entry)
    requires Indexes(m, es)
    ensures Indexes(m[EntryKey(e) := e], es + [e])
  {
    hide EntryKey;
    var all, next := es + [e], m[EntryKey(e) := e];
    assert LastUnder(all, EntryKey(e), |es|);
    forall k | k in next && k != EntryKey(e)
      ensures exists i: nat :: LastUnder(all, k, i) && next[k] == all[i]
    {
      var i: nat :| LastUnder(es, k, i) && m[k] == es[i];
      assert LastUnder(all, k, i) && all[i] == es[i];
    }
  }

  lemma OnePegMore(pegs: map<string, string>, es: seq<Entry>, e: Entry)
    requires PegsOf(pegs, es)
    ensures PegsOf(if e.peg != "" then pegs[EntryKey(e) := e.peg] else pegs, es + [e])
  {
    hide EntryKey;
    forall k
      ensures PeggedUnder(es + [e], k) <==> PeggedUnder(es, k) || (EntryKey(e) == k && e.peg != "")
    {
    }
    hide PeggedUnder;
  }

  datatype HopKind = Fiat | Bridge | Unregistered

  function ClassifyHop(reg: Registry, a: Asset): HopKind {
    if a.IsNative() then Bridge
    else if a.kind != Stellar || a.issuer == "" then Unregistered
    else if Key(a) !in reg then Unregistered
    else if reg[Key(a)].peg != "" then Fiat
    else Bridge
  }

  /** A registry that passed validation. */
  ghost predicate Sound(reg: Registry) { exists es :: ValidRegistry(es) && Indexes(reg, es) }

  /** The entry registers this asset: a Stellar token, by code and issuer. */
  predicate Names(e: Entry, a: Asset) {
    a.kind == Stellar && a.issuer != "" && e.code == a.code && e.issuer == a.issuer
  }

  predicate LastNaming(es: seq<Entry>, a: Asset, i: nat) {
    i < |es| && Names(es[i], a) && forall j | i < j < |es| :: !Names(es[j], a)
  }

  lemma NamesByKey(e: Entry, a: Asset)
    requires a.kind == Stellar && a.issuer != ""
    ensures Names(e, a) <==> EntryKey(e) == Key(a)
  {
    if EntryKey(e) == Key(a) {
      KeyIsInjective(e.code, e.issuer, a.code, a.issuer);
    }
  }

  /** What the three kinds of hop are, in terms of the list of registrations: a fiat token
      is one whose last entry gives a peg; a bridge is the native asset, or a token
      whose last entry gives none; whatever no entry names is unregistered. */
  lemma HopMeans(es: seq<Entry>, reg: Registry, a: Asset)
    requires Indexes(reg, es)
    ensures ClassifyHop(reg, a) == Fiat <==> exists i: nat :: LastNaming(es, a, i) && es[i].peg != ""
    ensures ClassifyHop(reg, a) == Bridge <==> a.IsNative() || exists i: nat :: LastNaming(es, a, i) && es[i].peg == ""
    ensures ClassifyHop(reg, a) == Unregistered <==> !a.IsNative() && forall e | e in es :: !Names(e, a)
  {
    hide Key, EntryKey;
    if a.kind == Stellar && a.issuer != "" {
      forall e
        ensures Names(e, a) <==> EntryKey(e) == Key(a)
      {
        NamesByKey(e, a);
      }
      hide Names;
      assert forall i: nat :: LastNaming(es, a, i) <==> LastUnder(es, Key(a), i);
    }
  }

  /** `IsFiatToken`, which looks in the other map. */
  predicate IsFiatToken(pegs: map<string, string>, a: Asset) {
    a.kind == Stellar && a.issuer != "" && Key(a) in pegs
  }

  predicate PeggedBySome(es: seq<Entry>, a: Asset) { exists e | e in es :: Names(e, a) && e.peg != "" }

  lemma FiatTokenMeans(es: seq<Entry>, pegs: map<string, string>, a: Asset)
    requires PegsOf(pegs, es)
    ensures IsFiatToken(pegs, a) <==> PeggedBySome(es, a)
  {
    hide Key, EntryKey;
    if a.kind == Stellar && a.issuer != "" {
      forall e
        ensures Names(e, a) <==> EntryKey(e) == Key(a)
      {
        NamesByKey(e, a);
      }
      hide Names;
      assert PeggedUnder(es, Key(a)) <==> PeggedBySome(es, a);
    }
  }

  /** Hops are classified as `IsFiatToken` says, which asks whether any entry gives the
      token a peg, unless the settlement asset is listed twice and only an earlier entry does. */
  lemma FiatHopIsFiatToken(es: seq<Entry>, reg: Registry, pegs: map<string, string>, a: Asset)
    requires ValidRegistry(es) && Indexes(reg, es) && PegsOf(pegs, es)
    ensures IsFiatToken(pegs, a) <==> PeggedBySome(es, a)
    ensures (ClassifyHop(reg, a) == Fiat <==> IsFiatToken(pegs, a))
       <==> !(a.code == "USDC" && PeggedBySome(es, a) && exists i: nat :: LastNaming(es, a, i) && es[i].peg == "")
  {
    HopMeans(es, reg, a);
    FiatTokenMeans(es, pegs, a);
    hide ClassifyHop, Indexes, PegsOf, IsFiatToken, ValidEntry;
    if PeggedBySome(es, a) {
      var e :| e in es && Names(e, a) && e.peg != "";
      var i := LastOne(es, a, e);
      assert forall j: nat | LastNaming(es, a, j) :: j == i;
      if a.code != "USDC" {
        OnlyUsdcUnpegged(es[i]);
      }
    }
  }

  lemma OnlyUsdcUnpegged(e: Entry)
    requires ValidEntry(e) && e.code != "USDC"
    ensures e.peg != ""
  {
  }

  lemma {:induction false} LastOne(es: seq<Entry>, a: Asset, e: Entry) returns (i: nat)
    requires e in es && Names(e, a)
    ensures LastNaming(es, a, i)
  {
    var front, last := es[..|es| - 1], es[|es| - 1];
    assert es == front + [last];
    if Names(last, a) {
      i := |es| - 1;
    } else {
      i := LastOne(front, a, e);
    }
  }

  /** Fiat tokens are told apart by their codes alone. */
  lemma CodeNamesFiatToken(reg: Registry, a: Asset, b: Asset)
    requires Sound(reg) && ClassifyHop(reg, a) == Fiat && ClassifyHop(reg, b) == Fiat && a.code == b.code
    ensures a == b
  {
    var es :| ValidRegistry(es) && Indexes(reg, es);
    HopMeans(es, reg, a);
    HopMeans(es, reg, b);
  }

  // ----------------------------------------------------------- classification

  datatype Integrity = Unknown | Direct | Derivative | NoMarket

  datatype Path = Path(hops: seq<Asset>, destAmount: real)

  /** A hop through a fiat token other than the destination itself. */
  predicate FiatHop(reg: Registry, dest: Asset, h: Asset) {
    Key(h) != Key(dest) && ClassifyHop(reg, h) == Fiat
  }

  predicate UnknownHop(reg: Registry, dest: Asset, h: Asset) {
    Key(h) != Key(dest) && ClassifyHop(reg, h) == Unregistered
  }

  predicate Independent(reg: Registry, dest: Asset, p: Path) {
    forall h | h in p.hops :: !FiatHop(reg, dest, h)
  }

  /** What the three classes mean: no path at all, some path that needs no other fiat
      token, or every path needing one. */
  function IntegrityOf(reg: Registry, dest: Asset, paths: seq<Path>): Integrity {
    if paths == [] then NoMarket
    else if exists p | p in paths :: Independent(reg, dest, p) then Direct
    else Derivative
  }

  predicate FiatHopOfSome(reg: Registry, dest: Asset, paths: seq<Path>, h: Asset) {
    exists p | p in paths :: h in p.hops && FiatHop(reg, dest, h)
  }

  predicate UnknownHopOfSome(reg: Registry, dest: Asset, paths: seq<Path>, h: Asset) {
    exists p | p in paths :: h in p.hops && UnknownHop(reg, dest, h)
  }

  /** The tokens a derivative corridor depends on: every fiat hop of every path. */
  predicate DependsOn(reg: Registry, dest: Asset, paths: seq<Path>, h: Asset) {
    IntegrityOf(reg, dest, paths) == Derivative && FiatHopOfSome(reg, dest, paths, h)
  }

  /** Maps of assets by their own keys; in `seen`, fiat tokens only. */
  predicate Keyed(m: map<string, Asset>) { forall k | k in m :: Key(m[k]) == k }

  predicate KeyedFiat(reg: Registry, m: map<string, Asset>) {
    Keyed(m) && forall k | k in m :: ClassifyHop(reg, m[k]) == Fiat
  }

  ghost predicate FiatHopsOf(reg: Registry, dest: Asset, hops: seq<Asset>, before: set<Asset>, now: set<Asset>) {
    forall h :: h in now <==> h in before || (h in hops && FiatHop(reg, dest, h))
  }

  /** Every new member is an unknown hop, and every unknown hop's key is there. */
  predicate UnknownHopsOf(reg: Registry, dest: Asset, hops: seq<Asset>, before: map<string, Asset>, now: map<string, Asset>) {
    && (forall h | h in now.Values :: h in before.Values || (h in hops && UnknownHop(reg, dest, h)))
    && (forall h | h in hops && UnknownHop(reg, dest, h) :: Key(h) in now)
    && before.Keys <= now.Keys
  }

  /** One path's hops, added to what earlier paths contributed. */
  method ClassifyPath(reg: Registry, dest: Asset, p: Path, seen0: map<string, Asset>, unknown0: map<string, Asset>)
    returns (fiatHops: nat, seen: map<string, Asset>, unknown: map<string, Asset>)
    requires KeyedFiat(reg, seen0) && Keyed(unknown0) && Sound(reg)
    ensures fiatHops == 0 <==> Independent(reg, dest, p)
    ensures KeyedFiat(reg, seen) && FiatHopsOf(reg, dest, p.hops, seen0.Values, seen.Values)
    ensures Keyed(unknown) && UnknownHopsOf(reg, dest, p.hops, unknown0, unknown)
  {
    hide Sound, Key;
    fiatHops, seen, unknown := 0, seen0, unknown0;
    for i := 0 to |p.hops|
      invariant fiatHops == 0 <==> forall h | h in p.hops[..i] :: !FiatHop(reg, dest, h)
      invariant KeyedFiat(reg, seen) && FiatHopsOf(reg, dest, p.hops[..i], seen0.Values, seen.Values)
      invariant Keyed(unknown) && UnknownHopsOf(reg, dest, p.hops[..i], unknown0, unknown)
    {
      hide Sound, ClassifyHop, KeyedFiat, Keyed, FiatHopsOf, UnknownHopsOf;
      var h := p.hops[i];
      assert p.hops[..i + 1] == p.hops[..i] + [h];
      SameKey(h, dest);
      AddHop(reg, dest, p.hops[..i], h, seen0, seen, unknown0, unknown);
      if h.code == dest.code && h.issuer == dest.issuer {
        continue;
      }
      match ClassifyHop(reg, h)
      case Fiat =>
        fiatHops := fiatHops + 1;
        seen := seen[Key(h) := h];
      case Bridge =>
      case Unregistered =>
        unknown := unknown[Key(h) := h];
    }
    assert p.hops[..|p.hops|] == p.hops;
  }

  lemma AddHop(reg: Registry, dest: Asset, hops: seq<Asset>, h: Asset,
               seen0: map<string, Asset>, seen: map<string, Asset>, unknown0: map<string, Asset>, unknown: map<string, Asset>)
    requires Sound(reg) && KeyedFiat(reg, seen) && Keyed(unknown)
    requires FiatHopsOf(reg, dest, hops, seen0.Values, seen.Values)
    requires UnknownHopsOf(reg, dest, hops, unknown0, unknown)
    ensures if FiatHop(reg, dest, h)
            then KeyedFiat(reg, seen[Key(h) := h]) && FiatHopsOf(reg, dest, hops + [h], seen0.Values, seen[Key(h) := h].Values)
            else FiatHopsOf(reg, dest, hops + [h], seen0.Values, seen.Values)
    ensures if UnknownHop(reg, dest, h)
            then Keyed(unknown[Key(h) := h]) && UnknownHopsOf(reg, dest, hops + [h], unknown0, unknown[Key(h) := h])
            else UnknownHopsOf(reg, dest, hops + [h], unknown0, unknown)
  {
    hide Sound, ClassifyHop, Key;
    if FiatHop(reg, dest, h) {
      AddFiat(reg, seen, h);
    }
  }

  /** Recording a fiat hop never displaces another. */
  lemma AddFiat(reg: Registry, seen: map<string, Asset>, h: Asset)
    requires Sound(reg) && ClassifyHop(reg, h) == Fiat && KeyedFiat(reg, seen)
    ensures seen[Key(h) := h].Values == seen.Values + {h}
  {
    hide Sound, ClassifyHop, Key;
    var next := seen[Key(h) := h];
    if Key(h) in seen {
      SameKey(seen[Key(h)], h);
      CodeNamesFiatToken(reg, seen[Key(h)], h);
    }
    forall x | x in seen.Values + {h}
      ensures x in next.Values
    {
      if x in seen.Values {
        var k :| k in seen && seen[k] == x;
        assert next[k] == x;
      } else {
        assert next[Key(h)] == h;
      }
    }
    forall x | x in next.Values
      ensures x in seen.Values + {h}
    {
      var k :| k in next && next[k] == x;
    }
  }

  method ClassifyPaths(reg: Registry, dest: Asset, paths: seq<Path>)
    returns (independent: bool, seen: map<string, Asset>, strangers: map<string, Asset>)
    requires Sound(reg)
    ensures independent <==> exists p | p in paths :: Independent(reg, dest, p)
    ensures forall h :: h in seen.Values <==> FiatHopOfSome(reg, dest, paths, h)
    ensures KeyedFiat(reg, seen) && Keyed(strangers)
    ensures forall h | h in strangers.Values :: UnknownHopOfSome(reg, dest, paths, h)
    ensures forall h | UnknownHopOfSome(reg, dest, paths, h) :: Key(h) in strangers
  {
    hide Sound, ClassifyHop;
    seen, strangers, independent := map[], map[], false;
    for i := 0 to |paths|
      invariant independent <==> exists p | p in paths[..i] :: Independent(reg, dest, p)
      invariant KeyedFiat(reg, seen) && Keyed(strangers)
      invariant forall h :: h in seen.Values <==> FiatHopOfSome(reg, dest, paths[..i], h)
      invariant forall h | h in strangers.Values :: UnknownHopOfSome(reg, dest, paths[..i], h)
      invariant forall h | UnknownHopOfSome(reg, dest, paths[..i], h) :: Key(h) in strangers
    {
      assert paths[..i + 1] == paths[..i] + [paths[i]];
      OnePathMore(reg, dest, paths[..i], paths[i]);
      hide FiatHopOfSome, UnknownHopOfSome, Independent, Key;
      var fiatHops;
      fiatHops, seen, strangers := ClassifyPath(reg, dest, paths[i], seen, strangers);
      if fiatHops == 0 {
        independent := true;
      }
    }
    assert paths[..|paths|] == paths;
  }

  lemma OnePathMore(reg: Registry, dest: Asset, paths: seq<Path>, p: Path)
    ensures (exists q | q in paths + [p] :: Independent(reg, dest, q))
       <==> (exists q | q in paths :: Independent(reg, dest, q)) || Independent(reg, dest, p)
    ensures forall h :: FiatHopOfSome(reg, dest, paths + [p], h)
                   <==> FiatHopOfSome(reg, dest, paths, h) || (h in p.hops && FiatHop(reg, dest, h))
    ensures forall h :: UnknownHopOfSome(reg, dest, paths + [p], h)
                   <==> UnknownHopOfSome(reg, dest, paths, h) || (h in p.hops && UnknownHop(reg, dest, h))
  {
  }

  predicate DistinctByKey(xs: seq<Asset>) { forall i, j | 0 <= i < j < |xs| :: Key(xs[i]) != Key(xs[j]) }

  predicate HasKey(xs: seq<Asset>, key: string) { exists i | 0 <= i < |xs| :: Key(xs[i]) == key }

  ghost predicate FiatToken(es: seq<Entry>, a: Asset) { exists i: nat :: LastNaming(es, a, i) && es[i].peg != "" }

  predicate Unlisted(es: seq<Entry>, a: Asset) { !a.IsNative() && forall e | e in es :: !Names(e, a) }

  /** A registered fiat token other than the destination. */
  ghost predicate OtherFiat(es: seq<Entry>, dest: Asset, h: Asset) {
    FiatToken(es, h) && !(h.code == dest.code && h.issuer == dest.issuer)
  }

  /** The answer, in terms of the paths and the list of registrations alone. */
  ghost predicate Answers(es: seq<Entry>, dest: Asset, paths: seq<Path>, integrity: Integrity, deps: seq<Asset>, unknown: seq<Asset>) {
    && (integrity == NoMarket <==> paths == [])
    && (integrity == Direct <==> exists p | p in paths :: forall h | h in p.hops :: !OtherFiat(es, dest, h))
    && (integrity == Derivative <==> paths != [] && forall p | p in paths :: exists h | h in p.hops :: OtherFiat(es, dest, h))
    && (forall h :: h in deps <==> integrity == Derivative && exists p | p in paths :: h in p.hops && OtherFiat(es, dest, h))
    && (forall h | h in unknown :: Unlisted(es, h) && exists p | p in paths :: h in p.hops)
    && (forall p, h | p in paths && h in p.hops && Unlisted(es, h) && !(h.code == dest.code && h.issuer == dest.issuer) ::
          HasKey(unknown, Key(h)))
  }

  lemma AnswersFollow(reg: Registry, dest: Asset, paths: seq<Path>, integrity: Integrity, deps: seq<Asset>, unknown: seq<Asset>)
    requires integrity == IntegrityOf(reg, dest, paths)
    requires forall h :: h in deps <==> DependsOn(reg, dest, paths, h)
    requires forall h | h in unknown :: UnknownHopOfSome(reg, dest, paths, h)
    requires forall h | UnknownHopOfSome(reg, dest, paths, h) :: HasKey(unknown, Key(h))
    ensures forall es | Indexes(reg, es) :: Answers(es, dest, paths, integrity, deps, unknown)
  {
    forall es | Indexes(reg, es)
      ensures Answers(es, dest, paths, integrity, deps, unknown)
    {
      forall h
        ensures FiatHop(reg, dest, h) <==> OtherFiat(es, dest, h)
        ensures UnknownHop(reg, dest, h) <==> Unlisted(es, h) && !(h.code == dest.code && h.issuer == dest.issuer)
      {
        HopMeans(es, reg, h);
        SameKey(h, dest);
      }
      hide Indexes, OtherFiat, FiatHop, UnknownHop, Unlisted, HasKey, Key;
    }
  }

  /** `classify`, against the meaning of its three answers. */
  method Classify(reg: Registry, dest: Asset, paths: seq<Path>)
    returns (integrity: Integrity, deps: seq<Asset>, unknown: seq<Asset>)
    requires Sound(reg)
    ensures integrity == IntegrityOf(reg, dest, paths)
    ensures AscendingBy(CodeOf, deps)
    ensures forall h :: h in deps <==> DependsOn(reg, dest, paths, h)
    ensures integrity == Derivative <==> deps != []
    ensures NonDescendingBy(CodeOf, unknown)
    ensures forall h | h in unknown :: UnknownHopOfSome(reg, dest, paths, h)
    ensures forall h | UnknownHopOfSome(reg, dest, paths, h) :: HasKey(unknown, Key(h))
    ensures DistinctByKey(unknown)
    ensures forall es | Indexes(reg, es) :: Answers(es, dest, paths, integrity, deps, unknown)
  {
    hide Answers;
    if |paths| == 0 {
      AnswersFollow(reg, dest, paths, NoMarket, [], []);
      return NoMarket, [], [];
    }
    var independent, seen, strangers := ClassifyPaths(reg, dest, paths);
    unknown := ListUnknown(reg, dest, paths, strangers);
    if independent {
      AnswersFollow(reg, dest, paths, Direct, [], unknown);
      return Direct, [], unknown;
    }
    assert DistinctKeys(CodeOf, seen.Values) by {
      forall a, b | a in seen.Values && b in seen.Values && CodeOf(a) == CodeOf(b)
        ensures a == b
      {
        CodeNamesFiatToken(reg, a, b);
      }
    }
    deps := ListBy(CodeOf, seen.Values);
    integrity := Derivative;
    DerivativeHasDeps(reg, dest, paths, deps);
    AnswersFollow(reg, dest, paths, integrity, deps, unknown);
  }

  lemma DerivativeHasDeps(reg: Registry, dest: Asset, paths: seq<Path>, deps: seq<Asset>)
    requires IntegrityOf(reg, dest, paths) == Derivative
    requires forall h :: h in deps <==> FiatHopOfSome(reg, dest, paths, h)
    ensures deps != []
  {
    assert paths[0] in paths && !Independent(reg, dest, paths[0]);
    var h :| h in paths[0].hops && FiatHop(reg, dest, h);
    assert h in deps;
  }

  method ListUnknown(reg: Registry, dest: Asset, paths: seq<Path>, strangers: map<string, Asset>) returns (unknown: seq<Asset>)
    requires Keyed(strangers)
    requires forall h | h in strangers.Values :: UnknownHopOfSome(reg, dest, paths, h)
    requires forall h | UnknownHopOfSome(reg, dest, paths, h) :: Key(h) in strangers
    ensures NonDescendingBy(CodeOf, unknown)
    ensures forall h | h in unknown :: UnknownHopOfSome(reg, dest, paths, h)
    ensures forall h | UnknownHopOfSome(reg, dest, paths, h) :: HasKey(unknown, Key(h))
    ensures DistinctByKey(unknown)
  {
    unknown := ListTied(CodeOf, strangers.Values);
    ListingIsFaithful(strangers, unknown);
  }

  lemma ListingIsFaithful(m: map<string, Asset>, xs: seq<Asset>)
    requires Keyed(m) && multiset(xs) == multiset(m.Values)
    ensures forall h :: h in xs <==> h in m.Values
    ensures forall k | k in m :: HasKey(xs, k)
    ensures DistinctByKey(xs)
  {
    hide Key;
    assert forall h :: h in xs <==> h in multiset(xs);
    forall i, j | 0 <= i < j < |xs|
      ensures Key(xs[i]) != Key(xs[j])
    {
      OnceEach(xs, m.Values, i, j);
      assert xs[i] in multiset(xs) && xs[j] in multiset(xs);
      assert xs[i] in m.Values && xs[j] in m.Values;
    }
    forall k | k in m
      ensures HasKey(xs, k)
    {
      assert m[k] in xs;
    }
  }

  lemma OnceEach<T>(xs: seq<T>, s: set<T>, i: nat, j: nat)
    requires multiset(xs) == multiset(s) && i < j < |xs|
    ensures xs[i] != xs[j]
  {
    var front := xs[..j];
    assert xs == front + [xs[j]] + xs[j + 1..];
    assert front[i] == xs[i];
    assert multiset(front)[xs[i]] >= 1;
    assert multiset(xs) == multiset(front) + multiset{xs[j]} + multiset(xs[j + 1..]);
    assert multiset(s)[xs[j]] <= 1;
  }

  // -------------------------------------------------------- dependency chains

  const MAX_DEPTH := 5

  datatype Reason = DepthCap | Cycle | FinderError(message: string)

  /** `DependencyNode`. An unmeasured node says why it is not measured. */
  datatype Node = Node(asset: Asset, integrity: Integrity, measured: bool, reason: Option<Reason>, dependencies: seq<Node>)

  function Unmeasured(a: Asset, why: Reason): Node { Node(a, Unknown, false, Some(why), []) }

  function NodeCode(n: Node): string { n.asset.code }

  /** What stays fixed while one chain is measured. The pathfinder may answer as it
      likes and differently each time; what it answers is indexed by the assets from
      the corridor's dependency down to the one asked about, and `CallsAreDistinct`
      shows that no two calls of a run share that index. */
  datatype Env = Env(reg: Registry, dest: Asset, finder: seq<Asset> -> Result<seq<Path>, string>)

  /** The keys already on the way from the destination down `trail`. */
  function Ancestors(env: Env, trail: seq<Asset>): set<string> {
    {Key(env.dest)} + set a | a in trail :: Key(a)
  }

  /** What a node must say, given where in the tree it stands. */
  ghost predicate Explains(env: Env, trail: seq<Asset>, n: Node)
    decreases n
  {
    if |trail| >= MAX_DEPTH then n == Unmeasured(n.asset, DepthCap)
    else if Key(n.asset) in Ancestors(env, trail) then n == Unmeasured(n.asset, Cycle)
    else
      match env.finder(trail + [n.asset])
      case Err(e) => n == Unmeasured(n.asset, FinderError(e))
      case Ok(paths) =>
        && n.measured && n.reason == None
        && n.integrity == IntegrityOf(env.reg, n.asset, paths)
        && AscendingBy(NodeCode, n.dependencies)
        && (forall a :: MentionsAsset(n.dependencies, a) <==> DependsOn(env.reg, n.asset, paths, a))
        && (forall d | d in n.dependencies :: Explains(env, trail + [n.asset], d))
  }

  /** The questions put to the pathfinder for a forest of nodes, in order. */
  function CallsUnder(trail: seq<Asset>, nodes: seq<Node>): seq<seq<Asset>>
    decreases nodes
  {
    if nodes == [] then []
    else
      var front, n := nodes[..|nodes| - 1], nodes[|nodes| - 1];
      var here := trail + [n.asset];
      CallsUnder(trail, front)
      + (if n.reason == Some(DepthCap) || n.reason == Some(Cycle) then [] else [here] + CallsUnder(here, n.dependencies))
  }

  /** `measureChain`. The log of calls is what the pathfinder sees of it. */
  method MeasureChain(env: Env, trail: seq<Asset>, deps: seq<Asset>, ancestors: set<string>, depth: nat)
    returns (nodes: seq<Node>, calls: seq<seq<Asset>>)
    requires Sound(env.reg) && AscendingBy(CodeOf, deps)
    requires ancestors == Ancestors(env, trail) && depth == |trail|
    ensures |nodes| == |deps| && forall i | 0 <= i < |nodes| :: nodes[i].asset == deps[i]
    ensures forall n | n in nodes :: Explains(env, trail, n)
    ensures calls == CallsUnder(trail, nodes)
    decreases MAX_DEPTH - depth
  {
    nodes, calls := [], [];
    if depth >= MAX_DEPTH {
      nodes := CapAll(trail, deps);
      return;
    }
    hide Sound, Explains, Ancestors, CallsUnder;
    for i := 0 to |deps|
      invariant |nodes| == i && forall k | 0 <= k < i :: nodes[k].asset == deps[k]
      invariant forall n | n in nodes :: Explains(env, trail, n)
      invariant calls == CallsUnder(trail, nodes)
    {
      var node, asked := MeasureOne(env, trail, deps[i], ancestors, depth);
      nodes, calls := nodes + [node], calls + asked;
    }
    SortOfSorted(NodeCode, nodes);
    nodes := SortBy(NodeCode, nodes);
  }

  method CapAll(trail: seq<Asset>, deps: seq<Asset>) returns (nodes: seq<Node>)
    ensures |nodes| == |deps| && forall i | 0 <= i < |nodes| :: nodes[i] == Unmeasured(deps[i], DepthCap)
    ensures CallsUnder(trail, nodes) == []
  {
    nodes := [];
    for i := 0 to |deps|
      invariant |nodes| == i && forall k | 0 <= k < i :: nodes[k] == Unmeasured(deps[k], DepthCap)
      invariant CallsUnder(trail, nodes) == []
    {
      nodes := nodes + [Unmeasured(deps[i], DepthCap)];
    }
  }

  /** The body of the loop of `measureChain`. */
  method MeasureOne(env: Env, trail: seq<Asset>, dep: Asset, ancestors: set<string>, depth: nat)
    returns (node: Node, calls: seq<seq<Asset>>)
    requires Sound(env.reg) && depth < MAX_DEPTH
    requires ancestors == Ancestors(env, trail) && depth == |trail|
    ensures node.asset == dep && Explains(env, trail, node)
    ensures calls == CallsUnder(trail, [node])
    decreases MAX_DEPTH - depth, 0
  {
    hide Sound, IntegrityOf, DependsOn, Ancestors, CallsUnder, Key, UnknownHopOfSome, NonDescendingBy, DistinctByKey;
    var here := trail + [dep];
    CallsOfOne(trail);
    if Key(dep) in ancestors {
      return Unmeasured(dep, Cycle), [];
    }
    match env.finder(here)
    case Err(e) =>
      return Unmeasured(dep, FinderError(e)), [here];
    case Ok(paths) =>
      var integrity, deps, _ := Classify(env.reg, dep, paths);
      node, calls := Node(dep, integrity, true, None, []), [here];
      if integrity == Derivative && |deps| > 0 {
        AncestorsBelow(env, trail, dep);
        var below, asked := MeasureChain(env, here, deps, ancestors + {Key(dep)}, depth + 1);
        assert forall a :: MentionsAsset(below, a) <==> a in deps;
        node, calls := node.(dependencies := below), calls + asked;
      }
  }

  lemma AncestorsBelow(env: Env, trail: seq<Asset>, a: Asset)
    ensures Ancestors(env, trail + [a]) == Ancestors(env, trail) + {Key(a)}
  {
  }

  lemma CallsOfOne(trail: seq<Asset>)
    ensures forall t :: CallsUnder(t, []) == []
    ensures forall n: Node :: CallsUnder(trail, [n])
                == if n.reason == Some(DepthCap) || n.reason == Some(Cycle) then []
                   else [trail + [n.asset]] + CallsUnder(trail + [n.asset], n.dependencies)
  {
  }

  // ------------------------------------------------------------- what trees say

  function Assets(nodes: seq<Node>): seq<Asset> { seq(|nodes|, i requires 0 <= i < |nodes| => nodes[i].asset) }

  /** A way from a root of the forest down to some node. */
  predicate Branch(nodes: seq<Node>, b: seq<Node>)
    decreases |b|
  {
    b != [] && b[0] in nodes && (|b| > 1 ==> Branch(b[0].dependencies, b[1..]))
  }

  ghost predicate ExplainsAll(env: Env, trail: seq<Asset>, nodes: seq<Node>) {
    forall n | n in nodes :: Explains(env, trail, n)
  }

  lemma {:induction false} BranchIsExplained(env: Env, trail: seq<Asset>, nodes: seq<Node>, b: seq<Node>, k: nat)
    requires ExplainsAll(env, trail, nodes) && Branch(nodes, b) && k < |b|
    ensures Explains(env, trail + Assets(b[..k]), b[k])
    ensures k + 1 < |b| ==> b[k].measured && b[k + 1] in b[k].dependencies
    decreases k
  {
    hide Ancestors, IntegrityOf, DependsOn, AscendingBy, Key, MentionsAsset;
    if k == 0 {
      assert trail + Assets(b[..0]) == trail;
    } else {
      var here := trail + [b[0].asset];
      BranchIsExplained(env, here, b[0].dependencies, b[1..], k - 1);
      assert here + Assets(b[1..][..k - 1]) == trail + Assets(b[..k]);
    }
  }

  /** Every node of a measured chain, whatever the pathfinder answered: how deep it can
      stand, and what it says for each of the four ways measuring it can end. */
  lemma EveryNodeIsAccountedFor(env: Env, nodes: seq<Node>, b: seq<Node>)
    requires ExplainsAll(env, [], nodes) && Branch(nodes, b)
    ensures var k := |b| - 1;
            var n, above := b[k], Assets(b[..k]);
            && k <= MAX_DEPTH
            && (n.reason == Some(DepthCap) <==> k == MAX_DEPTH)
            && (n.reason == Some(Cycle) <==> k < MAX_DEPTH && Key(n.asset) in Ancestors(env, above))
            && (n.measured <==> k < MAX_DEPTH && Key(n.asset) !in Ancestors(env, above) && env.finder(above + [n.asset]).Ok?)
            && (n.measured ==> n.integrity == IntegrityOf(env.reg, n.asset, env.finder(above + [n.asset]).value))
            && (!n.measured ==> n.integrity == Unknown && n.dependencies == [])
  {
    var k := |b| - 1;
    BranchIsExplained(env, [], nodes, b, k);
    assert [] + Assets(b[..k]) == Assets(b[..k]);
    if k > 0 {
      BranchIsExplained(env, [], nodes, b, k - 1);
      assert |[] + Assets(b[..k - 1])| == k - 1;
    }
  }

  /** On the way down, measured assets are all different, and none is the destination. */
  lemma MeasuredAreDistinct(env: Env, nodes: seq<Node>, b: seq<Node>, i: nat, j: nat)
    requires ExplainsAll(env, [], nodes) && Branch(nodes, b)
    requires i < j < |b| && b[j].measured
    ensures b[i].measured && Key(b[i].asset) != Key(b[j].asset)
    ensures Key(b[j].asset) != Key(env.dest) && Key(b[i].asset) != Key(env.dest)
  {
    BranchIsExplained(env, [], nodes, b, i);
    BranchIsExplained(env, [], nodes, b, j);
    assert Assets(b[..j])[i] == b[i].asset;
    assert b[i].asset in [] + Assets(b[..j]);
  }

  /** What is measured follows from the pathfinder's answers alone. */
  lemma {:induction false} TreeIsDetermined(env: Env, trail: seq<Asset>, m: Node, n: Node)
    requires Explains(env, trail, m) && Explains(env, trail, n) && m.asset == n.asset
    requires Sound(env.reg)
    ensures m == n
    decreases m
  {
    if m.measured {
      var here := trail + [m.asset];
      assert m.dependencies == n.dependencies by {
        SameAssets(m.dependencies, n.dependencies);
        forall i | 0 <= i < |m.dependencies|
          ensures m.dependencies[i] == n.dependencies[i]
        {
          assert m.dependencies[i] in m.dependencies && n.dependencies[i] in n.dependencies;
          TreeIsDetermined(env, here, m.dependencies[i], n.dependencies[i]);
        }
      }
    }
  }

  predicate MentionsAsset(nodes: seq<Node>, a: Asset) { exists n | n in nodes :: n.asset == a }

  lemma AssetsMentioned(xs: seq<Node>)
    ensures forall a :: a in Assets(xs) <==> MentionsAsset(xs, a)
  {
    forall n | n in xs
      ensures n.asset in Assets(xs)
    {
      var i :| 0 <= i < |xs| && xs[i] == n;
      assert Assets(xs)[i] == n.asset;
    }
    forall a | a in Assets(xs)
      ensures MentionsAsset(xs, a)
    {
      var i :| 0 <= i < |xs| && Assets(xs)[i] == a;
      assert xs[i] in xs && xs[i].asset == a;
    }
  }

  lemma SameAssets(xs: seq<Node>, ys: seq<Node>)
    requires AscendingBy(NodeCode, xs) && AscendingBy(NodeCode, ys)
    requires forall a :: MentionsAsset(xs, a) <==> MentionsAsset(ys, a)
    ensures |xs| == |ys| && forall i | 0 <= i < |xs| :: xs[i].asset == ys[i].asset
  {
    var p, q := Assets(xs), Assets(ys);
    assert AscendingBy(CodeOf, p) && AscendingBy(CodeOf, q);
    AssetsMentioned(xs);
    AssetsMentioned(ys);
    AscendingIsUnique(CodeOf, p, q);
    assert forall i | 0 <= i < |xs| :: p[i] == xs[i].asset && q[i] == ys[i].asset;
  }

  lemma BranchesOfOneMore(front: seq<Node>, n: Node)
    ensures forall b | Branch(front + [n], b) ::
              Branch(front, b) || (b[0] == n && (|b| > 1 ==> Branch(n.dependencies, b[1..])))
    ensures forall b | Branch(front, b) :: Branch(front + [n], b)
  {
  }

  lemma BranchThrough(front: seq<Node>, n: Node, below: seq<Node>)
    requires below == [] || Branch(n.dependencies, below)
    ensures Branch(front + [n], [n] + below)
  {
  }

  ghost predicate DepthWithin(nodes: seq<Node>, depth: nat) { forall b | Branch(nodes, b) :: |b| <= depth }

  lemma DepthOfOneMore(front: seq<Node>, n: Node, depth: nat, below: nat)
    requires DepthWithin(front, depth) && DepthWithin(n.dependencies, below)
    ensures DepthWithin(front + [n], if below + 1 > depth then below + 1 else depth)
    ensures forall b | Branch(front, b) :: Branch(front + [n], b)
  {
  }

  /** `chainDepth` is the length of the longest way down. */
  method ChainDepth(nodes: seq<Node>) returns (depth: nat)
    ensures DepthWithin(nodes, depth)
    ensures depth > 0 <==> nodes != []
    ensures depth > 0 ==> exists b :: Branch(nodes, b) && |b| == depth
    decreases nodes
  {
    depth := 0;
    ghost var deepest := [];
    for i := 0 to |nodes|
      invariant DepthWithin(nodes[..i], depth)
      invariant depth > 0 <==> i > 0
      invariant depth > 0 ==> Branch(nodes[..i], deepest) && |deepest| == depth
    {
      hide Branch, DepthWithin;
      var n := nodes[i];
      assert nodes[..i + 1] == nodes[..i] + [n];
      var d := ChainDepth(n.dependencies);
      ghost var below := if d > 0 then var b :| Branch(n.dependencies, b) && |b| == d; b else [];
      DepthOfOneMore(nodes[..i], n, depth, d);
      BranchThrough(nodes[..i], n, below);
      if d + 1 > depth {
        depth, deepest := d + 1, [n] + below;
      }
    }
    assert nodes[..|nodes|] == nodes;
  }

  lemma BranchFrom(nodes: seq<Node>, i: nat, below: seq<Node>)
    requires i < |nodes| && (below == [] || Branch(nodes[i].dependencies, below))
    ensures Branch(nodes, [nodes[i]] + below) && ([nodes[i]] + below)[|below|] == ([nodes[i]] + below)[|[nodes[i]] + below| - 1]
    ensures below != [] ==> ([nodes[i]] + below)[|below|] == below[|below| - 1]
  {
    assert ([nodes[i]] + below)[1..] == below;
  }

  /** `allMeasured` asks it of every node in the forest. */
  method AllMeasured(nodes: seq<Node>) returns (ok: bool)
    ensures ok <==> forall b: seq<Node> | Branch(nodes, b) :: b[|b| - 1].measured
    decreases nodes
  {
    for i := 0 to |nodes|
      invariant forall b: seq<Node> | Branch(nodes[..i], b) :: b[|b| - 1].measured
    {
      var n := nodes[i];
      assert nodes[..i + 1] == nodes[..i] + [n];
      BranchesOfOneMore(nodes[..i], n);
      if !n.measured {
        BranchFrom(nodes, i, []);
        return false;
      }
      var below := AllMeasured(n.dependencies);
      if !below {
        ghost var b: seq<Node> :| Branch(n.dependencies, b) && !b[|b| - 1].measured;
        BranchFrom(nodes, i, b);
        return false;
      }
    }
    assert nodes[..|nodes|] == nodes;
    return true;
  }

  /** So a measured chain is at most six deep. */
  lemma ChainIsShallow(env: Env, nodes: seq<Node>, b: seq<Node>)
    requires ExplainsAll(env, [], nodes) && Branch(nodes, b)
    ensures |b| <= 6
  {
    EveryNodeIsAccountedFor(env, nodes, b);
  }

  // -------------------------------------------------------------------- calls

  /** A call names a way down through different assets, none the destination. */
  predicate Simple(env: Env, from: nat, c: seq<Asset>) {
    |c| <= MAX_DEPTH && forall i | from <= i < |c| :: Key(c[i]) !in Ancestors(env, c[..i])
  }

  predicate Extends(trail: seq<Asset>, nodes: seq<Node>, c: seq<Asset>) {
    |trail| < |c| && trail == c[..|trail|] && MentionsAsset(nodes, c[|trail|])
  }

  predicate Distinct<T(==)>(xs: seq<T>) { forall i, j | 0 <= i < j < |xs| :: xs[i] != xs[j] }

  lemma {:induction false} CallsUnderAreSimple(env: Env, trail: seq<Asset>, nodes: seq<Node>)
    requires ExplainsAll(env, trail, nodes) && AscendingBy(NodeCode, nodes)
    ensures SimpleBelow(env, trail, nodes, CallsUnder(trail, nodes))
    ensures Distinct(CallsUnder(trail, nodes))
    decreases nodes
  {
    if nodes != [] {
      var front, n := nodes[..|nodes| - 1], nodes[|nodes| - 1];
      assert nodes == front + [n];
      CallsUnderAreSimple(env, trail, front);
      if n.reason != Some(DepthCap) && n.reason != Some(Cycle) {
        var here := trail + [n.asset];
        assert n in nodes && Explains(env, trail, n);
        if n.measured {
          CallsUnderAreSimple(env, here, n.dependencies);
        }
        OneNodeMore(env, trail, front, n, CallsUnder(trail, front), CallsUnder(here, n.dependencies));
      } else {
        assert CallsUnder(trail, nodes) == CallsUnder(trail, front);
      }
    }
  }

  predicate SimpleBelow(env: Env, trail: seq<Asset>, nodes: seq<Node>, calls: seq<seq<Asset>>) {
    forall c | c in calls :: Extends(trail, nodes, c) && Simple(env, |trail|, c)
  }

  lemma OneNodeMore(env: Env, trail: seq<Asset>, front: seq<Node>, n: Node, before: seq<seq<Asset>>, below: seq<seq<Asset>>)
    requires AscendingBy(NodeCode, front + [n])
    requires |trail| < MAX_DEPTH && Key(n.asset) !in Ancestors(env, trail)
    requires SimpleBelow(env, trail, front, before) && Distinct(before)
    requires SimpleBelow(env, trail + [n.asset], n.dependencies, below) && Distinct(below)
    ensures SimpleBelow(env, trail, front + [n], before + ([trail + [n.asset]] + below))
    ensures Distinct(before + ([trail + [n.asset]] + below))
  {
    hide Ancestors, Key, NodeCode;
    var here := trail + [n.asset];
    NotMentioned(front, n);
    forall c | c in before
      ensures Extends(trail, front + [n], c) && c[|trail|] != n.asset
    {
    }
    forall c | c in [here] + below
      ensures Extends(trail, front + [n], c) && Simple(env, |trail|, c) && c[|trail|] == n.asset
    {
      assert MentionsAsset(front + [n], n.asset);
      assert c[..|here|] == here;
      assert c[..|trail|] == here[..|trail|] == trail && c[|trail|] == here[|trail|];
    }
    assert forall c | c in below :: |c| > |here|;
    DistinctConcat([here], below);
    DistinctConcat(before, [here] + below);
  }

  lemma DistinctConcat<T>(xs: seq<T>, ys: seq<T>)
    requires Distinct(xs) && Distinct(ys) && forall x | x in xs :: x !in ys
    ensures Distinct(xs + ys)
  {
    forall i, j | 0 <= i < j < |xs + ys|
      ensures (xs + ys)[i] != (xs + ys)[j]
    {
      if i < |xs| <= j {
        assert xs[i] in xs && ys[j - |xs|] in ys;
      }
    }
  }

  lemma NotMentioned(front: seq<Node>, n: Node)
    requires AscendingBy(NodeCode, front + [n])
    ensures !MentionsAsset(front, n.asset)
  {
    if MentionsAsset(front, n.asset) {
      var i :| 0 <= i < |front| && front[i].asset == n.asset;
      assert Less(NodeCode((front + [n])[i]), NodeCode((front + [n])[|front|]));
      LessIrreflexive(n.asset.code);
    }
  }

  /** No two calls made for one corridor ask about the same way down; each way has at
      most five assets, all different and none the destination. So any pathfinder,
      however its answers change over time, acts as one indexed by these ways. */
  lemma CallsAreDistinct(env: Env, nodes: seq<Node>, i: nat, j: nat)
    requires ExplainsAll(env, [], nodes) && AscendingBy(NodeCode, nodes)
    requires i < |CallsUnder([], nodes)| && j < |CallsUnder([], nodes)|
    ensures var c := CallsUnder([], nodes)[i];
            && 1 <= |c| <= 5
            && (forall k | 0 <= k < |c| :: Key(c[k]) != Key(env.dest))
            && (forall k, l | 0 <= k < l < |c| :: Key(c[k]) != Key(c[l]))
    ensures i != j ==> CallsUnder([], nodes)[i] != CallsUnder([], nodes)[j]
  {
    CallsUnderAreSimple(env, [], nodes);
    hide CallsUnder, ExplainsAll, AscendingBy, Key, Ancestors, MentionsAsset, Simple;
    var c := CallsUnder([], nodes)[i];
    assert c in CallsUnder([], nodes);
    SimpleMeans(env, c);
  }

  lemma SimpleMeans(env: Env, c: seq<Asset>)
    requires Simple(env, 0, c)
    ensures |c| <= 5
    ensures forall k | 0 <= k < |c| :: Key(c[k]) != Key(env.dest)
    ensures forall k, l | 0 <= k < l < |c| :: Key(c[k]) != Key(c[l])
  {
    forall k, l | 0 <= k < l < |c|
      ensures Key(c[k]) != Key(c[l])
    {
      assert c[..l][k] == c[k];
      assert c[k] in c[..l];
    }
  }

  predicate Asked(n: Node) { n.reason != Some(DepthCap) && n.reason != Some(Cycle) }

  function AskedKeys(nodes: seq<Node>): set<string> { set n | n in nodes && Asked(n) :: Key(n.asset) }

  /** Ways of picking one of `m`, then one of the rest, up to `d` times over: m +
      m(m-1) + ... with `d` terms. */
  function Fan(m: nat, d: nat): nat { if m == 0 || d == 0 then 0 else m * (1 + Fan(m - 1, d - 1)) }

  lemma NewKey(front: seq<Node>, n: Node)
    requires AscendingBy(NodeCode, front + [n])
    ensures Key(n.asset) !in AskedKeys(front)
  {
    if Key(n.asset) in AskedKeys(front) {
      var m :| m in front && Asked(m) && Key(m.asset) == Key(n.asset);
      SameKey(m.asset, n.asset);
      var i :| 0 <= i < |front| && front[i] == m;
      assert Less(NodeCode((front + [n])[i]), NodeCode((front + [n])[|front|]));
      LessIrreflexive(n.asset.code);
    }
  }

  lemma {:induction false} CallsPerNode(trail: seq<Asset>, nodes: seq<Node>, per: nat)
    requires AscendingBy(NodeCode, nodes)
    requires forall n | n in nodes && Asked(n) :: |CallsUnder(trail + [n.asset], n.dependencies)| <= per
    ensures AtMost(|CallsUnder(trail, nodes)|, |AskedKeys(nodes)|, 1 + per)
  {
    if nodes == [] {
      assert AtMost(0, 0, 1 + per);
    } else {
      hide *;
      var front, n := nodes[..|nodes| - 1], nodes[|nodes| - 1];
      assert nodes == front + [n];
      AscendingFront(front, n);
      CallsPerNode(trail, front, per);
      CallsPerStep(trail, front, n, per);
    }
  }

  lemma CallsPerStep(trail: seq<Asset>, front: seq<Node>, n: Node, per: nat)
    requires AscendingBy(NodeCode, front + [n])
    requires Asked(n) ==> |CallsUnder(trail + [n.asset], n.dependencies)| <= per
    requires AtMost(|CallsUnder(trail, front)|, |AskedKeys(front)|, 1 + per)
    ensures AtMost(|CallsUnder(trail, front + [n])|, |AskedKeys(front + [n])|, 1 + per)
  {
    hide *;
    CallsStep(trail, front, n);
    if Asked(n) {
      NewKey(front, n);
      OneMore(|CallsUnder(trail, front)|, |AskedKeys(front)|, 1 + per, 1 + |CallsUnder(trail + [n.asset], n.dependencies)|);
    }
  }

  lemma AscendingFront(front: seq<Node>, n: Node)
    requires AscendingBy(NodeCode, front + [n])
    ensures AscendingBy(NodeCode, front)
  {
    forall i, j | 0 <= i < j < |front|
      ensures Less(NodeCode(front[i]), NodeCode(front[j]))
    {
      assert Less(NodeCode((front + [n])[i]), NodeCode((front + [n])[j]));
    }
  }

  lemma CallsStep(trail: seq<Asset>, front: seq<Node>, n: Node)
    ensures |CallsUnder(trail, front + [n])|
         == |CallsUnder(trail, front)| + (if Asked(n) then 1 + |CallsUnder(trail + [n.asset], n.dependencies)| else 0)
    ensures AskedKeys(front + [n]) == AskedKeys(front) + (if Asked(n) then {Key(n.asset)} else {})
  {
  }

  predicate AtMost(n: nat, groups: nat, size: nat) { n <= groups * size }

  lemma OneMore(n: nat, groups: nat, size: nat, more: nat)
    requires AtMost(n, groups, size) && more <= size
    ensures AtMost(n + more, groups + 1, size)
  {
  }

  ghost predicate HoldsFiat(reg: Registry, fiat: set<string>) {
    forall a | ClassifyHop(reg, a) == Fiat :: Key(a) in fiat
  }

  /** The number of calls is bounded by the number of fiat tokens alone. */
  lemma {:induction false} CallsAreBounded(env: Env, trail: seq<Asset>, nodes: seq<Node>, fiat: set<string>)
    requires ExplainsAll(env, trail, nodes) && AscendingBy(NodeCode, nodes) && |trail| <= MAX_DEPTH
    requires HoldsFiat(env.reg, fiat) && forall n | n in nodes :: ClassifyHop(env.reg, n.asset) == Fiat
    ensures |CallsUnder(trail, nodes)| <= Fan(|fiat - Ancestors(env, trail)|, MAX_DEPTH - |trail|)
    decreases MAX_DEPTH - |trail|
  {
    hide ClassifyHop, Key, IntegrityOf, CallsUnder, Ancestors, AscendingBy, AtMost, Explains;
    var left := fiat - Ancestors(env, trail);
    var m, d := |left|, MAX_DEPTH - |trail|;
    AskedAreLeft(env, trail, nodes, fiat);
    if AskedKeys(nodes) == {} {
      assert forall n | n in nodes && Asked(n) :: Key(n.asset) in AskedKeys(nodes);
      CallsPerNode(trail, nodes, 0);
      assert |AskedKeys(nodes)| == 0;
      Scale(|CallsUnder(trail, nodes)|, 0, 0, 1);
    } else {
      Subset(AskedKeys(nodes), left);
      assert m > 0 && d > 0;
      forall n | n in nodes && Asked(n)
        ensures |CallsUnder(trail + [n.asset], n.dependencies)| <= Fan(m - 1, d - 1)
      {
        AskedIsOpen(env, trail, n);
        DependenciesAreFiat(env, trail, n);
        AncestorsBelow(env, trail, n.asset);
        assert fiat - Ancestors(env, trail + [n.asset]) == left - {Key(n.asset)};
        CallsAreBounded(env, trail + [n.asset], n.dependencies, fiat);
      }
      CallsPerNode(trail, nodes, Fan(m - 1, d - 1));
      Scale(|CallsUnder(trail, nodes)|, |AskedKeys(nodes)|, m, 1 + Fan(m - 1, d - 1));
    }
  }

  lemma AskedIsOpen(env: Env, trail: seq<Asset>, n: Node)
    requires Explains(env, trail, n) && Asked(n)
    ensures |trail| < MAX_DEPTH && Key(n.asset) !in Ancestors(env, trail)
    ensures ExplainsAll(env, trail + [n.asset], n.dependencies) && AscendingBy(NodeCode, n.dependencies)
  {
    hide ClassifyHop, Key, IntegrityOf, Ancestors, DependsOn;
  }

  lemma DependenciesAreFiat(env: Env, trail: seq<Asset>, n: Node)
    requires Explains(env, trail, n)
    ensures forall d | d in n.dependencies :: ClassifyHop(env.reg, d.asset) == Fiat
  {
    hide ClassifyHop, Key, IntegrityOf, Ancestors;
    forall d | d in n.dependencies
      ensures ClassifyHop(env.reg, d.asset) == Fiat
    {
      assert MentionsAsset(n.dependencies, d.asset);
    }
  }

  lemma AskedAreLeft(env: Env, trail: seq<Asset>, nodes: seq<Node>, fiat: set<string>)
    requires ExplainsAll(env, trail, nodes) && HoldsFiat(env.reg, fiat)
    requires forall n | n in nodes :: ClassifyHop(env.reg, n.asset) == Fiat
    ensures AskedKeys(nodes) <= fiat - Ancestors(env, trail)
    ensures AskedKeys(nodes) != {} ==> |trail| < MAX_DEPTH
  {
  }

  lemma Scale(n: nat, a: nat, b: nat, k: nat)
    requires AtMost(n, a, k) && a <= b
    ensures n <= b * k
  {
  }

  lemma Subset<T>(a: set<T>, b: set<T>)
    requires a <= b
    ensures |a| <= |b|
  {
    assert b == a + (b - a);
  }
}
