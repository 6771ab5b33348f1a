/** What the recovery parser of anchor/salvage.go makes of any document at all: each field is
    found from the tokens of its lines alone, without reading the document line by line. */
module AnyDocument {
  import opened Results
  import opened SalvageDocument

  /** Line `i` lies in the currency block that line `j` opens: no header stands between. */
  predicate InBlockOf(tokens: seq<Token>, j: nat, i: nat) {
    j < i <= |tokens| && tokens[j] == Section(true) && forall k | j < k < i :: !tokens[k].Section?
  }

  predicate InBlock(tokens: seq<Token>, i: nat) { exists j: nat | j < i :: InBlockOf(tokens, j, i) }

  predicate Sets(tokens: seq<Token>, key: string, i: nat) { i < |tokens| && tokens[i].Pair? && tokens[i].key == key }

  const TOP_KEYS := ["VERSION", "NETWORK_PASSPHRASE", "WEB_AUTH_ENDPOINT", "TRANSFER_SERVER", "TRANSFER_SERVER_SEP0024",
                     "DIRECT_PAYMENT_SERVER", "ANCHOR_QUOTE_SERVER", "KYC_SERVER", "SIGNING_KEY", "ORG_NAME", "ORG_URL"]

  function TopFields(t: Toml): seq<string> {
    [t.version, t.networkPassphrase, t.webAuthEndpoint, t.transferServer, t.transferServer24, t.directPaymentServer,
     t.anchorQuoteServer, t.kycServer, t.signingKey, t.orgName, t.orgURL]
  }

  /** Line `i` is the last outside every currency block to set this key. */
  predicate LastOnTop(tokens: seq<Token>, key: string, i: nat) {
    Sets(tokens, key, i) && !InBlock(tokens, i) && forall k | i < k < |tokens| && Sets(tokens, key, k) :: InBlock(tokens, k)
  }

  /** A field holds what the last such line says, and nothing if there is none. */
  ghost predicate FieldIs(tokens: seq<Token>, key: string, value: string) {
    && (forall i: nat | LastOnTop(tokens, key, i) :: value == tokens[i].value)
    && ((forall i: nat :: !LastOnTop(tokens, key, i)) ==> value == "")
  }

  lemma InBlockSnoc(front: seq<Token>, x: Token)
    ensures forall i: nat | i <= |front| :: InBlock(front + [x], i) <==> InBlock(front, i)
    ensures InBlock(front + [x], |front| + 1) <==> x == Section(true) || (!x.Section? && InBlock(front, |front|))
  {
    var all, n := front + [x], |front|;
    assert forall k | 0 <= k < n :: all[k] == front[k];
    assert all[n] == x;
    forall i: nat, j: nat | j < i <= n
      ensures InBlockOf(all, j, i) <==> InBlockOf(front, j, i)
    {
    }
    if x == Section(true) {
      assert InBlockOf(all, n, n + 1);
    }
    if !x.Section? && InBlock(front, n) {
      var j: nat :| j < n && InBlockOf(front, j, n);
      assert InBlockOf(all, j, n + 1);
    }
    if InBlock(all, n + 1) && x != Section(true) {
      var j: nat :| j < n + 1 && InBlockOf(all, j, n + 1);
      assert j < n && InBlockOf(front, j, n);
    }
  }

  lemma FieldSnoc(front: seq<Token>, x: Token, key: string, value: string)
    requires FieldIs(front, key, value)
    ensures FieldIs(front + [x], key, if x.Pair? && x.key == key && !InBlock(front, |front|) then x.value else value)
  {
    var all, n := front + [x], |front|;
    InBlockSnoc(front, x);
    hide InBlock;
    assert forall k: nat | k < n :: Sets(all, key, k) <==> Sets(front, key, k);
    if x.Pair? && x.key == key && !InBlock(front, n) {
      assert LastOnTop(all, key, n);
      assert forall i: nat | LastOnTop(all, key, i) :: i == n;
    } else {
      forall i: nat
        ensures LastOnTop(all, key, i) <==> LastOnTop(front, key, i)
      {
      }
    }
  }

  /** Setting one key changes its field and no other. */
  lemma SetTopSets(t: Toml, key: string, value: string)
    ensures |TopFields(SetTop(t, key, value))| == |TOP_KEYS|
    ensures forall f | 0 <= f < |TOP_KEYS| ::
              TopFields(SetTop(t, key, value))[f] == if key == TOP_KEYS[f] then value else TopFields(t)[f]
    ensures SetTop(t, key, value).currencies == t.currencies
  {
  }

  /** Every top-level field of any document: the last line that sets it outside all
      currency blocks decides, whatever headers, blocks and other lines stand around it. */
  lemma {:induction false} TopFieldIs(tokens: seq<Token>, f: nat)
    requires f < |TOP_KEYS|
    ensures Read(START, tokens).current.Some? <==> InBlock(tokens, |tokens|)
    ensures FieldIs(tokens, TOP_KEYS[f], TopFields(Read(START, tokens).Flush().toml)[f])
  {
    if tokens != [] {
      var front, x := tokens[..|tokens| - 1], tokens[|tokens| - 1];
      assert tokens == front + [x];
      TopFieldIs(front, f);
      var st := Read(START, front);
      InBlockSnoc(front, x);
      FieldSnoc(front, x, TOP_KEYS[f], TopFields(st.Flush().toml)[f]);
      if x.Pair? {
        SetTopSets(st.toml, x.key, x.value);
      }
      hide Read, InBlock, FieldIs, SetTop, SetCurrency;
    }
  }

  // ---------------------------------------------------------------- currencies

  const CURRENCY_KEYS := ["code", "issuer", "status", "anchor_asset", "desc"]

  function CurrencyFields(c: Currency): seq<string> { [c.code, c.issuer, c.status, c.anchorAsset, c.desc] }

  /** How many blocks these lines open. */
  function Opened(tokens: seq<Token>): nat {
    if tokens == [] then 0
    else Opened(tokens[..|tokens| - 1]) + if tokens[|tokens| - 1] == Section(true) then 1 else 0
  }

  /** Line `i` is the last in the block of line `j` to set this key. */
  predicate LastInBlock(tokens: seq<Token>, j: nat, key: string, i: nat) {
    Sets(tokens, key, i) && InBlockOf(tokens, j, i) && forall k | i < k < |tokens| && Sets(tokens, key, k) :: !InBlockOf(tokens, j, k)
  }

  /** What the block says under this key; nothing if it does not set it. */
  ghost predicate BlockSays(tokens: seq<Token>, j: nat, key: string, value: string) {
    && (forall i: nat | LastInBlock(tokens, j, key, i) :: value == tokens[i].value)
    && ((forall i: nat :: !LastInBlock(tokens, j, key, i)) ==> value == "")
  }

  ghost predicate CurrencyIs(tokens: seq<Token>, j: nat, c: Currency) {
    && (forall f | 0 <= f < |CURRENCY_KEYS| :: BlockSays(tokens, j, CURRENCY_KEYS[f], CurrencyFields(c)[f]))
    && exists flag: string :: BlockSays(tokens, j, "is_asset_anchored", flag) && (c.isAssetAnchored <==> ParseBool(flag))
  }

  lemma BlockSnoc(front: seq<Token>, x: Token, j: nat, key: string, value: string)
    requires j < |front| && BlockSays(front, j, key, value)
    ensures BlockSays(front + [x], j, key,
                      if x.Pair? && x.key == key && InBlockOf(front, j, |front|) then x.value else value)
  {
    var all, n := front + [x], |front|;
    assert forall k | 0 <= k < n :: all[k] == front[k];
    forall i: nat | i <= n
      ensures InBlockOf(all, j, i) <==> InBlockOf(front, j, i)
    {
    }
    assert forall k: nat | k < n :: Sets(all, key, k) <==> Sets(front, key, k);
    hide InBlockOf;
    if x.Pair? && x.key == key && InBlockOf(front, j, n) {
      assert LastInBlock(all, j, key, n);
      assert forall i: nat | LastInBlock(all, j, key, i) :: i == n;
    } else {
      forall i: nat
        ensures LastInBlock(all, j, key, i) <==> LastInBlock(front, j, key, i)
      {
      }
    }
  }

  lemma SetCurrencySets(c: Currency, key: string, value: string)
    ensures forall f | 0 <= f < |CURRENCY_KEYS| ::
              CurrencyFields(SetCurrency(c, key, value))[f] == if key == CURRENCY_KEYS[f] then value else CurrencyFields(c)[f]
    ensures SetCurrency(c, key, value).isAssetAnchored
         == if key == "is_asset_anchored" then ParseBool(value) else c.isAssetAnchored
  {
  }

  /** The block a line extends, or leaves alone. */
  lemma CurrencySnoc(front: seq<Token>, x: Token, j: nat, c: Currency)
    requires j < |front| && CurrencyIs(front, j, c)
    ensures CurrencyIs(front + [x], j, if x.Pair? && InBlockOf(front, j, |front|) then SetCurrency(c, x.key, x.value) else c)
  {
    var all := front + [x];
    var d := if x.Pair? && InBlockOf(front, j, |front|) then SetCurrency(c, x.key, x.value) else c;
    if x.Pair? {
      SetCurrencySets(c, x.key, x.value);
    }
    hide BlockSays, SetCurrency, ParseBool, InBlockOf;
    forall f | 0 <= f < |CURRENCY_KEYS|
      ensures BlockSays(all, j, CURRENCY_KEYS[f], CurrencyFields(d)[f])
    {
      BlockSnoc(front, x, j, CURRENCY_KEYS[f], CurrencyFields(c)[f]);
    }
    var flag: string :| BlockSays(front, j, "is_asset_anchored", flag) && (c.isAssetAnchored <==> ParseBool(flag));
    BlockSnoc(front, x, j, "is_asset_anchored", flag);
  }

  lemma NewBlock(front: seq<Token>)
    ensures CurrencyIs(front + [Section(true)], |front|, NO_CURRENCY)
  {
    var all, n := front + [Section(true)], |front|;
    assert forall key: string, i: nat :: !LastInBlock(all, n, key, i);
    hide LastInBlock;
    assert forall key: string :: BlockSays(all, n, key, "");
    assert !ParseBool("");
  }

  lemma {:induction false} OpenedGrows(tokens: seq<Token>, j: nat)
    requires j < |tokens| && tokens[j] == Section(true)
    ensures Opened(tokens[..j]) < Opened(tokens)
  {
    var n := |tokens| - 1;
    if j < n {
      OpenedGrows(tokens[..n], j);
      assert tokens[..n][..j] == tokens[..j];
    } else {
      assert tokens[..j] == tokens[..n];
    }
  }

  /** Only the last block opened can still be open. */
  lemma {:induction false} OpenIsLast(tokens: seq<Token>, j: nat)
    requires InBlockOf(tokens, j, |tokens|)
    ensures Opened(tokens) == Opened(tokens[..j]) + 1
  {
    var n := |tokens| - 1;
    if j < n {
      OpenIsLast(tokens[..n], j);
      assert tokens[..n][..j] == tokens[..j];
    } else {
      assert tokens[..j] == tokens[..n];
    }
  }

  /** Every currency of any document: there is one for each line that opens a block, in
      order, and it holds what the last line in that block says under each key. A header
      of any kind ends the block. */
  lemma {:induction false} CurrenciesAre(tokens: seq<Token>)
    ensures |Read(START, tokens).Flush().toml.currencies| == Opened(tokens)
    ensures Read(START, tokens).current.Some? <==> InBlock(tokens, |tokens|)
    ensures forall j: nat | j < |tokens| && tokens[j] == Section(true) ::
              && Opened(tokens[..j]) < Opened(tokens)
              && CurrencyIs(tokens, j, Read(START, tokens).Flush().toml.currencies[Opened(tokens[..j])])
  {
    if tokens != [] {
      var front, x := tokens[..|tokens| - 1], tokens[|tokens| - 1];
      assert tokens == front + [x];
      CurrenciesAre(front);
      InBlockSnoc(front, x);
      var st := Read(START, front);
      assert Read(START, tokens) == st.Take(x);
      CurrencyCount(st, x);
      forall j: nat | j < |tokens| && tokens[j] == Section(true)
        ensures Opened(tokens[..j]) < Opened(tokens)
        ensures CurrencyIs(tokens, j, st.Take(x).Flush().toml.currencies[Opened(tokens[..j])])
      {
        OpenedGrows(tokens, j);
        OneBlockMore(front, x, j, st);
      }
    }
  }

  lemma CurrencyCount(st: State, x: Token)
    ensures |st.Take(x).Flush().toml.currencies| == |st.Flush().toml.currencies| + if x == Section(true) then 1 else 0
  {
    if x.Pair? {
      SetTopSets(st.toml, x.key, x.value);
    }
    hide SetTop, SetCurrency;
  }

  lemma OneBlockMore(front: seq<Token>, x: Token, j: nat, st: State)
    requires j <= |front| && (front + [x])[j] == Section(true)
    requires |st.Flush().toml.currencies| == Opened(front) && (st.current.Some? <==> InBlock(front, |front|))
    requires j < |front| ==> Opened(front[..j]) < Opened(front)
                             && CurrencyIs(front, j, st.Flush().toml.currencies[Opened(front[..j])])
    requires |st.Take(x).Flush().toml.currencies| == Opened(front + [x])
    requires Opened((front + [x])[..j]) < Opened(front + [x])
    ensures CurrencyIs(front + [x], j, st.Take(x).Flush().toml.currencies[Opened((front + [x])[..j])])
  {
    var all, cs := front + [x], st.Flush().toml.currencies;
    assert all[..j] == front[..j];
    assert all[..|front|] == front;
    if j == |front| {
      NewBlock(front);
      assert front[..j] == front;
    } else {
      var n, c := Opened(front[..j]), cs[Opened(front[..j])];
      CurrencySnoc(front, x, j, c);
      if x.Pair? {
        SetTopSets(st.toml, x.key, x.value);
      }
      if InBlockOf(front, j, |front|) {
        OpenIsLast(front, j);
        assert InBlock(front, |front|);
      } else if st.current.Some? {
        var k: nat :| k < |front| && InBlockOf(front, k, |front|);
        OpenIsLast(front, k);
        OtherBlockIsEarlier(front, j, k);
      }
      hide CurrencyIs, SetTop, SetCurrency, Opened, InBlock, InBlockOf;
    }
  }

  lemma OtherBlockIsEarlier(tokens: seq<Token>, j: nat, k: nat)
    requires j < |tokens| && tokens[j] == Section(true) && j != k && InBlockOf(tokens, k, |tokens|)
    ensures Opened(tokens[..j]) < Opened(tokens[..k])
  {
    assert j < k;
    assert tokens[..k][j] == tokens[j];
    OpenedGrows(tokens[..k], j);
    assert tokens[..k][..j] == tokens[..j];
  }

  /** So the result for any text at all is determined by which of its lines set what, and
      between which headers they stand. */
  lemma SalvagedIs(body: string)
    ensures var tokens, t := Tokens(SplitLines(body)), Salvaged(body);
            && (forall f | 0 <= f < |TOP_KEYS| :: FieldIs(tokens, TOP_KEYS[f], TopFields(t)[f]))
            && |t.currencies| == Opened(tokens)
            && forall j: nat | j < |tokens| && tokens[j] == Section(true) ::
                 Opened(tokens[..j]) < Opened(tokens) && CurrencyIs(tokens, j, t.currencies[Opened(tokens[..j])])
  {
    var tokens := Tokens(SplitLines(body));
    hide Read, Tokens, SplitLines, FieldIs, CurrencyIs, Opened;
    CurrenciesAre(tokens);
    forall f | 0 <= f < |TOP_KEYS|
      ensures FieldIs(tokens, TOP_KEYS[f], TopFields(Salvaged(body))[f])
    {
      TopFieldIs(tokens, f);
    }
  }
}
