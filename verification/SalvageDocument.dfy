/** The line parser of anchor/salvage.go over whole documents, and what it recovers
    from a document whose lines are sound up to junk after their values. */
module SalvageDocument {
  import opened Results
  import opened Salvage
  import opened Strings

  datatype Currency = Currency(code: string, issuer: string, status: string, anchorAsset: string, desc: string,
                               isAssetAnchored: bool)

  datatype Toml = Toml(version: string, networkPassphrase: string, webAuthEndpoint: string, transferServer: string,
                       transferServer24: string, directPaymentServer: string, anchorQuoteServer: string, kycServer: string,
                       signingKey: string, orgName: string, orgURL: string, currencies: seq<Currency>)

  const NO_CURRENCY := Currency("", "", "", "", "", false)
  const NO_TOML := Toml("", "", "", "", "", "", "", "", "", "", "", [])

  // -------------------------------------------------------------------- lines

  function SplitLines(s: string): (lines: seq<string>)
    ensures lines != []
  {
    if s == "" then [""]
    else
      var rest := SplitLines(s[1..]);
      if s[0] == '\n' then [""] + rest else [[s[0]] + rest[0]] + rest[1..]
  }

  function JoinLines(lines: seq<string>): string
    requires lines != []
  {
    if |lines| == 1 then lines[0] else lines[0] + "\n" + JoinLines(lines[1..])
  }

  lemma {:induction false} SplitOneLine(line: string, rest: string)
    requires '\n' !in line
    ensures SplitLines(line) == [line]
    ensures SplitLines(line + "\n" + rest) == [line] + SplitLines(rest)
  {
    if line == "" {
      assert line + "\n" + rest == "\n" + rest;
      assert ("\n" + rest)[1..] == rest;
    } else {
      SplitOneLine(line[1..], rest);
      var all := line + "\n" + rest;
      assert all[1..] == line[1..] + "\n" + rest && all[0] == line[0];
      assert line == [line[0]] + line[1..];
    }
  }

  lemma {:induction false} SplitOfJoin(lines: seq<string>)
    requires lines != [] && forall l | l in lines :: '\n' !in l
    ensures SplitLines(JoinLines(lines)) == lines
  {
    assert lines[0] in lines;
    if |lines| == 1 {
      SplitOneLine(lines[0], "");
      assert lines == [lines[0]];
    } else {
      SplitOfJoin(lines[1..]);
      SplitOneLine(lines[0], JoinLines(lines[1..]));
      assert lines == [lines[0]] + lines[1..];
    }
  }

  /** What a line is to the parser. */
  datatype Token = Skip | Section(currencies: bool) | Pair(key: string, value: string)

  predicate IsKeyChar(c: char) { 'A' <= c <= 'Z' || 'a' <= c <= 'z' || '0' <= c <= '9' || c == '_' }

  /** The match of `^\s*([A-Za-z0-9_]+)\s*=\s*(.+?)\s*$` on one line. */
  function KeyValue(line: string): Option<(string, string)> {
    var s := DropLeft(IsAsciiSpace, line);
    var after := DropLeft(IsKeyChar, s);
    var key := s[..|s| - |after|];
    var r := DropLeft(IsAsciiSpace, after);
    if key == "" || r == "" || r[0] != '=' || r[1..] == "" then None
    else
      var value := DropRight(IsAsciiSpace, DropLeft(IsAsciiSpace, r[1..]));
      Some((key, if value == "" then r[|r| - 1..] else value))
  }

  const CURRENCIES := "[[CURRENCIES]]"

  function TokenOf(raw: string): Token {
    var line := TrimSpace(raw);
    if line == "" || line[0] == '#' then Skip
    else if line[0] == '[' then Section(CURRENCIES <= line)
    else
      match KeyValue(line)
      case None => Skip
      case Some((key, value)) => Pair(key, Unquoted(value))
  }

  /** `strconv.ParseBool`, an error reading as false. */
  function ParseBool(s: string): bool { s in ["1", "t", "T", "TRUE", "true", "True"] }

  function SetCurrency(c: Currency, key: string, value: string): Currency {
    match key
    case "code" => c.(code := value)
    case "issuer" => c.(issuer := value)
    case "status" => c.(status := value)
    case "anchor_asset" => c.(anchorAsset := value)
    case "desc" => c.(desc := value)
    case "is_asset_anchored" => c.(isAssetAnchored := ParseBool(value))
    case _ => c
  }

  function SetTop(t: Toml, key: string, value: string): Toml {
    match key
    case "VERSION" => t.(version := value)
    case "NETWORK_PASSPHRASE" => t.(networkPassphrase := value)
    case "WEB_AUTH_ENDPOINT" => t.(webAuthEndpoint := value)
    case "TRANSFER_SERVER" => t.(transferServer := value)
    case "TRANSFER_SERVER_SEP0024" => t.(transferServer24 := value)
    case "DIRECT_PAYMENT_SERVER" => t.(directPaymentServer := value)
    case "ANCHOR_QUOTE_SERVER" => t.(anchorQuoteServer := value)
    case "KYC_SERVER" => t.(kycServer := value)
    case "SIGNING_KEY" => t.(signingKey := value)
    case "ORG_NAME" => t.(orgName := value)
    case "ORG_URL" => t.(orgURL := value)
    case _ => t
  }

  /** What has been read: the document so far, and the currency block being filled. */
  datatype State = State(toml: Toml, current: Option<Currency>)
  {
    function Flush(): State {
      match current
      case None => this
      case Some(c) => State(toml.(currencies := toml.currencies + [c]), None)
    }

    function Take(token: Token): State {
      match token
      case Skip => this
      case Section(currencies) => Flush().(current := if currencies then Some(NO_CURRENCY) else None)
      case Pair(key, value) =>
        match current
        case Some(c) => this.(current := Some(SetCurrency(c, key, value)))
        case None => this.(toml := SetTop(toml, key, value))
    }
  }

  function Read(start: State, tokens: seq<Token>): State {
    if tokens == [] then start else Read(start, tokens[..|tokens| - 1]).Take(tokens[|tokens| - 1])
  }

  function Tokens(lines: seq<string>): (tokens: seq<Token>)
    ensures |tokens| == |lines|
  {
    seq(|lines|, i requires 0 <= i < |lines| => TokenOf(lines[i]))
  }

  const START := State(NO_TOML, None)

  function Salvaged(body: string): Toml { Read(START, Tokens(SplitLines(body))).Flush().toml }

  /** `salvageTOML`. */
  method SalvageTOML(body: string) returns (t: Toml)
    ensures t == Salvaged(body)
  {
    t := NO_TOML;
    var current: Option<Currency> := None;
    var lines := SplitLines(body);
    for i := 0 to |lines|
      invariant State(t, current) == Read(START, Tokens(lines)[..i])
    {
      ghost var before := State(t, current);
      assert Tokens(lines)[..i + 1][..i] == Tokens(lines)[..i];
      assert Read(START, Tokens(lines)[..i + 1]) == before.Take(TokenOf(lines[i]));
      hide Read, Tokens, Unquoted, TrimSpace, KeyValue, SetCurrency, SetTop;
      var line := TrimSpace(lines[i]);
      if line == "" || line[0] == '#' {
        continue;
      }
      if line[0] == '[' {
        if current.Some? {
          t, current := t.(currencies := t.currencies + [current.value]), None;
        }
        if CURRENCIES <= line {
          current := Some(NO_CURRENCY);
        }
        continue;
      }
      var m := KeyValue(line);
      if m.None? {
        continue;
      }
      var val := Unquote(m.value.1);
      if current.Some? {
        current := Some(SetCurrency(current.value, m.value.0, val));
        continue;
      }
      t := SetTop(t, m.value.0, val);
    }
    assert Tokens(lines)[..|lines|] == Tokens(lines);
    if current.Some? {
      t := t.(currencies := t.currencies + [current.value]);
    }
  }

  // ---------------------------------------------------------- printed documents

  /** The free space of an assignment, and whatever follows its value. */
  datatype Layout = Layout(lead: string, before: string, after: string, tail: string)

  predicate IsPad(s: string) { forall c | c in s :: c == ' ' || c == '\t' }

  datatype Line =
    | Blank(pad: string)
    | Comment(pad: string, text: string)
    | Header(pad: string, text: string)
    | Basic(key: string, value: string, layout: Layout)
    | Bare(key: string, word: string, layout: Layout)

  predicate IsWord(s: string) {
    s != "" && s[0] != '\"' && s[0] != '\'' && !IsSpace(s[0]) && !IsSpace(s[|s| - 1]) && '#' !in s && '\n' !in s
  }

  predicate Sound(layout: Layout) {
    IsPad(layout.lead) && IsPad(layout.before) && IsPad(layout.after) && '\n' !in layout.tail
  }

  /** A quoted value may be followed by anything at all, a bare one by a comment. */
  predicate Legal(l: Line) {
    match l
    case Blank(pad) => IsPad(pad)
    case Comment(pad, text) => IsPad(pad) && '\n' !in text
    case Header(pad, text) => IsPad(pad) && '\n' !in text
    case Basic(key, value, layout) => key != "" && All(IsKeyChar, key) && '\n' !in value && Sound(layout)
    case Bare(key, word, layout) =>
      && key != "" && All(IsKeyChar, key) && IsWord(word) && Sound(layout)
      && exists k | 0 <= k <= |layout.tail| :: IsPad(layout.tail[..k]) && (k < |layout.tail| ==> layout.tail[k] == '#')
  }

  function Assign(key: string, layout: Layout): string { key + layout.before + "=" + layout.after }

  function Print(l: Line): string {
    match l
    case Blank(pad) => pad
    case Comment(pad, text) => pad + "#" + text
    case Header(pad, text) => pad + "[" + text
    case Basic(key, value, layout) => layout.lead + (Assign(key, layout) + Quote(value)) + layout.tail
    case Bare(key, word, layout) => layout.lead + (Assign(key, layout) + word) + layout.tail
  }

  function Meaning(l: Line): Token {
    match l
    case Blank(_) => Skip
    case Comment(_, _) => Skip
    case Header(_, text) => Section("[CURRENCIES]]" <= text)
    case Basic(key, value, _) => Pair(key, value)
    case Bare(key, word, _) => Pair(key, word)
  }

  lemma PadIsSpace(s: string)
    requires IsPad(s)
    ensures All(IsSpace, s) && All(IsAsciiSpace, s) && '\n' !in s && '#' !in s
  {
  }

  lemma KeyIsSolid(c: char)
    requires IsKeyChar(c)
    ensures !IsSpace(c) && !IsAsciiSpace(c) && c !in "#[=\"'"
  {
  }

  /** Trimming a line: the indentation goes, and of what follows the last solid character only its end. */
  lemma TrimLine(lead: string, core: string, tail: string)
    requires IsPad(lead) && core != "" && !IsSpace(core[0]) && !IsSpace(core[|core| - 1])
    ensures TrimSpace(lead + core + tail) == core + DropRight(IsSpace, tail)
  {
    hide IsSpace;
    PadIsSpace(lead);
    assert lead + core + tail == lead + (core + tail);
    DropLeftStops(IsSpace, lead, core + tail);
    DropRightStops(IsSpace, core, tail);
  }

  /** The regular expression on a line `key = value tail`. */
  lemma KeyValueOf(key: string, layout: Layout, value: string, tail: string)
    requires key != "" && All(IsKeyChar, key) && Sound(layout)
    requires value != "" && !IsAsciiSpace(value[0]) && !IsAsciiSpace(value[|value| - 1])
    ensures KeyValue(Assign(key, layout) + value + tail) == Some((key, value + DropRight(IsAsciiSpace, tail)))
  {
    hide IsAsciiSpace, IsKeyChar, DropLeft, DropRight, Assign, IsPad, All;
    var rest := value + tail;
    var right := "=" + (layout.after + rest);
    var after := layout.before + right;
    var line := Assign(key, layout) + value + tail;
    assert line == key + after by { AssignSplits(key, layout, value, tail); }
    assert right[1..] == layout.after + rest && right[1..] != "" && right[0] == '=';
    assert line[..|line| - |after|] == key;
    KeyEnds(key, layout, right);
    PadIsSpace(layout.after);
    DropLeftStops(IsAsciiSpace, layout.after, rest);
    DropRightStops(IsAsciiSpace, value, tail);
  }

  lemma AssignSplits(key: string, layout: Layout, value: string, tail: string)
    ensures Assign(key, layout) + value + tail == key + (layout.before + ("=" + (layout.after + (value + tail))))
  {
  }

  lemma KeyEnds(key: string, layout: Layout, right: string)
    requires key != "" && All(IsKeyChar, key) && Sound(layout) && right != "" && right[0] == '='
    ensures var after := layout.before + right;
            && DropLeft(IsAsciiSpace, key + after) == key + after
            && DropLeft(IsKeyChar, key + after) == after
            && DropLeft(IsAsciiSpace, after) == right
  {
    hide DropLeft, IsKeyChar, IsAsciiSpace;
    var after := layout.before + right;
    Solid();
    KeyIsSolid(key[0]);
    PadIsSpace(layout.before);
    assert key[0] in key && (layout.before != "" ==> after[0] == layout.before[0] && after[0] in layout.before);
    assert "" + (key + after) == key + after;
    DropLeftStops(IsAsciiSpace, "", key + after);
    DropLeftStops(IsKeyChar, key, after);
    DropLeftStops(IsAsciiSpace, layout.before, right);
  }

  lemma Solid()
    ensures !IsAsciiSpace('=') && !IsKeyChar('=') && !IsKeyChar(' ') && !IsKeyChar('\t')
    ensures !IsAsciiSpace('#') && !IsSpace('#') && !IsSpace('[') && !IsAsciiSpace('\"') && !IsSpace('\"')
  {
  }

  lemma {:induction false} CutAtHash(s: string, rest: string)
    requires '#' !in s
    ensures CutComment(s + "#" + rest) == s
  {
    if s == "" {
      assert s + "#" + rest == "#" + rest;
    } else {
      assert s + "#" + rest == [s[0]] + (s[1..] + "#" + rest);
      CutAtHash(s[1..], rest);
      assert s == [s[0]] + s[1..];
    }
  }

  lemma WordIsRead(word: string, tail: string)
    requires IsWord(word) && '#' !in tail && DropRight(IsSpace, tail) == ""
    ensures Unquoted(word + tail) == word
  {
    hide DropRight, DropLeft, IsSpace;
    TrimKeeps(word, tail);
    assert word + "" == word;
  }

  lemma CommentedWordIsRead(word: string, pad: string, rest: string)
    requires IsWord(word) && IsPad(pad)
    ensures Unquoted(word + (pad + "#") + rest) == word
  {
    hide DropRight, DropLeft, IsSpace, IsPad;
    Solid();
    var kept, end := word + (pad + "#"), DropRight(IsSpace, rest);
    TrimKeeps(kept, rest);
    assert kept + end == (word + pad) + "#" + end;
    PadIsSpace(pad);
    CutAtHash(word + pad, end);
    assert '#' in kept + end by { assert (kept + end)[|word + pad|] == '#'; }
    DropRightAll(IsSpace, pad);
    TrimKeeps(word, pad);
    assert word + "" == word;
  }

  lemma {:induction false} DropRightIsPrefix(p: char -> bool, s: string)
    ensures DropRight(p, s) <= s
  {
    if s != "" && p(s[|s| - 1]) {
      DropRightIsPrefix(p, s[..|s| - 1]);
    }
  }

  lemma HeaderIsRead(text: string)
    ensures CURRENCIES <= "[" + DropRight(IsSpace, text) <==> "[CURRENCIES]]" <= text
  {
    hide DropRight;
    var name := "[CURRENCIES]]";
    var trimmed := DropRight(IsSpace, text);
    DropRightIsPrefix(IsSpace, text);
    assert CURRENCIES == "[" + name;
    if name <= text {
      assert text == name + text[|name|..];
      DropRightStops(IsSpace, name, text[|name|..]);
      assert "[" + trimmed == CURRENCIES + DropRight(IsSpace, text[|name|..]);
    }
    if CURRENCIES <= "[" + trimmed {
      assert name <= trimmed by {
        assert ("[" + trimmed)[1..] == trimmed && CURRENCIES[1..] == name;
      }
    }
  }

  /** Every legal line is read for what it means, whatever its indentation and spacing,
      and whatever follows a value. */
  lemma LineIsRead(l: Line)
    requires Legal(l)
    ensures TokenOf(Print(l)) == Meaning(l) && '\n' !in Print(l)
  {
    hide DropRight, DropLeft, IsSpace, IsAsciiSpace, Unquoted, TrimSpace, KeyValue, IsKeyChar, Assign, IsPad, All, Escape;
    Solid();
    match l
    case Blank(pad) =>
      PadIsSpace(pad);
      BlankTrims(pad);
    case Comment(pad, text) =>
      PadIsSpace(pad);
      TrimLine(pad, "#", text);
    case Header(pad, text) =>
      PadIsSpace(pad);
      TrimLine(pad, "[", text);
      HeaderIsRead(text);
    case Basic(key, value, layout) =>
      BasicIsRead(key, value, layout);
    case Bare(key, word, layout) =>
      BareLineIsRead(key, word, layout);
  }

  lemma BlankTrims(pad: string)
    requires All(IsSpace, pad)
    ensures TrimSpace(pad) == ""
  {
    hide IsSpace;
    DropLeftAll(IsSpace, pad);
  }

  lemma AssignEnds(key: string, layout: Layout)
    requires key != "" && All(IsKeyChar, key) && Sound(layout)
    ensures var a := Assign(key, layout);
            a != "" && IsKeyChar(a[0]) && !IsSpace(a[0]) && a[0] !in "#[" && '\n' !in a
  {
  }

  lemma {:induction false} EscapeKeepsLine(s: string)
    requires '\n' !in s
    ensures '\n' !in Escape(s)
  {
    if s != "" {
      EscapeKeepsLine(s[1..]);
    }
  }

  lemma BasicIsRead(key: string, value: string, layout: Layout)
    requires Legal(Basic(key, value, layout))
    ensures TokenOf(Print(Basic(key, value, layout))) == Pair(key, value)
    ensures '\n' !in Print(Basic(key, value, layout))
  {
    hide DropRight, DropLeft, IsSpace, IsAsciiSpace, Unquoted, TrimSpace, KeyValue, IsKeyChar, Assign, IsPad, All, Escape;
    Solid();
    AssignEnds(key, layout);
    EscapeKeepsLine(value);
    PadIsSpace(layout.lead);
    var core := Assign(key, layout) + Quote(value);
    TrimLine(layout.lead, core, layout.tail);
    var end := DropRight(IsSpace, layout.tail);
    KeyValueOf(key, layout, Quote(value), end);
    QuotedIsRead(value, DropRight(IsAsciiSpace, end));
    assert core[0] == Assign(key, layout)[0];
  }

  lemma BareLineIsRead(key: string, word: string, layout: Layout)
    requires Legal(Bare(key, word, layout))
    ensures TokenOf(Print(Bare(key, word, layout))) == Pair(key, word)
    ensures '\n' !in Print(Bare(key, word, layout))
  {
    hide DropRight, DropLeft, IsSpace, IsAsciiSpace, Unquoted, TrimSpace, KeyValue, IsKeyChar, Assign, IsPad, All;
    AssignEnds(key, layout);
    PadIsSpace(layout.lead);
    var core := Assign(key, layout) + word;
    TrimLine(layout.lead, core, layout.tail);
    var end := DropRight(IsSpace, layout.tail);
    AsciiSpaceIsSpace(word[0]);
    AsciiSpaceIsSpace(word[|word| - 1]);
    KeyValueOf(key, layout, word, end);
    var k :| 0 <= k <= |layout.tail| && IsPad(layout.tail[..k]) && (k < |layout.tail| ==> layout.tail[k] == '#');
    var pad, value := layout.tail[..k], word + DropRight(IsAsciiSpace, end);
    PadIsSpace(pad);
    if k == |layout.tail| {
      assert layout.tail == pad;
      DropRightAll(IsSpace, pad);
      DropRightAll(IsAsciiSpace, "");
      DropRightAll(IsSpace, "");
      WordIsRead(word, "");
    } else {
      var solid, rest := pad + "#", layout.tail[k + 1..];
      assert layout.tail == solid + rest;
      Solid();
      DropRightStops(IsSpace, solid, rest);
      DropRightStops(IsAsciiSpace, solid, DropRight(IsSpace, rest));
      CommentedWordIsRead(word, pad, DropRight(IsAsciiSpace, DropRight(IsSpace, rest)));
      assert value == word + solid + DropRight(IsAsciiSpace, DropRight(IsSpace, rest));
    }
    assert core[0] == Assign(key, layout)[0];
  }

  lemma AsciiSpaceIsSpace(c: char)
    ensures IsAsciiSpace(c) ==> IsSpace(c)
  {
  }

  // ------------------------------------------------------------- main results

  function Document(lines: seq<Line>): string
    requires lines != []
  {
    JoinLines(seq(|lines|, i requires 0 <= i < |lines| => Print(lines[i])))
  }

  function Meanings(lines: seq<Line>): seq<Token> { seq(|lines|, i requires 0 <= i < |lines| => Meaning(lines[i])) }

  /** A document of legal lines is read for what its lines mean, in order. */
  lemma DocumentIsRead(lines: seq<Line>)
    requires lines != [] && forall l | l in lines :: Legal(l)
    ensures Salvaged(Document(lines)) == Read(START, Meanings(lines)).Flush().toml
  {
    hide Print, Meaning, Legal, TokenOf, Read;
    var printed := seq(|lines|, i requires 0 <= i < |lines| => Print(lines[i]));
    forall i | 0 <= i < |lines|
      ensures TokenOf(printed[i]) == Meaning(lines[i]) && '\n' !in printed[i]
    {
      assert lines[i] in lines;
      LineIsRead(lines[i]);
    }
    SplitOfJoin(printed);
    assert Tokens(printed) == Meanings(lines);
  }

  function ServerTokens(t: Toml): seq<Token> {
    [Pair("VERSION", t.version), Pair("NETWORK_PASSPHRASE", t.networkPassphrase), Pair("WEB_AUTH_ENDPOINT", t.webAuthEndpoint),
     Pair("TRANSFER_SERVER", t.transferServer), Pair("TRANSFER_SERVER_SEP0024", t.transferServer24)]
  }

  function OtherServerTokens(t: Toml): seq<Token> {
    [Pair("DIRECT_PAYMENT_SERVER", t.directPaymentServer), Pair("ANCHOR_QUOTE_SERVER", t.anchorQuoteServer),
     Pair("KYC_SERVER", t.kycServer)]
  }

  function IdentityTokens(t: Toml): seq<Token> {
    [Pair("SIGNING_KEY", t.signingKey), Pair("ORG_NAME", t.orgName), Pair("ORG_URL", t.orgURL)]
  }

  function TopTokens(t: Toml): seq<Token> { ServerTokens(t) + (OtherServerTokens(t) + IdentityTokens(t)) }

  function BlockHead(c: Currency): seq<Token> {
    [Section(true), Pair("code", c.code), Pair("issuer", c.issuer), Pair("status", c.status)]
  }

  function BlockTail(c: Currency): seq<Token> {
    [Pair("anchor_asset", c.anchorAsset), Pair("desc", c.desc),
     Pair("is_asset_anchored", if c.isAssetAnchored then "true" else "false")]
  }

  function Block(c: Currency): seq<Token> { BlockHead(c) + BlockTail(c) }

  function Blocks(cs: seq<Currency>): seq<Token> {
    if cs == [] then [] else Blocks(cs[..|cs| - 1]) + Block(cs[|cs| - 1])
  }

  /** What a document must say to state `t`: its top-level fields, then a block for each currency. */
  function TokensOf(t: Toml): seq<Token> { TopTokens(t) + Blocks(t.currencies) }

  lemma {:induction false} ReadConcat(st: State, a: seq<Token>, b: seq<Token>)
    ensures Read(st, a + b) == Read(Read(st, a), b)
  {
    if b == [] {
      assert a + b == a;
    } else {
      ReadConcat(st, a, b[..|b| - 1]);
      assert (a + b)[..|a + b| - 1] == a + b[..|b| - 1];
    }
  }

  lemma ReadStep(st: State, tokens: seq<Token>, i: nat)
    requires i < |tokens|
    ensures Read(st, tokens[..i + 1]) == Read(st, tokens[..i]).Take(tokens[i])
    ensures Read(st, tokens[..0]) == st
  {
    assert tokens[..i + 1][..i] == tokens[..i];
  }

  lemma ReadServers(t: Toml)
    ensures Read(START, ServerTokens(t))
         == State(Toml(t.version, t.networkPassphrase, t.webAuthEndpoint, t.transferServer, t.transferServer24,
                       "", "", "", "", "", "", []), None)
  {
    var toks := ServerTokens(t);
    ReadStep(START, toks, 0);
    ReadStep(START, toks, 1);
    ReadStep(START, toks, 2);
    ReadStep(START, toks, 3);
    ReadStep(START, toks, 4);
    hide Read;
    assert toks[..5] == toks;
  }

  lemma ReadOtherServers(t: Toml, st: State)
    requires st.current == None
    ensures Read(st, OtherServerTokens(t))
         == st.(toml := st.toml.(directPaymentServer := t.directPaymentServer, anchorQuoteServer := t.anchorQuoteServer,
                                 kycServer := t.kycServer))
  {
    var toks := OtherServerTokens(t);
    ReadStep(st, toks, 0);
    ReadStep(st, toks, 1);
    ReadStep(st, toks, 2);
    hide Read;
    assert toks[..3] == toks;
  }

  lemma ReadIdentity(t: Toml, st: State)
    requires st.current == None
    ensures Read(st, IdentityTokens(t))
         == st.(toml := st.toml.(signingKey := t.signingKey, orgName := t.orgName, orgURL := t.orgURL))
  {
    var toks := IdentityTokens(t);
    ReadStep(st, toks, 0);
    ReadStep(st, toks, 1);
    ReadStep(st, toks, 2);
    hide Read;
    assert toks[..3] == toks;
  }

  lemma ReadTop(t: Toml)
    ensures Read(START, TopTokens(t)) == State(t.(currencies := []), None)
  {
    hide Read, ServerTokens, OtherServerTokens, IdentityTokens;
    ReadConcat(START, ServerTokens(t), OtherServerTokens(t) + IdentityTokens(t));
    ReadServers(t);
    var st := Read(START, ServerTokens(t));
    ReadConcat(st, OtherServerTokens(t), IdentityTokens(t));
    ReadOtherServers(t, st);
    ReadIdentity(t, Read(st, OtherServerTokens(t)));
  }

  lemma ReadBlockHead(st: State, c: Currency)
    ensures Read(st, BlockHead(c)) == State(st.Flush().toml, Some(Currency(c.code, c.issuer, c.status, "", "", false)))
  {
    var toks := BlockHead(c);
    ReadStep(st, toks, 0);
    ReadStep(st, toks, 1);
    ReadStep(st, toks, 2);
    ReadStep(st, toks, 3);
    hide Read;
    assert toks[..4] == toks;
  }

  lemma ReadBlockTail(t: Toml, c: Currency)
    ensures Read(State(t, Some(Currency(c.code, c.issuer, c.status, "", "", false))), BlockTail(c)) == State(t, Some(c))
  {
    var st, toks := State(t, Some(Currency(c.code, c.issuer, c.status, "", "", false))), BlockTail(c);
    ReadStep(st, toks, 0);
    ReadStep(st, toks, 1);
    ReadStep(st, toks, 2);
    hide Read;
    assert toks[..3] == toks;
  }

  lemma ReadBlock(st: State, c: Currency)
    ensures Read(st, Block(c)) == State(st.Flush().toml, Some(c))
  {
    hide Read, BlockHead, BlockTail;
    ReadConcat(st, BlockHead(c), BlockTail(c));
    ReadBlockHead(st, c);
    ReadBlockTail(st.Flush().toml, c);
  }

  lemma {:induction false} ReadBlocks(t: Toml, cs: seq<Currency>)
    ensures Read(State(t, None), Blocks(cs)).Flush() == State(t.(currencies := t.currencies + cs), None)
  {
    hide Block;
    if cs == [] {
      assert t.currencies + cs == t.currencies;
    } else {
      var front, c := cs[..|cs| - 1], cs[|cs| - 1];
      ReadBlocks(t, front);
      ReadConcat(State(t, None), Blocks(front), Block(c));
      ReadBlock(Read(State(t, None), Blocks(front)), c);
      assert t.currencies + front + [c] == t.currencies + cs;
    }
  }

  lemma TokensAreRead(t: Toml)
    ensures Read(START, TokensOf(t)).Flush().toml == t
  {
    ReadConcat(START, TopTokens(t), Blocks(t.currencies));
    ReadTop(t);
    ReadBlocks(t.(currencies := []), t.currencies);
    assert [] + t.currencies == t.currencies;
  }

  function Significant(tokens: seq<Token>): seq<Token> {
    if tokens == [] then []
    else Significant(tokens[..|tokens| - 1]) + if tokens[|tokens| - 1].Skip? then [] else [tokens[|tokens| - 1]]
  }

  lemma {:induction false} SkipsDoNotMatter(st: State, tokens: seq<Token>)
    ensures Read(st, tokens) == Read(st, Significant(tokens))
  {
    if tokens != [] {
      var front, last := tokens[..|tokens| - 1], tokens[|tokens| - 1];
      SkipsDoNotMatter(st, front);
      if last.Skip? {
        assert Significant(tokens) == Significant(front);
      } else {
        assert Significant(tokens) == Significant(front) + [last];
        assert (Significant(front) + [last])[..|Significant(front)|] == Significant(front);
      }
    }
  }

  /** Salvaging undoes printing: any document of legal lines that says `t` and nothing
      else, however it is laid out and whatever junk follows its quoted values, gives
      back `t`. */
  lemma SalvageUndoesPrinting(t: Toml, lines: seq<Line>)
    requires lines != [] && forall l | l in lines :: Legal(l)
    requires Significant(Meanings(lines)) == TokensOf(t)
    ensures Salvaged(Document(lines)) == t
  {
    hide Salvaged, Document, Meanings, Read, Legal, TokensOf;
    DocumentIsRead(lines);
    SkipsDoNotMatter(START, Meanings(lines));
    TokensAreRead(t);
  }

  function LineFor(token: Token, layout: Layout): Line {
    match token
    case Skip => Blank("")
    case Section(currencies) => Header(layout.lead, (if currencies then "[CURRENCIES]]" else "OTHER]") + layout.tail)
    case Pair(key, value) => Basic(key, value, layout)
  }

  /** One such document, with every value quoted, for a given layout of each line. */
  function Render(t: Toml, layouts: nat -> Layout): (lines: seq<Line>)
    ensures lines != []
  {
    var tokens := TokensOf(t);
    seq(|tokens|, i requires 0 <= i < |tokens| => LineFor(tokens[i], layouts(i)))
  }

  predicate OneLine(s: string) { '\n' !in s }

  predicate CurrencyFits(c: Currency) {
    OneLine(c.code) && OneLine(c.issuer) && OneLine(c.status) && OneLine(c.anchorAsset) && OneLine(c.desc)
  }

  /** No value spans lines. */
  predicate Fits(t: Toml) {
    && OneLine(t.version) && OneLine(t.networkPassphrase) && OneLine(t.webAuthEndpoint) && OneLine(t.transferServer)
    && OneLine(t.transferServer24) && OneLine(t.directPaymentServer) && OneLine(t.anchorQuoteServer) && OneLine(t.kycServer)
    && OneLine(t.signingKey) && OneLine(t.orgName) && OneLine(t.orgURL)
    && (forall c | c in t.currencies :: CurrencyFits(c))
  }

  predicate Printable(token: Token) {
    match token
    case Skip => false
    case Section(currencies) => currencies
    case Pair(key, value) => key != "" && All(IsKeyChar, key) && OneLine(value)
  }

  lemma {:induction false} BlocksArePrintable(cs: seq<Currency>)
    requires forall c | c in cs :: CurrencyFits(c)
    ensures forall k | k in Blocks(cs) :: Printable(k)
  {
    if cs != [] {
      BlocksArePrintable(cs[..|cs| - 1]);
      BlockIsPrintable(cs[|cs| - 1]);
    }
  }

  lemma BlockIsPrintable(c: Currency)
    requires CurrencyFits(c)
    ensures forall k | k in Block(c) :: Printable(k)
  {
    BlockKeysArePlain();
    hide IsKeyChar, All;
  }

  lemma BlockKeysArePlain()
    ensures All(IsKeyChar, "code") && All(IsKeyChar, "issuer") && All(IsKeyChar, "status")
    ensures All(IsKeyChar, "anchor_asset") && All(IsKeyChar, "desc") && All(IsKeyChar, "is_asset_anchored")
  {
  }

  lemma ServerKeysArePlain()
    ensures All(IsKeyChar, "VERSION") && All(IsKeyChar, "NETWORK_PASSPHRASE") && All(IsKeyChar, "WEB_AUTH_ENDPOINT")
    ensures All(IsKeyChar, "TRANSFER_SERVER") && All(IsKeyChar, "TRANSFER_SERVER_SEP0024")
  {
  }

  lemma OtherKeysArePlain()
    ensures All(IsKeyChar, "DIRECT_PAYMENT_SERVER") && All(IsKeyChar, "ANCHOR_QUOTE_SERVER") && All(IsKeyChar, "KYC_SERVER")
  {
  }

  lemma IdentityKeysArePlain()
    ensures All(IsKeyChar, "SIGNING_KEY") && All(IsKeyChar, "ORG_NAME") && All(IsKeyChar, "ORG_URL")
  {
  }

  lemma TopIsPrintable(t: Toml)
    requires Fits(t)
    ensures forall k | k in TopTokens(t) :: Printable(k)
  {
    ServerKeysArePlain();
    OtherKeysArePlain();
    IdentityKeysArePlain();
    hide IsKeyChar, All, OneLine;
  }

  lemma {:induction false} NothingToSkip(tokens: seq<Token>)
    requires forall k | k in tokens :: !k.Skip?
    ensures Significant(tokens) == tokens
  {
    if tokens != [] {
      NothingToSkip(tokens[..|tokens| - 1]);
    }
  }

  /** So every document value has a printed form, and every layout of it is read back. */
  lemma RenderedIsSalvaged(t: Toml, layouts: nat -> Layout)
    requires Fits(t) && forall i :: Sound(layouts(i))
    ensures Salvaged(Document(Render(t, layouts))) == t
  {
    var lines, tokens := Render(t, layouts), TokensOf(t);
    TopIsPrintable(t);
    BlocksArePrintable(t.currencies);
    forall i | 0 <= i < |lines|
      ensures Legal(lines[i]) && Meaning(lines[i]) == tokens[i]
    {
      assert Printable(tokens[i]);
      LineForIsLegal(tokens[i], layouts(i));
    }
    assert Meanings(lines) == tokens;
    NothingToSkip(tokens);
    SalvageUndoesPrinting(t, lines);
  }

  lemma LineForIsLegal(token: Token, layout: Layout)
    requires Printable(token) && Sound(layout)
    ensures Legal(LineFor(token, layout)) && Meaning(LineFor(token, layout)) == token
  {
  }
}
