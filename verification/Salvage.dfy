/** The recovery parser for malformed stellar.toml documents: anchor/salvage.go.
    Strings are sequences of characters. */
module Salvage {
  import opened Results
  import opened Strings

  /** What `\s` matches in a Go regular expression. */
  predicate IsAsciiSpace(c: char) { c in " \t\n\r" || c == '\U{000C}' }

  // ----------------------------------------------------------------- unquoting

  /** `strings.ReplaceAll` for a two-character pattern and a one-character replacement. */
  function ReplaceAll(s: string, a: char, b: char, sub: char): string {
    if |s| >= 2 && s[0] == a && s[1] == b then [sub] + ReplaceAll(s[2..], a, b, sub)
    else if s == "" then ""
    else [s[0]] + ReplaceAll(s[1..], a, b, sub)
  }

  function Unescape(s: string): string { ReplaceAll(ReplaceAll(s, '\\', '\"', '\"'), '\\', '\\', '\\') }

  /** A TOML basic string's escapes, for the two characters that need one. */
  function Escape(s: string): string {
    if s == "" then "" else (if s[0] == '\\' || s[0] == '\"' then ['\\', s[0]] else [s[0]]) + Escape(s[1..])
  }

  /** Backslashes doubled, quotes as they are: what is left after the first pass. */
  function HalfEscape(s: string): string {
    if s == "" then "" else (if s[0] == '\\' then ['\\', '\\'] else [s[0]]) + HalfEscape(s[1..])
  }

  lemma {:induction false} FirstPass(s: string)
    ensures ReplaceAll(Escape(s), '\\', '\"', '\"') == HalfEscape(s)
    ensures Escape(s) != "" ==> Escape(s)[0] != '\"'
  {
    if s != "" {
      FirstPass(s[1..]);
      var e := Escape(s[1..]);
      if s[0] == '\\' {
        assert Escape(s) == ['\\', '\\'] + e && Escape(s)[1..] == ['\\'] + e && Escape(s)[1..][1..] == e;
      } else if s[0] == '\"' {
        assert Escape(s)[2..] == e;
      } else {
        assert Escape(s)[1..] == e;
      }
    }
  }

  lemma {:induction false} SecondPass(s: string)
    ensures ReplaceAll(HalfEscape(s), '\\', '\\', '\\') == s
  {
    if s != "" {
      SecondPass(s[1..]);
      var h := HalfEscape(s[1..]);
      if s[0] == '\\' {
        assert HalfEscape(s)[2..] == h;
      } else {
        assert HalfEscape(s)[1..] == h;
      }
      assert s == [s[0]] + s[1..];
    }
  }

  /** The two passes, one after the other, undo escaping for every string. */
  lemma UnescapeUndoesEscape(s: string)
    ensures Unescape(Escape(s)) == s
  {
    FirstPass(s);
    SecondPass(s);
  }

  /** Where the scan from `i` finds the closing quote, or the length if it does not. */
  function Closing(v: string, q: char, i: nat): (at: nat)
    ensures at <= |v| && (i <= |v| ==> i <= at)
    decreases |v| - i
  {
    if i >= |v| then |v|
    else if v[i] == '\\' then Closing(v, q, i + 2)
    else if v[i] == q then i
    else Closing(v, q, i + 1)
  }

  function CutComment(v: string): string {
    if v == "" then "" else if v[0] == '#' then "" else [v[0]] + CutComment(v[1..])
  }

  function Unquoted(v0: string): string {
    var v := TrimSpace(v0);
    if v == "" then v
    else if v[0] != '\"' && v[0] != '\'' then
      if '#' in v then TrimSpace(CutComment(v)) else v
    else
      var i := Closing(v, v[0], 1);
      if i >= |v| then v[1..]
      else if v[0] == '\"' then Unescape(v[1..i])
      else v[1..i]
  }

  /** `unquote`. */
  method Unquote(raw: string) returns (s: string)
    ensures s == Unquoted(raw)
  {
    var v := TrimSpace(raw);
    if |v| == 0 {
      return v;
    }
    var q := v[0];
    if q != '\"' && q != '\'' {
      if '#' in v {
        v := TrimSpace(CutComment(v));
      }
      return v;
    }
    var i := 1;
    while i < |v|
      invariant 1 <= i <= |v| + 1 && Closing(v, q, 1) == Closing(v, q, i)
    {
      if v[i] == '\\' {
        i := i + 2;
        continue;
      }
      if v[i] == q {
        s := v[1..i];
        if q == '\"' {
          s := ReplaceAll(s, '\\', '\"', '\"');
          s := ReplaceAll(s, '\\', '\\', '\\');
        }
        return s;
      }
      i := i + 1;
    }
    return v[1..];
  }

  lemma {:induction false} ClosingAfterEscape(v: string, i: nat, s: string, rest: string)
    requires i <= |v| && v[i..] == Escape(s) + ['\"'] + rest
    ensures Closing(v, '\"', i) == i + |Escape(s)|
    decreases |s|
  {
    var tail := Escape(s) + ['\"'] + rest;
    assert v[i] == tail[0];
    if s != "" {
      var step := if s[0] == '\\' || s[0] == '\"' then 2 else 1;
      assert tail[step..] == Escape(s[1..]) + ['\"'] + rest;
      assert v[i + step..] == tail[step..];
      ClosingAfterEscape(v, i + step, s[1..], rest);
    }
  }

  lemma QuoteIsSolid()
    ensures !IsSpace('\"') && !IsSpace('\'')
  {
  }

  function Quote(s: string): string { ['\"'] + Escape(s) + ['\"'] }

  /** A basic string is read back, whatever follows its closing quote. */
  lemma QuotedIsRead(s: string, junk: string)
    ensures Unquoted(Quote(s) + junk) == s
  {
    hide DropRight, DropLeft, IsSpace, TrimSpace, Unescape, Escape, Closing;
    var end := DropRight(IsSpace, junk);
    QuoteIsSolid();
    TrimKeeps(Quote(s), junk);
    var v := Quote(s) + end;
    assert v[1..] == Escape(s) + ['\"'] + end;
    ClosingAfterEscape(v, 1, s, end);
    assert v[1..1 + |Escape(s)|] == Escape(s);
    UnescapeUndoesEscape(s);
  }

  lemma {:induction false} NothingCloses(v: string, q: char, i: nat)
    requires i <= |v| && q !in v[i..]
    ensures Closing(v, q, i) == |v|
    decreases |v| - i
  {
    if i < |v| {
      assert v[i] == v[i..][0];
      if v[i] != '\\' {
        assert v[i + 1..] == v[i..][1..];
        NothingCloses(v, q, i + 1);
      } else if i + 2 <= |v| {
        assert v[i + 2..] == v[i..][2..];
        NothingCloses(v, q, i + 2);
      }
    }
  }

  /** A quote that is never closed: the rest of the line is taken as it stands. */
  lemma UnclosedIsTheRest(q: char, s: string)
    requires q in "\"'" && q !in s && (s != "" ==> !IsSpace(s[|s| - 1]))
    ensures Unquoted([q] + s) == s
  {
    hide DropRight, DropLeft, IsSpace, TrimSpace, Unescape, Closing;
    QuoteIsSolid();
    var v := [q] + s;
    SolidIsKept(v);
    assert v[1..] == s;
    NothingCloses(v, q, 1);
  }

  // -------------------------------------------------------- single-quoted text

  /** How many backslashes a text ends in. */
  function EndRun(s: string): nat {
    if s != "" && s[|s| - 1] == '\\' then 1 + EndRun(s[..|s| - 1]) else 0
  }

  lemma {:induction false} EndRunOfConcat(a: string, b: string)
    ensures EndRun(b) <= |b|
    ensures EndRun(a + b) == if EndRun(b) == |b| then |b| + EndRun(a) else EndRun(b)
  {
    if b == "" {
      assert a + b == a;
    } else {
      assert (a + b)[..|a + b| - 1] == a + b[..|b| - 1];
      EndRunOfConcat(a, b[..|b| - 1]);
    }
  }

  lemma EndRunStep(s: string, step: nat)
    requires s != "" && step == if s[0] != '\\' then 1 else if |s| == 1 then 0 else 2
    ensures step == 0 ==> EndRun(s) == 1
    ensures step > 0 ==> EndRun(s) == EndRun(s[step..]) || EndRun(s) == EndRun(s[step..]) + 2
  {
    if step == 0 {
      assert s[..0] == "";
    } else {
      var head := s[..step];
      assert s == head + s[step..];
      EndRunOfConcat(head, s[step..]);
      assert EndRun(head[..1]) == if s[0] == '\\' then 1 else 0;
      assert EndRun(head) == if step == 2 && s[1] == '\\' then 2 else 0;
    }
  }

  /** Inside single quotes the scan still jumps over a backslash and what follows it. */
  lemma {:induction false} ClosingAfterLiteral(v: string, i: nat, s: string, rest: string)
    requires i <= |v| && v[i..] == s + ['\''] + rest && '\'' !in s
    ensures Closing(v, '\'', i) == if EndRun(s) % 2 == 0 then i + |s| else Closing(v, '\'', i + |s| + 1)
    decreases |s|
  {
    var tail := s + ['\''] + rest;
    assert v[i] == tail[0];
    if s != "" {
      var step := if s[0] != '\\' then 1 else if |s| == 1 then 0 else 2;
      EndRunStep(s, step);
      hide EndRun;
      if step > 0 {
        assert tail[step..] == s[step..] + ['\''] + rest;
        assert v[i + step..] == tail[step..];
        ClosingAfterLiteral(v, i + step, s[step..], rest);
      }
    }
  }

  /** A literal string is read back exactly when it does not end in an odd run of
      backslashes: TOML gives a backslash no meaning there, the scan does. */
  lemma LiteralIsRead(s: string, junk: string)
    requires '\'' !in s
    ensures Unquoted(['\''] + s + ['\''] + junk) == s <==> EndRun(s) % 2 == 0
  {
    hide DropRight, DropLeft, IsSpace, TrimSpace, Closing, EndRun;
    QuoteIsSolid();
    var kept, end := ['\''] + s + ['\''], DropRight(IsSpace, junk);
    TrimKeeps(kept, junk);
    var v := kept + end;
    assert v[1..] == s + ['\''] + end;
    ClosingAfterLiteral(v, 1, s, end);
    assert v[1..1 + |s|] == s;
  }
}
