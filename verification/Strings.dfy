/** Text as the source's string functions see it. A `char` is a Unicode code point, so a
    text is a valid UTF-8 string; where the source counts bytes, `ByteLength` does. */
module Strings {

  /** What Go's `unicode.IsSpace` accepts. */
  predicate IsSpace(c: char) {
    || c in " \t\n\r" || c == '\U{000B}' || c == '\U{000C}' || c == '\U{0085}' || c == '\U{00A0}'
    || c == '\U{1680}' || '\U{2000}' <= c <= '\U{200A}' || c == '\U{2028}' || c == '\U{2029}' || c == '\U{202F}'
    || c == '\U{205F}' || c == '\U{3000}'
  }

  function DropLeft(p: char -> bool, s: string): (out: string)
    ensures |out| <= |s|
  {
    if s != "" && p(s[0]) then DropLeft(p, s[1..]) else s
  }

  function DropRight(p: char -> bool, s: string): string {
    if s != "" && p(s[|s| - 1]) then DropRight(p, s[..|s| - 1]) else s
  }

  /** `strings.TrimSpace`. */
  function TrimSpace(s: string): string { DropRight(IsSpace, DropLeft(IsSpace, s)) }

  predicate All(p: char -> bool, s: string) { forall c | c in s :: p(c) }

  lemma {:induction false} DropLeftStops(p: char -> bool, pad: string, s: string)
    requires All(p, pad) && s != "" && !p(s[0])
    ensures DropLeft(p, pad + s) == s
  {
    if pad == "" {
      assert pad + s == s;
    } else {
      assert (pad + s)[1..] == pad[1..] + s;
      DropLeftStops(p, pad[1..], s);
    }
  }

  /** Trimming on the right leaves everything up to a character it does not trim. */
  lemma {:induction false} DropRightStops(p: char -> bool, s: string, tail: string)
    requires s != "" && !p(s[|s| - 1])
    ensures DropRight(p, s + tail) == s + DropRight(p, tail)
  {
    if tail == "" {
      assert s + tail == s;
    } else if p(tail[|tail| - 1]) {
      assert (s + tail)[..|s + tail| - 1] == s + tail[..|tail| - 1];
      DropRightStops(p, s, tail[..|tail| - 1]);
    }
  }

  lemma {:induction false} DropRightAll(p: char -> bool, pad: string)
    requires All(p, pad)
    ensures DropRight(p, pad) == ""
  {
    if pad != "" {
      DropRightAll(p, pad[..|pad| - 1]);
    }
  }

  lemma {:induction false} DropLeftAll(p: char -> bool, pad: string)
    requires All(p, pad)
    ensures DropLeft(p, pad) == ""
  {
    if pad != "" {
      DropLeftAll(p, pad[1..]);
    }
  }

  /** Trimming a text that begins and ends with something solid cuts only what follows. */
  lemma TrimKeeps(kept: string, junk: string)
    requires kept != "" && !IsSpace(kept[0]) && !IsSpace(kept[|kept| - 1])
    ensures TrimSpace(kept + junk) == kept + DropRight(IsSpace, junk)
  {
    DropRightStops(IsSpace, kept, junk);
    assert DropLeft(IsSpace, kept + junk) == kept + junk;
  }

  predicate Blank(s: string) { All(IsSpace, s) }

  /** Blank is what trimming leaves nothing of. */
  lemma {:induction false} TrimmedAway(s: string)
    ensures TrimSpace(s) == "" <==> Blank(s)
  {
    if Blank(s) {
      DropLeftAll(IsSpace, s);
    } else {
      LeftKeepsSolid(s);
      var left := DropLeft(IsSpace, s);
      DropRightStops(IsSpace, left[..1], left[1..]);
      assert left == left[..1] + left[1..];
    }
  }

  lemma {:induction false} LeftKeepsSolid(s: string)
    requires !Blank(s)
    ensures DropLeft(IsSpace, s) != "" && !IsSpace(DropLeft(IsSpace, s)[0])
  {
    if IsSpace(s[0]) {
      assert s == [s[0]] + s[1..];
      LeftKeepsSolid(s[1..]);
    }
  }

  lemma SolidIsKept(s: string)
    requires s != "" && !IsSpace(s[0]) && !IsSpace(s[|s| - 1])
    ensures TrimSpace(s) == s
  {
  }

  /** Bytes of one code point in UTF-8. */
  function Utf8Size(c: char): nat {
    if c < '\U{0080}' then 1 else if c < '\U{0800}' then 2 else if c < '\U{10000}' then 3 else 4
  }

  function ByteLength(s: string): nat {
    if s == "" then 0 else Utf8Size(s[0]) + ByteLength(s[1..])
  }
}
