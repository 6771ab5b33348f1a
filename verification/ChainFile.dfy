/** The text of a chain file, runstore/file.go. */
module ChainFile {
  import opened Results
  import opened RunStore
  import opened Strings

  // The line reader, the append that first terminates an unterminated last line, and the
  // full rewrite.

  /** The scanner refuses a line that fills its buffer, in bytes. */
  const MAX_LINE := 8_388_608

  /** The JSON encoding of records. */
  datatype Codec = Codec(encode: Record -> string, decode: string -> Option<Record>)
  {
    /** What is assumed of the encoder: it is undone by the decoder, and writes an
        object on one line, so neither blank nor with blanks at its ends. */
    ghost predicate Lawful() {
      forall r: Record ::
        decode(encode(r)) == Some(r)
        && encode(r) != "" && !IsSpace(encode(r)[0]) && !IsSpace(encode(r)[|encode(r)| - 1])
        && '\n' !in encode(r)
    }
  }

  /** Schema checks on a decoded record. */
  predicate Loadable(r: Record) {
    1 <= r.version <= VERSION && (r.version < VERSION ==> r.snapshot == "")
  }

  function DecodeLine(c: Codec, raw: string): Option<Record> {
    var r := c.decode(raw);
    if r.Some? && Loadable(r.value) then r else None
  }

  /** The length of the line the text begins with, its newline not counted. */
  function LineEnd(s: string): (n: nat)
    ensures n <= |s| && '\n' !in s[..n] && (n < |s| ==> s[n] == '\n')
  {
    if s == "" || s[0] == '\n' then 0
    else
      assert s == [s[0]] + s[1..];
      1 + LineEnd(s[1..])
  }

  /** What one line contributes: nothing if blank, a record, or an error. */
  function ParseLine(c: Codec, line: string): Option<seq<Record>> {
    if ByteLength(line) >= MAX_LINE then None
    else if TrimSpace(line) == "" then Some([])
    else
      var r := DecodeLine(c, TrimSpace(line));
      if r.Some? then Some([r.value]) else None
  }

  function Both(a: Option<seq<Record>>, b: Option<seq<Record>>): Option<seq<Record>> {
    if a.Some? && b.Some? then Some(a.value + b.value) else None
  }

  function AfterLine(s: string): (rest: string)
    requires s != ""
    ensures |rest| < |s|
  {
    if LineEnd(s) < |s| then s[LineEnd(s) + 1..] else ""
  }

  /** The records a file's bytes parse to, or nothing on an error. */
  function Parse(c: Codec, file: string): Option<seq<Record>>
    decreases |file|
  {
    if file == "" then Some([])
    else Both(ParseLine(c, file[..LineEnd(file)]), Parse(c, AfterLine(file)))
  }

  method ReadAll(c: Codec, file: string) returns (out: Option<seq<Record>>)
    ensures out == Parse(c, file)
  {
    var records: seq<Record> := [];
    var rest := file;
    BothEmpty(Parse(c, file));
    while rest != ""
      invariant Parse(c, file) == Both(Some(records), Parse(c, rest))
      decreases |rest|
    {
      var line := rest[..LineEnd(rest)];
      BothAssociates(Some(records), ParseLine(c, line), Parse(c, AfterLine(rest)));
      BothEmpty(Some(records));
      if ByteLength(line) >= MAX_LINE {
        return None;
      }
      var raw := TrimSpace(line);
      if raw != "" {
        var r := DecodeLine(c, raw);
        if r.None? {
          return None;
        }
        records := records + [r.value];
      }
      rest := AfterLine(rest);
    }
    BothEmpty(Some(records));
    out := Some(records);
  }

  /** The writes of `Append`: a separator if the last line lacks its newline, then
      the record's line. */
  method AppendLine(file: string, line: string) returns (out: string)
    ensures out == Appended(file, line)
  {
    out := file;
    if |out| > 0 {
      if out[|out| - 1] != '\n' {
        out := out + "\n";
      }
    }
    out := out + (line + "\n");
  }

  function Terminated(file: string): string {
    if file == "" || file[|file| - 1] == '\n' then file else file + "\n"
  }

  function Appended(file: string, line: string): string {
    Terminated(file) + (line + "\n")
  }

  /** The full text written by a rotation. */
  function Text(c: Codec, rs: seq<Record>): string {
    if rs == [] then "" else Text(c, rs[..|rs| - 1]) + (c.encode(rs[|rs| - 1]) + "\n")
  }

  method WriteAll(c: Codec, rs: seq<Record>) returns (file: string)
    ensures file == Text(c, rs)
  {
    file := "";
    for i := 0 to |rs|
      invariant file == Text(c, rs[..i])
    {
      assert rs[..i + 1][..i] == rs[..i];
      file := file + (c.encode(rs[i]) + "\n");
    }
    assert rs[..|rs|] == rs;
  }

  // ------------------------------------------------------------------ framing

  lemma BothAssociates(a: Option<seq<Record>>, b: Option<seq<Record>>, d: Option<seq<Record>>)
    ensures Both(Both(a, b), d) == Both(a, Both(b, d))
  {
    if a.Some? && b.Some? && d.Some? {
      assert (a.value + b.value) + d.value == a.value + (b.value + d.value);
    }
  }

  lemma BothEmpty(a: Option<seq<Record>>)
    ensures Both(Some([]), a) == a && Both(a, Some([])) == a
  {
    if a.Some? {
      assert [] + a.value == a.value && a.value + [] == a.value;
    }
  }

  lemma {:induction false} LineEndIs(s: string, n: nat)
    requires n <= |s| && '\n' !in s[..n] && (n < |s| ==> s[n] == '\n')
    ensures LineEnd(s) == n
  {
  }

  /** A text that ends its last line parses independently of what follows it. */
  lemma {:induction false} ParseConcat(c: Codec, a: string, b: string)
    requires a != "" ==> a[|a| - 1] == '\n'
    ensures Parse(c, a + b) == Both(Parse(c, a), Parse(c, b))
    decreases |a|
  {
    if a == "" {
      assert a + b == b;
      BothEmpty(Parse(c, b));
    } else {
      var n := LineEnd(a);
      assert a[..|a|] == a && a[|a| - 1] in a;
      assert (a + b)[..n] == a[..n];
      LineEndIs(a + b, n);
      assert (a + b)[n + 1..] == a[n + 1..] + b;
      ParseConcat(c, a[n + 1..], b);
      BothAssociates(ParseLine(c, a[..n]), Parse(c, a[n + 1..]), Parse(c, b));
    }
  }

  /** A missing final newline changes nothing. */
  lemma {:induction false} FinalNewlineIsOptional(c: Codec, file: string)
    ensures Parse(c, Terminated(file)) == Parse(c, file)
    decreases |file|
  {
    if file != "" && file[|file| - 1] != '\n' {
      var n := LineEnd(file);
      assert (file + "\n")[..n] == file[..n];
      LineEndIs(file + "\n", n);
      if n < |file| {
        assert (file + "\n")[n + 1..] == file[n + 1..] + "\n";
        FinalNewlineIsOptional(c, file[n + 1..]);
      } else {
        assert (file + "\n")[n + 1..] == "";
      }
    }
  }

  lemma RecordLineParses(c: Codec, r: Record)
    requires c.Lawful()
    ensures Parse(c, c.encode(r) + "\n")
         == if Readable(c, r) then Some([r]) else None
  {
    var line := c.encode(r);
    SolidIsKept(line);
    assert (line + "\n")[..|line|] == line;
    LineEndIs(line + "\n", |line|);
    assert (line + "\n")[|line| + 1..] == "";
    BothEmpty(ParseLine(c, line));
  }

  /** If a file parses to `rs`, with or without a final newline, then after the
      writes of an append it parses to `rs` and the new record; this is so exactly
      when the record is of a version the reader knows and its line stays under
      the reader's limit of 8 MiB. A longer line makes the whole file unreadable. */
  lemma AppendExtendsParse(c: Codec, file: string, rs: seq<Record>, r: Record)
    requires c.Lawful() && Parse(c, file) == Some(rs)
    ensures Parse(c, Appended(file, c.encode(r)))
         == if Readable(c, r) then Some(rs + [r]) else None
  {
    FinalNewlineIsOptional(c, file);
    ParseConcat(c, Terminated(file), c.encode(r) + "\n");
    RecordLineParses(c, r);
  }

  /** What any one line does to the reading of its file, wherever it stands: a line of
      8 MiB, one that does not decode, and one of a version or shape the reader does not
      know make the whole file unreadable; a blank line does nothing; any other adds its
      record in its place. */
  lemma LineInFile(c: Codec, before: string, line: string, after: string)
    requires (before != "" ==> before[|before| - 1] == '\n') && '\n' !in line
    ensures Parse(c, before + (line + "\n" + after))
         == if ByteLength(line) >= 8_388_608 then None
            else if TrimSpace(line) == "" then Parse(c, before + after)
            else
              var r := c.decode(TrimSpace(line));
              if r.Some? && 1 <= r.value.version <= 4 && (r.value.version == 4 || r.value.snapshot == "")
              then Both(Parse(c, before), Both(Some([r.value]), Parse(c, after)))
              else None
  {
    ParseConcat(c, before, line + "\n" + after);
    ParseConcat(c, before, after);
    FirstLine(c, line, after);
    BothEmpty(Parse(c, after));
    LineIs(c, line);
    hide Parse, ParseLine, TrimSpace, ByteLength, LineEnd;
  }

  lemma FirstLine(c: Codec, line: string, after: string)
    requires '\n' !in line
    ensures Parse(c, line + "\n" + after) == Both(ParseLine(c, line), Parse(c, after))
  {
    var rest := line + "\n" + after;
    assert rest[..|line|] == line && rest[|line| + 1..] == after;
    LineEndIs(rest, |line|);
    hide ParseLine;
  }

  lemma LineIs(c: Codec, line: string)
    ensures ParseLine(c, line)
         == if ByteLength(line) >= 8_388_608 then None
            else if TrimSpace(line) == "" then Some([])
            else
              var r := c.decode(TrimSpace(line));
              if r.Some? && 1 <= r.value.version <= 4 && (r.value.version == 4 || r.value.snapshot == "")
              then Some([r.value])
              else None
  {
  }

  /** A record the reader will take back. */
  predicate Readable(c: Codec, r: Record) { ByteLength(c.encode(r)) < MAX_LINE && Loadable(r) }

  predicate AllReadable(c: Codec, rs: seq<Record>) { forall i | 0 <= i < |rs| :: Readable(c, rs[i]) }

  lemma AllReadableSnoc(c: Codec, rs: seq<Record>)
    requires rs != []
    ensures rs == rs[..|rs| - 1] + [rs[|rs| - 1]]
    ensures AllReadable(c, rs) <==> AllReadable(c, rs[..|rs| - 1]) && Readable(c, rs[|rs| - 1])
  {
  }

  /** What a rotation writes reads back as what it wrote, under the same limits. */
  lemma {:induction false} WriteThenRead(c: Codec, rs: seq<Record>)
    requires c.Lawful()
    ensures Parse(c, Text(c, rs)) == if AllReadable(c, rs) then Some(rs) else None
  {
    if rs == [] {
      assert Text(c, rs) == "";
    } else {
      hide *;
      var front, last := rs[..|rs| - 1], rs[|rs| - 1];
      WriteThenRead(c, front);
      RecordLineParses(c, last);
      ParseConcat(c, Text(c, front), c.encode(last) + "\n");
      AllReadableSnoc(c, rs);
    }
  }

  /** Every record `Append` writes is of a version the reader knows, so only the
      line limit can keep a stored record from being read back. */
  lemma AppendedRecordsAreLoadable(h: Hasher, st: Store, r: Record, now: int)
    ensures Loadable(Linkup(h, st, r, now))
  {
  }

  // --------------------------------------------------------------------- runs

  /** The text of corridor `k`'s file after a run: appended lines, and what a rotation
      writes when what it reads is a chain above the ceiling. */
  ghost function TextAfter(c: Codec, h: Hasher, ops: seq<Op>, k: string): string {
    if ops == [] then ""
    else
      var before, op := TextAfter(c, h, ops[..|ops| - 1], k), ops[|ops| - 1];
      match op
      case AppendOp(r, now) =>
        if Appends(op, k) then Appended(before, c.encode(Linkup(h, After(h, ops[..|ops| - 1]), r, now))) else before
      case RotateOp(n) =>
        var read := Parse(c, before);
        if read.Some? && |read.value| > n > 0 && Chained(h, read.value) then Text(c, Rotated(h, read.value, n)) else before
      case Reopen => before
  }

  /** No record a run ever stored needs a line the reader refuses. */
  ghost predicate LinesFit(c: Codec, h: Hasher, ops: seq<Op>) {
    forall i: nat, k: string | i <= |ops| :: AllFit(c, FileOf(After(h, ops[..i]), k))
  }

  predicate AllFit(c: Codec, rs: seq<Record>) { forall i | 0 <= i < |rs| :: ByteLength(c.encode(rs[i])) < MAX_LINE }

  lemma {:induction false} HistoryIsLoadable(ops: seq<Op>, k: string)
    ensures forall i | 0 <= i < |History(ops, k)| :: Loadable(History(ops, k)[i])
  {
    if ops != [] {
      HistoryIsLoadable(ops[..|ops| - 1], k);
    }
  }

  lemma StoredIsLoadable(h: Hasher, ops: seq<Op>, k: string)
    ensures forall i | 0 <= i < |FileOf(After(h, ops), k)| :: Loadable(FileOf(After(h, ops), k)[i])
  {
    EveryRunIsFaithful(h, ops, k);
    HistoryIsLoadable(ops, k);
    var rs, history := FileOf(After(h, ops), k), History(ops, k);
    forall i | 0 <= i < |rs|
      ensures Loadable(rs[i])
    {
      assert Content(rs[i]) == Contents(rs)[i] == history[|history| - |rs| + i];
    }
  }

  lemma StoredIsReadable(c: Codec, h: Hasher, ops: seq<Op>, k: string)
    requires AllFit(c, FileOf(After(h, ops), k))
    ensures AllReadable(c, FileOf(After(h, ops), k))
  {
    StoredIsLoadable(h, ops, k);
  }

  /** The bytes carry the model of records: after any run whose lines fit, every file
      reads back as the records the run left. */
  lemma {:induction false} FilesReadBack(c: Codec, h: Hasher, ops: seq<Op>, k: string)
    requires c.Lawful() && LinesFit(c, h, ops)
    ensures Parse(c, TextAfter(c, h, ops, k)) == Some(FileOf(After(h, ops), k))
  {
    if ops != [] {
      hide LinesFit, AllFit, AllReadable, Appended, Parse, Text, FileOf, AfterAppend, AfterRotate, Reseal, Newest, Linkup, Chained;
      var front, op := ops[..|ops| - 1], ops[|ops| - 1];
      assert ops == front + [op];
      FrontFits(c, h, ops);
      FilesReadBack(c, h, front, k);
      StoredIsReadable(c, h, ops, k);
      match op
      case AppendOp(r, now) => AppendReadsBack(c, h, After(h, front), r, now, k, TextAfter(c, h, front, k));
      case RotateOp(n) =>
        EveryRunIsFaithful(h, front, k);
        if n > 0 {
          RotateReadsBack(c, h, After(h, front), n, k);
        }
      case Reopen => SameFiles(h, After(h, front), k);
    }
  }

  lemma SameFiles(h: Hasher, st: Store, k: string)
    ensures FileOf(Exec(h, st, Reopen), k) == FileOf(st, k)
  {
  }

  lemma AppendReadsBack(c: Codec, h: Hasher, st: Store, r: Record, now: int, k: string, text: string)
    requires c.Lawful() && Parse(c, text) == Some(FileOf(st, k))
    requires AllReadable(c, FileOf(AfterAppend(h, st, r, now), k))
    ensures var op := AppendOp(r, now);
            Parse(c, if Appends(op, k) then Appended(text, c.encode(Linkup(h, st, r, now))) else text)
            == Some(FileOf(AfterAppend(h, st, r, now), k))
  {
    var rs, x := FileOf(st, k), Linkup(h, st, r, now);
    if Appends(AppendOp(r, now), k) {
      assert FileOf(AfterAppend(h, st, r, now), k) == rs + [x];
      assert Readable(c, (rs + [x])[|rs|]);
      AppendExtendsParse(c, text, rs, x);
    }
  }

  lemma RotateReadsBack(c: Codec, h: Hasher, st: Store, n: nat, k: string)
    requires c.Lawful() && n > 0 && Indexed(st, k)
    requires AllReadable(c, FileOf(AfterRotate(h, st, n), k))
    ensures FileOf(AfterRotate(h, st, n), k) == Rotated(h, FileOf(st, k), n)
    ensures Parse(c, Text(c, Rotated(h, FileOf(st, k), n))) == Some(FileOf(AfterRotate(h, st, n), k))
  {
    RotateIndexes(h, st, k, n);
    WriteThenRead(c, Rotated(h, FileOf(st, k), n));
  }

  lemma FrontFits(c: Codec, h: Hasher, ops: seq<Op>)
    requires ops != [] && LinesFit(c, h, ops)
    ensures LinesFit(c, h, ops[..|ops| - 1])
    ensures forall k :: AllFit(c, FileOf(After(h, ops), k))
  {
    var front := ops[..|ops| - 1];
    forall i: nat, k: string | i <= |front|
      ensures AllFit(c, FileOf(After(h, front[..i]), k))
    {
      assert front[..i] == ops[..i];
    }
    assert ops[..|ops|] == ops;
  }

  /** And the first line that does not fit makes its file unreadable. */
  lemma LongLineIsFatal(c: Codec, h: Hasher, ops: seq<Op>, r: Record, now: int)
    requires c.Lawful() && LinesFit(c, h, ops) && r.corridor != ""
    ensures Parse(c, TextAfter(c, h, ops + [AppendOp(r, now)], Upper(r.corridor))) == None
       <==> ByteLength(c.encode(Linkup(h, After(h, ops), r, now))) >= MAX_LINE
  {
    var all, k := ops + [AppendOp(r, now)], Upper(r.corridor);
    assert all[..|all| - 1] == ops;
    FilesReadBack(c, h, ops, k);
    AppendedRecordsAreLoadable(h, After(h, ops), r, now);
    AppendExtendsParse(c, TextAfter(c, h, ops, k), FileOf(After(h, ops), k), Linkup(h, After(h, ops), r, now));
  }
}
