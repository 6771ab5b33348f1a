/** The buffering gzip response writer of server/gzip.go and the response it produces. */
module GzipWriter {
  import opened Results

  // Gzip itself is symbolic: what a gzip writer sends is a chunk that names the bytes
  // fed to it.

  type Bytes = seq<bv8>

  const MIN_GZIP_SIZE := 512

  /** The response headers the writer looks at or changes; empty means absent. */
  datatype Headers = Headers(encoding: string, contentType: string, contentLength: Option<nat>)

  /** What reaches the connection's body, in order. */
  datatype Chunk = Raw(bytes: Bytes) | GzData(bytes: Bytes) | GzFlush | GzClose

  datatype Sent = Sent(status: int, headers: Headers)

  /** The server's own response writer. `sent` is the header as first sent,
      `implicit` counts headers it had to send on its own, `superfluous` the calls
      that came after one was sent and had no effect. */
  datatype Wire = Wire(headers: Headers, sent: Option<Sent>, implicit: nat, superfluous: nat, body: seq<Chunk>)
  {
    function WriteHeader(status: int): Wire {
      if sent.Some? then this.(superfluous := superfluous + 1)
      else this.(sent := Some(Sent(status, headers)))
    }

    function Ensure(): Wire {
      if sent.Some? then this else this.(sent := Some(Sent(200, headers)), implicit := implicit + 1)
    }

    function Write(c: Chunk): Wire { Ensure().(body := body + [c]) }

    function Flush(): Wire { Ensure() }
  }

  /** The fields of `gzipResponseWriter`, with the response writer it embeds. */
  datatype Writer = Writer(wire: Wire, status: int, wroteHeader: bool, compressing: bool, buf: Bytes)

  predicate BodyAllowed(status: int) { status != 204 && status != 304 }

  function StatusOr200(status: int): int { if status == 0 then 200 else status }

  function SendHeader(g: Writer): Writer {
    if g.wroteHeader then g
    else g.(wire := g.wire.WriteHeader(StatusOr200(g.status)), wroteHeader := true)
  }

  function OnWriteHeader(g: Writer, code: int): Writer {
    if g.wroteHeader || g.status != 0 then g
    else
      var g1 := g.(status := code);
      if g.wire.headers.encoding != "" || !BodyAllowed(code)
      then g1.(wire := g1.wire.WriteHeader(code), wroteHeader := true)
      else g1
  }

  function PassThrough(g: Writer, p: Bytes): Writer {
    var g1 := SendHeader(g);
    g1.(wire := g1.wire.Write(Raw(p)))
  }

  /** The header changes made when compression starts. */
  function GzipHeaders(sniff: Bytes -> string, h: Headers, buf: Bytes, p: Bytes): Headers {
    Headers("gzip",
            if h.contentType != "" then h.contentType
            else if buf != [] then sniff(buf)
            else if p != [] then sniff(p)
            else "",
            None)
  }

  function StartGzip(sniff: Bytes -> string, g: Writer, p: Bytes): Writer {
    var g1 := g.(compressing := true,
                 wire := g.wire.(headers := GzipHeaders(sniff, g.wire.headers, g.buf, p)));
    var g2 := SendHeader(g1);
    var g3 := if g.buf != [] then g2.(wire := g2.wire.Write(GzData(g.buf)), buf := []) else g2;
    if p != [] then g3.(wire := g3.wire.Write(GzData(p))) else g3
  }

  function OnWrite(sniff: Bytes -> string, g: Writer, p: Bytes): Writer {
    if p == [] then g
    else if g.wroteHeader && !g.compressing then g.(wire := g.wire.Write(Raw(p)))
    else if g.status != 0 && !BodyAllowed(g.status) then PassThrough(g, p)
    else if g.wire.headers.encoding != "" then PassThrough(g, p)
    else if g.compressing then g.(wire := g.wire.Write(GzData(p)))
    else if |g.buf| + |p| >= MIN_GZIP_SIZE then StartGzip(sniff, g, p)
    else g.(buf := g.buf + p)
  }

  function OnFlush(sniff: Bytes -> string, g: Writer): Writer {
    var g1 :=
      if g.compressing then g.(wire := g.wire.Write(GzFlush))
      else if g.buf != [] then
        var s := StartGzip(sniff, g, []);
        s.(wire := s.wire.Write(GzFlush))
      else g;
    g1.(wire := g1.wire.Flush())
  }

  function Finish(g: Writer): Writer {
    if g.compressing then g.(wire := g.wire.Write(GzClose))
    else
      var g1 := SendHeader(g);
      if g.buf != [] then g1.(wire := g1.wire.Write(Raw(g.buf))) else g1
  }

  class GzipResponseWriter {
    const sniff: Bytes -> string
    var wire: Wire
    var status: int
    var wroteHeader: bool
    var compressing: bool
    var buf: Bytes

    function Abs(): Writer reads this { Writer(wire, status, wroteHeader, compressing, buf) }

    constructor (sniff: Bytes -> string, headers: Headers)
      ensures this.sniff == sniff && Abs() == Fresh(headers)
    {
      this.sniff := sniff;
      wire := Wire(headers, None, 0, 0, []);
      status, wroteHeader, compressing, buf := 0, false, false, [];
    }

    method WriteHeader(code: int)
      modifies this
      ensures Abs() == OnWriteHeader(old(Abs()), code)
    {
      if wroteHeader || status != 0 {
        return;
      }
      status := code;
      if wire.headers.encoding != "" || !BodyAllowed(code) {
        wire := wire.WriteHeader(code);
        wroteHeader := true;
      }
    }

    method SendStatus()
      modifies this
      ensures Abs() == SendHeader(old(Abs()))
    {
      if !wroteHeader {
        var code := status;
        if code == 0 {
          code := 200;
        }
        wire := wire.WriteHeader(code);
        wroteHeader := true;
      }
    }

    method StartGzipAndWrite(p: Bytes)
      modifies this
      ensures Abs() == StartGzip(sniff, old(Abs()), p)
    {
      compressing := true;
      var h := wire.headers;
      if h.contentType == "" {
        if |buf| > 0 {
          h := h.(contentType := sniff(buf));
        } else if |p| > 0 {
          h := h.(contentType := sniff(p));
        }
      }
      h := h.(contentLength := None);
      h := h.(encoding := "gzip");
      wire := wire.(headers := h);
      SendStatus();
      if |buf| > 0 {
        wire := wire.Write(GzData(buf));
        buf := [];
      }
      if |p| > 0 {
        wire := wire.Write(GzData(p));
      }
    }

    method Write(p: Bytes)
      modifies this
      ensures Abs() == OnWrite(sniff, old(Abs()), p)
    {
      if |p| == 0 {
        return;
      }
      if wroteHeader && !compressing {
        wire := wire.Write(Raw(p));
        return;
      }
      if status != 0 && !BodyAllowed(status) {
        SendStatus();
        wire := wire.Write(Raw(p));
        return;
      }
      if wire.headers.encoding != "" {
        SendStatus();
        wire := wire.Write(Raw(p));
        return;
      }
      if compressing {
        wire := wire.Write(GzData(p));
        return;
      }
      if |buf| + |p| >= MIN_GZIP_SIZE {
        StartGzipAndWrite(p);
        return;
      }
      buf := buf + p;
    }

    method Flush()
      modifies this
      ensures Abs() == OnFlush(sniff, old(Abs()))
    {
      if compressing {
        wire := wire.Write(GzFlush);
      } else if |buf| > 0 {
        StartGzipAndWrite([]);
        wire := wire.Write(GzFlush);
      }
      wire := wire.Flush();
    }

    method Close()
      modifies this
      ensures Abs() == Finish(old(Abs()))
    {
      if compressing {
        wire := wire.Write(GzClose);
        return;
      }
      SendStatus();
      if |buf| > 0 {
        wire := wire.Write(Raw(buf));
      }
    }
  }

  // --------------------------------------------------------------------- runs

  datatype Op = WriteHeaderOp(code: int) | WriteOp(p: Bytes) | FlushOp

  function Fresh(h: Headers): Writer { Writer(Wire(h, None, 0, 0, []), 0, false, false, []) }

  function Step(sniff: Bytes -> string, g: Writer, op: Op): Writer {
    match op
    case WriteHeaderOp(code) => OnWriteHeader(g, code)
    case WriteOp(p) => OnWrite(sniff, g, p)
    case FlushOp => OnFlush(sniff, g)
  }

  /** The writer after a handler that found headers `h` made these calls. */
  function After(sniff: Bytes -> string, h: Headers, ops: seq<Op>): Writer {
    if ops == [] then Fresh(h) else Step(sniff, After(sniff, h, ops[..|ops| - 1]), ops[|ops| - 1])
  }

  /** The whole response. */
  function Response(sniff: Bytes -> string, h: Headers, ops: seq<Op>): Wire {
    Finish(After(sniff, h, ops)).wire
  }

  /** Everything the handler wrote. */
  function Total(ops: seq<Op>): Bytes {
    if ops == [] then []
    else
      var op := ops[|ops| - 1];
      Total(ops[..|ops| - 1]) + if op.WriteOp? then op.p else []
  }

  predicate Flushes(ops: seq<Op>) {
    ops != [] && (ops[|ops| - 1].FlushOp? || Flushes(ops[..|ops| - 1]))
  }

  /** A flush that finds something written. */
  predicate FlushesSome(ops: seq<Op>) {
    ops != [] && (FlushesSome(ops[..|ops| - 1]) || (ops[|ops| - 1].FlushOp? && Total(ops[..|ops| - 1]) != []))
  }

  /** `WriteHeader`, if it is called at all, is called first, with a final status. */
  predicate StatusFirst(ops: seq<Op>) {
    forall i | 0 <= i < |ops| && ops[i].WriteHeaderOp? :: i == 0 && ops[i].code >= 200
  }

  function StatusOf(ops: seq<Op>): int {
    if ops != [] && ops[0].WriteHeaderOp? then ops[0].code else 0
  }

  /** A response that is never compressed: already encoded, or without a body. */
  predicate Bypassed(h: Headers, ops: seq<Op>) {
    h.encoding != "" || (StatusOf(ops) != 0 && !BodyAllowed(StatusOf(ops)))
  }

  /** Whether the header must be out already once these calls were made. */
  predicate HeaderDue(h: Headers, ops: seq<Op>) {
    Total(ops) != [] || (Bypassed(h, ops) && StatusOf(ops) != 0)
  }

  /** A flush before the header is out and before there is anything to send. */
  predicate EarlyFlush(h: Headers, ops: seq<Op>) {
    ops != [] && (EarlyFlush(h, ops[..|ops| - 1])
                  || (ops[|ops| - 1].FlushOp? && !HeaderDue(h, ops[..|ops| - 1])))
  }

  /** The point after which compression has begun. */
  predicate Started(h: Headers, ops: seq<Op>) {
    !Bypassed(h, ops) && (|Total(ops)| >= MIN_GZIP_SIZE || FlushesSome(ops))
  }

  /** A write with something in it after compression has begun. */
  predicate LateWrite(h: Headers, ops: seq<Op>) {
    ops != [] && (LateWrite(h, ops[..|ops| - 1])
                  || (ops[|ops| - 1].WriteOp? && ops[|ops| - 1].p != [] && Started(h, ops[..|ops| - 1])))
  }

  predicate AllRaw(cs: seq<Chunk>) { forall i | 0 <= i < |cs| :: cs[i].Raw? }

  predicate NoRaw(cs: seq<Chunk>) { forall i | 0 <= i < |cs| :: !cs[i].Raw? }

  function Payload(cs: seq<Chunk>): Bytes {
    if cs == [] then []
    else
      var c := cs[|cs| - 1];
      Payload(cs[..|cs| - 1]) + if c.Raw? || c.GzData? then c.bytes else []
  }

  /** What a client makes of the body: under an encoding the handler itself set, or
      none, the bytes as they are; under the gzip the writer added, the bytes fed
      to the gzip writer, provided the stream is nothing but that and was closed. */
  function Decoded(h: Headers, w: Wire): Option<Bytes> {
    if w.sent.None? then None
    else if w.sent.value.headers.encoding == h.encoding then
      if AllRaw(w.body) then Some(Payload(w.body)) else None
    else if w.body != [] && w.body[|w.body| - 1].GzClose? && NoRaw(w.body) then Some(Payload(w.body))
    else None
  }

  /** The bytes whose look decides the content type, when the handler set none:
      what was buffered when compression began or, if nothing was, the write that
      began it. */
  function Sniffed(h: Headers, ops: seq<Op>): Bytes {
    if ops == [] then []
    else
      var front, op := ops[..|ops| - 1], ops[|ops| - 1];
      if Started(h, front) then Sniffed(h, front)
      else if Total(front) != [] then Total(front)
      else if op.WriteOp? then op.p
      else []
  }

  function CompressedHeaders(sniff: Bytes -> string, h: Headers, ops: seq<Op>): Headers {
    Headers("gzip", if h.contentType != "" then h.contentType else sniff(Sniffed(h, ops)), None)
  }

  // ---------------------------------------------------------------- invariant

  predicate Bypassing(h: Headers, ops: seq<Op>, g: Writer) {
    && g.buf == [] && !g.compressing && g.wire.headers == h
    && AllRaw(g.wire.body) && Payload(g.wire.body) == Total(ops)
    && g.wroteHeader == HeaderDue(h, ops)
    && g.wire.sent == if HeaderDue(h, ops) then Some(Sent(StatusOr200(StatusOf(ops)), h)) else None
  }

  predicate Compressing(sniff: Bytes -> string, h: Headers, ops: seq<Op>, g: Writer) {
    && g.buf == [] && g.compressing && g.wroteHeader && Total(ops) != []
    && g.wire.headers == CompressedHeaders(sniff, h, ops)
    && g.wire.sent == Some(Sent(StatusOr200(StatusOf(ops)), g.wire.headers))
    && (NoRaw(g.wire.body) <==> !LateWrite(h, ops))
    && (NoRaw(g.wire.body) ==> Payload(g.wire.body) == Total(ops))
  }

  predicate Buffering(h: Headers, ops: seq<Op>, g: Writer) {
    && g.buf == Total(ops) && !g.compressing && !g.wroteHeader
    && g.wire.headers == h && g.wire.sent == None && g.wire.body == [] && !LateWrite(h, ops)
  }

  predicate Phase(sniff: Bytes -> string, h: Headers, ops: seq<Op>, g: Writer) {
    && g.status == StatusOf(ops) && g.wire.implicit == 0 && g.wire.superfluous == 0
    && if Bypassed(h, ops) then Bypassing(h, ops, g)
       else if Started(h, ops) then Compressing(sniff, h, ops, g)
       else Buffering(h, ops, g)
  }

  lemma PayloadSnoc(cs: seq<Chunk>, c: Chunk)
    ensures Payload(cs + [c]) == Payload(cs) + if c.Raw? || c.GzData? then c.bytes else []
    ensures AllRaw(cs + [c]) <==> AllRaw(cs) && c.Raw?
    ensures NoRaw(cs + [c]) <==> NoRaw(cs) && !c.Raw?
  {
  }

  lemma PayloadOfNone()
    ensures Payload([]) == [] && NoRaw([]) && AllRaw([]) && forall b: Bytes :: [] + b == b
  {
  }

  /** How the bookkeeping of a run grows by one call. */
  lemma Unfold(h: Headers, front: seq<Op>, op: Op)
    requires StatusFirst(front + [op])
    ensures var ops := front + [op];
            && StatusFirst(front)
            && Total(ops) == Total(front) + (if op.WriteOp? then op.p else [])
            && (FlushesSome(ops) <==> FlushesSome(front) || (op.FlushOp? && Total(front) != []))
            && (op.WriteHeaderOp? ==> front == [] && op.code >= 200 && StatusOf(ops) == op.code)
            && (!op.WriteHeaderOp? ==> StatusOf(ops) == StatusOf(front))
            && (LateWrite(h, ops) <==> LateWrite(h, front) || (op.WriteOp? && op.p != [] && Started(h, front)))
            && (EarlyFlush(h, ops) <==> EarlyFlush(h, front) || (op.FlushOp? && !HeaderDue(h, front)))
            && Sniffed(h, ops) == (if Started(h, front) then Sniffed(h, front)
                                   else if Total(front) != [] then Total(front)
                                   else if op.WriteOp? then op.p else [])
  {
  }

  lemma StatusKeepsPhase(sniff: Bytes -> string, h: Headers, code: int)
    requires code >= 200
    ensures Phase(sniff, h, [WriteHeaderOp(code)], OnWriteHeader(Fresh(h), code))
  {
    Unfold(h, [], WriteHeaderOp(code));
    assert [] + [WriteHeaderOp(code)] == [WriteHeaderOp(code)];
  }

  lemma WriteKeepsPhase(sniff: Bytes -> string, h: Headers, front: seq<Op>, p: Bytes, g: Writer)
    requires StatusFirst(front + [WriteOp(p)]) && Phase(sniff, h, front, g)
    ensures Phase(sniff, h, front + [WriteOp(p)], OnWrite(sniff, g, p))
  {
    hide *;
    if p == [] {
      WriteNothing(sniff, h, front, g);
    } else if Bypassed(h, front) {
      WriteWhileBypassing(sniff, h, front, p, g);
    } else if Started(h, front) {
      WriteWhileCompressing(sniff, h, front, p, g);
    } else {
      WriteWhileBuffering(sniff, h, front, p, g);
    }
  }

  lemma WriteWhileBypassing(sniff: Bytes -> string, h: Headers, front: seq<Op>, p: Bytes, g: Writer)
    requires StatusFirst(front + [WriteOp(p)]) && Phase(sniff, h, front, g)
    requires p != [] && Bypassed(h, front)
    ensures Phase(sniff, h, front + [WriteOp(p)], OnWrite(sniff, g, p))
  {
    Unfold(h, front, WriteOp(p));
    PayloadSnoc(g.wire.body, Raw(p));
    hide Total, FlushesSome, StatusFirst, LateWrite, Sniffed, Payload, NoRaw, AllRaw, StatusOf, StartGzip, Fed;
    hide Compressing, Buffering, Started;
    assert Bypassed(h, front + [WriteOp(p)]) <==> Bypassed(h, front);
  }

  lemma WriteNothing(sniff: Bytes -> string, h: Headers, front: seq<Op>, g: Writer)
    requires StatusFirst(front + [WriteOp([])]) && Phase(sniff, h, front, g)
    ensures Phase(sniff, h, front + [WriteOp([])], OnWrite(sniff, g, []))
  {
    Unfold(h, front, WriteOp([]));
    assert Total(front) + [] == Total(front);
    hide Total, FlushesSome, StatusFirst, LateWrite, Sniffed, Payload, NoRaw, AllRaw, StatusOf, StartGzip, Fed;
    var ops := front + [WriteOp([])];
    assert Bypassed(h, ops) <==> Bypassed(h, front);
    assert Started(h, ops) <==> Started(h, front);
  }

  lemma WriteWhileCompressing(sniff: Bytes -> string, h: Headers, front: seq<Op>, p: Bytes, g: Writer)
    requires StatusFirst(front + [WriteOp(p)]) && Phase(sniff, h, front, g)
    requires p != [] && !Bypassed(h, front) && Started(h, front)
    ensures Phase(sniff, h, front + [WriteOp(p)], OnWrite(sniff, g, p))
  {
    Unfold(h, front, WriteOp(p));
    PayloadSnoc(g.wire.body, Raw(p));
    hide Total, FlushesSome, StatusFirst, LateWrite, Sniffed, Payload, NoRaw, AllRaw, StatusOf, StartGzip, Fed;
    assert Bypassed(h, front + [WriteOp(p)]) <==> Bypassed(h, front);
  }

  lemma WriteWhileBuffering(sniff: Bytes -> string, h: Headers, front: seq<Op>, p: Bytes, g: Writer)
    requires StatusFirst(front + [WriteOp(p)]) && Phase(sniff, h, front, g)
    requires p != [] && !Bypassed(h, front) && !Started(h, front)
    ensures Phase(sniff, h, front + [WriteOp(p)], OnWrite(sniff, g, p))
  {
    Unfold(h, front, WriteOp(p));
    hide StartGzip, Fed, Total, FlushesSome, StatusFirst, LateWrite, Sniffed, Payload, NoRaw, AllRaw, StatusOf;
    assert Bypassed(h, front + [WriteOp(p)]) <==> Bypassed(h, front);
    if |g.buf| + |p| >= MIN_GZIP_SIZE {
      StartGzipIs(sniff, g, p);
    }
  }

  /** What starting compression leaves behind. */
  lemma StartGzipIs(sniff: Bytes -> string, g: Writer, p: Bytes)
    requires !g.wroteHeader && g.wire.sent == None && g.wire.body == []
    ensures var s := StartGzip(sniff, g, p);
            var headers := GzipHeaders(sniff, g.wire.headers, g.buf, p);
            && s == Writer(s.wire, g.status, true, true, [])
            && s.wire == g.wire.(headers := headers, sent := Some(Sent(StatusOr200(g.status), headers)), body := s.wire.body)
            && s.wire.body == Fed(g.buf) + Fed(p)
    ensures NoRaw(Fed(g.buf) + Fed(p)) && Payload(Fed(g.buf) + Fed(p)) == g.buf + p
  {
    hide Payload, NoRaw, AllRaw;
    FedPayload(g.buf, p);
  }

  function Fed(b: Bytes): seq<Chunk> { if b != [] then [GzData(b)] else [] }

  lemma FedPayload(a: Bytes, b: Bytes)
    ensures NoRaw(Fed(a) + Fed(b)) && Payload(Fed(a) + Fed(b)) == a + b
  {
    PayloadOfNone();
    PayloadSnoc([], GzData(a));
    PayloadSnoc(Fed(a), GzData(b));
    hide Payload, NoRaw, AllRaw;
    assert [] + [GzData(a)] == [GzData(a)];
    assert Fed(a) + [] == Fed(a) && a + [] == a;
  }

  lemma FlushWhileCompressing(sniff: Bytes -> string, h: Headers, front: seq<Op>, g: Writer)
    requires StatusFirst(front + [FlushOp]) && Phase(sniff, h, front, g) && HeaderDue(h, front)
    requires !Bypassed(h, front) && Started(h, front)
    ensures Phase(sniff, h, front + [FlushOp], OnFlush(sniff, g))
  {
    Unfold(h, front, FlushOp);
    PayloadSnoc(g.wire.body, GzFlush);
    hide Total, FlushesSome, StatusFirst, LateWrite, Sniffed, Payload, NoRaw, AllRaw, StatusOf;
    assert Total(front) + [] == Total(front);
    assert Payload(g.wire.body) + [] == Payload(g.wire.body);
  }

  lemma FlushWhileBuffering(sniff: Bytes -> string, h: Headers, front: seq<Op>, g: Writer)
    requires StatusFirst(front + [FlushOp]) && Phase(sniff, h, front, g) && HeaderDue(h, front)
    requires !Bypassed(h, front) && !Started(h, front)
    ensures Phase(sniff, h, front + [FlushOp], OnFlush(sniff, g))
  {
    Unfold(h, front, FlushOp);
    StartGzipIs(sniff, g, []);
    hide StartGzip, Fed, Total, FlushesSome, StatusFirst, LateWrite, Sniffed, Payload, NoRaw, AllRaw, StatusOf;
    assert Total(front) + [] == Total(front);
    assert Payload(Fed(g.buf) + Fed([])) + [] == Payload(Fed(g.buf) + Fed([]));
    assert g.buf + [] == g.buf;
  }

  lemma {:induction false} RunKeepsPhase(sniff: Bytes -> string, h: Headers, ops: seq<Op>)
    requires StatusFirst(ops) && !EarlyFlush(h, ops)
    ensures Phase(sniff, h, ops, After(sniff, h, ops))
  {
    if ops != [] {
      var front, op := ops[..|ops| - 1], ops[|ops| - 1];
      assert ops == front + [op];
      RunKeepsPhase(sniff, h, front);
      match op
      case WriteHeaderOp(code) => StatusKeepsPhase(sniff, h, code);
      case WriteOp(p) => WriteKeepsPhase(sniff, h, front, p, After(sniff, h, front));
      case FlushOp =>
        Unfold(h, front, FlushOp);
        if Started(h, front) {
          FlushWhileCompressing(sniff, h, front, After(sniff, h, front));
        } else if !Bypassed(h, front) {
          FlushWhileBuffering(sniff, h, front, After(sniff, h, front));
        }
    }
  }

  // -------------------------------------------------- after an early flush

  /** Where the writer stands once the header has gone out without its doing. */
  predicate EarlyPhase(h: Headers, ops: seq<Op>, g: Writer) {
    && g.status == StatusOf(ops) && g.wire.implicit == 1 && g.wire.sent == Some(Sent(200, h))
    && g.wire.superfluous == (if g.wroteHeader then 1 else 0)
    && (g.compressing ==> g.wroteHeader)
    && if Bypassed(h, ops) then !g.compressing && g.buf == [] && g.wire.headers == h
                                && AllRaw(g.wire.body) && Payload(g.wire.body) == Total(ops)
       else if Started(h, ops) then g.compressing && !AllRaw(g.wire.body)
       else !g.compressing && !g.wroteHeader && g.buf == Total(ops) && g.wire.headers == h && g.wire.body == []
  }

  lemma EarlyFlushSends(sniff: Bytes -> string, h: Headers, front: seq<Op>, g: Writer)
    requires StatusFirst(front + [FlushOp]) && Phase(sniff, h, front, g) && !HeaderDue(h, front)
    ensures EarlyPhase(h, front + [FlushOp], OnFlush(sniff, g))
  {
    Unfold(h, front, FlushOp);
    assert Total(front) + [] == Total(front);
    assert Bypassed(h, front + [FlushOp]) == Bypassed(h, front);
  }

  /** Starting compression once the header is out changes nothing that was sent. */
  lemma LateStartIs(sniff: Bytes -> string, g: Writer, p: Bytes)
    requires !g.wroteHeader && g.wire.sent.Some? && g.wire.body == [] && g.buf + p != []
    ensures var s := StartGzip(sniff, g, p);
            && s.compressing && s.wroteHeader && s.status == g.status
            && s.wire.sent == g.wire.sent && s.wire.implicit == g.wire.implicit
            && s.wire.superfluous == g.wire.superfluous + 1 && s.wire.body == Fed(g.buf) + Fed(p)
            && !AllRaw(s.wire.body)
  {
    var s := StartGzip(sniff, g, p);
    assert s.wire.body == Fed(g.buf) + Fed(p);
    assert s.wire.body[0].GzData?;
  }

  lemma WriteKeepsEarlyPhase(sniff: Bytes -> string, h: Headers, front: seq<Op>, p: Bytes, g: Writer)
    requires StatusFirst(front + [WriteOp(p)]) && EarlyPhase(h, front, g)
    ensures EarlyPhase(h, front + [WriteOp(p)], OnWrite(sniff, g, p))
  {
    hide *;
    if p == [] {
      EarlyWriteNothing(sniff, h, front, g);
    } else {
      EarlyWriteSomething(sniff, h, front, p, g);
    }
  }

  lemma EarlyWriteNothing(sniff: Bytes -> string, h: Headers, front: seq<Op>, g: Writer)
    requires StatusFirst(front + [WriteOp([])]) && EarlyPhase(h, front, g)
    ensures EarlyPhase(h, front + [WriteOp([])], OnWrite(sniff, g, []))
  {
    Unfold(h, front, WriteOp([]));
    assert Total(front) + [] == Total(front);
    hide Total, FlushesSome, StatusFirst, Payload, NoRaw, AllRaw, StatusOf, StartGzip, Fed;
    var ops := front + [WriteOp([])];
    assert Bypassed(h, ops) <==> Bypassed(h, front);
    assert Started(h, ops) <==> Started(h, front);
  }

  lemma EarlyWriteSomething(sniff: Bytes -> string, h: Headers, front: seq<Op>, p: Bytes, g: Writer)
    requires StatusFirst(front + [WriteOp(p)]) && EarlyPhase(h, front, g) && p != []
    ensures EarlyPhase(h, front + [WriteOp(p)], OnWrite(sniff, g, p))
  {
    if Bypassed(h, front) || Started(h, front) {
      Unfold(h, front, WriteOp(p));
      PayloadSnoc(g.wire.body, Raw(p));
      PayloadSnoc(g.wire.body, GzData(p));
      hide Total, FlushesSome, StatusFirst, Payload, NoRaw, AllRaw, StatusOf, StartGzip;
      assert Bypassed(h, front + [WriteOp(p)]) <==> Bypassed(h, front);
    } else {
      EarlyWriteBuffering(sniff, h, front, p, g);
    }
  }

  lemma EarlyWriteBuffering(sniff: Bytes -> string, h: Headers, front: seq<Op>, p: Bytes, g: Writer)
    requires StatusFirst(front + [WriteOp(p)]) && EarlyPhase(h, front, g) && p != []
    requires !Bypassed(h, front) && !Started(h, front)
    ensures EarlyPhase(h, front + [WriteOp(p)], OnWrite(sniff, g, p))
  {
    Unfold(h, front, WriteOp(p));
    hide Total, FlushesSome, StatusFirst, Payload, NoRaw, AllRaw, StatusOf, StartGzip, Fed;
    var ops := front + [WriteOp(p)];
    assert Bypassed(h, ops) <==> Bypassed(h, front);
    if |g.buf| + |p| >= MIN_GZIP_SIZE {
      LateStartIs(sniff, g, p);
    }
  }

  lemma FlushKeepsEarlyPhase(sniff: Bytes -> string, h: Headers, front: seq<Op>, g: Writer)
    requires StatusFirst(front + [FlushOp]) && EarlyPhase(h, front, g)
    ensures EarlyPhase(h, front + [FlushOp], OnFlush(sniff, g))
  {
    Unfold(h, front, FlushOp);
    PayloadSnoc(g.wire.body, GzFlush);
    PayloadSnoc(Fed(g.buf) + Fed([]), GzFlush);
    hide Total, FlushesSome, StatusFirst, Payload, NoRaw, AllRaw, StatusOf, StartGzip, Fed;
    assert Total(front) + [] == Total(front);
    assert Bypassed(h, front + [FlushOp]) <==> Bypassed(h, front);
    if !Bypassed(h, front) && !Started(h, front) && Total(front) != [] {
      assert g.buf + [] == g.buf;
      LateStartIs(sniff, g, []);
    }
  }

  lemma {:induction false} RunKeepsEarlyPhase(sniff: Bytes -> string, h: Headers, ops: seq<Op>)
    requires StatusFirst(ops) && EarlyFlush(h, ops)
    ensures EarlyPhase(h, ops, After(sniff, h, ops))
  {
    hide EarlyPhase, Phase, HeaderDue, OnWrite, OnFlush, OnWriteHeader;
    var front, op := ops[..|ops| - 1], ops[|ops| - 1];
    assert ops == front + [op];
    Unfold(h, front, op);
    if EarlyFlush(h, front) {
      RunKeepsEarlyPhase(sniff, h, front);
      match op
      case WriteHeaderOp(_) =>
      case WriteOp(p) => WriteKeepsEarlyPhase(sniff, h, front, p, After(sniff, h, front));
      case FlushOp => FlushKeepsEarlyPhase(sniff, h, front, After(sniff, h, front));
    } else {
      RunKeepsPhase(sniff, h, front);
      EarlyFlushSends(sniff, h, front, After(sniff, h, front));
    }
  }

  lemma EarlyResponse(h: Headers, ops: seq<Op>, g: Writer)
    requires EarlyPhase(h, ops, g)
    ensures var w := Finish(g).wire;
            && w.sent == Some(Sent(200, h)) && w.implicit == 1 && w.superfluous == 1
            && Decoded(h, w) == if Started(h, ops) then None else Some(Total(ops))
  {
    PayloadSnoc(g.wire.body, GzClose);
    PayloadSnoc([], Raw(g.buf));
    PayloadOfNone();
    hide Payload, NoRaw, AllRaw, Total, FlushesSome, StatusOf;
    assert [] + [Raw(g.buf)] == [Raw(g.buf)];
  }

  // ------------------------------------------------------------- main results

  /** The header goes out exactly once, by the writer's own doing and so before any
      byte of the body, exactly when the handler does not flush before there is
      anything to send. */
  lemma HeaderGoesOutOnce(sniff: Bytes -> string, h: Headers, ops: seq<Op>)
    requires StatusFirst(ops)
    ensures var w := Response(sniff, h, ops);
            (w.sent.Some? && w.implicit == 0 && w.superfluous == 0) <==> !EarlyFlush(h, ops)
  {
    if EarlyFlush(h, ops) {
      RunKeepsEarlyPhase(sniff, h, ops);
      EarlyResponse(h, ops, After(sniff, h, ops));
    } else {
      RunKeepsPhase(sniff, h, ops);
    }
  }

  /** What is sent depends on the calls only through the status, the bytes written and
      whether compression started: the response is compressed exactly when it may be and
      512 bytes were written or a flush found something written. After an early flush the
      handler's status is lost and the header never says that the body is compressed. */
  lemma HeaderSent(sniff: Bytes -> string, h: Headers, ops: seq<Op>)
    requires StatusFirst(ops)
    ensures Response(sniff, h, ops).sent
         == Some(if EarlyFlush(h, ops) then Sent(200, h)
                 else Sent(StatusOr200(StatusOf(ops)), if Started(h, ops) then CompressedHeaders(sniff, h, ops) else h))
    ensures var sent := Response(sniff, h, ops).sent.value.headers;
            && (sent.encoding != h.encoding <==>
                  !EarlyFlush(h, ops) && h.encoding == "" && StatusOf(ops) !in {204, 304} && (|Total(ops)| >= 512 || FlushesSome(ops)))
            && (sent.encoding != h.encoding ==> sent.encoding == "gzip" && sent.contentLength == None)
  {
    if EarlyFlush(h, ops) {
      RunKeepsEarlyPhase(sniff, h, ops);
      EarlyResponse(h, ops, After(sniff, h, ops));
    } else {
      RunKeepsPhase(sniff, h, ops);
    }
  }

  /** The client gets back exactly what the handler wrote if, and only if, nothing is
      written once compression has begun, the writer's own Content-Encoding then sending
      later writes past the gzip stream, uncompressed; and compression does not begin
      behind a header that an early flush has sent without it. Otherwise the body cannot
      be read. */
  lemma BodySurvives(sniff: Bytes -> string, h: Headers, ops: seq<Op>)
    requires StatusFirst(ops)
    ensures Decoded(h, Response(sniff, h, ops))
         == if LateWrite(h, ops) || (EarlyFlush(h, ops) && Started(h, ops)) then None else Some(Total(ops))
  {
    hide After, Bypassing, Compressing, EarlyPhase, Decoded, Finish, Payload, LateWrite, EarlyFlush;
    if EarlyFlush(h, ops) {
      RunKeepsEarlyPhase(sniff, h, ops);
      EarlyResponse(h, ops, After(sniff, h, ops));
      if LateWrite(h, ops) {
        LateWriteIsStarted(h, ops);
      }
    } else {
      RunKeepsPhase(sniff, h, ops);
      if Bypassed(h, ops) {
        BypassedHasNoLateWrite(h, ops);
        BypassedDecodes(sniff, h, ops, After(sniff, h, ops));
      } else if Started(h, ops) {
        CompressedDecodes(sniff, h, ops, After(sniff, h, ops));
      } else {
        BufferedDecodes(h, After(sniff, h, ops));
      }
    }
  }

  lemma {:induction false} LateWriteIsStarted(h: Headers, ops: seq<Op>)
    requires StatusFirst(ops) && LateWrite(h, ops)
    ensures Started(h, ops)
  {
    var front, op := ops[..|ops| - 1], ops[|ops| - 1];
    assert ops == front + [op];
    Unfold(h, front, op);
    if LateWrite(h, front) {
      LateWriteIsStarted(h, front);
    }
  }

  lemma BypassedDecodes(sniff: Bytes -> string, h: Headers, ops: seq<Op>, g: Writer)
    requires Phase(sniff, h, ops, g) && Bypassed(h, ops)
    ensures Decoded(h, Finish(g).wire) == Some(Total(ops))
  {
  }

  lemma CompressedDecodes(sniff: Bytes -> string, h: Headers, ops: seq<Op>, g: Writer)
    requires Phase(sniff, h, ops, g) && !Bypassed(h, ops) && Started(h, ops)
    ensures Decoded(h, Finish(g).wire) == if LateWrite(h, ops) then None else Some(Total(ops))
  {
    assert Payload(g.wire.body) + [] == Payload(g.wire.body);
  }

  lemma BufferedDecodes(h: Headers, g: Writer)
    requires !g.compressing && !g.wroteHeader && g.wire.headers == h && g.wire.sent == None && g.wire.body == []
    ensures Decoded(h, Finish(g).wire) == Some(g.buf)
  {
    hide Payload, AllRaw;
    PayloadOfNone();
    PayloadSnoc([], Raw(g.buf));
    assert [] + [Raw(g.buf)] == [Raw(g.buf)];
  }

  lemma {:induction false} BypassedHasNoLateWrite(h: Headers, ops: seq<Op>)
    requires StatusFirst(ops) && Bypassed(h, ops)
    ensures !LateWrite(h, ops)
  {
    if ops != [] {
      var front, op := ops[..|ops| - 1], ops[|ops| - 1];
      assert ops == front + [op];
      if front != [] {
        BypassedHasNoLateWrite(h, front);
      }
    }
  }

  /** How a body is cut into writes matters. For bytes handed over in three parts
      of which the first two already reach the threshold, the response cannot be
      decoded; handed over in one it is intact. */
  lemma ChunkingShows(sniff: Bytes -> string, h: Headers, a: Bytes, b: Bytes, c: Bytes)
    requires h.encoding == "" && |a| + |b| >= MIN_GZIP_SIZE && c != []
    ensures Decoded(h, Response(sniff, h, [WriteOp(a), WriteOp(b), WriteOp(c)])) == None
    ensures Decoded(h, Response(sniff, h, [WriteOp(a + b + c)])) == Some(a + b + c)
  {
    hide Response, Decoded;
    ThirdWriteIsLate(h, a, b, c);
    BodySurvives(sniff, h, [WriteOp(a), WriteOp(b), WriteOp(c)]);
    OneWriteIsNotLate(h, a + b + c);
    BodySurvives(sniff, h, [WriteOp(a + b + c)]);
  }

  lemma ThirdWriteIsLate(h: Headers, a: Bytes, b: Bytes, c: Bytes)
    requires h.encoding == "" && |a| + |b| >= MIN_GZIP_SIZE && c != []
    ensures var three := [WriteOp(a), WriteOp(b), WriteOp(c)];
            StatusFirst(three) && !EarlyFlush(h, three) && LateWrite(h, three)
  {
    var e: seq<Op> := [];
    var one, two, three := [WriteOp(a)], [WriteOp(a), WriteOp(b)], [WriteOp(a), WriteOp(b), WriteOp(c)];
    assert one == e + [WriteOp(a)] && two == one + [WriteOp(b)] && three == two + [WriteOp(c)];
    Unfold(h, e, WriteOp(a));
    Unfold(h, one, WriteOp(b));
    Unfold(h, two, WriteOp(c));
  }

  lemma OneWriteIsNotLate(h: Headers, p: Bytes)
    ensures var one := [WriteOp(p)];
            StatusFirst(one) && !EarlyFlush(h, one) && Total(one) == p
            && (h.encoding == "" ==> !LateWrite(h, one))
  {
  }

  /** So does the guessed content type, unless the handler sets one: two writes are
      judged by the first alone. */
  lemma ContentTypeFollowsFirstWrites(sniff: Bytes -> string, h: Headers, a: Bytes, b: Bytes)
    requires h.encoding == "" && h.contentType == "" && a != [] && b != []
    requires |a| < MIN_GZIP_SIZE <= |a| + |b|
    ensures var split := Response(sniff, h, [WriteOp(a), WriteOp(b)]);
            var whole := Response(sniff, h, [WriteOp(a + b)]);
            && split.sent.Some? && split.sent.value.headers.contentType == sniff(a)
            && whole.sent.Some? && whole.sent.value.headers.contentType == sniff(a + b)
  {
    var e: seq<Op> := [];
    var one, two := [WriteOp(a)], [WriteOp(a), WriteOp(b)];
    assert one == e + [WriteOp(a)] && two == one + [WriteOp(b)];
    Unfold(h, e, WriteOp(a));
    Unfold(h, one, WriteOp(b));
    HeaderSent(sniff, h, two);
    assert [] + a == a;
    var whole := [WriteOp(a + b)];
    assert whole == e + [WriteOp(a + b)];
    Unfold(h, e, WriteOp(a + b));
    HeaderSent(sniff, h, whole);
  }

  /** Without flushes, and with no write past the threshold, the response to a
      given status and body is the same however the body was cut, the guessed
      content type aside. */
  lemma CutDoesNotMatterOtherwise(sniff: Bytes -> string, h: Headers, x: seq<Op>, y: seq<Op>)
    requires StatusFirst(x) && StatusFirst(y) && !Flushes(x) && !Flushes(y)
    requires !LateWrite(h, x) && !LateWrite(h, y)
    requires StatusOf(x) == StatusOf(y) && Total(x) == Total(y)
    ensures var v, w := Response(sniff, h, x), Response(sniff, h, y);
            && Decoded(h, v) == Decoded(h, w) == Some(Total(x))
            && v.sent.Some? && w.sent.Some? && v.sent.value.status == w.sent.value.status
            && v.sent.value.headers.(contentType := "") == w.sent.value.headers.(contentType := "")
            && (h.contentType != "" ==> v.sent == w.sent)
            && (v.sent.value.headers.encoding != h.encoding <==> !Bypassed(h, x) && |Total(x)| >= MIN_GZIP_SIZE)
  {
    hide Response, Decoded, LateWrite, EarlyFlush, Flushes, FlushesSome, Total, StatusFirst, StatusOf;
    NoFlushNoEarlyFlush(h, x);
    NoFlushNoEarlyFlush(h, y);
    BodySurvives(sniff, h, x);
    BodySurvives(sniff, h, y);
    HeaderSent(sniff, h, x);
    HeaderSent(sniff, h, y);
  }

  lemma {:induction false} StatusStays(sniff: Bytes -> string, h: Headers, ops: seq<Op>)
    requires exists i | 0 <= i < |ops| :: ops[i].WriteHeaderOp? && ops[i].code != 0
    ensures After(sniff, h, ops).wroteHeader || After(sniff, h, ops).status != 0
  {
    var front, op := ops[..|ops| - 1], ops[|ops| - 1];
    if i :| 0 <= i < |front| && front[i].WriteHeaderOp? && front[i].code != 0 {
      StatusStays(sniff, h, front);
    } else {
      assert op.WriteHeaderOp? && op.code != 0;
    }
  }

  /** Whatever else a handler does, only its first status counts. */
  lemma {:induction false} LaterStatusIsIgnored(sniff: Bytes -> string, h: Headers, before: seq<Op>, code: int, after: seq<Op>)
    requires exists i | 0 <= i < |before| :: before[i].WriteHeaderOp? && before[i].code != 0
    ensures After(sniff, h, before + [WriteHeaderOp(code)] + after) == After(sniff, h, before + after)
  {
    if after == [] {
      assert before + after == before && before + [WriteHeaderOp(code)] + after == before + [WriteHeaderOp(code)];
      StatusStays(sniff, h, before);
      AfterSnoc(sniff, h, before, WriteHeaderOp(code));
    } else {
      hide After, Step;
      var front, last := after[..|after| - 1], after[|after| - 1];
      LaterStatusIsIgnored(sniff, h, before, code, front);
      assert before + [WriteHeaderOp(code)] + after == (before + [WriteHeaderOp(code)] + front) + [last];
      assert before + after == (before + front) + [last];
      AfterSnoc(sniff, h, before + [WriteHeaderOp(code)] + front, last);
      AfterSnoc(sniff, h, before + front, last);
    }
  }

  lemma AfterSnoc(sniff: Bytes -> string, h: Headers, front: seq<Op>, last: Op)
    ensures After(sniff, h, front + [last]) == Step(sniff, After(sniff, h, front), last)
  {
    assert (front + [last])[..|front|] == front;
  }

  /** The bytes the client can have by now: raw ones as they were written, compressed ones
      up to the last flush of the compressor. */
  function Arrived(cs: seq<Chunk>): Bytes {
    if cs == [] then []
    else if cs[|cs| - 1].GzData? then Arrived(cs[..|cs| - 1])
    else Payload(cs)
  }

  lemma {:induction false} RawArrives(cs: seq<Chunk>)
    requires AllRaw(cs)
    ensures Arrived(cs) == Payload(cs)
  {
  }

  lemma FlushedArrives(cs: seq<Chunk>)
    ensures Arrived(cs + [GzFlush]) == Payload(cs)
  {
    PayloadSnoc(cs, GzFlush);
    assert Payload(cs) + [] == Payload(cs);
  }

  /** A flush keeps its promise: once it returns, everything written so far has arrived,
      compressed or not, unless a write came too late to be decoded at all. */
  lemma FlushDelivers(sniff: Bytes -> string, h: Headers, ops: seq<Op>)
    requires StatusFirst(ops + [FlushOp]) && !EarlyFlush(h, ops + [FlushOp]) && !LateWrite(h, ops)
    ensures Arrived(After(sniff, h, ops + [FlushOp]).wire.body) == Total(ops)
  {
    Unfold(h, ops, FlushOp);
    RunKeepsPhase(sniff, h, ops);
    var g := After(sniff, h, ops);
    assert (ops + [FlushOp])[..|ops|] == ops;
    assert After(sniff, h, ops + [FlushOp]) == OnFlush(sniff, g);
    hide After, Payload, Arrived, Total, FlushesSome, StatusFirst, LateWrite, EarlyFlush, Sniffed, StatusOf;
    if Bypassed(h, ops) {
      RawArrives(g.wire.body);
    } else if Started(h, ops) {
      FlushedArrives(g.wire.body);
    } else {
      StartGzipIs(sniff, g, []);
      FlushedArrives(Fed(g.buf) + Fed([]));
      assert g.buf + [] == g.buf;
    }
  }

  lemma {:induction false} NoFlushNoEarlyFlush(h: Headers, ops: seq<Op>)
    requires !Flushes(ops)
    ensures !EarlyFlush(h, ops) && !FlushesSome(ops)
  {
    if ops != [] {
      NoFlushNoEarlyFlush(h, ops[..|ops| - 1]);
    }
  }
}
