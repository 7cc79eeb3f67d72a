/**
 The chunked-body states of `http_parser_execute` (service-src/http/http_parser.c) as a machine that
 takes one byte at a time, in strict mode, with callbacks that return 0 and no upgrade. A run stops
 where a header field or a new message begins: those states are not part of this model.
 */
module HttpChunks {
  import opened Bytes
  import opened Sequences

  const CR: byte := 13
  const LF: byte := 10
  const SPACE: byte := 32
  const SEMICOLON: byte := 59
  const ULLONG_MAX := 0xffff_ffff_ffff_ffff
  const HTTP_MAX_HEADER_SIZE := 80 * 1024

  datatype State =
    | Dead | StartReq | StartRes | HeaderFieldStart | HeaderField
    | ChunkSizeStart | ChunkSize | ChunkParameters | ChunkSizeAlmostDone
    | HeadersAlmostDone | ChunkData | ChunkDataAlmostDone | ChunkDataDone

  datatype Errno =
    | Fine | InvalidEofState | HeaderOverflow | InvalidChunkSize | InvalidContentLength
    | InvalidHeaderToken | Strict | ClosedConnection

  /** What the message head fixed before the body began. */
  datatype Head = Head(isRequest: bool, httpMajor: nat, httpMinor: nat, statusCode: nat,
                       connectionClose: bool, connectionKeepAlive: bool, skipBody: bool, chunked: bool)

  datatype Parser = Parser(head: Head, state: State, errno: Errno, contentLength: nat, nread: nat, trailing: bool)

  datatype Event = Body(bytes: seq<byte>) | ChunkHeader(size: nat) | ChunkComplete | MessageComplete

  // ---------------------------------------------------------------- what happens after the message

  predicate MessageNeedsEof(h: Head, contentLength: nat) {
    && !h.isRequest
    && !(h.statusCode / 100 == 1 || h.statusCode == 204 || h.statusCode == 304 || h.skipBody)
    && !(h.chunked || contentLength != ULLONG_MAX)
  }

  predicate ShouldKeepAlive(h: Head, contentLength: nat) {
    && (if h.httpMajor > 0 && h.httpMinor > 0 then !h.connectionClose else h.connectionKeepAlive)
    && !MessageNeedsEof(h, contentLength)
  }

  function NewMessage(h: Head, contentLength: nat): State {
    if !ShouldKeepAlive(h, contentLength) then Dead else if h.isRequest then StartReq else StartRes
  }

  // ---------------------------------------------------------------- one byte

  /** The `unhex` table: its initializer stops at 128, so every byte from 128 on reads as digit 0. */
  function Unhex(ch: byte): (r: int)
    ensures -1 <= r < 16
  {
    if 48 <= ch <= 57 then ch - 48
    else if 65 <= ch <= 70 then ch - 55
    else if 97 <= ch <= 102 then ch - 87
    else if ch < 128 then -1
    else 0
  }

  /** The character test of `TOKEN` in strict mode. */
  predicate IsToken(ch: byte) {
    || 48 <= ch <= 57 || 65 <= ch <= 90 || 97 <= ch <= 122
    || ch == 33 || ch == 35 || ch == 36 || ch == 37 || ch == 38 || ch == 39 || ch == 42 || ch == 43 || ch == 45
    || ch == 46 || ch == 94 || ch == 95 || ch == 96 || ch == 124 || ch == 126
  }

  /** `PARSING_HEADER`. */
  predicate ParsingHeader(s: State) {
    !(s == ChunkData || s == ChunkDataAlmostDone || s == ChunkDataDone)
  }

  /** The states that belong to another part of the parser. */
  predicate Elsewhere(s: State) {
    s == StartReq || s == StartRes || s == HeaderField
  }

  predicate Halted(p: Parser) {
    p.errno != Fine || Elsewhere(p.state)
  }

  /** The asserts of the chunk states, and the bound that keeps the length from wrapping. */
  predicate Shaped(p: Parser) {
    && (p.state != Dead ==> p.head.chunked)
    && (p.state == ChunkSize || p.state == ChunkParameters || p.state == ChunkSizeAlmostDone ==>
          p.contentLength <= ULLONG_MAX - 16)
    && (p.state == ChunkData ==> 0 < p.contentLength <= ULLONG_MAX - 16)
    && (p.state == ChunkDataAlmostDone ==> p.contentLength == 0)
    && (p.state == HeaderFieldStart || p.state == HeadersAlmostDone ==> p.trailing)
  }

  /** Between bytes the header counter is 0 where a chunk-size line starts, as the assert there demands. */
  predicate Valid(p: Parser) {
    Shaped(p) && (p.state == ChunkSizeStart && p.errno == Fine ==> p.nread == 0)
  }

  datatype Stepped = Stepped(p: Parser, events: seq<Event>)

  function Fail(p: Parser, e: Errno): Stepped {
    Stepped(p.(errno := e), [])
  }

  function Goto(p: Parser, s: State): Stepped {
    Stepped(p.(state := s), [])
  }

  /** One turn of the loop: the header counter, then the state's case. A failed byte is not consumed. */
  function Step(p: Parser, ch: byte): (r: Stepped)
    requires Valid(p) && !Halted(p)
    ensures Valid(r.p)
  {
    var q := if ParsingHeader(p.state) then p.(nread := p.nread + 1) else p;
    if ParsingHeader(p.state) && q.nread > HTTP_MAX_HEADER_SIZE then Fail(q, HeaderOverflow) else Case(q, ch)
  }

  function Case(p: Parser, ch: byte): (r: Stepped)
    requires Shaped(p) && !Halted(p)
    requires p.state == ChunkSizeStart ==> p.nread == 1
    ensures Valid(r.p)
  {
    match p.state
    case Dead =>
      if ch == CR || ch == LF then Stepped(p, []) else Fail(p, ClosedConnection)
    case HeaderFieldStart =>
      if ch == CR then Goto(p, HeadersAlmostDone)
      else if ch == LF then TrailerEnd(p)
      else if !IsToken(ch) then Fail(p, InvalidHeaderToken)
      else Goto(p, HeaderField)
    case HeadersAlmostDone =>
      if ch != LF then Fail(p, Strict) else TrailerEnd(p)
    case ChunkSizeStart | ChunkSize | ChunkParameters | ChunkSizeAlmostDone =>
      SizeCase(p, ch)
    case ChunkData =>
      var left := p.contentLength - 1;
      Stepped(p.(contentLength := left, state := if left == 0 then ChunkDataAlmostDone else ChunkData), [Body([ch])])
    case ChunkDataAlmostDone =>
      if ch != CR then Fail(p, Strict) else Goto(p, ChunkDataDone)
    case ChunkDataDone =>
      if ch != LF then Fail(p, Strict)
      else Stepped(p.(state := ChunkSizeStart, nread := 0), [ChunkComplete])
    case _ => Stepped(p, [])
  }

  /** The states of a chunk-size line. */
  function SizeCase(p: Parser, ch: byte): (r: Stepped)
    requires Shaped(p) && p.errno == Fine
    requires p.state in {ChunkSizeStart, ChunkSize, ChunkParameters, ChunkSizeAlmostDone}
    ensures Valid(r.p)
  {
    match p.state
    case ChunkSizeStart =>
      if Unhex(ch) == -1 then Fail(p, InvalidChunkSize)
      else Goto(p.(contentLength := Unhex(ch)), ChunkSize)
    case ChunkSize =>
      if ch == CR then Goto(p, ChunkSizeAlmostDone)
      else if Unhex(ch) == -1 then
        if ch == SEMICOLON || ch == SPACE then Goto(p, ChunkParameters) else Fail(p, InvalidChunkSize)
      else if (ULLONG_MAX - 16) / 16 < p.contentLength then Fail(p, InvalidContentLength)
      else Goto(p.(contentLength := (p.contentLength * 16 + Unhex(ch)) % (ULLONG_MAX + 1)), ChunkSize)
    case ChunkParameters =>
      Goto(p, if ch == CR then ChunkSizeAlmostDone else ChunkParameters)
    case ChunkSizeAlmostDone =>
      if ch != LF then Fail(p, Strict)
      else if p.contentLength == 0 then
        Stepped(p.(state := HeaderFieldStart, nread := 0, trailing := true), [ChunkHeader(0)])
      else
        Stepped(p.(state := ChunkData, nread := 0), [ChunkHeader(p.contentLength)])
    case _ => Stepped(p, [])
  }

  /** `s_headers_almost_done` after a trailer, which runs on into `s_message_done`. */
  function TrailerEnd(p: Parser): Stepped {
    Stepped(p.(state := NewMessage(p.head, p.contentLength)), [ChunkComplete, MessageComplete])
  }

  // ---------------------------------------------------------------- runs

  datatype Run = Run(p: Parser, events: seq<Event>, consumed: nat)

  ghost function Steps(p: Parser, data: seq<byte>): (r: Run)
    requires Valid(p)
    ensures Valid(r.p) && r.consumed <= |data|
    decreases |data|
  {
    if data == [] || Halted(p) then Run(p, [], 0)
    else
      var s := Step(p, data[0]);
      if s.p.errno != Fine then Run(s.p, s.events, 0)
      else
        var r := Steps(s.p, data[1..]);
        Run(r.p, s.events + r.events, 1 + r.consumed)
  }

  /** Reading on from where a first piece ended. */
  lemma {:induction false} StepsJoin(p: Parser, a: seq<byte>, b: seq<byte>)
    requires Valid(p)
    ensures Steps(p, a).consumed < |a| ==> Steps(p, a + b) == Steps(p, a)
    ensures Steps(p, a).consumed == |a| ==>
      Steps(p, a + b).p == Steps(Steps(p, a).p, b).p
      && Steps(p, a + b).events == Steps(p, a).events + Steps(Steps(p, a).p, b).events
      && Steps(p, a + b).consumed == |a| + Steps(Steps(p, a).p, b).consumed
    decreases |a|
  {
    if a == [] {
      assert a + b == b;
    } else if !Halted(p) {
      var s := Step(p, a[0]);
      assert (a + b)[0] == a[0] && (a + b)[1..] == a[1..] + b;
      hide Step, Valid, Halted;
      if s.p.errno == Fine {
        StepsJoin(s.p, a[1..], b);
        Assoc(s.events, Steps(s.p, a[1..]).events, Steps(Steps(s.p, a[1..]).p, b).events);
      }
    }
  }

  /** One call of `http_parser_execute`. */
  ghost function Fed(p: Parser, data: seq<byte>): (r: Run)
    requires Valid(p)
    ensures Valid(r.p)
  {
    if p.errno != Fine then Run(p, [], 0)
    else if data == [] then
      if p.state == Dead || p.state == StartReq || p.state == StartRes then Run(p, [], 0)
      else Run(p.(errno := InvalidEofState), [], 1)
    else Steps(p, data)
  }

  ghost function Feeds(p: Parser, feeds: seq<seq<byte>>): (r: Run)
    requires Valid(p)
    ensures Valid(r.p)
    decreases |feeds|
  {
    if feeds == [] then Run(p, [], 0)
    else
      var first := Fed(p, feeds[0]);
      var rest := Feeds(first.p, feeds[1..]);
      Run(rest.p, first.events + rest.events, first.consumed + rest.consumed)
  }

  /** However an accepted input is cut into non-empty feeds, the run over the feeds is the run over the whole. */
  lemma {:induction false} SplitIndependence(p: Parser, feeds: seq<seq<byte>>)
    requires Valid(p) && p.errno == Fine
    requires forall i :: 0 <= i < |feeds| ==> feeds[i] != []
    requires Steps(p, Concat(feeds)).consumed == |Concat(feeds)|
    ensures Feeds(p, feeds) == Steps(p, Concat(feeds))
    decreases |feeds|
  {
    if feeds != [] {
      var first, rest := feeds[0], feeds[1..];
      StepsJoin(p, first, Concat(rest));
      ConsumedIsFine(p, first);
      hide Step, Valid, Halted;
      SplitIndependence(Steps(p, first).p, rest);
    }
  }

  lemma {:induction false} ConsumedIsFine(p: Parser, data: seq<byte>)
    requires Valid(p) && p.errno == Fine && Steps(p, data).consumed == |data|
    ensures Steps(p, data).p.errno == Fine
    decreases |data|
  {
    if data != [] {
      hide Case, Valid;
      ConsumedIsFine(Step(p, data[0]).p, data[1..]);
    }
  }

  // ---------------------------------------------------------------- the encoding of RFC 7230, section 4.1

  /** A chunk as its sender may write it: the size numeral, the extensions, the data. */
  datatype Chunk = Chunk(digits: seq<byte>, ext: seq<byte>, data: seq<byte>)

  /** A digit of section 4.1. */
  predicate IsHex(ch: byte) {
    48 <= ch <= 57 || 65 <= ch <= 70 || 97 <= ch <= 102
  }

  /** What the table takes for a digit. */
  predicate Passes(ch: byte) {
    Unhex(ch) != -1
  }

  /** The value of a numeral as the table reads it. */
  function HexValue(digits: seq<byte>): nat
    requires forall i :: 0 <= i < |digits| ==> Passes(digits[i])
  {
    if digits == [] then 0
    else
      assert Passes(digits[|digits| - 1]);
      HexValue(digits[..|digits| - 1]) * 16 + Unhex(digits[|digits| - 1])
  }

  predicate LineOk(digits: seq<byte>, ext: seq<byte>) {
    && digits != [] && (forall i :: 0 <= i < |digits| ==> IsHex(digits[i]))
    && (ext != [] ==> ext[0] == SEMICOLON || ext[0] == SPACE)
    && (forall i :: 0 <= i < |ext| ==> ext[i] != CR)
  }

  predicate ChunkOk(c: Chunk) {
    LineOk(c.digits, c.ext) && HexValue(c.digits) == |c.data|
  }

  /** The two limits of the parser: the 64-bit size, and the length of the size line. */
  predicate Fits(c: Chunk) {
    |c.data| <= ULLONG_MAX - 16 && |c.digits| + |c.ext| + 2 <= HTTP_MAX_HEADER_SIZE
  }

  function Line(c: Chunk): seq<byte> {
    c.digits + c.ext + [CR, LF]
  }

  function EncodeChunk(c: Chunk): seq<byte> {
    Line(c) + c.data + [CR, LF]
  }

  function EncodeChunks(cs: seq<Chunk>): seq<byte> {
    if cs == [] then [] else EncodeChunk(cs[0]) + EncodeChunks(cs[1..])
  }

  /** The last chunk has size 0 and no data; no trailer field follows. */
  function Encode(cs: seq<Chunk>, last: Chunk): seq<byte> {
    EncodeChunks(cs) + (Line(last) + [CR, LF])
  }

  function Payload(cs: seq<Chunk>): seq<byte> {
    if cs == [] then [] else cs[0].data + Payload(cs[1..])
  }

  /** What the callbacks of one chunk say, one byte of body at a time. */
  function BodyBytes(data: seq<byte>): seq<Event> {
    seq(|data|, i requires 0 <= i < |data| => Body([data[i]]))
  }

  function ChunkEvents(c: Chunk): seq<Event> {
    [ChunkHeader(|c.data|)] + BodyBytes(c.data) + [ChunkComplete]
  }

  function AllEvents(cs: seq<Chunk>): seq<Event> {
    if cs == [] then [] else ChunkEvents(cs[0]) + AllEvents(cs[1..])
  }

  // ---------------------------------------------------------------- reading an encoded body

  /** The whole of `data` was read without an error. */
  ghost predicate Reads(p: Parser, data: seq<byte>, q: Parser, events: seq<Event>)
    requires Valid(p)
  {
    Steps(p, data) == Run(q, events, |data|) && q.errno == Fine
  }

  lemma ReadsJoin(p: Parser, a: seq<byte>, q: Parser, ea: seq<Event>, b: seq<byte>, r: Parser, eb: seq<Event>)
    requires Valid(p) && Reads(p, a, q, ea) && Valid(q) && Reads(q, b, r, eb)
    ensures Reads(p, a + b, r, ea + eb)
  {
    StepsJoin(p, a, b);
  }

  lemma ReadsOne(p: Parser, ch: byte)
    requires Valid(p) && !Halted(p) && Step(p, ch).p.errno == Fine
    ensures Reads(p, [ch], Step(p, ch).p, Step(p, ch).events)
  {
    assert [ch][0] == ch && [ch][1..] == [];
    assert Steps(Step(p, ch).p, []) == Run(Step(p, ch).p, [], 0);
    assert Step(p, ch).events + [] == Step(p, ch).events;
    hide Step;
  }

  /** A parser at the start of a chunk-size line. */
  ghost predicate AtChunk(p: Parser) {
    p.state == ChunkSizeStart && p.errno == Fine && p.nread == 0 && p.head.chunked
  }

  function InSize(p: Parser, size: nat, nread: nat): Parser {
    p.(state := ChunkSize, contentLength := size, nread := nread)
  }

  /** One more digit: the overflow test passes exactly when the longer numeral stays below 2^64 - 16. */
  lemma DigitStep(p: Parser, v: nat, n: nat, ch: byte)
    requires AtChunk(p) && v <= ULLONG_MAX - 16 && n < HTTP_MAX_HEADER_SIZE && Passes(ch)
    ensures v * 16 + Unhex(ch) <= ULLONG_MAX - 16 ==>
      Step(InSize(p, v, n), ch) == Stepped(InSize(p, v * 16 + Unhex(ch), n + 1), [])
    ensures v * 16 + Unhex(ch) > ULLONG_MAX - 16 ==> Step(InSize(p, v, n), ch).p.errno == InvalidContentLength
  {
  }

  lemma HexLast(digits: seq<byte>)
    requires digits != [] && forall i :: 0 <= i < |digits| ==> Passes(digits[i])
    ensures var n := |digits| - 1; var front := digits[..n];
      digits == front + [digits[n]] && (forall i :: 0 <= i < n ==> Passes(front[i]))
      && HexValue(digits) == HexValue(front) * 16 + Unhex(digits[n]) && 0 <= Unhex(digits[n])
  {
  }

  lemma {:induction false} NumeralReads(p: Parser, digits: seq<byte>)
    requires AtChunk(p) && digits != [] && |digits| <= HTTP_MAX_HEADER_SIZE
    requires forall i :: 0 <= i < |digits| ==> Passes(digits[i])
    requires HexValue(digits) <= ULLONG_MAX - 16
    ensures Reads(p, digits, InSize(p, HexValue(digits), |digits|), [])
    decreases |digits|
  {
    var n := |digits| - 1;
    HexLast(digits);
    var front, ch := digits[..n], digits[n];
    assert Passes(ch);
    if n == 0 {
      ReadsOne(p, ch);
    } else {
      var q := InSize(p, HexValue(front), n);
      hide HexValue, Case, Unhex, Passes;
      NumeralReads(p, front);
      DigitStep(p, HexValue(front), n, ch);
      ReadsOne(q, ch);
      hide Step, Steps;
      ReadsJoin(p, front, q, [], [ch], InSize(p, HexValue(digits), |digits|), []);
    }
  }

  /** A size numeral is taken exactly when its value is below 2^64 - 16: it never wraps, and is never ULLONG_MAX. */
  lemma NumeralAccepted(p: Parser, digits: seq<byte>)
    requires AtChunk(p) && digits != [] && |digits| <= HTTP_MAX_HEADER_SIZE
    requires forall i :: 0 <= i < |digits| ==> Passes(digits[i])
    ensures Steps(p, digits).p.errno == Fine <==> HexValue(digits) <= ULLONG_MAX - 16
    ensures HexValue(digits) <= ULLONG_MAX - 16 ==> Steps(p, digits).p.contentLength == HexValue(digits)
    ensures HexValue(digits) > ULLONG_MAX - 16 ==> Steps(p, digits).p.errno == InvalidContentLength
    decreases |digits|
  {
    if HexValue(digits) <= ULLONG_MAX - 16 {
      NumeralReads(p, digits);
    } else {
      NumeralRefused(p, digits);
    }
  }

  lemma {:induction false} NumeralRefused(p: Parser, digits: seq<byte>)
    requires AtChunk(p) && digits != [] && |digits| <= HTTP_MAX_HEADER_SIZE
    requires forall i :: 0 <= i < |digits| ==> Passes(digits[i])
    requires HexValue(digits) > ULLONG_MAX - 16
    ensures Steps(p, digits).p.errno == InvalidContentLength
    decreases |digits|
  {
    var n := |digits| - 1;
    var front, ch := digits[..n], digits[n];
    HexLast(digits);
    assert Passes(ch);
    assert n > 0;
    hide HexValue, Case, Unhex, Passes;
    StepsJoin(p, front, [ch]);
    if HexValue(front) <= ULLONG_MAX - 16 {
      NumeralReads(p, front);
      DigitStep(p, HexValue(front), n, ch);
      StopsAt(InSize(p, HexValue(front), n), ch);
    } else {
      NumeralRefused(p, front);
      StoppedShort(p, front);
    }
  }

  lemma StopsAt(p: Parser, ch: byte)
    requires Valid(p) && !Halted(p) && Step(p, ch).p.errno != Fine
    ensures Steps(p, [ch]).p == Step(p, ch).p
  {
    assert [ch][0] == ch;
    hide Step;
  }

  lemma StoppedShort(p: Parser, data: seq<byte>)
    requires Valid(p) && p.errno == Fine && Steps(p, data).p.errno != Fine
    ensures Steps(p, data).consumed < |data|
  {
    if Steps(p, data).consumed == |data| {
      ConsumedIsFine(p, data);
    }
  }

  /**
   Section 4.1 allows hex digits only; the table also takes every byte from 128 on, for a 0. So it is
   for the first digit and for every later one.
   */
  lemma TableDigits(p: Parser, v: nat, n: nat, ch: byte)
    requires AtChunk(p) && v <= (ULLONG_MAX - 16) / 16 && n < HTTP_MAX_HEADER_SIZE
    ensures Passes(ch) <==> IsHex(ch) || ch >= 128
    ensures ch >= 128 ==> Unhex(ch) == 0
    ensures Step(p, ch).p.errno == Fine <==> Passes(ch)
    ensures Step(InSize(p, v, n), ch).p.state == ChunkSize && Step(InSize(p, v, n), ch).p.errno == Fine <==> Passes(ch)
  {
  }

  function AfterExt(p: Parser, ext: seq<byte>): Parser {
    p.(state := if ext == [] then p.state else ChunkParameters, nread := p.nread + |ext|)
  }

  lemma {:induction false} ExtReads(p: Parser, ext: seq<byte>)
    requires Valid(p) && p.errno == Fine && p.state == ChunkSize && p.nread + |ext| <= HTTP_MAX_HEADER_SIZE
    requires ext != [] ==> ext[0] == SEMICOLON || ext[0] == SPACE
    requires forall i :: 0 <= i < |ext| ==> ext[i] != CR
    ensures Reads(p, ext, AfterExt(p, ext), [])
    decreases |ext|
  {
    if ext != [] {
      var n := |ext| - 1;
      assert ext == ext[..n] + [ext[n]];
      var q := AfterExt(p, ext[..n]);
      ExtReads(p, ext[..n]);
      ReadsOne(q, ext[n]);
      ReadsJoin(p, ext[..n], q, [], [ext[n]], AfterExt(p, ext), []);
    }
  }

  /** After the size line of a chunk of `size` bytes. */
  function AfterLine(p: Parser, size: nat): Parser {
    p.(state := if size == 0 then HeaderFieldStart else ChunkData, contentLength := size, nread := 0,
       trailing := p.trailing || size == 0)
  }

  lemma TwoReads(p: Parser, x: byte, y: byte)
    requires Valid(p) && !Halted(p) && Step(p, x).p.errno == Fine
    requires !Halted(Step(p, x).p) && Step(Step(p, x).p, y).p.errno == Fine
    ensures Reads(p, [x, y], Step(Step(p, x).p, y).p, Step(p, x).events + Step(Step(p, x).p, y).events)
  {
    ReadsOne(p, x);
    ReadsOne(Step(p, x).p, y);
    assert [x] + [y] == [x, y];
    hide Step;
    ReadsJoin(p, [x], Step(p, x).p, Step(p, x).events, [y], Step(Step(p, x).p, y).p, Step(Step(p, x).p, y).events);
  }

  lemma LineReads(p: Parser, c: Chunk)
    requires AtChunk(p) && ChunkOk(c) && Fits(c)
    ensures Reads(p, Line(c), AfterLine(p, |c.data|), [ChunkHeader(|c.data|)])
  {
    var size := |c.data|;
    var q := InSize(p, size, |c.digits|);
    var r := AfterExt(q, c.ext);
    LineEnds(r, size);
    hide Steps, Step, Unhex, HexValue;
    NumeralReads(p, c.digits);
    ExtReads(q, c.ext);
    ReadsJoin(p, c.digits, q, [], c.ext, r, []);
    ReadsJoin(p, c.digits + c.ext, r, [], [CR, LF], AfterLine(p, size), [ChunkHeader(size)]);
  }

  lemma LineEnds(p: Parser, size: nat)
    requires Valid(p) && p.errno == Fine && (p.state == ChunkSize || p.state == ChunkParameters)
    requires p.contentLength == size && p.nread + 2 <= HTTP_MAX_HEADER_SIZE
    ensures Reads(p, [CR, LF], AfterLine(p, size), [ChunkHeader(size)])
  {
    TwoReads(p, CR, LF);
    assert [] + [ChunkHeader(size)] == [ChunkHeader(size)];
    hide Steps;
  }

  function AfterData(p: Parser, n: nat): Parser
    requires n <= p.contentLength
  {
    p.(contentLength := p.contentLength - n, state := if n == p.contentLength then ChunkDataAlmostDone else ChunkData)
  }

  /** The bulk read of `s_chunk_data` is the same as reading byte by byte. */
  lemma {:induction false} DataReads(p: Parser, data: seq<byte>)
    requires Valid(p) && p.errno == Fine && p.state == ChunkData && 0 < |data| <= p.contentLength
    ensures Reads(p, data, AfterData(p, |data|), BodyBytes(data))
    decreases |data|
  {
    var n := |data| - 1;
    assert data == data[..n] + [data[n]];
    if n == 0 {
      assert data[..0] == [];
      ReadsOne(p, data[0]);
      assert BodyBytes(data) == [Body([data[0]])];
    } else {
      var q := AfterData(p, n);
      DataReads(p, data[..n]);
      ReadsOne(q, data[n]);
      ReadsJoin(p, data[..n], q, BodyBytes(data[..n]), [data[n]], AfterData(p, |data|), [Body([data[n]])]);
      assert BodyBytes(data) == BodyBytes(data[..n]) + [Body([data[n]])];
    }
  }

  lemma ChunkReads(p: Parser, c: Chunk)
    requires AtChunk(p) && ChunkOk(c) && Fits(c) && c.data != []
    ensures Reads(p, EncodeChunk(c), p.(contentLength := 0), ChunkEvents(c))
  {
    var q := AfterLine(p, |c.data|);
    var r := AfterData(q, |c.data|);
    ChunkEnds(r);
    hide Steps, Step, HexValue, Line;
    LineReads(p, c);
    DataReads(q, c.data);
    ReadsJoin(p, Line(c), q, [ChunkHeader(|c.data|)], c.data, r, BodyBytes(c.data));
    ReadsJoin(p, Line(c) + c.data, r, [ChunkHeader(|c.data|)] + BodyBytes(c.data), [CR, LF], p.(contentLength := 0),
              [ChunkComplete]);
  }

  lemma ChunkEnds(p: Parser)
    requires Valid(p) && p.errno == Fine && p.state == ChunkDataAlmostDone
    ensures Reads(p, [CR, LF], p.(state := ChunkSizeStart, nread := 0), [ChunkComplete])
  {
    TwoReads(p, CR, LF);
    assert [] + [ChunkComplete] == [ChunkComplete];
    hide Steps;
  }

  function AfterChunks(p: Parser, cs: seq<Chunk>): Parser {
    if cs == [] then p else p.(contentLength := 0)
  }

  lemma {:induction false} ChunksRead(p: Parser, cs: seq<Chunk>)
    requires AtChunk(p) && forall i :: 0 <= i < |cs| ==> ChunkOk(cs[i]) && Fits(cs[i]) && cs[i].data != []
    ensures Reads(p, EncodeChunks(cs), AfterChunks(p, cs), AllEvents(cs))
    decreases |cs|
  {
    if cs != [] {
      var q := p.(contentLength := 0);
      ChunkReads(p, cs[0]);
      ChunksRead(q, cs[1..]);
      assert AfterChunks(q, cs[1..]) == q;
      hide EncodeChunk, ChunkEvents, Steps;
      ReadsJoin(p, EncodeChunk(cs[0]), q, ChunkEvents(cs[0]), EncodeChunks(cs[1..]), q, AllEvents(cs[1..]));
    }
  }

  /** Where a decoded message leaves the parser. */
  function Finished(p: Parser): Parser {
    p.(state := NewMessage(p.head, 0), contentLength := 0, nread := 2, trailing := true)
  }

  const ENDING: seq<Event> := [ChunkHeader(0), ChunkComplete, MessageComplete]

  /** Decoding an encoded body: all bytes are read and the callbacks are exactly those of the chunks, then the end. */
  /** The empty line behind the last size line ends the message. */
  lemma LastLineReads(p: Parser, cs: seq<Chunk>)
    requires AtChunk(p)
    ensures Reads(AfterLine(AfterChunks(p, cs), 0), [CR, LF], Finished(p), [] + [ChunkComplete, MessageComplete])
  {
    var r := AfterLine(AfterChunks(p, cs), 0);
    TwoReads(r, CR, LF);
    hide Reads, Steps;
    assert Step(Step(r, CR).p, LF).p == Finished(p);
  }

  lemma {:induction false} BodyReads(p: Parser, cs: seq<Chunk>, last: Chunk)
    requires AtChunk(p) && ChunkOk(last) && Fits(last) && last.data == []
    requires forall i :: 0 <= i < |cs| ==> ChunkOk(cs[i]) && Fits(cs[i]) && cs[i].data != []
    ensures Reads(p, Encode(cs, last), Finished(p), AllEvents(cs) + ENDING)
  {
    var q := AfterChunks(p, cs);
    var r := AfterLine(q, 0);
    LastLineReads(p, cs);
    hide Line, AllEvents, EncodeChunks, Step, Steps, Reads, Fits, AfterLine, AfterChunks, Finished;
    ChunksRead(p, cs);
    LineReads(q, last);
    ReadsJoin(q, Line(last), r, [ChunkHeader(0)], [CR, LF], Finished(p), [] + [ChunkComplete, MessageComplete]);
    assert [ChunkHeader(0)] + ([] + [ChunkComplete, MessageComplete]) == ENDING;
    ReadsJoin(p, EncodeChunks(cs), q, AllEvents(cs), Line(last) + [CR, LF], Finished(p), ENDING);
  }

  // ---------------------------------------------------------------- what the callbacks deliver

  function BodyOf(events: seq<Event>): seq<byte> {
    if events == [] then []
    else BodyOf(events[..|events| - 1]) + (match events[|events| - 1] case Body(bytes) => bytes case _ => [])
  }

  function Completions(events: seq<Event>): nat {
    if events == [] then 0
    else Completions(events[..|events| - 1]) + (if events[|events| - 1] == MessageComplete then 1 else 0)
  }

  lemma {:induction false} DeliveredJoin(a: seq<Event>, b: seq<Event>)
    ensures BodyOf(a + b) == BodyOf(a) + BodyOf(b)
    ensures Completions(a + b) == Completions(a) + Completions(b)
    decreases |b|
  {
    if b == [] {
      assert a + b == a;
    } else {
      var n := |b| - 1;
      assert (a + b)[..|a| + n] == a + b[..n];
      DeliveredJoin(a, b[..n]);
    }
  }

  lemma {:induction false} DeliveredBytes(data: seq<byte>)
    ensures BodyOf(BodyBytes(data)) == data && Completions(BodyBytes(data)) == 0
    decreases |data|
  {
    if data != [] {
      var n := |data| - 1;
      assert BodyBytes(data)[..n] == BodyBytes(data[..n]);
      DeliveredBytes(data[..n]);
    }
  }

  lemma {:induction false} DeliveredChunks(cs: seq<Chunk>)
    ensures BodyOf(AllEvents(cs)) == Payload(cs) && Completions(AllEvents(cs)) == 0
    decreases |cs|
  {
    if cs != [] {
      DeliveredChunks(cs[1..]);
      DeliveredChunk(cs[0]);
      hide ChunkEvents, BodyOf, Completions;
      DeliveredJoin(ChunkEvents(cs[0]), AllEvents(cs[1..]));
    }
  }

  lemma OneEvent(e: Event)
    requires !e.Body?
    ensures BodyOf([e]) == [] && Completions([e]) == if e == MessageComplete then 1 else 0
  {
    assert [e][..0] == [] && BodyOf([e][..0]) == [] && Completions([e][..0]) == 0;
  }

  lemma DeliveredChunk(c: Chunk)
    ensures BodyOf(ChunkEvents(c)) == c.data && Completions(ChunkEvents(c)) == 0
  {
    var head, tail := [ChunkHeader(|c.data|)], [ChunkComplete];
    OneEvent(ChunkHeader(|c.data|));
    OneEvent(ChunkComplete);
    hide BodyOf, Completions;
    DeliveredBytes(c.data);
    DeliveredJoin(head, BodyBytes(c.data));
    DeliveredJoin(head + BodyBytes(c.data), tail);
  }

  /**
   The round trip. However an encoded body is cut into non-empty feeds, the body callbacks deliver
   the payload, message_complete fires once, every byte is consumed, and the parser is ready for the
   next message, or dead when the connection is not kept alive.
   */
  lemma {:induction false} RoundTrip(p: Parser, cs: seq<Chunk>, last: Chunk, feeds: seq<seq<byte>>)
    requires AtChunk(p) && ChunkOk(last) && Fits(last) && last.data == []
    requires forall i :: 0 <= i < |cs| ==> ChunkOk(cs[i]) && Fits(cs[i]) && cs[i].data != []
    requires Concat(feeds) == Encode(cs, last) && forall i :: 0 <= i < |feeds| ==> feeds[i] != []
    ensures var r := Feeds(p, feeds);
      BodyOf(r.events) == Payload(cs) && Completions(r.events) == 1
      && r.consumed == |Encode(cs, last)| && r.p == Finished(p)
  {
    var r := Feeds(p, feeds);
    assert r == Run(Finished(p), AllEvents(cs) + ENDING, |Encode(cs, last)|) by {
      BodyReads(p, cs, last);
      SplitIndependence(p, feeds);
    }
    EndingDelivers();
    hide *;
    DeliveredChunks(cs);
    DeliveredJoin(AllEvents(cs), ENDING);
    assert Payload(cs) + [] == Payload(cs);
  }

  lemma EndingDelivers()
    ensures BodyOf(ENDING) == [] && Completions(ENDING) == 1
  {
    OneEvent(ChunkHeader(0));
    OneEvent(ChunkComplete);
    OneEvent(MessageComplete);
    hide BodyOf, Completions;
    DeliveredJoin([ChunkHeader(0)], [ChunkComplete]);
    DeliveredJoin([ChunkHeader(0), ChunkComplete], [MessageComplete]);
  }
}
