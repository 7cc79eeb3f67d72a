/**
 `http_parser_execute` itself (service-src/http/http_parser.c), whose chunk data is read in bulk and
 reported from a mark, as an object that updates its fields in place. It refines the machine of
 HttpChunks that takes one byte at a time.
 */
module HttpParser {
  import opened Bytes
  import opened Sequences
  import opened HttpChunks

  // ---------------------------------------------------------------- callbacks, one byte of body at a time

  function Flat(log: seq<Event>): seq<Event> {
    if log == [] then []
    else
      var e := log[|log| - 1];
      Flat(log[..|log| - 1]) + (if e.Body? then BodyBytes(e.bytes) else [e])
  }

  lemma {:induction false} FlatJoin(a: seq<Event>, b: seq<Event>)
    ensures Flat(a + b) == Flat(a) + Flat(b)
    decreases |b|
  {
    if b == [] {
      assert a + b == a;
    } else {
      var n := |b| - 1;
      assert (a + b)[..|a| + n] == a + b[..n];
      FlatJoin(a, b[..n]);
    }
  }

  lemma FlatOne(e: Event)
    ensures Flat([e]) == if e.Body? then BodyBytes(e.bytes) else [e]
  {
    assert [e][..0] == [] && Flat([e][..0]) == [];
  }

  lemma {:induction false} FlatNotices(es: seq<Event>)
    requires forall i :: 0 <= i < |es| ==> !es[i].Body?
    ensures Flat(es) == es
    decreases |es|
  {
    if es != [] {
      FlatNotices(es[..|es| - 1]);
    }
  }

  /** Merging bytes into callbacks changes neither the body nor the number of completed messages. */
  lemma {:induction false} FlatDelivers(log: seq<Event>)
    ensures BodyOf(Flat(log)) == BodyOf(log) && Completions(Flat(log)) == Completions(log)
    decreases |log|
  {
    if log != [] {
      var n := |log| - 1;
      var e := log[n];
      FlatDelivers(log[..n]);
      DeliveredJoin(Flat(log[..n]), if e.Body? then BodyBytes(e.bytes) else [e]);
      if e.Body? {
        DeliveredBytes(e.bytes);
      } else {
        OneEvent(e);
      }
    }
  }

  // ---------------------------------------------------------------- what an error takes with it

  /**
   The call ended on the byte behind the data of a chunk, which is not a carriage return, and had
   read bytes of that data itself.
   */
  predicate Breaks(r: Run) {
    r.p.errno == Strict && r.p.state == ChunkDataAlmostDone && r.consumed > 0
  }

  function BeforeBody(es: seq<Event>): seq<Event> {
    if es != [] && es[|es| - 1].Body? then BeforeBody(es[..|es| - 1]) else es
  }

  /** The events of a run that callbacks report: not the bytes of body at its end when it breaks. */
  function Heard(r: Run): seq<Event> {
    if Breaks(r) then BeforeBody(r.events) else r.events
  }

  lemma {:induction false} BeforeBodyOf(es: seq<Event>, data: seq<byte>)
    requires es == [] || !es[|es| - 1].Body?
    ensures BeforeBody(es + BodyBytes(data)) == es
    decreases |data|
  {
    var all := es + BodyBytes(data);
    if data == [] {
      assert all == es;
    } else {
      var n := |data| - 1;
      assert all[..|all| - 1] == es + BodyBytes(data[..n]);
      BeforeBodyOf(es, data[..n]);
    }
  }

  /** A run that breaks has just read a byte of body. */
  lemma {:induction false} BreakEndsInBody(p: Parser, data: seq<byte>)
    requires Valid(p) && p.errno == Fine && Breaks(Steps(p, data))
    ensures var es := Steps(p, data).events; es != [] && es[|es| - 1].Body?
    decreases |data|
  {
    hide Case, Valid, IsToken, Unhex, ShouldKeepAlive;
    var s := Step(p, data[0]);
    var rest := Steps(s.p, data[1..]);
    if rest.consumed > 0 {
      BreakEndsInBody(s.p, data[1..]);
    } else {
      assert s.p.errno == Fine;
      FailsInPlace(s.p, data[1..]);
      OnlyDataEnds(p, data[0]);
    }
  }

  /** A byte that is not taken leaves the state as it was. */
  lemma FailsInPlace(p: Parser, data: seq<byte>)
    requires Valid(p) && Steps(p, data).consumed == 0 && p.errno == Fine
    ensures Steps(p, data).p.state == p.state && Steps(p, data).events == []
  {
    if data != [] && !Halted(p) {
      hide IsToken, Unhex, ShouldKeepAlive, Valid;
    }
  }

  lemma OnlyDataEnds(p: Parser, ch: byte)
    requires Valid(p) && !Halted(p) && Step(p, ch).p.errno == Fine && Step(p, ch).p.state == ChunkDataAlmostDone
    ensures Step(p, ch).events == [Body([ch])]
  {
    hide IsToken, Unhex, ShouldKeepAlive;
  }

  /** Everything is reported exactly when the call does not break. */
  lemma HeardExactly(p: Parser, data: seq<byte>)
    requires Valid(p)
    ensures Heard(Fed(p, data)) == Fed(p, data).events <==> !Breaks(Fed(p, data))
  {
    hide Steps, Valid, BeforeBody;
    if Breaks(Fed(p, data)) {
      assert Fed(p, data) == Steps(p, data) && p.errno == Fine;
      BreakEndsInBody(p, data);
      BeforeBodyShorter(Fed(p, data).events);
    }
  }

  lemma {:induction false} BeforeBodyShorter(es: seq<Event>)
    ensures |BeforeBody(es)| <= |es|
    ensures es != [] && es[|es| - 1].Body? ==> |BeforeBody(es)| < |es|
  {
    if es != [] && es[|es| - 1].Body? {
      BeforeBodyShorter(es[..|es| - 1]);
    }
  }

  // ---------------------------------------------------------------- the loop against the machine

  /** The body bytes read since the mark and not yet reported. */
  function Pending(data: seq<byte>, mark: int, i: nat): seq<Event>
    requires -1 <= mark && mark <= i <= |data|
  {
    if mark < 0 then [] else BodyBytes(data[mark..i])
  }

  /** What is still to come, seen after `i` bytes, completes what the whole input should give. */
  ghost predicate OnTrack(whole: Run, before: seq<Event>, i: nat, log: seq<Event>, pending: seq<Event>, rest: Run) {
    && whole.p == rest.p && whole.consumed == i + rest.consumed
    && (Flat(log) + pending) + rest.events == before + whole.events
  }

  lemma BulkSteps(p: Parser, data: seq<byte>, k: nat)
    requires Valid(p) && p.errno == Fine && p.state == ChunkData && 0 < k <= p.contentLength && k <= |data|
    ensures Valid(AfterData(p, k))
    ensures var rest := Steps(AfterData(p, k), data[k..]);
      Steps(p, data) == Run(rest.p, BodyBytes(data[..k]) + rest.events, k + rest.consumed)
  {
    assert data[..k] + data[k..] == data && |data[..k]| == k;
    DataReads(p, data[..k]);
    StepsJoin(p, data[..k], data[k..]);
    hide *;
  }

  lemma OneStep(p: Parser, data: seq<byte>, i: nat)
    requires Valid(p) && !Halted(p) && i < |data|
    ensures var s := Step(p, data[i]); var rest := Steps(s.p, data[i + 1..]);
      if s.p.errno == Fine then Steps(p, data[i..]) == Run(rest.p, s.events + rest.events, 1 + rest.consumed)
      else Steps(p, data[i..]) == Run(s.p, s.events, 0)
  {
    assert data[i..][0] == data[i] && data[i..][1..] == data[i + 1..];
    hide Step, Valid;
  }

  lemma NoticesOnly(p: Parser, ch: byte)
    requires Valid(p) && !Halted(p) && p.state != ChunkData
    ensures forall i :: 0 <= i < |Step(p, ch).events| ==> !Step(p, ch).events[i].Body?
    ensures Step(p, ch).p.errno != Fine ==> Step(p, ch).events == []
    ensures p.state == ChunkDataAlmostDone ==> Step(p, ch).events == []
    ensures Step(p, ch).p.state == ChunkData ==> p.state == ChunkSizeAlmostDone || Step(p, ch).p.errno != Fine
    ensures Step(p, ch).p.state == ChunkDataAlmostDone ==> Step(p, ch).p.errno != Fine
  {
    hide Unhex, IsToken, Valid, ShouldKeepAlive;
  }

  /** Reading `k` body bytes moves them from what is to come to what is pending. */
  lemma BulkOnTrack(whole: Run, before: seq<Event>, data: seq<byte>, i: nat, k: nat, mark: int,
                                       log: seq<Event>, rest: Run, rest': Run)
    requires -1 <= mark < i && i + k <= |data| && 0 < k
    requires OnTrack(whole, before, i, log, Pending(data, mark, i), rest)
    requires rest == Run(rest'.p, BodyBytes(data[i..i + k]) + rest'.events, k + rest'.consumed)
    ensures OnTrack(whole, before, i + k, log, Pending(data, if mark < 0 then i else mark, i + k), rest')
  {
    var from := if mark < 0 then i else mark;
    assert Pending(data, from, i + k) == Pending(data, mark, i) + BodyBytes(data[i..i + k]);
    Assoc(Flat(log), Pending(data, mark, i), BodyBytes(data[i..i + k]));
    Assoc(Flat(log) + Pending(data, mark, i), BodyBytes(data[i..i + k]), rest'.events);
  }

  lemma NoticeOnTrack(whole: Run, before: seq<Event>, i: nat, log: seq<Event>, es: seq<Event>, rest: Run, rest': Run)
    requires OnTrack(whole, before, i, log, [], rest) && Flat(es) == es
    requires rest == Run(rest'.p, es + rest'.events, 1 + rest'.consumed)
    ensures OnTrack(whole, before, i + 1, log + es, [], rest')
  {
    FlatJoin(log, es);
    Assoc(Flat(log), es, rest'.events);
    assert Flat(log) + [] == Flat(log) && Flat(log + es) + [] == Flat(log + es);
  }

  /** Reporting the pending bytes. */
  lemma ReportOnTrack(whole: Run, before: seq<Event>, data: seq<byte>, i: nat, mark: int, log: seq<Event>, rest: Run)
    requires 0 <= mark < i <= |data| && OnTrack(whole, before, i, log, Pending(data, mark, i), rest)
    ensures OnTrack(whole, before, i, log + [Body(data[mark..i])], [], rest)
  {
    FlatJoin(log, [Body(data[mark..i])]);
    FlatOne(Body(data[mark..i]));
    var all := Flat(log + [Body(data[mark..i])]);
    assert all + [] == all;
  }

  /** A turn of the loop in `s_chunk_data`. */
  lemma BulkTurn(whole: Run, before: seq<Event>, data: seq<byte>, i: nat, k: nat, mark: int, log: seq<Event>, p: Parser)
    requires Valid(p) && p.errno == Fine && p.state == ChunkData && 0 < k <= p.contentLength && i + k <= |data|
    requires -1 <= mark < i && OnTrack(whole, before, i, log, Pending(data, mark, i), Steps(p, data[i..]))
    ensures Valid(AfterData(p, k))
    ensures OnTrack(whole, before, i + k, log, Pending(data, if mark < 0 then i else mark, i + k),
                    Steps(AfterData(p, k), data[i + k..]))
  {
    hide *;
    assert data[i..][..k] == data[i..i + k] && data[i..][k..] == data[i + k..];
    BulkSteps(p, data[i..], k);
    BulkOnTrack(whole, before, data, i, k, mark, log, Steps(p, data[i..]), Steps(AfterData(p, k), data[i + k..]));
  }

  function Reported(data: seq<byte>, mark: int, i: nat, log: seq<Event>): seq<Event>
    requires -1 <= mark && mark <= i <= |data|
  {
    if mark < 0 then log else log + [Body(data[mark..i])]
  }

  /** A turn of the loop in any other state, when the byte is accepted. */
  lemma ByteTurn(whole: Run, before: seq<Event>, data: seq<byte>, i: nat, mark: int, log: seq<Event>, p: Parser)
    requires Valid(p) && !Halted(p) && p.state != ChunkData && i < |data| && Step(p, data[i]).p.errno == Fine
    requires -1 <= mark < i && (mark >= 0 ==> p.state == ChunkDataAlmostDone)
    requires OnTrack(whole, before, i, log, Pending(data, mark, i), Steps(p, data[i..]))
    ensures var s := Step(p, data[i]);
      OnTrack(whole, before, i + 1, Reported(data, mark, i, log) + s.events, [], Steps(s.p, data[i + 1..]))
  {
    hide Step, Flat, BodyBytes, OnTrack, Steps, Valid;
    var s := Step(p, data[i]);
    var rest, log' := Steps(p, data[i..]), Reported(data, mark, i, log);
    OneStep(p, data, i);
    FlatStep(p, data[i]);
    assert OnTrack(whole, before, i, log', [], rest) by {
      if mark >= 0 {
        ReportOnTrack(whole, before, data, i, mark, log, rest);
      }
    }
    NoticeOnTrack(whole, before, i, log', s.events, rest, Steps(s.p, data[i + 1..]));
  }

  lemma FlatStep(p: Parser, ch: byte)
    requires Valid(p) && !Halted(p) && p.state != ChunkData
    ensures Flat(Step(p, ch).events) == Step(p, ch).events
  {
    hide Step, Valid, Flat;
    NoticesOnly(p, ch);
    FlatNotices(Step(p, ch).events);
  }

  /** Where the log stands when body bytes are pending: at the start of the call or behind a notice. */
  predicate AtNotice(start: seq<Event>, log: seq<Event>) {
    start <= log && (log == start || !log[|log| - 1].Body?)
  }

  lemma FlatSince(start: seq<Event>, log: seq<Event>) returns (since: seq<Event>)
    requires AtNotice(start, log)
    ensures Flat(log) == Flat(start) + since && (since == [] || !since[|since| - 1].Body?)
  {
    var more := log[|start|..];
    assert log == start + more;
    FlatJoin(start, more);
    since := Flat(more);
    if more != [] {
      assert !more[|more| - 1].Body?;
    }
  }

  lemma SameFront<T>(a: seq<T>, b: seq<T>, c: seq<T>)
    requires a + b == a + c
    ensures b == c
  {
    assert b == (a + b)[|a|..] && c == (a + c)[|a|..];
  }

  /** A turn of the loop that ends in an error: what was pending is never reported. */
  lemma ErrorTurn(whole: Run, start: seq<Event>, data: seq<byte>, i: nat, mark: int, log: seq<Event>, p: Parser)
    requires Valid(p) && !Halted(p) && p.state != ChunkData && i < |data| && Step(p, data[i]).p.errno != Fine
    requires -1 <= mark < i && start <= log
    requires mark >= 0 <==> p.state == ChunkDataAlmostDone && i > 0
    requires mark >= 0 ==> AtNotice(start, log)
    requires OnTrack(whole, Flat(start), i, log, Pending(data, mark, i), Steps(p, data[i..]))
    ensures whole.p == Step(p, data[i]).p && whole.consumed == i
    ensures Flat(log + Step(p, data[i]).events) == Flat(start) + Heard(whole)
  {
    var q := Step(p, data[i]).p;
    hide Step, Flat, BodyBytes, Steps, Valid, BeforeBody;
    OneStep(p, data, i);
    NoticesOnly(p, data[i]);
    StuckByte(p, data[i]);
    Neutral(log);
    Neutral(Flat(log) + Pending(data, mark, i));
    assert whole.p == q && whole.consumed == i;
    if mark < 0 {
      Neutral(Flat(log));
    } else {
      var since := FlatSince(start, log);
      Assoc(Flat(start), since, BodyBytes(data[mark..i]));
      SameFront(Flat(start), since + BodyBytes(data[mark..i]), whole.events);
      BeforeBodyOf(since, data[mark..i]);
    }
  }

  lemma StuckByte(p: Parser, ch: byte)
    requires Valid(p) && !Halted(p) && Step(p, ch).p.errno != Fine
    ensures Step(p, ch).p.state == p.state
    ensures p.state == ChunkDataAlmostDone ==> Step(p, ch).p.errno == Strict
  {
    hide Unhex, IsToken, Valid, ShouldKeepAlive;
  }

  /** `RoundTrip`, with the two facts the driver starts from. */
  lemma BodyIsAccepted(p: Parser, cs: seq<Chunk>, last: Chunk, feeds: seq<seq<byte>>)
    requires AtChunk(p) && ChunkOk(last) && Fits(last) && last.data == []
    requires forall i :: 0 <= i < |cs| ==> ChunkOk(cs[i]) && Fits(cs[i]) && cs[i].data != []
    requires Concat(feeds) == Encode(cs, last) && forall i :: 0 <= i < |feeds| ==> feeds[i] != []
    ensures Valid(p) && Feeds(p, feeds).p.errno == Fine
    ensures var r := Feeds(p, feeds);
      BodyOf(r.events) == Payload(cs) && Completions(r.events) == 1
      && r.consumed == |Encode(cs, last)| && r.p == Finished(p)
  {
    hide ChunkOk, Fits, Encode, Payload, Feeds;
    RoundTrip(p, cs, last, feeds);
  }

  class HttpParser {
    const head: Head
    var state: State
    var errno: Errno
    var contentLength: nat
    var nread: nat
    var trailing: bool
    /** The callbacks run so far. */
    var log: seq<Event>

    function View(): Parser
      reads this
    {
      Parser(head, state, errno, contentLength, nread, trailing)
    }

    /** `s_message_done`. */
    method MessageDone()
      requires errno == Fine
      modifies this`state, this`log
      ensures state == NewMessage(head, contentLength) && log == old(log) + [MessageComplete]
    {
      state := NewMessage(head, contentLength);
      log := log + [MessageComplete];
    }

    /** `s_headers_almost_done` on a line feed, after the last chunk. */
    method TrailersDone()
      requires errno == Fine
      modifies this`state, this`log
      ensures state == NewMessage(head, contentLength) && log == old(log) + [ChunkComplete, MessageComplete]
    {
      log := log + [ChunkComplete];
      MessageDone();
    }

    /** One turn of the loop in every state but `s_chunk_data`; the asserts of the source hold. */
    method TakeByte(ch: byte)
      requires Valid(View()) && !Halted(View()) && state != ChunkData
      modifies this
      ensures View() == Step(old(View()), ch).p && log == old(log) + Step(old(View()), ch).events
    {
      if ParsingHeader(state) {
        nread := nread + 1;
        if nread > HTTP_MAX_HEADER_SIZE {
          errno := HeaderOverflow;
          return;
        }
      }
      TakeCase(ch);
    }

    /** The states of a chunk-size line. */
    method TakeSizeByte(ch: byte)
      requires Shaped(View()) && errno == Fine && (state == ChunkSizeStart ==> nread == 1)
      requires state in {ChunkSizeStart, ChunkSize, ChunkParameters, ChunkSizeAlmostDone}
      modifies this
      ensures View() == SizeCase(old(View()), ch).p && log == old(log) + SizeCase(old(View()), ch).events
    {
      hide Unhex;
      match state {
        case ChunkSizeStart =>
          assert nread == 1 && head.chunked;
          if Unhex(ch) == -1 {
            errno := InvalidChunkSize;
          } else {
            contentLength := Unhex(ch);
            state := ChunkSize;
          }
        case ChunkSize =>
          if ch == CR {
            state := ChunkSizeAlmostDone;
          } else if Unhex(ch) == -1 {
            if ch == SEMICOLON || ch == SPACE {
              state := ChunkParameters;
            } else {
              errno := InvalidChunkSize;
            }
          } else if (ULLONG_MAX - 16) / 16 < contentLength {
            errno := InvalidContentLength;
          } else {
            contentLength := (contentLength * 16 + Unhex(ch)) % (ULLONG_MAX + 1);
          }
        case ChunkParameters =>
          if ch == CR {
            state := ChunkSizeAlmostDone;
          }
        case ChunkSizeAlmostDone =>
          if ch != LF {
            errno := Strict;
            return;
          }
          nread := 0;
          if contentLength == 0 {
            trailing := true;
            state := HeaderFieldStart;
          } else {
            state := ChunkData;
          }
          log := log + [ChunkHeader(contentLength)];
        case _ =>
      }
    }

    /** The switch over the state. */
    method TakeCase(ch: byte)
      requires Shaped(View()) && !Halted(View()) && state != ChunkData && (state == ChunkSizeStart ==> nread == 1)
      modifies this
      ensures View() == Case(old(View()), ch).p && log == old(log) + Case(old(View()), ch).events
    {
      hide Unhex, IsToken, ShouldKeepAlive;
      match state {
        case Dead =>
          if !(ch == CR || ch == LF) {
            errno := ClosedConnection;
          }
        case HeaderFieldStart =>
          if ch == CR {
            state := HeadersAlmostDone;
          } else if ch == LF {
            TrailersDone();
          } else if !IsToken(ch) {
            errno := InvalidHeaderToken;
          } else {
            state := HeaderField;
          }
        case HeadersAlmostDone =>
          if ch != LF {
            errno := Strict;
          } else {
            TrailersDone();
          }
        case ChunkSizeStart | ChunkSize | ChunkParameters | ChunkSizeAlmostDone =>
          TakeSizeByte(ch);
        case ChunkDataAlmostDone =>
          assert head.chunked && contentLength == 0;
          if ch != CR {
            errno := Strict;
          } else {
            state := ChunkDataDone;
          }
        case ChunkDataDone =>
          if ch != LF {
            errno := Strict;
            return;
          }
          nread := 0;
          state := ChunkSizeStart;
          log := log + [ChunkComplete];
        case _ =>
      }
    }

    /**
     The whole call. The parser ends where the machine of HttpChunks ends and consumes what it
     consumes, and the callbacks carry the events of that run that are heard.
     */
    method Execute(data: seq<byte>) returns (consumed: nat)
      requires Valid(View())
      modifies this
      ensures Valid(View())
      ensures View() == Fed(old(View()), data).p && consumed == Fed(old(View()), data).consumed
      ensures Flat(log) == Flat(old(log)) + Heard(Fed(old(View()), data))
    {
      Neutral(Flat(log));
      if errno != Fine {
        return 0;
      }
      if data == [] {
        if state == Dead || state == StartReq || state == StartRes {
          return 0;
        }
        errno := InvalidEofState;
        return 1;
      }
      consumed := Loop(data);
    }

    /**
     One call for every piece that arrives. However an encoded body is cut, the callbacks deliver the
     payload, message_complete fires once and every byte is consumed.
     */
    method ReceiveBody(feeds: seq<seq<byte>>, ghost cs: seq<Chunk>, ghost last: Chunk) returns (consumed: nat)
      requires AtChunk(View()) && ChunkOk(last) && Fits(last) && last.data == []
      requires forall i :: 0 <= i < |cs| ==> ChunkOk(cs[i]) && Fits(cs[i]) && cs[i].data != []
      requires Concat(feeds) == Encode(cs, last) && forall i :: 0 <= i < |feeds| ==> feeds[i] != []
      modifies this
      ensures BodyOf(log) == BodyOf(old(log)) + Payload(cs)
      ensures Completions(log) == Completions(old(log)) + 1
      ensures consumed == |Encode(cs, last)| && View() == Finished(old(View()))
    {
      hide *;
      BodyIsAccepted(View(), cs, last, feeds);
      ghost var whole, start, heard := Feeds(View(), feeds), log, [];
      consumed := 0;
      assert feeds[0..] == feeds;
      JoinedAtStart(whole, View(), feeds, Flat(log));
      for k := 0 to |feeds|
        invariant Valid(View()) && Flat(log) == Flat(start) + heard
        invariant Joined(whole, heard, consumed, Feeds(View(), feeds[k..]))
      {
        ghost var p, was := View(), log;
        FeedsNext(p, feeds, k);
        NeverStuck(whole, heard, consumed, p, feeds, k);
        var n := Execute(feeds[k]);
        JoinedOn(whole, heard, consumed, p, feeds, k, Flat(start));
        heard := heard + Fed(p, feeds[k]).events;
        consumed := consumed + n;
      }
      JoinedAll(whole, heard, consumed, View(), feeds);
      FlatDelivers(log);
      FlatDelivers(start);
      DeliveredJoin(Flat(start), heard);
    }

    /** Between turns: `mark` is where unreported body bytes begin, and the input so far is accounted for. */
    ghost predicate Looping(data: seq<byte>, whole: Run, start: seq<Event>, i: int, mark: int)
      reads this
    {
      && 0 <= i <= |data| && -1 <= mark && (mark >= 0 ==> mark < i) && errno == Fine
      && Valid(View())
      && (mark >= 0 ==> (state == ChunkData && i == |data|) || state == ChunkDataAlmostDone)
      && (state == ChunkDataAlmostDone && i > 0 ==> mark >= 0)
      && start <= log && (state == ChunkData || mark >= 0 ==> AtNotice(start, log))
      && OnTrack(whole, Flat(start), i, log, Pending(data, mark, i), Steps(View(), data[i..]))
    }

    /** One turn of the loop; `ok` is false when it ends in an error, which leaves the byte unread. */
    method Turn(data: seq<byte>, i: nat, mark: int, ghost whole: Run, ghost start: seq<Event>)
      returns (ok: bool, i': nat, mark': int)
      requires Looping(data, whole, start, i, mark) && i < |data| && !Halted(View())
      modifies this
      ensures ok ==> i < i' && Looping(data, whole, start, i', mark')
      ensures !ok ==> i' == i && errno != Fine && Valid(View()) && whole.p == View() && whole.consumed == i
      ensures !ok ==> Flat(log) == Flat(start) + Heard(whole)
    {
      hide Case, Step, BodyBytes, Flat, OnTrack, Steps, Pending, Valid, Heard, AtNotice;
      if state == ChunkData {
        i', mark' := TakeData(data, i, mark, whole, start);
        return true, i', mark';
      }
      ghost var p, log1 := View(), log;
      TakeByte(data[i]);
      if errno != Fine {
        ErrorTurn(whole, start, data, i, mark, log1, p);
        return false, i, mark;
      }
      ByteTurn(whole, Flat(start), data, i, mark, log1, p);
      TurnNotice(p, data, i, mark, start, log1);
      if mark >= 0 {
        log := log + [Body(data[mark..i])];
      }
      NothingPending(data, i + 1);
      return true, i + 1, -1;
    }

    /** `s_chunk_data`: reads as much of the chunk as there is. */
    method TakeData(data: seq<byte>, i: nat, mark: int, ghost whole: Run, ghost start: seq<Event>)
      returns (i': nat, mark': int)
      requires Looping(data, whole, start, i, mark) && i < |data| && !Halted(View()) && state == ChunkData
      modifies this`contentLength, this`state
      ensures i < i' && Looping(data, whole, start, i', mark')
    {
      hide Case, Step, BodyBytes, Flat, OnTrack, Steps, Pending, Valid, AtNotice;
      ChunkDataAsserts(View());
      assert contentLength != 0 && contentLength != ULLONG_MAX;
      var toRead := if contentLength <= |data| - i then contentLength else |data| - i;
      BulkTurn(whole, Flat(start), data, i, toRead, mark, log, View());
      mark' := if mark < 0 then i else mark;
      contentLength := contentLength - toRead;
      i' := i + toRead;
      if contentLength == 0 {
        state := ChunkDataAlmostDone;
      }
    }

    /** The loop over the bytes, and the report of what is left when it ends. */
    method Loop(data: seq<byte>) returns (consumed: nat)
      requires Valid(View()) && errno == Fine
      modifies this
      ensures Valid(View())
      ensures View() == Steps(old(View()), data).p && consumed == Steps(old(View()), data).consumed
      ensures Flat(log) == Flat(old(log)) + Heard(Steps(old(View()), data))
    {
      ghost var whole, start := Steps(View(), data), log;
      StartOnTrack(View(), data, log);
      NothingPending(data, 0);
      hide Case, Step, BodyBytes, Flat, OnTrack, Steps, Pending, Valid, Heard;
      var mark, i := -1, 0;
      while i < |data| && !Halted(View())
        invariant Looping(data, whole, start, i, mark)
        decreases |data| - i
      {
        var ok;
        ok, i, mark := Turn(data, i, mark, whole, start);
        if !ok {
          return i;
        }
      }
      NoMore(View(), data, i);
      Done(whole, Flat(start), data, i, mark, log, View());
      if mark >= 0 {
        log := log + [Body(data[mark..i])];
      }
      consumed := i;
    }
  }

  // ---------------------------------------------------------------- one call after the other

  /** What was heard and consumed so far and what is still to come make up the whole. */
  ghost predicate Joined(whole: Run, heard: seq<Event>, consumed: nat, rest: Run) {
    whole == Run(rest.p, heard + rest.events, consumed + rest.consumed)
  }

  lemma JoinedAtStart(whole: Run, p: Parser, feeds: seq<seq<byte>>, flat: seq<Event>)
    requires Valid(p) && whole == Feeds(p, feeds)
    ensures Joined(whole, [], 0, Feeds(p, feeds)) && flat == flat + []
  {
    Neutral(Feeds(p, feeds).events);
  }

  lemma FeedsNext(p: Parser, feeds: seq<seq<byte>>, k: nat)
    requires Valid(p) && k < |feeds|
    ensures var first := Fed(p, feeds[k]); var rest := Feeds(first.p, feeds[k + 1..]);
            Feeds(p, feeds[k..]) == Run(rest.p, first.events + rest.events, first.consumed + rest.consumed)
  {
    assert feeds[k..][0] == feeds[k] && feeds[k..][1..] == feeds[k + 1..];
    hide Fed;
  }

  lemma {:induction false} StaysStuck(p: Parser, feeds: seq<seq<byte>>)
    requires Valid(p) && p.errno != Fine
    ensures Feeds(p, feeds).p.errno != Fine
  {
    if feeds != [] {
      StaysStuck(p, feeds[1..]);
    }
  }

  /** As the whole ends without an error, so does every call, and a call without an error is heard in full. */
  lemma NeverStuck(whole: Run, heard: seq<Event>, consumed: nat, p: Parser, feeds: seq<seq<byte>>, k: nat)
    requires Valid(p) && k < |feeds| && whole.p.errno == Fine && Joined(whole, heard, consumed, Feeds(p, feeds[k..]))
    ensures Fed(p, feeds[k]).p.errno == Fine && Heard(Fed(p, feeds[k])) == Fed(p, feeds[k]).events
  {
    hide Fed, Feeds;
    FeedsNext(p, feeds, k);
    if Fed(p, feeds[k]).p.errno != Fine {
      StaysStuck(Fed(p, feeds[k]).p, feeds[k + 1..]);
    }
  }

  lemma JoinedOn(whole: Run, heard: seq<Event>, consumed: nat, p: Parser, feeds: seq<seq<byte>>, k: nat,
                 flat: seq<Event>)
    requires Valid(p) && k < |feeds| && Joined(whole, heard, consumed, Feeds(p, feeds[k..]))
    ensures var first := Fed(p, feeds[k]);
            && Joined(whole, heard + first.events, consumed + first.consumed, Feeds(first.p, feeds[k + 1..]))
            && (flat + heard) + first.events == flat + (heard + first.events)
  {
    hide Fed, Feeds;
    FeedsNext(p, feeds, k);
    var first := Fed(p, feeds[k]);
    Assoc(heard, first.events, Feeds(first.p, feeds[k + 1..]).events);
    Assoc(flat, heard, first.events);
  }

  lemma JoinedAll(whole: Run, heard: seq<Event>, consumed: nat, p: Parser, feeds: seq<seq<byte>>)
    requires Valid(p) && Joined(whole, heard, consumed, Feeds(p, feeds[|feeds|..]))
    ensures whole == Run(p, heard, consumed)
  {
    hide Fed, Feeds;
    assert feeds[|feeds|..] == [];
    NoFeeds(p);
    Neutral(heard);
  }

  lemma NoFeeds(p: Parser)
    requires Valid(p)
    ensures Feeds(p, []) == Run(p, [], 0)
  {
    hide Fed;
  }

  /** After a turn that does not enter chunk data nothing is pending; one that does ends with a notice. */
  lemma TurnNotice(p: Parser, data: seq<byte>, i: nat, mark: int, start: seq<Event>, log: seq<Event>)
    requires Valid(p) && !Halted(p) && p.state != ChunkData && i < |data| && Step(p, data[i]).p.errno == Fine
    requires -1 <= mark < i && start <= log && (mark >= 0 ==> p.state == ChunkDataAlmostDone)
    ensures var s, log' := Step(p, data[i]), Reported(data, mark, i, log) + Step(p, data[i]).events;
            && s.p.state != ChunkDataAlmostDone
            && start <= log' && (s.p.state == ChunkData ==> AtNotice(start, log'))
            && (mark >= 0 ==> log' == (log + s.events) + [Body(data[mark..i])])
  {
    hide Step, Valid;
    NoticesOnly(p, data[i]);
    EntersData(p, data[i]);
    Neutral(log);
    Neutral(Reported(data, mark, i, log));
  }

  lemma EntersData(p: Parser, ch: byte)
    requires Valid(p) && !Halted(p) && p.state != ChunkData
    ensures Step(p, ch).p.errno == Fine && Step(p, ch).p.state == ChunkData ==> |Step(p, ch).events| == 1
  {
    hide Unhex, IsToken, Valid, ShouldKeepAlive;
  }

  /** After the last turn and the report of the pending bytes nothing is missing. */
  lemma Done(whole: Run, before: seq<Event>, data: seq<byte>, i: nat, mark: int, log: seq<Event>, p: Parser)
    requires -1 <= mark < i + 1 && i <= |data| && (mark >= 0 ==> mark < i) && p.errno == Fine
    requires OnTrack(whole, before, i, log, Pending(data, mark, i), Run(p, [], 0))
    ensures whole.p == p && whole.consumed == i
    ensures Flat(Reported(data, mark, i, log)) == before + Heard(whole)
  {
    if mark >= 0 {
      ReportOnTrack(whole, before, data, i, mark, log, Run(p, [], 0));
    }
    NothingPending(data, i);
    hide Flat, Pending;
    Neutral(Flat(Reported(data, mark, i, log)));
  }

  lemma StartOnTrack(p: Parser, data: seq<byte>, log: seq<Event>)
    requires Valid(p)
    ensures data[0..] == data && OnTrack(Steps(p, data), Flat(log), 0, log, [], Steps(p, data[0..]))
  {
    assert data[0..] == data;
    assert Flat(log) + [] == Flat(log);
  }

  lemma ChunkDataAsserts(p: Parser)
    requires Valid(p) && p.state == ChunkData
    ensures p.contentLength != 0 && p.contentLength != ULLONG_MAX
  {
  }

  lemma NothingPending(data: seq<byte>, i: nat)
    requires i <= |data|
    ensures Pending(data, -1, i) == []
  {
  }

  lemma NoMore(p: Parser, data: seq<byte>, i: nat)
    requires Valid(p) && i <= |data| && (i == |data| || Halted(p))
    ensures Steps(p, data[i..]) == Run(p, [], 0)
  {
  }

  /** Whatever is not a carriage return behind the data of a chunk costs all of it that came in the same call. */
  lemma DataIsLost(p: Parser, c: Chunk, ch: byte)
    requires AtChunk(p) && ChunkOk(c) && Fits(c) && c.data != [] && ch != CR
    ensures var r := Fed(p, Line(c) + c.data + [ch]);
            && r.events == [ChunkHeader(|c.data|)] + BodyBytes(c.data) && Heard(r) == [ChunkHeader(|c.data|)]
            && r.consumed == |Line(c) + c.data|
  {
    var q, header := AfterLine(p, |c.data|), [ChunkHeader(|c.data|)];
    var r := AfterData(q, |c.data|);
    assert Valid(r) && Step(r, ch) == Fail(r, Strict);
    hide Steps, Step, HexValue, Line, Valid;
    LineReads(p, c);
    DataReads(q, c.data);
    ReadsJoin(p, Line(c), q, header, c.data, r, BodyBytes(c.data));
    StuckEnd(p, Line(c) + c.data, r, header + BodyBytes(c.data), ch);
    BeforeBodyOf(header, c.data);
  }

  lemma StuckEnd(p: Parser, data: seq<byte>, r: Parser, es: seq<Event>, ch: byte)
    requires Valid(p) && Reads(p, data, r, es) && Valid(r) && !Halted(r) && Step(r, ch) == Fail(r, Strict)
    ensures Steps(p, data + [ch]) == Run(r.(errno := Strict), es, |data|)
  {
    hide Step, Valid;
    StepsJoin(p, data, [ch]);
    Neutral(es);
  }
}
