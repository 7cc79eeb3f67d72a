/**
 Frames in place (service-src/websocket/websocket.c) and the WebSocket gateway in the NORMAL state
 (service-src/service_gatews.c).
 */
module WebSocket {
  import opened Options
  import opened Bytes
  import opened Sequences
  import opened Framing
  import opened DataBuffer
  import opened Gate

  // ---------------------------------------------------------------- websocket.c

  /** `wsMakeFrame`: writes the frame at the front of `outFrame`. */
  method WsMakeFrame(data: seq<byte>, outFrame: array<byte>, opcode: byte) returns (outLength: nat)
    requires opcode < 16 && |MakeFrame(data, opcode)| <= outFrame.Length
    modifies outFrame
    ensures outLength <= outFrame.Length && outFrame[..outLength] == MakeFrame(data, opcode)
    ensures outFrame[outLength..] == old(outFrame[outLength..])
  {
    var n := |data|;
    BigEndianLength(n, 2);
    BigEndianLength(n, 8);
    outFrame[0] := 128 + opcode;
    if n <= 125 {
      outFrame[1] := n;
      outLength := 2;
    } else if n <= 0xFFFF {
      outFrame[1] := 126;
      Copy(BigEndian(n, 2), outFrame, 2);
      outLength := 4;
    } else {
      outFrame[1] := 127;
      Copy(BigEndian(n, 8), outFrame, 2);
      outLength := 10;
    }
    Copy(data, outFrame, outLength);
    outLength := outLength + n;
  }

  lemma {:induction false} BigEndianLength(n: nat, k: nat)
    ensures |BigEndian(n, k)| == k
    decreases k
  {
    if k > 0 {
      BigEndianLength(n / 256, k - 1);
    }
  }

  /** `memcpy`. */
  method Copy(data: seq<byte>, target: array<byte>, at: nat)
    requires at + |data| <= target.Length
    modifies target
    ensures target[..] == old(target[..at]) + data + old(target[at + |data|..])
  {
    var i := 0;
    while i < |data|
      invariant 0 <= i <= |data|
      invariant forall j :: 0 <= j < target.Length ==>
        target[j] == if at <= j < at + i then data[j - at] else old(target[j])
    {
      target[at + i] := data[i];
      i := i + 1;
    }
  }

  function KeyByte(s: seq<byte>, keyAt: nat, i: nat): byte
    requires keyAt + 4 <= |s|
  {
    s[keyAt + i % 4]
  }

  /** The bytes of a buffer after the payload behind the key at `keyAt` has been unmasked. */
  function UnmaskedAt(s: seq<byte>, keyAt: nat, len: nat): seq<byte>
    requires keyAt + 4 + len <= |s|
  {
    var at := keyAt + 4;
    seq(|s|, j requires 0 <= j < |s| => if at <= j < at + len then Xor(s[j], KeyByte(s, keyAt, j - at)) else s[j])
  }

  lemma KeyByteIs(s: seq<byte>, keyAt: nat, i: nat)
    requires keyAt + 4 <= |s|
    ensures KeyByte(s, keyAt, i) == s[keyAt + i % 4]
  {
  }

  lemma UnmaskedPayload(s: seq<byte>, keyAt: nat, len: nat)
    requires keyAt + 4 + len <= |s|
    ensures UnmaskedAt(s, keyAt, len)[keyAt + 4..keyAt + 4 + len]
            == Masked(s[keyAt + 4..keyAt + 4 + len], s[keyAt..keyAt + 4])
  {
    UnmaskedPoints(s, keyAt, len);
    hide Xor, KeyByte, UnmaskedAt;
    var at := keyAt + 4;
    var payload, key, got := s[at..at + len], s[keyAt..at], UnmaskedAt(s, keyAt, len)[at..at + len];
    forall j | 0 <= j < len
      ensures got[j] == Masked(payload, key)[j]
    {
      UnmaskedPoint(s, keyAt, len, j);
      KeyByteIs(s, keyAt, j);
      assert payload[j] == s[at + j] && key[j % 4] == s[keyAt + j % 4];
    }
  }

  lemma UnmaskedRest(s: seq<byte>, keyAt: nat, len: nat)
    requires keyAt + 4 + len <= |s|
    ensures UnmaskedAt(s, keyAt, len)[..keyAt + 4] == s[..keyAt + 4]
    ensures UnmaskedAt(s, keyAt, len)[keyAt + 4 + len..] == s[keyAt + 4 + len..]
  {
    hide Xor, KeyByte;
  }

  lemma UnmaskedPoints(s: seq<byte>, keyAt: nat, len: nat)
    requires keyAt + 4 + len <= |s|
    ensures |UnmaskedAt(s, keyAt, len)| == |s|
    ensures forall j :: 0 <= j < keyAt + 4 || keyAt + 4 + len <= j < |s| ==> UnmaskedAt(s, keyAt, len)[j] == s[j]
  {
    hide Xor, KeyByte;
  }

  lemma UnmaskedPoint(s: seq<byte>, keyAt: nat, len: nat, i: nat)
    requires keyAt + 4 + len <= |s| && i < len
    ensures UnmaskedAt(s, keyAt, len)[keyAt + 4 + i] == Xor(s[keyAt + 4 + i], KeyByte(s, keyAt, i))
  {
    hide Xor, KeyByte;
  }

  /** The loop of `wsParseInputFrame` that unmasks the payload where it lies. */
  method Unmask(frame: array<byte>, keyAt: nat, len: nat)
    requires keyAt + 4 + len <= frame.Length
    modifies frame
    ensures frame[..] == UnmaskedAt(old(frame[..]), keyAt, len)
  {
    ghost var was, goal := frame[..], UnmaskedAt(frame[..], keyAt, len);
    UnmaskedPoints(was, keyAt, len);
    hide *;
    var at := keyAt + 4;
    var i := 0;
    while i < len
      invariant 0 <= i <= len
      invariant forall j :: 0 <= j < at + i ==> frame[j] == goal[j]
      invariant forall j :: at + i <= j < frame.Length ==> frame[j] == was[j]
    {
      assert frame[keyAt + i % 4] == goal[keyAt + i % 4];
      UnmaskedPoint(was, keyAt, len, i);
      KeyByteIs(was, keyAt, i);
      frame[at + i] := Xor(frame[at + i], frame[keyAt + i % 4]);
      i := i + 1;
    }
  }

  /**
   `wsParseInputFrame`: the parsed payload lies unmasked in `frame[dataAt..readSize]` afterwards, and
   no other byte changed.
   */
  method WsParseInputFrame(frame: array<byte>, inputLength: nat) returns (parsed: Parsed, dataAt: nat)
    requires inputLength <= frame.Length && inputLength != 0
    modifies frame
    ensures parsed == Parse(old(frame[..inputLength]))
    ensures parsed.Frame? && parsed.readSize > 0 ==>
      dataAt + |parsed.payload| == parsed.readSize <= inputLength && frame[dataAt..parsed.readSize] == parsed.payload
      && frame[..dataAt] == old(frame[..dataAt]) && frame[parsed.readSize..] == old(frame[parsed.readSize..])
    ensures !(parsed.Frame? && parsed.readSize > 0) ==> frame[..] == old(frame[..])
  {
    hide Masked, UnmaskedAt;
    ghost var s := frame[..inputLength];
    if inputLength < 2 {
      return Incomplete, 0;
    }
    assert s[0] == frame[0] && s[1] == frame[1];
    if frame[0] / 16 % 8 != 0 || frame[0] < 128 || frame[1] < 128 {
      return Error, 0;
    }
    var opcode := frame[0] % 16;
    if !(opcode == TEXT || opcode == BINARY || opcode == CLOSING || opcode == PING || opcode == PONG) {
      return Error, 0;
    }
    var short := frame[1] % 128;
    if (short == 126 && inputLength < 4) || (short == 127 && inputLength < 10) {
      return Incomplete, 0;
    }
    if short == 127 {
      return Error, 0;
    }
    var len: nat, extra := short, 0;
    if short == 126 {
      extra := 2;
      assert s[2] == frame[2] && s[3] == frame[3];
      len := frame[2] as int * 256 + frame[3] as int;
    }
    if len == 0 {
      return Frame(opcode, 0, []), 0;
    }
    if len + 6 + extra > inputLength {
      return Incomplete, 0;
    }
    dataAt := 6 + extra;
    UnmaskedPayload(frame[..], 2 + extra, len);
    UnmaskedRest(frame[..], 2 + extra, len);
    SlicesOf(frame[..], inputLength, 2 + extra, dataAt, dataAt + len);
    Unmask(frame, 2 + extra, len);
    parsed := Frame(opcode, len + 6 + extra, frame[dataAt..dataAt + len]);
  }

  lemma SlicesOf(s: seq<byte>, n: nat, i: nat, j: nat, k: nat)
    requires i <= j <= k <= n <= |s|
    ensures s[..n][i..j] == s[i..j] && s[..n][j..k] == s[j..k]
  {
  }

  // ---------------------------------------------------------------- service_gatews.c

  /** The `forward` branch of `gatews_dispatch_cmd`: `size + 10` bytes are enough for the frame. */
  method WsForwardCommand(msg: seq<byte>) returns (frame: Option<seq<byte>>)
    requires |msg| < 0x8000_0000
    ensures frame ==
      if TakenForForward(msg, BarAt(msg)) && Argument(msg) != [] then Some(MakeFrame(Argument(msg), BINARY)) else None
  {
    var i := FindBar(msg);
    frame := None;
    if TakenForForward(msg, i) {
      var size := |msg| - i - 1;
      if size > 0 {
        var out := new byte[size + 10](_ => 0);
        BigEndianLength(size, 2);
        BigEndianLength(size, 8);
        var n := WsMakeFrame(msg[i + 1..], out, BINARY);
        frame := Some(out[..n]);
      }
    }
  }

  /** The bytes of a buffer after `wsParseInputFrame` has unmasked the payload of its first frame where it lies. */
  function AfterParse(s: seq<byte>): seq<byte> {
    match Parse(s)
    case Frame(_, readSize, payload) =>
      ParsedSize(s);
      s[..readSize - |payload|] + payload + s[readSize..]
    case _ => s
  }

  lemma ParsedInPlace(was: seq<byte>, now: seq<byte>, n: nat, dataAt: nat)
    requires n <= |was| == |now|
    requires match Parse(was[..n])
      case Frame(_, readSize, payload) =>
        if readSize > 0 then
          && dataAt + |payload| == readSize <= n && now[dataAt..readSize] == payload
          && now[..dataAt] == was[..dataAt] && now[readSize..] == was[readSize..]
        else now == was
      case _ => now == was
    ensures now[..n] == AfterParse(was[..n])
  {
    ParsedSize(was[..n]);
    hide Parse;
    match Parse(was[..n])
    case Frame(_, readSize, payload) =>
      if readSize > 0 {
        SliceTail(now, was, readSize, n);
        assert now[..n] == now[..dataAt] + now[dataAt..readSize] + now[..n][readSize..];
        assert was[..n][..dataAt] == was[..dataAt];
      } else {
        assert was[..n] == was[..n][..0] + [] + was[..n][0..];
      }
    case _ =>
  }

  class WsConnection {
    const buffer: DataBuffer
    /** What was sent to the `forward` service. */
    var forwarded: seq<seq<byte>>
    /** How many closing frames were sent to the socket. */
    var closingFrames: nat
    /** Whether `skynet_socket_close` was called. */
    var closing: bool

    ghost predicate Valid()
      reads this, buffer
    {
      buffer.Valid() && 32 <= buffer.sz
    }

    /** Just after the handshake. */
    constructor (bufferMax: nat)
      requires 32 <= bufferMax
      ensures Valid() && buffer.sz == bufferMax && buffer.Contents() == []
      ensures forwarded == [] && closingFrames == 0 && !closing
      ensures fresh(buffer) && fresh(buffer.chunk)
    {
      buffer := new DataBuffer(bufferMax);
      forwarded, closingFrames, closing := [], 0, false;
    }

    /** Closes the socket, after a closing frame or without one. */
    method Refused(answered: bool)
      modifies this`closingFrames, this`closing
      ensures closing && closingFrames == old(closingFrames) + if answered then 1 else 0
    {
      if answered {
        closingFrames := closingFrames + 1;
      }
      closing := true;
    }

    /** `gatews_message` in the NORMAL state. */
    method Message() returns (more: nat)
      requires Valid() && buffer.ptr > 0
      modifies this, buffer`ptr, buffer.chunk
      ensures Valid()
      ensures match WebSocketFront(old(buffer.Contents()), buffer.sz)
        case Take(size, payload) =>
          more == buffer.ptr && buffer.Contents() == old(buffer.Contents())[size..]
          && forwarded == old(forwarded) + [ForwardText(payload)]
          && closing == old(closing) && closingFrames == old(closingFrames)
        case Spin =>
          more == buffer.ptr > 0 && buffer.Contents() == old(buffer.Contents())
          && forwarded == old(forwarded) + [ForwardText([])]
          && closing == old(closing) && closingFrames == old(closingFrames)
        case Wait =>
          more == 0 && buffer.Contents() == old(buffer.Contents()) && forwarded == old(forwarded)
          && closing == (old(closing) || old(buffer.ptr) == buffer.sz)
          && closingFrames == old(closingFrames) + if old(buffer.ptr) == buffer.sz then 1 else 0
        case Leave =>
          more == 0 && buffer.Contents() == AfterParse(old(buffer.Contents())) && forwarded == old(forwarded)
          && closing == old(closing) && closingFrames == old(closingFrames)
        case Refuse(answered) =>
          more == 0 && buffer.Contents() == AfterParse(old(buffer.Contents())) && forwarded == old(forwarded) && closing
          && closingFrames == old(closingFrames) + if answered then 1 else 0
    {
      ghost var s := buffer.Contents();
      var parsed, dataAt := WsParseInputFrame(buffer.chunk, buffer.ptr);
      hide Parse, AfterParse;
      ParsedSize(s);
      ParsedInPlace(old(buffer.chunk[..]), buffer.chunk[..], buffer.ptr, dataAt);
      var full := buffer.IsFull();
      if (parsed.Incomplete? && full) || parsed.Error? {
        Refused(true);
        return 0;
      }
      if parsed.Frame? {
        if parsed.opcode == BINARY {
          if |parsed.payload| + 32 <= buffer.sz {
            SliceTail(buffer.chunk[..], old(buffer.chunk[..]), parsed.readSize, buffer.ptr);
            forwarded := forwarded + [ForwardText(parsed.payload)];
            more := buffer.Pop(parsed.readSize);
            return more;
          } else {
            Refused(false);
          }
        } else if parsed.opcode == CLOSING {
          Refused(true);
        }
      }
      more := 0;
    }

    /**
     The driving loop of the data branch. It ends unless an empty binary frame comes to the front: then
     `spins` is true, and the source repeats the same call, which changes nothing, for ever.
     */
    method Drive() returns (spins: bool)
      requires Valid() && buffer.ptr > 0
      modifies this, buffer`ptr, buffer.chunk
      ensures Valid()
      ensures var d := Deframe(WebSocket(buffer.sz), old(buffer.Contents()));
        var front := WebSocketFront(d.rest, buffer.sz);
        spins == front.Spin?
        && buffer.Contents() == (if front.Wait? || front.Spin? then d.rest else AfterParse(d.rest))
        && forwarded == old(forwarded) + Texts(d.msgs) + (if spins then [ForwardText([])] else [])
        && closing == (old(closing) || front.Refuse? || (front.Wait? && |d.rest| == buffer.sz))
    {
      ghost var whole, before := Deframe(WebSocket(buffer.sz), buffer.Contents()), forwarded;
      ghost var done: seq<seq<byte>> := [];
      Neutral(whole.msgs);
      assert before + Texts([]) == before;
      while true
        invariant Valid() && closing == old(closing) && buffer.ptr > 0
        invariant forwarded == before + Texts(done)
        invariant whole == Rebuilt(done, Deframe(WebSocket(buffer.sz), buffer.Contents()))
        decreases buffer.ptr
      {
        ghost var s := buffer.Contents();
        ghost var front := WebSocketFront(s, buffer.sz);
        var size := buffer.ptr;
        var more := Message();
        hide WebSocketFront, ForwardText, Texts;
        if front.Take? {
          DeframeTake(WebSocket(buffer.sz), s);
          Assoc(done, [front.payload], Deframe(WebSocket(buffer.sz), buffer.Contents()).msgs);
          TextsGrow(before, done, front.payload);
          done := done + [front.payload];
        }
        if more == 0 {
          Settled(whole, done, WebSocket(buffer.sz), if front.Take? then buffer.Contents() else s);
          return false;
        }
        if more == size {
          Settled(whole, done, WebSocket(buffer.sz), s);
          return true;
        }
      }
    }

    /** The data branch of `gatews_dispatch_socket_message`. */
    method ReceiveData(data: seq<byte>) returns (spins: bool)
      requires Valid()
      modifies this, buffer`ptr, buffer.chunk
      ensures Valid()
      ensures var fits := |old(buffer.Contents())| + |data| <= buffer.sz && data != [];
        if !fits then closing && !spins && buffer.Contents() == old(buffer.Contents()) && forwarded == old(forwarded)
        else
          var d := Deframe(WebSocket(buffer.sz), old(buffer.Contents()) + data);
          var front := WebSocketFront(d.rest, buffer.sz);
          spins == front.Spin?
          && buffer.Contents() == (if front.Wait? || front.Spin? then d.rest else AfterParse(d.rest))
          && forwarded == old(forwarded) + Texts(d.msgs) + (if spins then [ForwardText([])] else [])
          && closing == (old(closing) || front.Refuse? || (front.Wait? && |d.rest| == buffer.sz))
    {
      var r := buffer.Push(data);
      if r <= 0 {
        closing, spins := true, false;
        assert data == [] ==> buffer.Contents() == old(buffer.Contents());
      } else {
        spins := Drive();
      }
    }

    /**
     A stream of masked binary frames that arrives in pieces: the payloads of the frames complete in
     what was taken are forwarded, in order and once, and the buffer holds the unfinished part of the
     next. The connection is closed exactly when a piece is empty or does not fit behind that part.
     */
    method ReceiveStream(pieces: seq<seq<byte>>, ghost ms: seq<Sent>) returns (taken: nat, ghost k: nat)
      requires Valid() && buffer.Contents() == [] && !closing
      requires forall i :: 0 <= i < |ms| ==> Sendable(WebSocket(buffer.sz), ms[i])
      requires Concat(pieces) <= Stream(WebSocket(buffer.sz), ms)
      modifies this, buffer`ptr, buffer.chunk
      ensures Valid() && taken <= |pieces|
      ensures Complete(WebSocket(buffer.sz), ms, Concat(pieces[..taken]), k, buffer.Contents())
      ensures forwarded == old(forwarded) + Texts(Payloads(ms[..k]))
      ensures closing <==> taken < |pieces|
      ensures closing ==> pieces[taken] == [] || |buffer.Contents()| + |pieces[taken]| > buffer.sz
    {
      hide Receive, Deframe, WebSocketFront, WireFrame, Sendable, Stream, Payloads, Texts, Complete;
      ghost var p := WebSocket(buffer.sz);
      taken := 0;
      ReceiveNothing(p);
      TextsJoin([], []);
      assert pieces[..0] == [];
      while taken < |pieces|
        invariant Valid() && taken <= |pieces| && !closing
        invariant var d := Receive(p, [], pieces[..taken]);
          buffer.Contents() == d.rest && forwarded == old(forwarded) + Texts(d.msgs)
      {
        ghost var d := Receive(p, [], pieces[..taken]);
        NextPiece(p, ms, pieces, taken);
        TextsJoin(d.msgs, Deframe(p, d.rest + pieces[taken]).msgs);
        Assoc(old(forwarded), Texts(d.msgs), Texts(Deframe(p, d.rest + pieces[taken]).msgs));
        Neutral(forwarded + Texts(Deframe(p, d.rest + pieces[taken]).msgs));
        var _ := ReceiveData(pieces[taken]);
        if closing {
          break;
        }
        taken := taken + 1;
      }
      ConcatPrefix(pieces, taken);
      k := FramesRoundTrip(p, ms, pieces[..taken]);
    }
  }

  /**
   A frame the gateway leaves stays at the front for good: whatever arrives behind it, it is met again,
   masked and unmasked in turn, and nothing is forwarded any more.
   */
  lemma LeftBlocks(s: seq<byte>, bufferMax: nat, more: seq<byte>)
    requires WebSocketFront(s, bufferMax).Leave?
    ensures WebSocketFront(AfterParse(s) + more, bufferMax).Leave?
    ensures Deframe(WebSocket(bufferMax), AfterParse(s) + more) == Deframed([], AfterParse(s) + more)
  {
    ParsedSize(s);
    var t := AfterParse(s) + more;
    var Frame(opcode, readSize, payload) := Parse(s);
    assert forall i :: 0 <= i < readSize - |payload| ==> t[i] == s[i];
    hide Masked;
  }

  lemma SliceTail(now: seq<byte>, was: seq<byte>, k: nat, n: nat)
    requires k <= n <= |now| == |was|
    requires now[k..] == was[k..]
    ensures now[..n][k..] == was[..n][k..]
  {
    assert now[..n][k..] == now[k..][..n - k] && was[..n][k..] == was[k..][..n - k];
  }

  ghost function Rebuilt(done: seq<seq<byte>>, d: Deframed): Deframed {
    Deframed(done + d.msgs, d.rest)
  }

  /** When no frame is taken off the front any more, `done` is all there was. */
  lemma Settled(whole: Deframed, done: seq<seq<byte>>, p: Protocol, s: seq<byte>)
    requires whole == Rebuilt(done, Deframe(p, s)) && !FrontOf(p, s).Take?
    ensures whole == Deframed(done, s)
  {
    assert done + [] == done;
    hide FrontOf;
  }

  lemma ParsedSize(s: seq<byte>)
    ensures Parse(s).Frame? ==>
      |Parse(s).payload| <= Parse(s).readSize <= |s| && (Parse(s).readSize == 0 <==> Parse(s).payload == [])
  {
    hide Masked;
  }
}
