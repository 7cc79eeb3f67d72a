/**
 Cutting a byte stream back into messages. Both gateways append what arrives to a buffer and take
 complete frames off its front until there is none: length-prefixed packs
 (service-src/util/databuffer.h, service-src/service_gate.c) and masked WebSocket frames
 (service-src/websocket/websocket.c, service-src/service_gatews.c).
 */
module Framing {
  import opened Bytes
  import opened Sequences

  datatype Protocol = Pack | WebSocket(bufferMax: nat)

  /**
   What the gateway makes of the front of a buffer: no whole frame yet; a frame of `size` bytes to
   forward; a frame it leaves where it is; a frame it forwards but does not remove; or a reason to
   close the socket, with or without a closing frame.
   */
  datatype Front = Wait | Take(size: nat, payload: seq<byte>) | Leave | Spin | Refuse(answered: bool)

  // ---------------------------------------------------------------- length-prefixed packs

  /** The four bytes of an `int` in memory, least significant first. */
  function Int32Bytes(n: nat): seq<byte>
    requires n < 0x8000_0000
  {
    [n % 256, n / 256 % 256, n / 65536 % 256, n / 16777216]
  }

  function Int32At(s: seq<byte>): int
    requires |s| >= 4
  {
    var u := s[0] as int + 256 * (s[1] as int) + 65536 * (s[2] as int) + 16777216 * (s[3] as int);
    if u < 0x8000_0000 then u else u - 0x1_0000_0000
  }

  lemma Int32RoundTrip(n: nat, s: seq<byte>)
    requires n < 0x8000_0000
    ensures |Int32Bytes(n)| == 4 && Int32At(Int32Bytes(n) + s) == n
  {
    var a := n / 256;
    var b := n / 65536;
    assert b == a / 256 && n / 16777216 == b / 256;
    assert n == n % 256 + 256 * a && a == a % 256 + 256 * b && b == b % 256 + 256 * (n / 16777216);
  }

  /** `databuffer_readpack` and the sign test of `gate_message`. */
  function PackFront(s: seq<byte>): Front {
    if |s| < 4 then Wait
    else
      var sz := Int32At(s);
      if sz > |s| - 4 || sz == 0 then Wait
      else if sz < 0 then Refuse(false)
      else Take(4 + sz, s[4..4 + sz])
  }

  function PackFrame(payload: seq<byte>): seq<byte>
    requires |payload| < 0x8000_0000
  {
    Int32Bytes(|payload|) + payload
  }

  // ---------------------------------------------------------------- WebSocket frames

  const TEXT: byte := 1
  const BINARY: byte := 2
  const CLOSING: byte := 8
  const PING: byte := 9
  const PONG: byte := 10

  datatype Parsed = Incomplete | Error | Frame(opcode: byte, readSize: nat, payload: seq<byte>)

  /** The payload length and how many bytes extend the length field, for a masked final frame. */
  function LengthField(s: seq<byte>): (nat, nat)
    requires |s| >= 2 && (s[1] % 128 == 126 ==> |s| >= 4)
  {
    if s[1] % 128 == 126 then (s[2] as int * 256 + s[3] as int, 2) else (s[1] % 128, 0)
  }

  function Masked(payload: seq<byte>, key: seq<byte>): (r: seq<byte>)
    requires |key| == 4
    ensures |r| == |payload|
  {
    seq(|payload|, i requires 0 <= i < |payload| => Xor(payload[i], key[i % 4]))
  }

  /** `wsParseInputFrame`, with the payload as it is after the loop that unmasks it in place. */
  function Parse(s: seq<byte>): Parsed {
    if |s| < 2 then Incomplete
    else if s[0] / 16 % 8 != 0 || s[0] < 128 || s[1] < 128 then Error
    else
      var opcode := s[0] % 16;
      if !(opcode == TEXT || opcode == BINARY || opcode == CLOSING || opcode == PING || opcode == PONG) then Error
      else if (s[1] % 128 == 126 && |s| < 4) || (s[1] % 128 == 127 && |s| < 10) then Incomplete
      else if s[1] % 128 == 127 then Error
      else
        var (len, extra) := LengthField(s);
        if len == 0 then Frame(opcode, 0, [])
        else if len + 6 + extra > |s| then Incomplete
        else Frame(opcode, len + 6 + extra, Masked(s[6 + extra..6 + extra + len], s[2 + extra..6 + extra]))
  }

  /**
   What `gatews_message` does with the front of the buffer in the NORMAL state. An empty binary frame
   is forwarded and popped with size 0, so the driving loop meets it again; text, ping and pong frames
   are left where they are.
   */
  function WebSocketFront(s: seq<byte>, bufferMax: nat): Front {
    match Parse(s)
    case Incomplete => Wait
    case Error => Refuse(true)
    case Frame(opcode, readSize, payload) =>
      if opcode == BINARY then
        if |payload| + 32 > bufferMax then Refuse(false)
        else if readSize == 0 then Spin
        else Take(readSize, payload)
      else if opcode == CLOSING then Refuse(true)
      else Leave
  }

  /** The most significant byte first, in `k` bytes. */
  function BigEndian(n: nat, k: nat): seq<byte> {
    if k == 0 then [] else BigEndian(n / 256, k - 1) + [n % 256]
  }

  /** `wsMakeFrame`: a final frame, not masked. */
  function MakeFrame(payload: seq<byte>, opcode: byte): seq<byte>
    requires opcode < 16
  {
    var n := |payload|;
    [128 + opcode]
    + (if n <= 125 then [n] else if n <= 0xFFFF then [126] + BigEndian(n, 2) else [127] + BigEndian(n, 8))
    + payload
  }

  /** Where the payload of an unmasked frame starts. */
  function HeaderSize(frame: seq<byte>): nat
    requires 2 <= |frame|
  {
    if frame[1] == 126 then 4 else if frame[1] == 127 then 10 else 2
  }

  /** A client's masking of a frame (section 5.3 of RFC 6455): the mask bit, the key, the masked payload. */
  function MaskFrame(frame: seq<byte>, key: seq<byte>): seq<byte>
    requires |key| == 4 && 2 <= |frame| && HeaderSize(frame) <= |frame| && frame[1] < 128
  {
    var h := HeaderSize(frame);
    frame[..h][1 := frame[1] + 128] + key + Masked(frame[h..], key)
  }

  lemma MaskedTwice(payload: seq<byte>, key: seq<byte>)
    requires |key| == 4
    ensures Masked(Masked(payload, key), key) == payload
  {
    forall i | 0 <= i < |payload|
      ensures Masked(Masked(payload, key), key)[i] == payload[i]
    {
      XorTwice(payload[i], key[i % 4]);
    }
  }

  /** Parsing a masked frame, whatever follows it in the buffer, gives the payload back, unmasked once. */
  lemma ParseMasked(payload: seq<byte>, opcode: byte, key: seq<byte>, tail: seq<byte>)
    requires |key| == 4 && 1 <= |payload| <= 0xFFFF
    requires opcode == TEXT || opcode == BINARY || opcode == CLOSING || opcode == PING || opcode == PONG
    ensures var f := MaskFrame(MakeFrame(payload, opcode), key);
      |f| == |payload| + (if |payload| <= 125 then 6 else 8)
      && Parse(f + tail) == Frame(opcode, |f|, payload)
  {
    var frame := MakeFrame(payload, opcode);
    MakeFrameShape(payload, opcode);
    var h := HeaderSize(frame);
    MaskedTwice(payload, key);
    var header := frame[..h][1 := frame[1] + 128];
    assert frame[h..] == payload && MaskFrame(frame, key) == header + key + Masked(payload, key);
    assert forall i :: 0 <= i < h ==> header[i] == if i == 1 then frame[1] + 128 else frame[i];
    hide MakeFrame, Masked, MaskFrame, Parse;
    FourParts(header, key, Masked(payload, key), tail);
    ParseShape(header + key + Masked(payload, key) + tail, opcode, |payload|, h - 2, key, Masked(payload, key));
  }

  lemma FourParts(a: seq<byte>, b: seq<byte>, c: seq<byte>, d: seq<byte>)
    ensures var s := a + b + c + d;
      |s| == |a| + |b| + |c| + |d| && s[..|a|] == a && s[|a|..|a| + |b|] == b && s[|a| + |b|..|a| + |b| + |c|] == c
  {
  }

  lemma ParseShape(s: seq<byte>, opcode: byte, n: nat, extra: nat, key: seq<byte>, body: seq<byte>)
    requires opcode == TEXT || opcode == BINARY || opcode == CLOSING || opcode == PING || opcode == PONG
    requires 1 <= n <= 0xFFFF && extra == (if n <= 125 then 0 else 2) && |key| == 4 && |body| == n
    requires |s| >= n + 6 + extra && s[0] == 128 + opcode && s[1] == 128 + (if n <= 125 then n else 126)
    requires n > 125 ==> s[2] == n / 256 && s[3] == n % 256
    requires s[2 + extra..6 + extra] == key && s[6 + extra..6 + extra + n] == body
    ensures Parse(s) == Frame(opcode, n + 6 + extra, Masked(body, key))
  {
    hide Masked;
  }

  lemma MakeFrameShape(payload: seq<byte>, opcode: byte)
    requires 1 <= |payload| <= 0xFFFF && opcode < 16
    ensures var f := MakeFrame(payload, opcode); var n := |payload|;
      2 <= |f| && f[0] == 128 + opcode && f[1] == (if n <= 125 then n else 126) && f[1] < 128
      && |f| == HeaderSize(f) + n && f[HeaderSize(f)..] == payload
      && (n > 125 ==> f[2] == n / 256 && f[3] == n % 256)
  {
    var n := |payload|;
    assert BigEndian(n / 256, 1) == BigEndian(n / 256 / 256, 0) + [n / 256 % 256];
    assert BigEndian(n, 2) == [n / 256 % 256, n % 256];
  }

  // ---------------------------------------------------------------- taking all complete frames

  function FrontOf(p: Protocol, s: seq<byte>): (f: Front)
    ensures f.Take? ==> 0 < f.size <= |s|
  {
    match p
    case Pack => PackFront(s)
    case WebSocket(bufferMax) => WebSocketFront(s, bufferMax)
  }

  datatype Deframed = Deframed(msgs: seq<seq<byte>>, rest: seq<byte>)

  function Deframe(p: Protocol, s: seq<byte>): (d: Deframed)
    ensures |d.rest| <= |s| && !FrontOf(p, d.rest).Take?
    decreases |s|
  {
    var f := FrontOf(p, s);
    if f.Take? then
      var d := Deframe(p, s[f.size..]);
      Deframed([f.payload] + d.msgs, d.rest)
    else Deframed([], s)
  }

  /** A complete frame is taken the same whatever has arrived behind it. */
  lemma FrontIsStable(p: Protocol, s: seq<byte>, more: seq<byte>)
    requires FrontOf(p, s).Take?
    ensures FrontOf(p, s + more) == FrontOf(p, s)
  {
    assert forall i :: 0 <= i < |s| ==> (s + more)[i] == s[i];
    if p.Pack? {
      SliceWithin(s, more, 4, 4 + Int32At(s));
    } else {
      var (len, extra) := LengthField(s);
      SliceWithin(s, more, 6 + extra, 6 + extra + len);
      SliceWithin(s, more, 2 + extra, 6 + extra);
      hide Masked;
    }
  }

  /** Receiving in two pieces is receiving at once. */
  lemma {:induction false} DeframeJoin(p: Protocol, a: seq<byte>, b: seq<byte>)
    ensures var first := Deframe(p, a); var second := Deframe(p, first.rest + b);
      Deframe(p, a + b) == Deframed(first.msgs + second.msgs, second.rest)
    decreases |a|
  {
    var f := FrontOf(p, a);
    if f.Take? {
      FrontIsStable(p, a, b);
      DeframeTake(p, a);
      DeframeTake(p, a + b);
      var d := Deframe(p, a[f.size..]);
      var second := Deframe(p, d.rest + b);
      hide *;
      DropWithin(a, b, f.size);
      DeframeJoin(p, a[f.size..], b);
      Assoc([f.payload], d.msgs, second.msgs);
    } else {
      Neutral(Deframe(p, a + b).msgs);
    }
  }

  lemma DeframeTake(p: Protocol, s: seq<byte>)
    requires FrontOf(p, s).Take?
    ensures var f := FrontOf(p, s); var d := Deframe(p, s[f.size..]);
      Deframe(p, s) == Deframed([f.payload] + d.msgs, d.rest)
  {
    hide FrontOf;
  }

  lemma DeframeStops(p: Protocol, s: seq<byte>)
    requires !FrontOf(p, s).Take?
    ensures Deframe(p, s) == Deframed([], s)
  {
    hide FrontOf;
  }

  /** What the buffer holds and what was delivered after each piece has been appended and drained. */
  function Receive(p: Protocol, buffer: seq<byte>, pieces: seq<seq<byte>>): Deframed
    decreases |pieces|
  {
    if pieces == [] then Deframed([], buffer)
    else
      var first := Deframe(p, buffer + pieces[0]);
      var rest := Receive(p, first.rest, pieces[1..]);
      Deframed(first.msgs + rest.msgs, rest.rest)
  }

  /** However the stream is cut, the messages and the leftover are those of the whole. */
  lemma {:induction false} ChunksDoNotMatter(p: Protocol, buffer: seq<byte>, pieces: seq<seq<byte>>)
    requires !FrontOf(p, buffer).Take?
    ensures Receive(p, buffer, pieces) == Deframe(p, buffer + Concat(pieces))
    decreases |pieces|
  {
    hide FrontOf;
    if pieces == [] {
      assert buffer + [] == buffer;
    } else {
      var first := Deframe(p, buffer + pieces[0]);
      Assoc(buffer, pieces[0], Concat(pieces[1..]));
      DeframeJoin(p, buffer + pieces[0], Concat(pieces[1..]));
      ChunksDoNotMatter(p, first.rest, pieces[1..]);
    }
  }

  // ---------------------------------------------------------------- round trips

  /** A frame as its sender writes it; the key is for WebSocket clients. */
  datatype Sent = Sent(payload: seq<byte>, key: seq<byte>)

  /** The payloads each gateway accepts. */
  predicate Sendable(p: Protocol, m: Sent) {
    match p
    case Pack => 1 <= |m.payload| <= 20476
    case WebSocket(bufferMax) => |m.key| == 4 && 1 <= |m.payload| <= 0xFFFF && |m.payload| + 32 <= bufferMax
  }

  function WireFrame(p: Protocol, m: Sent): seq<byte>
    requires Sendable(p, m)
  {
    match p
    case Pack => PackFrame(m.payload)
    case WebSocket(_) =>
      MakeFrameShape(m.payload, BINARY);
      MaskFrame(MakeFrame(m.payload, BINARY), m.key)
  }

  function Stream(p: Protocol, ms: seq<Sent>): seq<byte>
    requires forall i :: 0 <= i < |ms| ==> Sendable(p, ms[i])
  {
    if ms == [] then [] else WireFrame(p, ms[0]) + Stream(p, ms[1..])
  }

  function Payloads(ms: seq<Sent>): seq<seq<byte>> {
    seq(|ms|, i requires 0 <= i < |ms| => ms[i].payload)
  }

  lemma FrameIsTaken(p: Protocol, m: Sent, more: seq<byte>)
    requires Sendable(p, m)
    ensures FrontOf(p, WireFrame(p, m) + more) == Take(|WireFrame(p, m)|, m.payload)
  {
    if p.Pack? {
      var n := |m.payload|;
      var f := WireFrame(p, m);
      Assoc(Int32Bytes(n), m.payload, more);
      Int32RoundTrip(n, m.payload + more);
      assert (f + more)[4..4 + n] == m.payload;
    } else {
      MakeFrameShape(m.payload, BINARY);
      ParseMasked(m.payload, BINARY, m.key, more);
      hide Parse, MakeFrame, MaskFrame;
    }
  }

  /** A proper prefix of a frame stays in the buffer. */
  lemma PartWaits(p: Protocol, m: Sent, k: nat)
    requires Sendable(p, m) && k < |WireFrame(p, m)|
    ensures FrontOf(p, WireFrame(p, m)[..k]).Wait?
  {
    var f := WireFrame(p, m);
    if p.Pack? {
      if 4 <= k {
        Int32RoundTrip(|m.payload|, m.payload[..k - 4]);
        assert f[..k] == Int32Bytes(|m.payload|) + m.payload[..k - 4];
      }
    } else {
      MakeFrameShape(m.payload, BINARY);
      MaskedHeader(m.payload, m.key);
      hide MakeFrame, MaskFrame, Masked;
    }
  }

  lemma MaskedHeader(payload: seq<byte>, key: seq<byte>)
    requires |key| == 4 && 1 <= |payload| <= 0xFFFF
    ensures var g := MakeFrame(payload, BINARY); 2 <= |g| && HeaderSize(g) <= |g| && g[1] < 128
    ensures var f := MaskFrame(MakeFrame(payload, BINARY), key); var n := |payload|;
      f[0] == 128 + BINARY && f[1] == 128 + (if n <= 125 then n else 126)
      && (n > 125 ==> f[2] == n / 256 && f[3] == n % 256) && |f| == n + (if n <= 125 then 6 else 8)
  {
    MakeFrameShape(payload, BINARY);
    hide MakeFrame, Masked;
  }

  lemma {:induction false} StreamDeframes(p: Protocol, ms: seq<Sent>, tail: seq<byte>)
    requires forall i :: 0 <= i < |ms| ==> Sendable(p, ms[i])
    requires FrontOf(p, tail).Wait?
    ensures Deframe(p, Stream(p, ms) + tail) == Deframed(Payloads(ms), tail)
    decreases |ms|
  {
    if ms == [] {
      assert [] + tail == tail;
    } else {
      var f, more := WireFrame(p, ms[0]), Stream(p, ms[1..]) + tail;
      FrameIsTaken(p, ms[0], more);
      DeframeTake(p, f + more);
      PayloadsStep(ms);
      assert Stream(p, ms) == f + Stream(p, ms[1..]);
      hide *;
      Assoc(f, Stream(p, ms[1..]), tail);
      DropPrefix(f, more);
      StreamDeframes(p, ms[1..], tail);
    }
  }

  lemma PayloadsStep(ms: seq<Sent>)
    requires ms != []
    ensures Payloads(ms) == [ms[0].payload] + Payloads(ms[1..])
  {
  }

  /** `received` is the first `k` frames of the stream and `rest`, an unfinished part of the next. */
  ghost predicate Complete(p: Protocol, ms: seq<Sent>, received: seq<byte>, k: nat, rest: seq<byte>)
    requires forall i :: 0 <= i < |ms| ==> Sendable(p, ms[i])
  {
    && k <= |ms|
    && received == Stream(p, ms[..k]) + rest
    && if k < |ms| then rest < WireFrame(p, ms[k]) else rest == []
  }

  /** One whole frame in front makes one more complete frame. */
  lemma OneMoreComplete(p: Protocol, ms: seq<Sent>, received: seq<byte>, k: nat, rest: seq<byte>)
    requires ms != [] && forall i :: 0 <= i < |ms| ==> Sendable(p, ms[i])
    requires Complete(p, ms[1..], received, k, rest)
    ensures Complete(p, ms, WireFrame(p, ms[0]) + received, k + 1, rest)
  {
    assert ms[..k + 1][1..] == ms[1..][..k];
    Assoc(WireFrame(p, ms[0]), Stream(p, ms[1..][..k]), rest);
    hide WireFrame, Sendable;
  }

  lemma NoneComplete(p: Protocol, ms: seq<Sent>, received: seq<byte>)
    requires forall i :: 0 <= i < |ms| ==> Sendable(p, ms[i])
    requires if ms == [] then received == [] else received < WireFrame(p, ms[0])
    ensures Complete(p, ms, received, 0, received)
  {
    hide WireFrame, Sendable;
    assert ms[..0] == [];
    Neutral(received);
  }

  /** A prefix of `a + b` that is shorter than `a` is a prefix of `a`; a longer one holds all of `a`. */
  lemma PrefixOfTwo(s: seq<byte>, a: seq<byte>, b: seq<byte>)
    requires s <= a + b
    ensures |s| < |a| ==> s < a
    ensures |a| <= |s| ==> s == a + s[|a|..] && s[|a|..] <= b
  {
    if |s| < |a| {
      assert forall i :: 0 <= i < |s| ==> s[i] == (a + b)[i];
    } else {
      assert s[..|a|] == a;
    }
  }

  /** Where a prefix of the stream ends. */
  lemma {:induction false} PrefixSplits(p: Protocol, ms: seq<Sent>, received: seq<byte>)
    returns (k: nat, rest: seq<byte>)
    requires forall i :: 0 <= i < |ms| ==> Sendable(p, ms[i])
    requires received <= Stream(p, ms)
    ensures Complete(p, ms, received, k, rest)
    decreases |ms|
  {
    hide WireFrame, Sendable, Complete;
    if ms == [] {
      k, rest := 0, received;
      NoneComplete(p, ms, received);
    } else {
      var f := WireFrame(p, ms[0]);
      PrefixOfTwo(received, f, Stream(p, ms[1..]));
      if |received| < |f| {
        k, rest := 0, received;
        NoneComplete(p, ms, received);
      } else {
        k, rest := PrefixSplits(p, ms[1..], received[|f|..]);
        OneMoreComplete(p, ms, received[|f|..], k, rest);
        k := k + 1;
      }
    }
  }

  /**
   The round trip, at every moment: however a prefix of the stream arrived, the payloads of the frames
   that are complete have been delivered, in order and once, and the buffer holds exactly the
   unfinished part of the next frame, which waits.
   */
  lemma FramesRoundTrip(p: Protocol, ms: seq<Sent>, pieces: seq<seq<byte>>) returns (k: nat)
    requires forall i :: 0 <= i < |ms| ==> Sendable(p, ms[i])
    requires Concat(pieces) <= Stream(p, ms)
    ensures var d := Receive(p, [], pieces);
      && Complete(p, ms, Concat(pieces), k, d.rest)
      && d.msgs == Payloads(ms[..k])
      && FrontOf(p, d.rest).Wait?
    ensures Concat(pieces) == Stream(p, ms) ==> k == |ms|
  {
    var rest;
    hide *;
    k, rest := PrefixSplits(p, ms, Concat(pieces));
    RestWaits(p, ms, Concat(pieces), k, rest);
    CompleteDeframes(p, ms, Concat(pieces), k, rest);
    AllComplete(p, ms, Concat(pieces), k, rest);
    Neutral(Concat(pieces));
    NothingTaken(p);
    ChunksDoNotMatter(p, [], pieces);
  }

  lemma NothingTaken(p: Protocol)
    ensures !FrontOf(p, []).Take?
  {
  }

  lemma RestWaits(p: Protocol, ms: seq<Sent>, received: seq<byte>, k: nat, rest: seq<byte>)
    requires forall i :: 0 <= i < |ms| ==> Sendable(p, ms[i])
    requires Complete(p, ms, received, k, rest)
    ensures FrontOf(p, rest).Wait?
  {
    hide WireFrame, Sendable, Stream;
    if k < |ms| {
      hide FrontOf;
      PartWaits(p, ms[k], |rest|);
    }
  }

  lemma CompleteDeframes(p: Protocol, ms: seq<Sent>, received: seq<byte>, k: nat, rest: seq<byte>)
    requires forall i :: 0 <= i < |ms| ==> Sendable(p, ms[i])
    requires Complete(p, ms, received, k, rest) && FrontOf(p, rest).Wait?
    ensures k <= |ms| && Deframe(p, received) == Deframed(Payloads(ms[..k]), rest)
  {
    hide FrontOf, WireFrame, Sendable, Stream, Deframe, Payloads;
    StreamDeframes(p, ms[..k], rest);
  }

  lemma AllComplete(p: Protocol, ms: seq<Sent>, received: seq<byte>, k: nat, rest: seq<byte>)
    requires forall i :: 0 <= i < |ms| ==> Sendable(p, ms[i])
    requires Complete(p, ms, received, k, rest)
    ensures received == Stream(p, ms) ==> k == |ms|
  {
    hide WireFrame, Sendable;
    StreamGrows(p, ms, k);
  }

  lemma {:induction false} StreamGrows(p: Protocol, ms: seq<Sent>, k: nat)
    requires forall i :: 0 <= i < |ms| ==> Sendable(p, ms[i])
    requires k <= |ms|
    ensures k < |ms| ==> |Stream(p, ms[..k])| + |WireFrame(p, ms[k])| <= |Stream(p, ms)|
    decreases |ms|
  {
    hide WireFrame, Sendable;
    if k > 0 {
      assert ms[1..][..k - 1] == ms[..k][1..];
      StreamGrows(p, ms[1..], k - 1);
    }
  }

  lemma ReceiveNothing(p: Protocol)
    ensures Receive(p, [], []) == Deframed([], [])
  {
  }

  /** What has been received after one more piece. */
  lemma {:induction false} ReceiveMore(p: Protocol, buffer: seq<byte>, pieces: seq<seq<byte>>, piece: seq<byte>)
    ensures var d := Receive(p, buffer, pieces);
      var last := Deframe(p, d.rest + piece);
      Receive(p, buffer, pieces + [piece]) == Deframed(d.msgs + last.msgs, last.rest)
    decreases |pieces|
  {
    if pieces == [] {
      Neutral([piece]);
      var last := Deframe(p, buffer + piece);
      assert Receive(p, last.rest, []) == Deframed([], last.rest);
      Neutral(last.msgs);
    } else {
      assert (pieces + [piece])[1..] == pieces[1..] + [piece];
      var first := Deframe(p, buffer + pieces[0]);
      ReceiveMore(p, first.rest, pieces[1..], piece);
      var d := Receive(p, first.rest, pieces[1..]);
      Assoc(first.msgs, d.msgs, Deframe(p, d.rest + piece).msgs);
    }
  }

  lemma {:induction false} ConcatPrefix(pieces: seq<seq<byte>>, i: nat)
    requires i <= |pieces|
    ensures Concat(pieces[..i]) <= Concat(pieces)
  {
    if i > 0 {
      assert pieces[..i][1..] == pieces[1..][..i - 1];
      ConcatPrefix(pieces[1..], i - 1);
    }
  }

  /**
   One more piece of a stream of frames, for a gateway that has received the first `i`: what it makes
   of it is what `Receive` makes of the first `i + 1`, nothing is refused, and the leftover is smaller
   than one frame.
   */
  lemma NextPiece(p: Protocol, ms: seq<Sent>, pieces: seq<seq<byte>>, i: nat)
    requires forall j :: 0 <= j < |ms| ==> Sendable(p, ms[j])
    requires Concat(pieces) <= Stream(p, ms) && i < |pieces|
    ensures var d := Receive(p, [], pieces[..i]);
      var last := Deframe(p, d.rest + pieces[i]);
      && Receive(p, [], pieces[..i + 1]) == Deframed(d.msgs + last.msgs, last.rest)
      && FrontOf(p, last.rest).Wait?
      && (p.WebSocket? ==> last.rest == [] || |last.rest| < p.bufferMax)
  {
    assert pieces[..i + 1] == pieces[..i] + [pieces[i]];
    ReceiveMore(p, [], pieces[..i], pieces[i]);
    ConcatPrefix(pieces, i + 1);
    var k := FramesRoundTrip(p, ms, pieces[..i + 1]);
    if k < |ms| {
      FrameFits(p, ms[k]);
    }
    hide FrontOf, WireFrame, Sendable;
  }

  /** No frame is larger than the buffer of its gateway, so an unfinished one always leaves room. */
  lemma FrameFits(p: Protocol, m: Sent)
    requires Sendable(p, m)
    ensures |WireFrame(p, m)| <= match p case Pack => 20480 case WebSocket(bufferMax) => bufferMax - 24
  {
    if p.WebSocket? {
      MaskedHeader(m.payload, m.key);
      hide MakeFrame, MaskFrame;
    }
  }
}
