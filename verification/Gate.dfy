/** The TCP gateway of service-src/service_gate.c: packs from the buffer to the service, and back. */
module Gate {
  import opened Options
  import opened Bytes
  import opened Sequences
  import opened Framing
  import opened DataBuffer

  const BUFFER_MAX := 20480
  const MESSAGE_BUFFER_MAX := 20496
  const BAR: byte := 124
  const FORWARD: seq<byte> := [102, 111, 114, 119, 97, 114, 100]

  /** The literal the command is compared with, and its zero byte. */
  const FORWARD_LITERAL: seq<byte> := FORWARD + [0]

  /** `%d`. */
  function Decimal(n: nat): seq<byte> {
    if n < 10 then [48 + n] else Decimal(n / 10) + [48 + n % 10]
  }

  /** `forward|%d|` and the payload. */
  function ForwardText(payload: seq<byte>): seq<byte> {
    FORWARD + [BAR] + Decimal(|payload|) + [BAR] + payload
  }

  function Texts(msgs: seq<seq<byte>>): seq<seq<byte>> {
    seq(|msgs|, i requires 0 <= i < |msgs| => ForwardText(msgs[i]))
  }

  /** The copy into `msg` fits, with the zero byte of `sprintf`, for every pack the buffer can hold. */
  lemma TextFits(payload: seq<byte>)
    requires |payload| <= BUFFER_MAX - 4
    ensures |ForwardText(payload)| + 1 <= MESSAGE_BUFFER_MAX
  {
    var n := |payload|;
    assert |Decimal(n / 10000)| == 1;
    assert |Decimal(n / 1000)| <= 2;
    assert |Decimal(n / 100)| <= 3;
    assert |Decimal(n / 10)| <= 4;
  }

  // ---------------------------------------------------------------- from the service to the socket

  /** The index the search for `|` stops at. */
  function BarAt(msg: seq<byte>): (i: nat)
    ensures i <= |msg| && (i < |msg| ==> msg[i] == BAR) && BAR !in msg[..i]
  {
    if msg == [] || msg[0] == BAR then 0 else 1 + BarAt(msg[1..])
  }

  /** The search for `|`. */
  method FindBar(msg: seq<byte>) returns (i: nat)
    ensures i == BarAt(msg)
  {
    i := 0;
    while i < |msg|
      invariant 0 <= i <= |msg| && BAR !in msg[..i]
      invariant BarAt(msg) == i + BarAt(msg[i..])
    {
      if msg[i] == BAR {
        break;
      }
      i := i + 1;
    }
  }

  /** Whether `memcmp` takes the first `i` bytes for the word: any prefix of it passes. */
  predicate TakenForForward(msg: seq<byte>, i: nat)
    requires i <= |msg|
  {
    msg[..i] <= FORWARD_LITERAL
  }

  /** What follows the bar. */
  function Argument(msg: seq<byte>): seq<byte> {
    if BarAt(msg) < |msg| then msg[BarAt(msg) + 1..] else []
  }

  /** The `forward` branch of `gate_dispatch_cmd`: the packet it sends, if any. */
  method ForwardCommand(msg: seq<byte>) returns (packet: Option<seq<byte>>)
    requires |msg| < 0x8000_0000
    ensures packet ==
      if TakenForForward(msg, BarAt(msg)) && Argument(msg) != [] then Some(PackFrame(Argument(msg))) else None
  {
    var i := FindBar(msg);
    packet := None;
    if TakenForForward(msg, i) {
      var size := |msg| - i - 1;
      if size > 0 {
        packet := Some(Int32Bytes(size) + msg[i + 1..]);
      }
    }
  }

  /** A forwarded payload is found again behind the bar. */
  lemma CommandOf(payload: seq<byte>)
    ensures var msg := FORWARD + [BAR] + payload;
      TakenForForward(msg, BarAt(msg)) && Argument(msg) == payload
  {
    var msg := FORWARD + [BAR] + payload;
    assert msg[7] == BAR && msg[..7] == FORWARD;
    assert forall k :: 0 <= k < BarAt(msg) ==> msg[k] in msg[..BarAt(msg)];
    assert FORWARD[0] != BAR && FORWARD[1] != BAR && FORWARD[2] != BAR && FORWARD[3] != BAR
        && FORWARD[4] != BAR && FORWARD[5] != BAR && FORWARD[6] != BAR;
    assert forall i :: 0 <= i < 7 ==> msg[i] == FORWARD[i] && msg[i] != BAR;
  }

  // ---------------------------------------------------------------- from the socket to the service

  class GateConnection {
    const buffer: DataBuffer
    /** What was sent to the `forward` service. */
    var forwarded: seq<seq<byte>>
    /** Whether `skynet_socket_close` was called. */
    var closing: bool

    ghost predicate Valid()
      reads this, buffer
    {
      buffer.Valid() && buffer.sz == BUFFER_MAX
    }

    constructor ()
      ensures Valid() && buffer.Contents() == [] && forwarded == [] && !closing
      ensures fresh(buffer) && fresh(buffer.chunk)
    {
      buffer := new DataBuffer(BUFFER_MAX);
      forwarded, closing := [], false;
    }

    /** `gate_message`: forwards every complete pack, in order, and keeps the rest. */
    method GateMessage()
      requires Valid()
      modifies this`forwarded, this`closing, buffer`ptr, buffer.chunk
      ensures Valid()
      ensures var d := Deframe(Pack, old(buffer.Contents()));
        buffer.Contents() == d.rest && forwarded == old(forwarded) + Texts(d.msgs)
        && closing == (old(closing) || PackFront(d.rest).Refuse?)
    {
      hide Deframe, Texts, ForwardText;
      ghost var whole, before := Deframe(Pack, buffer.Contents()), forwarded;
      ghost var done: seq<seq<byte>> := [];
      Neutral(whole.msgs);
      Neutral(before);
      TextsJoin([], []);
      var size := buffer.ReadPack();
      while size != 0
        invariant Valid() && closing == old(closing)
        invariant forwarded == before + Texts(done)
        invariant whole == Deframed(done + Deframe(Pack, buffer.Contents()).msgs, Deframe(Pack, buffer.Contents()).rest)
        invariant match PackFront(buffer.Contents())
          case Wait => size == 0
          case Take(n, payload) => size == n - 4 && payload == buffer.Contents()[4..4 + size]
          case _ => size < 0
        decreases buffer.ptr
      {
        ghost var s := buffer.Contents();
        if size < 0 {
          closing := true;
          break;
        }
        var data := buffer.chunk[4..4 + size];
        assert data == s[4..4 + size];
        TextFits(data);
        forwarded := forwarded + [ForwardText(data)];
        TextsGrow(before, done, data);
        DeframeTake(Pack, s);
        Assoc(done, [data], Deframe(Pack, s[4 + size..]).msgs);
        done := done + [data];
        buffer.FreePack();
        size := buffer.ReadPack();
      }
      DeframeStops(Pack, buffer.Contents());
      Neutral(done);
    }

    /** The data branch of `gate_dispatch_socket_message`: data that does not fit closes the socket. */
    method ReceiveData(data: seq<byte>)
      requires Valid()
      modifies this`forwarded, this`closing, buffer`ptr, buffer.chunk
      ensures Valid()
      ensures var fits := |old(buffer.Contents())| + |data| <= BUFFER_MAX && data != [];
        var d := if fits then Deframe(Pack, old(buffer.Contents()) + data) else Deframed([], old(buffer.Contents()));
        buffer.Contents() == d.rest && forwarded == old(forwarded) + Texts(d.msgs)
        && closing == (old(closing) || !fits || PackFront(d.rest).Refuse?)
    {
      var r := buffer.Push(data);
      if r <= 0 {
        closing := true;
        assert data == [] ==> buffer.Contents() == old(buffer.Contents());
        assert forwarded + Texts([]) == forwarded;
      } else {
        GateMessage();
      }
    }

    /**
     A stream of packs that arrives in pieces: the payloads of the packs complete in what was taken are
     forwarded, in order and once, and the buffer holds the unfinished part of the next. The connection
     is closed exactly when a piece is empty or does not fit behind that part.
     */
    method ReceiveStream(pieces: seq<seq<byte>>, ghost ms: seq<Sent>) returns (taken: nat, ghost k: nat)
      requires Valid() && buffer.Contents() == [] && !closing
      requires (forall i :: 0 <= i < |ms| ==> Sendable(Pack, ms[i])) && Concat(pieces) <= Stream(Pack, ms)
      modifies this`forwarded, this`closing, buffer`ptr, buffer.chunk
      ensures Valid() && taken <= |pieces| && Complete(Pack, ms, Concat(pieces[..taken]), k, buffer.Contents())
      ensures forwarded == old(forwarded) + Texts(Payloads(ms[..k]))
      ensures closing <==> taken < |pieces|
      ensures closing ==> pieces[taken] == [] || |buffer.Contents()| + |pieces[taken]| > BUFFER_MAX
    {
      hide Receive, Deframe, PackFront, WireFrame, Sendable, Stream, Payloads, Texts, Complete;
      taken := 0;
      ReceiveNothing(Pack);
      TextsJoin([], []);
      assert pieces[..0] == [];
      while taken < |pieces|
        invariant Valid() && taken <= |pieces| && !closing
        invariant var d := Receive(Pack, [], pieces[..taken]);
          buffer.Contents() == d.rest && forwarded == old(forwarded) + Texts(d.msgs)
      {
        ghost var d := Receive(Pack, [], pieces[..taken]);
        NextPiece(Pack, ms, pieces, taken);
        TextsJoin(d.msgs, Deframe(Pack, d.rest + pieces[taken]).msgs);
        Assoc(old(forwarded), Texts(d.msgs), Texts(Deframe(Pack, d.rest + pieces[taken]).msgs));
        TextsJoin(d.msgs, []);
        ReceiveData(pieces[taken]);
        if closing {
          break;
        }
        taken := taken + 1;
      }
      ConcatPrefix(pieces, taken);
      k := FramesRoundTrip(Pack, ms, pieces[..taken]);
    }
  }

  lemma TextsJoin(a: seq<seq<byte>>, b: seq<seq<byte>>)
    ensures Texts(a + b) == Texts(a) + Texts(b)
    ensures Texts([]) == []
  {
    hide ForwardText;
  }

  lemma TextsGrow(before: seq<seq<byte>>, done: seq<seq<byte>>, data: seq<byte>)
    ensures before + Texts(done) + [ForwardText(data)] == before + Texts(done + [data])
  {
    assert Texts(done + [data]) == Texts(done) + [ForwardText(data)];
    Assoc(before, Texts(done), [ForwardText(data)]);
  }
}
