/**
 `struct socket` of skynet-src/socket_server.c with the operations that change its fields, each
 proved equal to the corresponding function of `SocketState` or `SocketLifecycle`. The three
 asserts of the sending code are checked where the source has them.
 */
module Socket {
  import opened Options
  import opened SocketState
  import opened Sequences
  import opened SocketLifecycle

  class Socket {
    var kind: Kind
    var closing: bool
    var high: seq<Item>
    var low: seq<Item>
    var wbSize: int
    var dwBuffer: Option<Item>
    var sending: nat
    var wire: seq<Byte>    // what the kernel has accepted on the descriptor
    var begun: seq<Msg>

    function View(): Sock
      reads this
    {
      Sock(kind, closing, high, low, wbSize, dwBuffer, wire, begun)
    }

    /** `new_fd`, followed by the type the command handler stores. */
    constructor (first: Kind)
      ensures View() == Sock(first, false, [], [], 0, None, [], []) && sending == 0
    {
      kind, closing, high, low, wbSize, dwBuffer, sending := first, false, [], [], 0, None, 0;
      wire, begun := [], [];
    }

    method DoForceClose()
      modifies this
      ensures View() == ForceClose(old(View())) && sending == old(sending)
    {
      if kind.Invalid? {
        return;
      }
      high, low := [], [];
      kind := Invalid;
      dwBuffer := None;
    }

    method DoCloseWrite() returns (e: Event)
      modifies this
      ensures (View(), e) == CloseWrite(old(View())) && sending == old(sending)
    {
      if closing {
        DoForceClose();
        return Reset;
      }
      if kind.HalfCloseRead? {
        DoForceClose();
        return Reset;
      }
      if kind.HalfCloseWrite? {
        return Reset;
      }
      kind := HalfCloseWrite;
      return Error;
    }

    function List(onHigh: bool): seq<Item>
      reads this
    {
      if onHigh then high else low
    }

    /** One successful `write` for the head of a list; tells whether the head was sent completely. */
    method WriteHead(onHigh: bool, n: nat) returns (whole: bool)
      requires List(onHigh) != [] && n <= |List(onHigh)[0].Rest()|
      modifies this
      ensures sending == old(sending)
      ensures var head := old(List(onHigh)[0]);
              && whole == (n == |head.Rest()|)
              && View() == Partly(old(View()), onHigh,
                                  After(head, n, old(List(onHigh))), head.Rest()[..n], First(head, n))
    {
      var head := List(onHigh)[0];
      whole := n == |head.Rest()|;
      wire := wire + head.Rest()[..n];
      begun := begun + First(head, n);
      wbSize := wbSize - n;
      var rest := After(head, n, List(onHigh));
      if onHigh {
        high := rest;
      } else {
        low := rest;
      }
    }

    /** Sends one of the two lists as far as the kernel takes it. */
    method SendListTcp(onHigh: bool, k: seq<Write>) returns (left: seq<Write>, e: Event)
      modifies this
      ensures sending == old(sending)
      ensures var (a, r) := if onHigh then SendHigh(old(View()), k) else SendLow(old(View()), k);
              && left == r.answers
              && (View(), e) == if r.failed then CloseWrite(a) else (a, Nothing)
    {
      hide SendList, Prefixed, First;
      left := k;
      ghost var was := View();
      ghost var all := SendList(List(onHigh), k);
      ghost var bytes, started := [], [];
      PartlyNone(was, onHigh, k);
      while List(onHigh) != []
        invariant all == Prefixed(bytes, started, SendList(List(onHigh), left))
        invariant View() == Partly(was, onHigh, List(onHigh), bytes, started)
        invariant sending == old(sending)
        decreases |left|
      {
        SendListStops(List(onHigh), left, bytes, started);
        if left == [] {
          return left, Nothing;
        }
        var answer := left[0];
        ghost var items, before := List(onHigh), left;
        left := left[1..];
        if answer.WouldBlock? {
          return left, Nothing;
        }
        if answer.Broken? {
          e := DoCloseWrite();
          return left, e;
        }
        if answer.Accept? {
          var head := List(onHigh)[0];
          var n := Min(answer.n, |head.Rest()|);
          SendListGoes(items, before, bytes, started);
          PartlyTwice(was, onHigh, items, bytes, started, After(head, n, items), head.Rest()[..n], First(head, n));
          bytes, started := bytes + head.Rest()[..n], started + First(head, n);
          var whole := WriteHead(onHigh, n);
          if !whole {
            return left, Nothing;
          }
        }
      }
      SendListStops(List(onHigh), left, bytes, started);
      return left, Nothing;
    }

    /** Moves the cut head of the low list to the empty high list. */
    method RaiseUncomplete()
      requires low != [] && high == []
      modifies this
      ensures View() == old(View()).(high := [old(low)[0]], low := old(low)[1..]) && sending == old(sending)
    {
      var head := low[0];
      low := low[1..];
      assert high == [];           // line 847
      high := [head];
    }

    /** Steps 2 to 4 of `send_buffer_`. */
    method SendLowList(k: seq<Write>) returns (e: Event)
      requires Good(View()) && !kind.Invalid? && dwBuffer.None? && high == []
      modifies this
      ensures (View(), e) == SendRest(old(View()), k) && sending == old(sending)
    {
      ghost var a := View();
      var left := k;
      if low != [] {
        SendLowFacts(a, k);
        NoneLeft();
        hide SendList, Good, AllFresh, HeadMayBePartial, Concat, BytesLeft, Unbegun, CloseWrite, CutRest;
        var r;
        left, r := SendListTcp(false, k);
        if r != Nothing {
          return if r == Error then Error else Nothing;
        }
        if low != [] && low[0].off > 0 {
          RaiseUncomplete();
          return Nothing;
        }
        if low != [] {
          return Nothing;
        }
      } else {
        DrainedIsZero(a);
        SendEmpty(a, k);
      }
      assert high == [] && low == [] && wbSize == 0;   // line 900
      if closing {
        DoForceClose();
      }
      return Nothing;
    }

    /** `send_buffer_`, which holds the lock. */
    method DoSendLists(k: seq<Write>) returns (e: Event)
      requires Good(View()) && !kind.Invalid? && dwBuffer.None?
      modifies this
      ensures (View(), e) == SendLists(old(View()), k) && sending == old(sending)
    {
      assert AllFresh(low);        // line 868
      GoodSendHigh(View(), k);
      hide SendList, Good, CloseWrite, SendRest;
      var left, r := SendListTcp(true, k);
      if r != Nothing {
        return if r == Error then Error else Nothing;
      }
      if high == [] {
        e := SendLowList(left);
        return e;
      }
      return Nothing;
    }

    /** What a direct write left over goes before the head of the high list. */
    method UnloadDirect()
      modifies this
      ensures View() == Unload(old(View())) && sending == old(sending)
    {
      if dwBuffer.Some? {
        wbSize := wbSize + |dwBuffer.value.Rest()|;
        high := [dwBuffer.value] + high;
        dwBuffer := None;
      }
    }

    /** `send_buffer`: skipped when a direct write holds the lock. */
    method DoSendBuffer(lockFree: bool, k: seq<Write>) returns (e: Event)
      requires Good(View()) && !kind.Invalid?
      modifies this
      ensures (View(), e) == if lockFree then SendBuffer(old(View()), k) else (old(View()), Nothing)
      ensures Good(View()) && sending == old(sending)
    {
      ghost var s := View();
      GoodUnload(s);
      GoodSendBuffer(s, k);
      hide Good, SendLists, Unload;
      if !lockFree {
        return Nothing;
      }
      UnloadDirect();
      e := DoSendLists(k);
    }

    /** `send_socket` for a 'D' or 'P' command, followed by `dec_sending_ref`. */
    method DoSendSocket(m: Msg)
      requires Good(View()) && !kind.Reserve? && sending > 0
      modifies this
      ensures View() == SendSocket(old(View()), m) && Good(View()) && sending == old(sending) - 1
    {
      GoodSendSocket(View(), m);
      hide Good;
      if !(kind in {Invalid, HalfCloseWrite, PAccept} || closing) && !(kind in {PListen, Listen}) {
        if high == [] && low == [] {
          high := high + [Item(m, 0)];
        } else if !m.urgent {
          low := low + [Item(m, 0)];
        } else {
          high := high + [Item(m, 0)];
        }
        wbSize := wbSize + |m.data|;
      }
      sending := sending - 1;
    }

    method NoMoreSendingData() returns (b: bool)
      ensures b == NoMore(View(), sending == 0)
    {
      b := (high == [] && low == [] && dwBuffer.None? && sending == 0) || kind.HalfCloseWrite?;
    }

    /** The second check of `socket_server_send` and the write it guards, both under the lock. */
    method TryDirect(m: Msg, w: Write) returns (direct: bool)
      requires Good(View())
      modifies this
      ensures direct == (NoMore(old(View()), sending == 0) && old(kind) == Connected)
      ensures View() == (if direct then DirectWrite(old(View()), m, w) else old(View())) && Good(View())
      ensures sending == old(sending)
    {
      var none := NoMoreSendingData();
      direct := none && kind == Connected;
      if direct {
        NoneLeft();
        GoodDirectWrite(View(), m, w);
        hide Good;
        var n := if w.Accept? then Min(w.n, |m.data|) else 0;
        wire := wire + m.data[..n];
        begun := begun + if n > 0 || m.data == [] then [m] else [];
        if n != |m.data| {
          dwBuffer := Some(Item(m, n));
        }
      }
    }

    /** `close_socket`. */
    method DoCloseSocket(shutdown: bool) returns (e: Event)
      requires Good(View()) && !kind.Reserve?
      modifies this
      ensures var v := Decide(old(View()), CloseCmd(shutdown), sending == 0);
              View() == Settle(v) && e == v.event
      ensures Good(View()) && sending == old(sending)
    {
      GoodStep(View(), CloseCmd(shutdown), sending == 0);
      hide Good;
      if kind.Invalid? {
        return Nothing;
      }
      var halfRead := kind.HalfCloseRead?;
      var none := NoMoreSendingData();
      if shutdown || none {
        DoForceClose();
        return if halfRead then Nothing else Close;
      }
      closing := true;
      if !halfRead {
        kind := HalfCloseRead;
        return Close;
      }
      return Nothing;
    }

    /** `forward_message_tcp`; `r` is the outcome of the read. */
    method DoForward(r: Read) returns (e: Event)
      requires Good(View()) && Enabled(View(), ReadEvent(r))
      modifies this
      ensures var v := Decide(old(View()), ReadEvent(r), sending == 0);
              View() == Settle(v) && e == v.event
      ensures Good(View()) && sending == old(sending)
    {
      GoodStep(View(), ReadEvent(r), sending == 0);
      hide Good;
      if r.ReadAgain? {
        return Nothing;
      }
      if r.ReadFailed? {
        return Error;
      }
      if r.EndOfStream? {
        if closing {
          var none := NoMoreSendingData();
          if none {
            DoForceClose();
          }
          return Nothing;
        }
        if kind.HalfCloseRead? {
          return Nothing;
        }
        if kind.HalfCloseWrite? {
          DoForceClose();
        } else {
          kind := HalfCloseRead;
        }
        return Close;
      }
      return if kind.HalfCloseRead? then Nothing else Data;
    }

    /** `resume_socket`. */
    method DoResume() returns (e: Event)
      requires Good(View()) && !kind.Reserve?
      modifies this
      ensures var v := Decide(old(View()), ResumeCmd, sending == 0);
              View() == Settle(v) && e == v.event
      ensures Good(View()) && sending == old(sending)
    {
      GoodStep(View(), ResumeCmd, sending == 0);
      hide Good;
      if kind in {Invalid, HalfCloseRead} {
        return Error;
      }
      if kind.PAccept? {
        kind := Connected;
        return Open;
      }
      if kind.PListen? {
        kind := Listen;
        return Open;
      }
      return if kind.Connected? then Open else Nothing;
    }
  }

  lemma SendEmpty(s: Sock, k: seq<Write>)
    requires s.low == []
    ensures SendLow(s, k) == (s, Sent([], [], [], k, false))
  {
    Neutral(s.wire);
    Neutral(s.begun);
  }

  function First(head: Item, n: nat): seq<Msg> {
    if head.off == 0 && (n > 0 || head.Rest() == []) then [head.msg] else []
  }

  function After(head: Item, n: nat, items: seq<Item>): seq<Item>
    requires items != []
  {
    if n == |head.Rest()| then items[1..] else [head.(off := head.off + n)] + items[1..]
  }

  /** The state after part of a list has been sent. */
  ghost function Partly(s: Sock, onHigh: bool, rest: seq<Item>, bytes: seq<Byte>, started: seq<Msg>): Sock {
    s.(high := if onHigh then rest else s.high, low := if onHigh then s.low else rest,
    wbSize := s.wbSize - |bytes|, wire := s.wire + bytes, begun := s.begun + started)
  }

  lemma PartlyNone(s: Sock, onHigh: bool, k: seq<Write>)
    ensures var items := if onHigh then s.high else s.low;
            Partly(s, onHigh, items, [], []) == s && Prefixed([], [], SendList(items, k)) == SendList(items, k)
  {
    var items := if onHigh then s.high else s.low;
    Neutral(s.wire);
    Neutral(s.begun);
    Neutral(SendList(items, k).bytes);
    Neutral(SendList(items, k).begun);
  }

  lemma PartlyTwice(s: Sock, onHigh: bool, rest: seq<Item>, bytes: seq<Byte>, started: seq<Msg>, rest': seq<Item>,
                    more: seq<Byte>, first: seq<Msg>)
    ensures Partly(Partly(s, onHigh, rest, bytes, started), onHigh, rest', more, first) ==
            Partly(s, onHigh, rest', bytes + more, started + first)
  {
    Assoc(s.wire, bytes, more);
    Assoc(s.begun, started, first);
  }

  lemma SendListStops(items: seq<Item>, k: seq<Write>, bytes: seq<Byte>, started: seq<Msg>)
    ensures items == [] ==> Prefixed(bytes, started, SendList(items, k)) == Sent([], bytes, started, k, false)
    ensures items != [] && k == [] ==>
              Prefixed(bytes, started, SendList(items, k)) == Sent(items, bytes, started, [], false)
    ensures items != [] && k != [] && !k[0].Accept? && !k[0].Interrupted? ==>
              Prefixed(bytes, started, SendList(items, k)) == Sent(items, bytes, started, k[1..], k[0].Broken?)
    ensures items != [] && k != [] && k[0].Interrupted? ==> SendList(items, k) == SendList(items, k[1..])
  {
    Neutral(bytes);
    Neutral(started);
  }

  lemma SendListGoes(items: seq<Item>, k: seq<Write>, bytes: seq<Byte>, started: seq<Msg>)
    requires items != [] && k != [] && k[0].Accept?
    ensures var head, n := items[0], Min(k[0].n, |items[0].Rest()|);
            var bytes', started', rest := bytes + head.Rest()[..n], started + First(head, n), After(head, n, items);
            if n == |head.Rest()| then
              Prefixed(bytes, started, SendList(items, k)) == Prefixed(bytes', started', SendList(rest, k[1..]))
            else Prefixed(bytes, started, SendList(items, k)) == Sent(rest, bytes', started', k[1..], false)
  {
    var head, n := items[0], Min(k[0].n, |items[0].Rest()|);
    var r := SendList(items[1..], k[1..]);
    Assoc(bytes, head.Rest()[..n], r.bytes);
    Assoc(started, First(head, n), r.begun);
    if n == |head.Rest()| {
      assert head.Rest()[..n] == head.Rest();
    }
  }

  ghost function Prefixed(bytes: seq<Byte>, begun: seq<Msg>, r: Sent): Sent {
    r.(bytes := bytes + r.bytes, begun := begun + r.begun)
  }
}
