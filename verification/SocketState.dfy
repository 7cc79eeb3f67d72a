/**
 One TCP socket of skynet-src/socket_server.c as a value: its two write lists, the direct-write
 side buffer, its type and what the kernel has accepted so far, with the effect of each
 operation as a function. The object whose fields these operations change is in `Socket`.
 */
module SocketState {
  import opened Options
  import opened Sequences

  /**
   A byte of a message, with the serial number of that message. No operation looks at either: the
   number tells equal bytes of different messages apart where a lemma has to.
   */
  datatype Byte = Byte(value: bv8, serial: nat)

  /** A message handed to the server by one caller thread; `urgent` is PRIORITY_HIGH. */
  datatype Msg = Msg(serial: nat, caller: nat, urgent: bool, data: seq<Byte>)

  /** A write buffer: `off` bytes of the message have been accepted by the kernel. */
  datatype Item = Item(msg: Msg, off: nat) {
    function Rest(): seq<Byte> {
      if off <= |msg.data| then msg.data[off..] else []
    }

    predicate Fresh() {
      off == 0
    }

    predicate Partial() {
      0 < off < |msg.data|
    }

    predicate Sound() {
      Fresh() || Partial()
    }
  }

  /** The kernel's answer to one `write`: it takes any prefix, is interrupted, would block, or fails. */
  datatype Write = Accept(n: nat) | Interrupted | WouldBlock | Broken

  datatype Kind =
    | Invalid | Reserve | PListen | Listen | Connecting | Connected
    | HalfCloseRead | HalfCloseWrite | PAccept | Bound

  datatype Event = Nothing | Open | Data | Close | Error | Reset

  /**
   The socket. `wire` holds the bytes the kernel has accepted and `begun` the messages whose
   transmission has started, both in order; the other fields are those of `struct socket`.
   */
  datatype Sock = Sock(
    kind: Kind,
    closing: bool,
    high: seq<Item>,
    low: seq<Item>,
    wbSize: int,
    dw: Option<Item>,
    wire: seq<Byte>,
    begun: seq<Msg>)

  // ---------------------------------------------------------------- closing

  function ForceClose(s: Sock): Sock {
    if s.kind.Invalid? then s else s.(kind := Invalid, high := [], low := [], dw := None)
  }

  /** The two `free_wb_list` of `force_close`, which come before it takes the lock. */
  function FreeLists(s: Sock): Sock {
    s.(high := [], low := [])
  }

  /** What the kernel had accepted and what was still waiting when the lists were freed. */
  datatype Past = Past(wire: seq<Byte>, begun: seq<Msg>, high: seq<Item>, low: seq<Item>)

  const NOTHING_FREED := Past([], [], [], [])

  function CloseWrite(s: Sock): (Sock, Event) {
    if s.closing || s.kind.HalfCloseRead? then (ForceClose(s), Reset)
    else if s.kind.HalfCloseWrite? then (s, Reset)
    else (s.(kind := HalfCloseWrite), Error)
  }

  // ---------------------------------------------------------------- sending

  datatype Sent = Sent(rest: seq<Item>, bytes: seq<Byte>, begun: seq<Msg>, answers: seq<Write>, failed: bool)

  function Min(a: nat, b: nat): nat {
    if a < b then a else b
  }

  /** `send_list_tcp` against the kernel answers `k`; answers beyond the last one would block. */
  function SendList(items: seq<Item>, k: seq<Write>): (r: Sent)
    ensures |r.answers| <= |k|
    decreases |k|
  {
    if items == [] then Sent([], [], [], k, false)
    else if k == [] || k[0].WouldBlock? then Sent(items, [], [], if k == [] then [] else k[1..], false)
    else if k[0].Interrupted? then SendList(items, k[1..])
    else if k[0].Broken? then Sent(items, [], [], k[1..], true)
    else
      var head := items[0];
      var n := Min(k[0].n, |head.Rest()|);
      var first := if head.off == 0 && (n > 0 || head.Rest() == []) then [head.msg] else [];
      if n != |head.Rest()| then
        Sent([head.(off := head.off + n)] + items[1..], head.Rest()[..n], first, k[1..], false)
      else
        var r := SendList(items[1..], k[1..]);
        r.(bytes := head.Rest() + r.bytes, begun := first + r.begun)
  }

  function SendHigh(s: Sock, k: seq<Write>): (Sock, Sent) {
    var r := SendList(s.high, k);
    (s.(high := r.rest, wbSize := s.wbSize - |r.bytes|, wire := s.wire + r.bytes, begun := s.begun + r.begun), r)
  }

  function SendLow(s: Sock, k: seq<Write>): (Sock, Sent) {
    var r := SendList(s.low, k);
    (s.(low := r.rest, wbSize := s.wbSize - |r.bytes|, wire := s.wire + r.bytes, begun := s.begun + r.begun), r)
  }

  function ReportBroken(s: Sock): (Sock, Event) {
    var (c, e) := CloseWrite(s);
    (c, if e.Error? then Error else Nothing)
  }

  /** Steps 2 to 4 of `send_buffer_`, once the high list is empty: the cut head of the low list is raised. */
  function SendRest(a: Sock, k: seq<Write>): (Sock, Event) {
    var (b, r) := SendLow(a, k);
    if r.failed then ReportBroken(b)
    else if b.low != [] && b.low[0].off > 0 then (b.(high := [b.low[0]], low := b.low[1..]), Nothing)
    else if b.low != [] then (b, Nothing)
    else if b.closing then (ForceClose(b), Nothing)
    else (b, Nothing)
  }

  /** `send_buffer_`: the high list first, then the low list. */
  function SendLists(s: Sock, k: seq<Write>): (Sock, Event) {
    var (a, r) := SendHigh(s, k);
    if r.failed then ReportBroken(a) else if a.high != [] then (a, Nothing) else SendRest(a, r.answers)
  }

  /** `send_buffer` with the lock taken: what a direct write left over goes to the front. */
  function Unload(s: Sock): Sock {
    if s.dw.None? then s
    else s.(high := [s.dw.value] + s.high, wbSize := s.wbSize + |s.dw.value.Rest()|, dw := None)
  }

  function SendBuffer(s: Sock, k: seq<Write>): (Sock, Event) {
    SendLists(Unload(s), k)
  }

  predicate Refuses(s: Sock) {
    s.kind in {Invalid, HalfCloseWrite, PAccept, PListen, Listen} || s.closing
  }

  /** `send_socket`: a request from the pipe is dropped or queued. */
  function SendSocket(s: Sock, m: Msg): Sock {
    if Refuses(s) then s
    else if !m.urgent && !(s.high == [] && s.low == []) then
      s.(low := s.low + [Item(m, 0)], wbSize := s.wbSize + |m.data|)
    else
      s.(high := s.high + [Item(m, 0)], wbSize := s.wbSize + |m.data|)
  }

  /** The direct write of `socket_server_send`, once its second check has passed. */
  function DirectWrite(s: Sock, m: Msg, w: Write): Sock {
    var n := if w.Accept? then Min(w.n, |m.data|) else 0;
    var s' := s.(wire := s.wire + m.data[..n], begun := s.begun + if n > 0 || m.data == [] then [m] else []);
    if n == |m.data| then s' else s'.(dw := Some(Item(m, n)))
  }

  // ---------------------------------------------------------------- invariants

  function BytesLeft(items: seq<Item>): nat {
    if items == [] then 0 else |items[0].Rest()| + BytesLeft(items[1..])
  }

  function Concat(ms: seq<Msg>): seq<Byte> {
    if ms == [] then [] else Concat(ms[..|ms| - 1]) + ms[|ms| - 1].data
  }

  predicate AllFresh(items: seq<Item>) {
    forall x :: x in items ==> x.Fresh()
  }

  /** Only the head may have been sent in part. */
  ghost predicate HeadMayBePartial(items: seq<Item>) {
    items == [] || (items[0].Sound() && AllFresh(items[1..]))
  }

  /** The message that is half-way onto the wire, if any. */
  function Cut(s: Sock): Option<Item> {
    if s.dw.Some? && s.dw.value.off > 0 then s.dw
    else if s.high != [] && s.high[0].off > 0 then Some(s.high[0])
    else None
  }

  function CutBytes(s: Sock): seq<Byte> {
    if Cut(s).Some? then Cut(s).value.Rest() else []
  }

  /** Everything accepted is whole messages in order, except that the last one may be cut. */
  ghost predicate Whole(s: Sock) {
    && s.wire + CutBytes(s) == Concat(s.begun)
    && (Cut(s).Some? ==> s.begun != [] && s.begun[|s.begun| - 1] == Cut(s).value.msg)
  }

  ghost predicate Shaped(s: Sock) {
    && HeadMayBePartial(s.high)
    && AllFresh(s.low)
    && (s.dw.Some? ==> s.dw.value.Sound() && AllFresh(s.high))
  }

  ghost predicate Counted(s: Sock) {
    s.wbSize == BytesLeft(s.high) + BytesLeft(s.low)
  }

  ghost predicate Good(s: Sock) {
    if s.kind.Invalid? then
      s.high == [] && s.low == [] && s.dw.None? && s.wire <= Concat(s.begun)
    else
      Shaped(s) && Counted(s) && Whole(s)
  }

  /** No torn messages: the peer sees a prefix of a concatenation of whole messages. */
  lemma NeverTorn(s: Sock)
    requires Good(s)
    ensures s.wire <= Concat(s.begun)
  {
  }

  lemma {:induction false} ConcatMore(a: seq<Msg>, b: seq<Msg>)
    ensures Concat(a + b) == Concat(a) + Concat(b)
  {
    if b == [] {
      assert a + b == a;
    } else {
      assert (a + b)[..|a + b| - 1] == a + b[..|b| - 1];
      ConcatMore(a, b[..|b| - 1]);
    }
  }

  lemma ConcatNone()
    ensures Concat([]) == []
  {
  }

  lemma ConcatOne(m: Msg)
    ensures Concat([m]) == m.data && Concat([]) == []
  {
    assert [m][..0] == [];
  }

  /** The messages of a list whose transmission has not started. */
  function Unbegun(items: seq<Item>): seq<Msg> {
    if items == [] then []
    else (if items[0].Fresh() then [items[0].msg] else []) + Unbegun(items[1..])
  }

  function CutRest(items: seq<Item>): seq<Byte> {
    if items != [] && items[0].off > 0 then items[0].Rest() else []
  }

  /** A list keeps its shape: only the head of what is left may be cut, and never on an error. */
  lemma {:induction false} SendListShape(items: seq<Item>, k: seq<Write>)
    requires HeadMayBePartial(items)
    ensures HeadMayBePartial(SendList(items, k).rest)
    ensures SendList(items, k).failed && AllFresh(items) ==> AllFresh(SendList(items, k).rest)
    decreases |k|
  {
    if items != [] && k != [] {
      if k[0].Interrupted? {
        SendListShape(items, k[1..]);
      } else if k[0].Accept? && k[0].n >= |items[0].Rest()| {
        SendListShape(items[1..], k[1..]);
      }
    }
  }

  /** `wb_size` accounting: the list shrinks by exactly the bytes the kernel took. */
  lemma {:induction false} SendListBytes(items: seq<Item>, k: seq<Write>)
    requires HeadMayBePartial(items)
    ensures BytesLeft(SendList(items, k).rest) == BytesLeft(items) - |SendList(items, k).bytes|
    decreases |k|
  {
    if items != [] && k != [] {
      if k[0].Interrupted? {
        SendListBytes(items, k[1..]);
      } else if k[0].Accept? && k[0].n >= |items[0].Rest()| {
        SendListBytes(items[1..], k[1..]);
      }
    }
  }

  /** Starting a message moves it from the list to the front of the wire log; order is kept. */
  lemma {:induction false} SendListOrder(items: seq<Item>, k: seq<Write>)
    requires HeadMayBePartial(items)
    ensures SendList(items, k).begun + Unbegun(SendList(items, k).rest) == Unbegun(items)
    decreases |k|
  {
    if items != [] && k != [] {
      if k[0].Interrupted? {
        SendListOrder(items, k[1..]);
      } else if k[0].Accept? && k[0].n >= |items[0].Rest()| {
        SendListOrder(items[1..], k[1..]);
      }
    }
  }

  lemma Regroup(head: seq<Byte>, bytes: seq<Byte>, cut: seq<Byte>, whole: seq<Byte>)
    requires whole == bytes + cut
    ensures head + whole == (head + bytes) + cut && [] + (head + whole) == head + whole
  {
  }

  lemma WholeHead(head: Item, r: Sent)
    requires Concat(r.begun) == r.bytes + CutRest(r.rest)
    ensures CutRest([head]) + Concat((if head.off == 0 then [head.msg] else []) + r.begun)
            == (head.Rest() + r.bytes) + CutRest(r.rest)
  {
    ConcatOne(head.msg);
    hide Concat;
    Neutral(r.begun);
    Regroup(head.Rest(), r.bytes, CutRest(r.rest), Concat(r.begun));
    ConcatMore([head.msg], r.begun);
  }

  lemma CutHead(head: Item, n: nat)
    requires head.Sound() && n < |head.Rest()|
    ensures var cut := head.(off := head.off + n);
            CutRest([head]) + Concat(if head.off == 0 && n > 0 then [head.msg] else [])
            == head.Rest()[..n] + CutRest([cut])
  {
    ConcatOne(head.msg);
    Neutral(head.Rest());
    SplitRest(head, n);
    hide Concat;
    assert head.Rest()[..0] + [] == [];
  }

  lemma SplitRest(head: Item, n: nat)
    requires head.Sound() && n < |head.Rest()|
    ensures head.Rest()[..n] + head.(off := head.off + n).Rest() == head.Rest()
  {
  }

  lemma SendListStep(items: seq<Item>, k: seq<Write>)
    requires items != [] && k != [] && k[0].Accept?
    ensures var head, r, rest := items[0], SendList(items, k), SendList(items[1..], k[1..]);
            var n := Min(k[0].n, |head.Rest()|);
            if n == |head.Rest()| then
              && r.bytes == head.Rest() + rest.bytes && r.rest == rest.rest
              && r.begun == (if head.off == 0 then [head.msg] else []) + rest.begun
            else
              r.bytes == head.Rest()[..n] && r.begun == (if head.off == 0 && n > 0 then [head.msg] else []) &&
              CutRest(r.rest) == CutRest([head.(off := head.off + n)])
  {
  }

  /** The bytes sent, completed by the cut head, are whole messages. */
  lemma {:induction false} SendListWhole(items: seq<Item>, k: seq<Write>)
    requires HeadMayBePartial(items)
    ensures var r := SendList(items, k);
            CutRest(items) + Concat(r.begun) == r.bytes + CutRest(r.rest)
    decreases |k|
  {
    if items == [] || k == [] || k[0].WouldBlock? || k[0].Broken? {
      ConcatNone();
      Neutral(CutRest(items));
    } else if k[0].Interrupted? {
      SendListWhole(items, k[1..]);
    } else {
      var head, n := items[0], Min(k[0].n, |items[0].Rest()|);
      SendListStep(items, k);
      assert CutRest(items) == CutRest([head]);
      if n == |head.Rest()| {
        SendListWhole(items[1..], k[1..]);
        AllFreshHead(items[1..]);
        hide SendList, CutRest, Concat;
        Neutral(Concat(SendList(items[1..], k[1..]).begun));
        WholeHead(head, SendList(items[1..], k[1..]));
      } else {
        hide SendList, CutRest, Concat;
        CutHead(head, n);
      }
    }
  }

  /** If the head is cut, its message is the last one begun. */
  lemma {:induction false} SendListLast(items: seq<Item>, k: seq<Write>)
    requires HeadMayBePartial(items)
    ensures var r := SendList(items, k);
            r.rest != [] && r.rest[0].off > 0 ==>
              if r.begun != [] then r.begun[|r.begun| - 1] == r.rest[0].msg
              else items != [] && items[0].off > 0 && items[0].msg == r.rest[0].msg
    decreases |k|
  {
    if items != [] && k != [] {
      if k[0].Interrupted? {
        SendListLast(items, k[1..]);
      } else if k[0].Accept? && k[0].n >= |items[0].Rest()| {
        SendListLast(items[1..], k[1..]);
      }
    }
  }

  /** Messages begun, then everything still waiting, in the order in which it will be sent. */
  function Flow(s: Sock): seq<Msg> {
    s.begun + (Unbegun(if s.dw.Some? then [s.dw.value] else []) + (Unbegun(s.high) + Unbegun(s.low)))
  }

  lemma ConsFacts(x: Item, items: seq<Item>)
    ensures ([x] + items)[1..] == items
    ensures BytesLeft([x] + items) == |x.Rest()| + BytesLeft(items)
    ensures Unbegun([x]) + Unbegun(items) == Unbegun([x] + items)
    ensures AllFresh([x] + items) <==> x.Fresh() && AllFresh(items)
  {
    assert [x][1..] == [];
    assert forall y :: y in [x] + items <==> y == x || y in items;
  }

  lemma AllFreshHead(items: seq<Item>)
    requires AllFresh(items)
    ensures HeadMayBePartial(items) && CutRest(items) == []
  {
    assert items == [] || items[0].Fresh();
  }

  lemma NoneLeft()
    ensures Unbegun([]) == [] && BytesLeft([]) == 0 && AllFresh([])
  {
  }

  // ---------------------------------------------------------------- every operation keeps the invariants

  /** What a record of the freed lists tells: all is whole messages but for the rest of a cut head. */
  ghost predicate Recorded(p: Past) {
    && HeadMayBePartial(p.high)
    && AllFresh(p.low)
    && p.wire + CutRest(p.high) == Concat(p.begun)
    && (CutRest(p.high) != [] ==> p.begun != [] && p.begun[|p.begun| - 1] == p.high[0].msg)
  }

  function Beyond<T>(s: seq<T>, k: nat): seq<T> {
    if k <= |s| then s[k..] else []
  }

  /** The socket as if its life had begun when the lists were freed. `wb_size` no longer counts then. */
  function Late(p: Past, s: Sock): Sock {
    s.(wire := Beyond(s.wire, |p.wire|), begun := Beyond(s.begun, |p.begun|), wbSize := 0)
  }

  /**
   Freeing the lists. With something in `dw_buffer` no direct write can follow; otherwise one
   may, and all it can spoil is recorded.
   */
  lemma GoodFreed(s: Sock)
    requires Good(s) && !s.kind.Invalid?
    ensures s.dw.Some? ==> Good(FreeLists(s).(wbSize := 0))
    ensures s.dw.None? ==> var p := Past(s.wire, s.begun, s.high, s.low);
                           Recorded(p) && Good(Late(p, FreeLists(s))) && Late(p, FreeLists(s)).begun == []
  {
    NoneLeft();
    ConcatNone();
    hide Concat, BytesLeft;
    assert s.dw.Some? && s.high != [] ==> s.high[0].Fresh();
  }

  lemma GoodForceClose(s: Sock)
    requires Good(s)
    ensures Good(ForceClose(s)) && ForceClose(s).begun == s.begun && ForceClose(s).kind.Invalid?
  {
    NeverTorn(s);
  }

  /** The data invariants do not depend on the type, as long as the socket is not freed. */
  lemma GoodRelabelled(s: Sock, kind: Kind, closing: bool)
    requires Good(s) && !s.kind.Invalid? && !kind.Invalid?
    ensures Good(s.(kind := kind, closing := closing)) && Flow(s.(kind := kind, closing := closing)) == Flow(s)
  {
    hide Concat, BytesLeft, AllFresh, HeadMayBePartial, Unbegun;
  }

  lemma GoodReportBroken(s: Sock)
    requires Good(s) && !s.kind.Invalid?
    ensures var c := ReportBroken(s).0;
            Good(c) && c.begun == s.begun && (!c.kind.Invalid? ==> Flow(c) == Flow(s))
  {
    hide Concat, Unbegun, BytesLeft, AllFresh;
    GoodForceClose(s);
  }

  lemma GoodUnload(s: Sock)
    requires Good(s) && !s.kind.Invalid?
    ensures Good(Unload(s)) && Unload(s).dw.None? && Flow(Unload(s)) == Flow(s)
  {
    if s.dw.Some? {
      var u := Unload(s);
      ConsFacts(s.dw.value, s.high);
      NoneLeft();
      assert s.high == [] || s.high[0].Fresh();
      hide Concat, BytesLeft, Unbegun, AllFresh;
      var x, high, low := Unbegun([s.dw.value]), Unbegun(s.high), Unbegun(s.low);
      Assoc(x, high, low);
      Neutral(x + high + low);
    }
  }

  /** Bookkeeping of `SendListWhole` on top of what was on the wire before. */
  lemma WholeAfter(wire: seq<Byte>, begun: seq<Msg>, cut: seq<Byte>, bytes: seq<Byte>, more: seq<Msg>, cut': seq<Byte>)
    requires wire + cut == Concat(begun)
    requires cut + Concat(more) == bytes + cut'
    ensures (wire + bytes) + cut' == Concat(begun + more)
  {
    hide Concat;
    ConcatMore(begun, more);
    Assoc(wire, bytes, cut');
    Assoc(wire, cut, Concat(more));
  }

  lemma GoodSendHigh(s: Sock, k: seq<Write>)
    requires Good(s) && !s.kind.Invalid? && s.dw.None?
    ensures var a := SendHigh(s, k).0; Good(a) && Flow(a) == Flow(s)
  {
    hide Concat, SendList, Unbegun, BytesLeft, AllFresh;
    NoneLeft();
    var r := SendList(s.high, k);
    SendListShape(s.high, k);
    SendListBytes(s.high, k);
    SendListOrder(s.high, k);
    SendListWhole(s.high, k);
    SendListLast(s.high, k);
    WholeAfter(s.wire, s.begun, CutRest(s.high), r.bytes, r.begun, CutRest(r.rest));
    var rest, low := Unbegun(r.rest), Unbegun(s.low);
    Neutral(rest + low);
    Neutral((r.begun + rest) + low);
    Assoc(r.begun, rest, low);
    Assoc(s.begun, r.begun, rest + low);
  }

  /** What `raise_uncomplete` does when the low list ends with a cut head. */
  function Raised(b: Sock): Sock {
    if b.low != [] && b.low[0].off > 0 then b.(high := [b.low[0]], low := b.low[1..]) else b
  }

  /** Inside `send_buffer_`, after the low list was sent: its head may be cut, nothing else waits. */
  ghost predicate LowSent(s: Sock) {
    && !s.kind.Invalid? && s.dw.None? && s.high == []
    && HeadMayBePartial(s.low)
    && s.wbSize == BytesLeft(s.low)
    && s.wire + CutRest(s.low) == Concat(s.begun)
    && (s.low != [] && s.low[0].off > 0 ==> s.begun != [] && s.begun[|s.begun| - 1] == s.low[0].msg)
  }

  lemma SendLowFacts(s: Sock, k: seq<Write>)
    requires Good(s) && !s.kind.Invalid? && s.dw.None? && s.high == []
    ensures var (b, r) := SendLow(s, k);
            LowSent(b) && b.begun + Unbegun(b.low) == s.begun + Unbegun(s.low) && (r.failed ==> AllFresh(b.low))
  {
    hide Concat, SendList, BytesLeft, Unbegun;
    NoneLeft();
    AllFreshHead(s.low);
    hide AllFresh, HeadMayBePartial;
    var r := SendList(s.low, k);
    SendListShape(s.low, k);
    SendListBytes(s.low, k);
    SendListOrder(s.low, k);
    SendListWhole(s.low, k);
    SendListLast(s.low, k);
    WholeAfter(s.wire, s.begun, [], r.bytes, r.begun, CutRest(r.rest));
    Assoc(s.begun, r.begun, Unbegun(r.rest));
  }

  lemma SplitHead(items: seq<Item>)
    requires items != []
    ensures BytesLeft([items[0]]) + BytesLeft(items[1..]) == BytesLeft(items)
    ensures Unbegun([items[0]]) + Unbegun(items[1..]) == Unbegun(items)
    ensures HeadMayBePartial(items) ==> HeadMayBePartial([items[0]]) && AllFresh(items[1..])
    ensures HeadMayBePartial(items) && items[0].Fresh() <==> AllFresh(items)
  {
    ConsFacts(items[0], items[1..]);
    assert [items[0]] + items[1..] == items;
    ConsFacts(items[0], []);
    assert [items[0]] + [] == [items[0]];
    assert [items[0]][1..] == [];
  }

  /** Raising the cut head of the low list to the empty high list restores the invariant. */
  lemma RaisedFacts(b: Sock)
    requires LowSent(b)
    ensures Good(Raised(b)) && Flow(Raised(b)) == b.begun + Unbegun(b.low)
    ensures AllFresh(b.low) ==> Raised(b) == b
  {
    NoneLeft();
    if b.low == [] {
      Neutral(Unbegun(b.low));
    } else {
      SplitHead(b.low);
      hide Concat, BytesLeft, Unbegun, AllFresh, HeadMayBePartial;
      Neutral(Unbegun(b.low));
      if b.low[0].Fresh() {
        assert HeadMayBePartial(b.high) by { NoHead(); }
      }
    }
  }

  lemma NoHead()
    ensures HeadMayBePartial([])
  {
  }

  /** With nothing waiting there is nothing left to count, as the check before closing demands. */
  lemma DrainedIsZero(s: Sock)
    requires Good(s) && !s.kind.Invalid? && s.high == [] && s.low == []
    ensures s.wbSize == 0
  {
  }

  /** `send_buffer` on any kernel answers: the invariants hold and nothing changes its place. */
  lemma GoodSendBuffer(s: Sock, k: seq<Write>)
    requires Good(s) && !s.kind.Invalid?
    ensures var c := SendBuffer(s, k).0;
            Good(c) && c.begun <= Flow(s) && (!c.kind.Invalid? ==> Flow(c) == Flow(s))
  {
    hide Concat, SendList, BytesLeft, Unbegun, AllFresh;
    GoodUnload(s);
    var u := Unload(s);
    GoodSendHigh(u, k);
    var (a, ra) := SendHigh(u, k);
    if ra.failed {
      GoodReportBroken(a);
    } else if a.high == [] {
      SendLowFacts(a, ra.answers);
      var (b, rb) := SendLow(a, ra.answers);
      RaisedFacts(b);
      NoneLeft();
      Neutral(Unbegun(a.low));
      if rb.failed {
        GoodReportBroken(b);
      } else if b.low == [] && b.closing {
        GoodForceClose(b);
      }
    }
  }

  lemma GoodSendSocket(s: Sock, m: Msg)
    requires Good(s)
    ensures Good(SendSocket(s, m))
  {
    if !Refuses(s) {
      AppendFacts(s.high, Item(m, 0));
      AppendFacts(s.low, Item(m, 0));
      assert Cut(SendSocket(s, m)) == Cut(s);
      hide Concat, BytesLeft, Unbegun, Cut, HeadMayBePartial, AllFresh;
    }
  }

  lemma {:induction false} AppendFacts(items: seq<Item>, x: Item)
    ensures BytesLeft(items + [x]) == BytesLeft(items) + |x.Rest()|
    ensures x.Fresh() ==> Unbegun(items + [x]) == Unbegun(items) + [x.msg]
    ensures x.Fresh() && AllFresh(items) ==> AllFresh(items + [x])
    ensures x.Fresh() && HeadMayBePartial(items) ==> HeadMayBePartial(items + [x])
  {
    if items == [] {
      assert items + [x] == [x] && [x][1..] == [];
    } else {
      assert (items + [x])[1..] == items[1..] + [x];
      AppendFacts(items[1..], x);
    }
  }

  /** The three outcomes of a direct write: nothing taken, everything taken, or a cut message. */
  lemma DirectOutcome(s: Sock, m: Msg, w: Write)
    requires s.dw.None?
    ensures var n, d := if w.Accept? then Min(w.n, |m.data|) else 0, DirectWrite(s, m, w);
            if n == |m.data| then d == s.(wire := s.wire + m.data, begun := s.begun + [m])
            else if n == 0 then d == s.(dw := Some(Item(m, 0)))
            else d == s.(wire := s.wire + m.data[..n], begun := s.begun + [m], dw := Some(Item(m, n)))
  {
    var n := if w.Accept? then Min(w.n, |m.data|) else 0;
    Neutral(s.wire);
    Neutral(s.begun);
    assert n == |m.data| ==> m.data[..n] == m.data;
    assert n == 0 ==> m.data[..n] == [];
  }

  /** The direct write, with nothing queued or only messages queued since the check. */
  lemma GoodDirectWrite(s: Sock, m: Msg, w: Write)
    requires Good(s) && !s.kind.Invalid? && s.dw.None? && AllFresh(s.high)
    ensures Good(DirectWrite(s, m, w))
  {
    var n := if w.Accept? then Min(w.n, |m.data|) else 0;
    DirectOutcome(s, m, w);
    AllFreshHead(s.high);
    ConcatMore(s.begun, [m]);
    ConcatOne(m);
    Neutral(s.wire);
    assert Cut(s) == None;
    hide BytesLeft, AllFresh, HeadMayBePartial, Concat, DirectWrite;
    var d := DirectWrite(s, m, w);
    if n == |m.data| {
      Neutral(s.wire + m.data);
    } else if n > 0 {
      assert m.data[..n] + m.data[n..] == m.data;
      Assoc(s.wire, m.data[..n], m.data[n..]);
    }
  }
}
