/**
 The commands and poll events the socket thread handles (skynet-src/socket_server.c), as steps
 on `Sock`, and the life of one socket incarnation under every sequence of them.
 */
module SocketLifecycle {
  import opened Options
  import opened Sequences
  import opened SocketState

  datatype Read = Got(n: nat) | EndOfStream | ReadAgain | ReadFailed

  datatype Op =
    | SendCmd(m: Msg)               // 'D' and 'P'
    | CloseCmd(shutdown: bool)      // 'K'
    | ResumeCmd                     // 'R'
    | ConnectEvent(ok: bool)        // report_connect
    | ReadEvent(r: Read)            // forward_message_tcp
    | WriteEvent(k: seq<Write>)     // send_buffer
    | ErrorEvent
    | HangUp                        // e->eof
    | CallerWrite(m: Msg, w: Write) // the direct write of a caller thread

  /** `force` asks for `force_close`, which frees the lists and then waits for the lock. */
  datatype Verdict = Verdict(sock: Sock, event: Event, force: bool)

  /** `nomore_sending_data`; `idle` is what the read of the `sending` counter told. */
  predicate NoMore(s: Sock, idle: bool) {
    || (s.high == [] && s.low == [] && s.dw.None? && idle)
    || s.kind.HalfCloseWrite?
  }

  function CloseSocket(s: Sock, shutdown: bool, idle: bool): Verdict {
    if s.kind.Invalid? then Verdict(s, Nothing, false)
    else if shutdown || NoMore(s, idle) then Verdict(s, if s.kind.HalfCloseRead? then Nothing else Close, true)
    else if s.kind.HalfCloseRead? then Verdict(s.(closing := true), Nothing, false)
    else Verdict(s.(closing := true, kind := HalfCloseRead), Close, false)
  }

  function Resume(s: Sock): Verdict {
    match s.kind
    case Invalid | HalfCloseRead => Verdict(s, Error, false)
    case PAccept => Verdict(s.(kind := Connected), Open, false)
    case PListen => Verdict(s.(kind := Listen), Open, false)
    case Connected => Verdict(s, Open, false)
    case _ => Verdict(s, Nothing, false)
  }

  function Connect(s: Sock, ok: bool): Verdict {
    if ok then Verdict(s.(kind := Connected), Open, false) else Verdict(s, Error, true)
  }

  function Forward(s: Sock, r: Read, idle: bool): Verdict {
    match r
    case ReadAgain => Verdict(s, Nothing, false)
    case ReadFailed => Verdict(s, Error, false)
    case EndOfStream =>
      if s.closing then Verdict(s, Nothing, NoMore(s, idle))
      else if s.kind.HalfCloseRead? then Verdict(s, Nothing, false)
      else if s.kind.HalfCloseWrite? then Verdict(s, Close, true)
      else Verdict(s.(kind := HalfCloseRead), Close, false)
    case Got(n) => Verdict(s, if s.kind.HalfCloseRead? then Nothing else Data, false)
  }

  /** Which event handler the poll loop picks depends on the socket type. */
  predicate Enabled(s: Sock, op: Op) {
    match op
    case SendCmd(_) | CloseCmd(_) | ResumeCmd => !s.kind.Reserve?
    case ConnectEvent(_) => s.kind.Connecting?
    case ReadEvent(_) | WriteEvent(_) | ErrorEvent | HangUp => s.kind !in {Invalid, Reserve, Connecting, Listen}
    case CallerWrite(_, _) => !s.kind.Invalid? && s.dw.None? && AllFresh(s.high)
  }

  function Decide(s: Sock, op: Op, idle: bool): Verdict {
    match op
    case SendCmd(m) => Verdict(SendSocket(s, m), Nothing, false)
    case CloseCmd(shutdown) => CloseSocket(s, shutdown, idle)
    case ResumeCmd => Resume(s)
    case ConnectEvent(ok) => Connect(s, ok)
    case ReadEvent(r) => Forward(s, r, idle)
    case WriteEvent(k) => var (c, e) := SendBuffer(s, k); Verdict(c, e, false)
    case ErrorEvent => Verdict(s, Error, false)
    case HangUp => Verdict(s, if s.kind.HalfCloseRead? then Nothing else Close, true)
    case CallerWrite(m, w) => Verdict(DirectWrite(s, m, w), Nothing, false)
  }

  function Settle(v: Verdict): Sock {
    if v.force then ForceClose(v.sock) else v.sock
  }

  // ---------------------------------------------------------------- data invariants

  /** Every command and event keeps the data invariants, whatever the counter read said. */
  lemma GoodStep(s: Sock, op: Op, idle: bool)
    requires Good(s) && Enabled(s, op)
    ensures Good(Decide(s, op, idle).sock) && Good(Settle(Decide(s, op, idle)))
  {
    hide Concat, BytesLeft, SendBuffer, DirectWrite, SendSocket, Shaped, Counted, Whole;
    var v := Decide(s, op, idle);
    match op {
      case WriteEvent(k) => GoodSendBuffer(s, k);
      case SendCmd(m) => GoodSendSocket(s, m);
      case CallerWrite(m, w) => GoodDirectWrite(s, m, w);
      case _ =>
        if !s.kind.Invalid? {
          GoodRelabelled(s, v.sock.kind, v.sock.closing);
        }
    }
    GoodForceClose(v.sock);
  }

  // ---------------------------------------------------------------- one incarnation

  /**
   An incarnation with the number of SOCKET_CLOSE events raised and of failed connects. While it is
   `freeing`, `force_close` has freed the lists and waits for the lock; only callers can act then.
   */
  datatype Life = Life(sock: Sock, past: Past, freeing: bool, closes: nat, refused: nat)

  datatype Turn = Handle(op: Op, idle: bool) | LockTaken

  /** `new_fd` has filled the slot and the command handler has set its first type. */
  predicate Born(l: Life) {
    && l.closes == 0 && l.refused == 0 && !l.freeing && l.past == NOTHING_FREED
    && l.sock.kind in {PListen, Connecting, Connected, PAccept, Bound}
    && !l.sock.closing && l.sock.high == [] && l.sock.low == [] && l.sock.dw.None?
    && l.sock.wbSize == 0 && l.sock.wire == [] && l.sock.begun == []
  }

  predicate Possible(l: Life, turn: Turn) {
    match turn
    case Handle(op, _) => Enabled(l.sock, op) && (l.freeing ==> op.CallerWrite?)
    case LockTaken => l.freeing
  }

  /** What `force_close` frees without the lock is recorded if a direct write may still follow. */
  function StartFreeing(l: Life): Life {
    var past := if l.sock.dw.Some? then l.past else Past(l.sock.wire, l.sock.begun, l.sock.high, l.sock.low);
    l.(sock := FreeLists(l.sock), past := past, freeing := true)
  }

  function Noted(l: Life, op: Op, v: Verdict): Life {
    l.(sock := v.sock, closes := l.closes + (if v.event.Close? then 1 else 0),
    refused := l.refused + if op == ConnectEvent(false) then 1 else 0)
  }

  function Handled(l: Life, op: Op, v: Verdict): Life {
    if v.force then StartFreeing(Noted(l, op, v)) else Noted(l, op, v)
  }

  function Live(l: Life, turn: Turn): Life {
    if !Possible(l, turn) then l
    else
      match turn
      case LockTaken => l.(sock := ForceClose(l.sock), freeing := false)
      case Handle(op, idle) => Handled(l, op, Decide(l.sock, op, idle))
  }

  function Run(l: Life, turns: seq<Turn>): Life {
    if turns == [] then l else Live(Run(l, turns[..|turns| - 1]), turns[|turns| - 1])
  }

  predicate Alive(l: Life) {
    && l.closes + l.refused <= 1
    && (l.closes + l.refused == 1 <==> l.freeing || l.sock.kind in {HalfCloseRead, Invalid})
    && (l.sock.kind.HalfCloseRead? ==> l.closes == 1)
    && (l.sock.closing ==> l.sock.kind in {HalfCloseRead, Invalid})
    && (l.freeing ==> !l.sock.kind.Invalid?)
    && !l.sock.kind.Reserve?
  }

  lemma SendBufferKind(s: Sock, k: seq<Write>)
    ensures var (c, e) := SendBuffer(s, k);
            && (c.kind == s.kind || c.kind.Invalid? || c.kind.HalfCloseWrite?)
            && (c.kind.HalfCloseWrite? && !s.kind.HalfCloseWrite? ==> !s.closing && !s.kind.HalfCloseRead?)
            && (c.kind.Invalid? && !s.kind.Invalid? ==> s.closing || s.kind.HalfCloseRead?)
            && c.closing == s.closing && !e.Close?
  {
    hide SendList;
  }

  lemma AliveStep(l: Life, turn: Turn)
    requires Alive(l)
    ensures Alive(Live(l, turn))
    ensures l.sock.kind.Invalid? ==> Live(l, turn).sock.kind.Invalid?
    ensures l.sock.kind.HalfCloseRead? ==> Live(l, turn).sock.kind in {HalfCloseRead, Invalid}
  {
    hide SendBuffer, SendSocket, DirectWrite;
    if turn.Handle? {
      match turn.op {
        case WriteEvent(k) => SendBufferKind(l.sock, k);
        case SendCmd(m) => SendKeepsType(l.sock, m);
        case CallerWrite(m, w) => DirectKeepsType(l.sock, m, w);
        case _ =>
      }
    }
  }

  lemma SendKeepsType(s: Sock, m: Msg)
    ensures SendSocket(s, m).kind == s.kind && SendSocket(s, m).closing == s.closing
  {
  }

  lemma DirectKeepsType(s: Sock, m: Msg, w: Write)
    ensures DirectWrite(s, m, w).kind == s.kind && DirectWrite(s, m, w).closing == s.closing
  {
  }

  /** SOCKET_CLOSE is raised at most once, and an incarnation never ends without it or a connect error. */
  lemma {:induction false} ClosedOnce(l: Life, turns: seq<Turn>)
    requires Born(l)
    ensures Alive(Run(l, turns))
  {
    if turns != [] {
      ClosedOnce(l, turns[..|turns| - 1]);
      AliveStep(Run(l, turns[..|turns| - 1]), turns[|turns| - 1]);
    }
  }

  // ---------------------------------------------------------------- its bytes

  /** The socket since its lists were freed, or since its birth. */
  function Since(l: Life): Sock {
    if l.freeing then Late(l.past, l.sock) else Late(l.past, l.sock).(wbSize := l.sock.wbSize)
  }

  /** Whole messages before the lists were freed, but for a cut one, and whole messages afterwards. */
  ghost predicate Accounted(l: Life) {
    && Good(Since(l))
    && Recorded(l.past)
    && l.past.wire <= l.sock.wire && l.past.begun <= l.sock.begun
    && (l.past == NOTHING_FREED || l.freeing || l.sock.kind.Invalid?)
    && (l.freeing ==> l.sock.high == [] && l.sock.low == [])
  }

  lemma SinceIsSock(l: Life)
    requires l.past == NOTHING_FREED && !l.freeing
    ensures Since(l) == l.sock
  {
    assert l.sock.wire[0..] == l.sock.wire && l.sock.begun[0..] == l.sock.begun;
  }

  lemma AccountedUsed(l: Life)
    requires Good(l.sock) && l.past == NOTHING_FREED && !l.freeing
    ensures Accounted(l)
  {
    SinceIsSock(l);
    ConcatNone();
    hide Good, Concat;
  }

  /** A direct write while the lists are freed is one of the socket as it is since then. */
  lemma WriteSince(l: Life, m: Msg, w: Write)
    requires Accounted(l)
    ensures Since(l.(sock := DirectWrite(l.sock, m, w))) == DirectWrite(Since(l), m, w)
    ensures l.past.wire <= DirectWrite(l.sock, m, w).wire && l.past.begun <= DirectWrite(l.sock, m, w).begun
  {
    hide Good, Recorded;
    var n := if w.Accept? then Min(w.n, |m.data|) else 0;
    var more := if n > 0 || m.data == [] then [m] else [];
    assert (l.sock.wire + m.data[..n])[|l.past.wire|..] == l.sock.wire[|l.past.wire|..] + m.data[..n];
    assert (l.sock.begun + more)[|l.past.begun|..] == l.sock.begun[|l.past.begun|..] + more;
  }

  lemma AccountedFreeing(l: Life)
    requires Good(l.sock) && !l.sock.kind.Invalid? && l.past == NOTHING_FREED && !l.freeing
    ensures Accounted(StartFreeing(l))
  {
    GoodFreed(l.sock);
    ConcatNone();
    hide Good, Concat;
    assert l.sock.wire[0..] == l.sock.wire && l.sock.begun[0..] == l.sock.begun;
  }

  lemma AccountedLock(l: Life)
    requires Accounted(l) && l.freeing
    ensures Accounted(l.(sock := ForceClose(l.sock), freeing := false))
  {
    NeverTorn(Since(l));
    hide Recorded, Concat;
  }

  lemma AccountedHandled(l: Life, op: Op, idle: bool)
    requires Accounted(l) && !l.freeing && !l.sock.kind.Invalid? && Enabled(l.sock, op)
    ensures Accounted(Handled(l, op, Decide(l.sock, op, idle)))
  {
    SinceIsSock(l);
    assert Good(l.sock);
    hide Accounted, Good, Decide, Enabled;
    GoodStep(l.sock, op, idle);
    ForceIsLast(l.sock, op, idle);
    var next := Noted(l, op, Decide(l.sock, op, idle));
    if Decide(l.sock, op, idle).force {
      AccountedFreeing(next);
    } else {
      AccountedUsed(next);
    }
  }

  lemma AccountedWrite(l: Life, m: Msg, w: Write, idle: bool)
    requires Accounted(l) && l.freeing && Enabled(l.sock, CallerWrite(m, w))
    ensures Accounted(Live(l, Handle(CallerWrite(m, w), idle)))
  {
    GoodDirectWrite(Since(l), m, w);
    WriteSince(l, m, w);
    DirectKeepsType(l.sock, m, w);
    hide Good, DirectWrite, Recorded, AllFresh;
    DirectOutcome(l.sock, m, w);
  }

  /** A socket that is gone stays as it is. */
  lemma AccountedGone(l: Life, op: Op, idle: bool)
    requires Accounted(l) && !l.freeing && l.sock.kind.Invalid?
    ensures Accounted(Live(l, Handle(op, idle)))
  {
    hide Good, Recorded, SendBuffer, DirectWrite;
    assert Enabled(l.sock, op) ==> Decide(l.sock, op, idle).sock == l.sock && !Decide(l.sock, op, idle).force;
    hide Decide, Enabled;
  }

  lemma AccountedStep(l: Life, turn: Turn)
    requires Accounted(l)
    ensures Accounted(Live(l, turn))
  {
    hide Accounted, Decide, Enabled;
    if Possible(l, turn) {
      match turn {
        case LockTaken => AccountedLock(l);
        case Handle(op, idle) =>
          if l.freeing {
            AccountedWrite(l, op.m, op.w, idle);
          } else if l.sock.kind.Invalid? {
            AccountedGone(l, op, idle);
          } else {
            AccountedHandled(l, op, idle);
          }
      }
    }
  }

  lemma ForceIsLast(s: Sock, op: Op, idle: bool)
    requires Enabled(s, op)
    ensures Decide(s, op, idle).force ==> !Decide(s, op, idle).sock.kind.Invalid?
  {
    hide SendBuffer;
  }

  /**
   Over every run of one incarnation: while it is in use `wb_size` counts what is left and nothing
   is torn; once its lists were freed, what was accepted before lacks exactly the rest of a cut
   head, and what is accepted afterwards is whole messages again.
   */
  lemma AlwaysGood(l: Life, turns: seq<Turn>)
    requires Born(l)
    ensures var e := Run(l, turns);
            && (!e.freeing && !e.sock.kind.Invalid? ==> Good(e.sock))
            && e.past.wire + CutRest(e.past.high) == Concat(e.past.begun)
            && e.sock.wire == e.past.wire + Since(e).wire && e.sock.begun == e.past.begun + Since(e).begun
            && Since(e).wire <= Concat(Since(e).begun)
            && (CutRest(e.past.high) == [] || Since(e).wire == [] ==> e.sock.wire <= Concat(e.sock.begun))
  {
    AlwaysAccounted(l, turns);
    hide Run, Concat, CutRest;
    AccountedBytes(Run(l, turns));
  }

  lemma AccountedBytes(e: Life)
    requires Accounted(e)
    ensures !e.freeing && !e.sock.kind.Invalid? ==> Good(e.sock)
    ensures e.past.wire + CutRest(e.past.high) == Concat(e.past.begun)
    ensures e.sock.wire == e.past.wire + Since(e).wire && e.sock.begun == e.past.begun + Since(e).begun
    ensures Since(e).wire <= Concat(Since(e).begun)
    ensures CutRest(e.past.high) == [] || Since(e).wire == [] ==> e.sock.wire <= Concat(e.sock.begun)
  {
    if !e.freeing && !e.sock.kind.Invalid? {
      SinceIsSock(e);
    }
    NeverTorn(Since(e));
    hide Good, Concat, CutRest;
    ConcatMore(e.past.begun, Since(e).begun);
    Neutral(e.past.wire);
  }

  lemma {:induction false} AlwaysAccounted(l: Life, turns: seq<Turn>)
    requires Born(l)
    ensures Accounted(Run(l, turns))
  {
    if turns == [] {
      assert Good(l.sock) by { ConcatNone(); }
      AccountedUsed(l);
    } else {
      hide Accounted, Live;
      AlwaysAccounted(l, turns[..|turns| - 1]);
      AccountedStep(Run(l, turns[..|turns| - 1]), turns[|turns| - 1]);
    }
  }
}
