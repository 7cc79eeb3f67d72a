/**
 The write path of skynet-src/socket_server.c under every interleaving: any number of caller
 threads in `socket_server_send` and `socket_server_send_lowpriority`, and one socket thread
 reading commands from a FIFO pipe.

 Every read of shared fields in the second check is a step of its own, because
 `nomore_sending_data` reads the lists before the `sending` counter and the socket thread queues
 a message before it decrements that counter. What makes the direct write safe is the read of
 `sending` in the first, unlocked check together with the lists read under the lock; of the
 first check only that read is constrained here, all its other reads may return anything.

 `force_close` frees both lists before it takes the lock, so the two are steps of their own. A
 direct write that falls between them finds nothing waiting; what this costs is in `SocketFifo`.
 */
module SocketProtocol {
  import opened Options
  import opened Sequences
  import opened SocketState
  import opened SocketLifecycle

  datatype Stage =
    | Checking        // the unlocked check
    | Locking         // socket_trylock
    | SecondHigh | SecondLow | SecondDw | SecondSending | SecondKind   // reads of the locked check
    | Writing         // the direct write
    | Unlocking       // the locked check failed
    | Counting        // inc_sending_ref
    | Pushing         // send_request

  datatype Pc = Pc(stage: Stage, msg: Msg)

  datatype Cmd = Send(m: Msg) | Control(op: Op)

  /** The socket thread: between two commands, before a decrement, or inside `force_close`. */
  datatype Worker = Idle | Settling | Closing | Freed

  const MAX_SENDING := 0xffff

  datatype State = State(
    sock: Sock,
    worker: Worker,
    lock: Option<nat>,
    sending: nat,
    pipe: seq<Cmd>,
    pcs: map<nat, Pc>,     // threads inside a send call
    calls: seq<Msg>,       // every message accepted by a send call, in call order
    dropped: seq<Msg>,     // messages freed unsent, in queue order
    early: seq<Msg>,       // messages refused because the socket was not started yet
    past: Past)            // what `force_close` found in the lists, once it has freed them

  datatype Step =
    | Begin(t: nat, urgent: bool, values: seq<bv8>)
    | FirstCheck(t: nat, pass: bool)
    | TryLock(t: nat)
    | SecondRead(t: nat)
    | Direct(t: nat, w: Write)
    | Unlock(t: nat)
    | Count(t: nat)
    | Push(t: nat)
    | Command(op: Op)
    | Serve(idle: bool)
    | Settled
    | Poll(op: Op, idle: bool)
    | Free
    | Force

  // ---------------------------------------------------------------- steps

  predicate At(s: State, t: nat, stage: Stage) {
    t in s.pcs && s.pcs[t].stage == stage
  }

  function Goto(s: State, t: nat, stage: Stage): State
    requires t in s.pcs
  {
    s.(pcs := s.pcs[t := s.pcs[t].(stage := stage)])
  }

  predicate CanDo(s: State, step: Step) {
    match step
    case Begin(t, urgent, values) => t !in s.pcs
    case FirstCheck(t, pass) => At(s, t, Checking) && (pass ==> s.sending == 0)
    case TryLock(t) => At(s, t, Locking)
    case SecondRead(t) =>
      && t in s.pcs
      && s.pcs[t].stage in {SecondHigh, SecondLow, SecondDw, SecondSending, SecondKind}
    case Direct(t, w) => At(s, t, Writing)
    case Unlock(t) => At(s, t, Unlocking)
    case Count(t) => At(s, t, Counting) && s.sending < MAX_SENDING
    case Push(t) => At(s, t, Pushing)
    case Command(op) => op.CloseCmd? || op.ResumeCmd?
    case Serve(idle) => s.worker == Idle && s.pipe != []
    case Settled => s.worker == Settling && s.sending > 0
    case Poll(op, idle) =>
      && s.worker == Idle
      && (op.ConnectEvent? || op.ReadEvent? || op.WriteEvent? || op.ErrorEvent? || op.HangUp?)
      && Enabled(s.sock, op)
      && (op.WriteEvent? ==> s.lock == None)   // otherwise trylock fails and nothing happens
    case Free => s.worker == Closing
    case Force => s.worker == Freed && s.lock == None
  }

  function SecondPasses(s: State, stage: Stage): (Stage, bool) {
    match stage
    case SecondHigh => (SecondLow, s.sock.high == [])
    case SecondLow => (SecondDw, s.sock.low == [])
    case SecondDw => (SecondSending, s.sock.dw.None?)
    case SecondSending => (SecondKind, s.sending == 0)
    case _ => (Writing, s.sock.kind == Connected)
  }

  /** The message of a send call; its bytes carry the number of the call. */
  function Stamp(serial: nat, caller: nat, urgent: bool, values: seq<bv8>): Msg {
    Msg(serial, caller, urgent, seq(|values|, i requires 0 <= i < |values| => Byte(values[i], serial)))
  }

  function Side(sock: Sock): seq<Item> {
    if sock.dw.Some? then [sock.dw.value] else []
  }

  function Waiting(p: Past): seq<Msg> {
    Unbegun(p.high) + Unbegun(p.low)
  }

  /** Applies a verdict of the socket thread; what is freed at once is remembered as dropped. */
  function Apply(s: State, v: Verdict): State {
    var lost := if v.sock.kind.Invalid? then Beyond(Flow(s.sock), |v.sock.begun|) else [];
    s.(sock := v.sock, dropped := lost + s.dropped, worker := if v.force then Closing else s.worker)
  }

  /** The 'D' or 'P' command at the front of the pipe. */
  function ServeSend(s: State, m: Msg): State
    requires s.pipe != []
  {
    s.(pipe := s.pipe[1..], worker := Settling, sock := SendSocket(s.sock, m),
    early := if s.sock.kind.PAccept? then s.early + [m] else s.early,
    dropped := if Refuses(s.sock) && !s.sock.kind.PAccept? then s.dropped + [m] else s.dropped)
  }

  /** Any other command at the front of the pipe. */
  function ServeControl(s: State, op: Op, idle: bool): State
    requires s.pipe != []
  {
    var rest := s.(pipe := s.pipe[1..]);
    if Enabled(s.sock, op) then Apply(rest, Decide(s.sock, op, idle)) else rest
  }

  /**
   `free_wb_list` on both lists. With something in `dw_buffer` no direct write can follow, and what
   is freed is dropped behind it; otherwise it is recorded, for a direct write may get past it.
   */
  function FreeUnlocked(s: State): State {
    var freed := s.(sock := FreeLists(s.sock), worker := Freed);
    if s.sock.dw.Some? then freed.(dropped := (Unbegun(s.sock.high) + Unbegun(s.sock.low)) + s.dropped)
    else freed.(past := Past(s.sock.wire, s.sock.begun, s.sock.high, s.sock.low))
  }

  function Do(s: State, step: Step): State
    requires CanDo(s, step)
  {
    match step
    case Begin(t, urgent, values) =>
      var m := Stamp(|s.calls|, t, urgent, values);
      s.(calls := s.calls + [m], pcs := s.pcs[t := Pc(if urgent then Checking else Counting, m)])
    case FirstCheck(t, pass) => Goto(s, t, if pass then Locking else Counting)
    case TryLock(t) =>
      if s.lock == None then Goto(s, t, SecondHigh).(lock := Some(t)) else Goto(s, t, Counting)
    case SecondRead(t) =>
      var (next, pass) := SecondPasses(s, s.pcs[t].stage);
      Goto(s, t, if pass then next else Unlocking)
    case Direct(t, w) =>
      s.(sock := DirectWrite(s.sock, s.pcs[t].msg, w), lock := None, pcs := s.pcs - {t})
    case Unlock(t) => Goto(s, t, Counting).(lock := None)
    case Count(t) => Goto(s, t, Pushing).(sending := s.sending + 1)
    case Push(t) => s.(pipe := s.pipe + [Send(s.pcs[t].msg)], pcs := s.pcs - {t})
    case Command(op) => s.(pipe := s.pipe + [Control(op)])
    case Serve(idle) =>
      if s.pipe[0].Send? then ServeSend(s, s.pipe[0].m) else ServeControl(s, s.pipe[0].op, idle)
    case Settled => s.(sending := s.sending - 1, worker := Idle)
    case Poll(op, idle) => Apply(s, Decide(s.sock, op, idle))
    case Free => FreeUnlocked(s)
    case Force =>
      s.(sock := ForceClose(s.sock), worker := Idle, dropped := Unbegun(Side(s.sock)) + s.dropped)
  }

  function Exec(s: State, steps: seq<Step>): State {
    if steps == [] then s
    else
      var before := Exec(s, steps[..|steps| - 1]);
      if CanDo(before, steps[|steps| - 1]) then Do(before, steps[|steps| - 1]) else before
  }

  /** A fresh TCP socket nobody has used yet: being opened, bound to a descriptor, or accepted and not started. */
  predicate Start(s: State) {
    && s.sock == Sock(s.sock.kind, false, [], [], 0, None, [], [])
    && s.sock.kind in {Connecting, Connected, Bound, PAccept}
    && s == State(s.sock, Idle, None, 0, [], map[], [], [], [], NOTHING_FREED)
  }

  // ---------------------------------------------------------------- classes of messages

  /** One caller thread and one priority: the unit within which order is promised. */
  datatype Class = Class(caller: nat, urgent: bool)

  predicate In(c: Class, m: Msg) {
    m.caller == c.caller && m.urgent == c.urgent
  }

  function Of(c: Class, ms: seq<Msg>): seq<Msg> {
    if ms == [] then []
    else if In(c, ms[|ms| - 1]) then Of(c, ms[..|ms| - 1]) + [ms[|ms| - 1]]
    else Of(c, ms[..|ms| - 1])
  }

  lemma {:induction false} OfMore(c: Class, a: seq<Msg>, b: seq<Msg>)
    ensures Of(c, a + b) == Of(c, a) + Of(c, b)
  {
    if b == [] {
      assert a + b == a;
    } else {
      assert (a + b)[..|a + b| - 1] == a + b[..|b| - 1];
      OfMore(c, a, b[..|b| - 1]);
    }
  }

  lemma OfOne(c: Class, m: Msg)
    ensures Of(c, [m]) == if In(c, m) then [m] else []
  {
    assert [m][..0] == [];
  }

  lemma {:induction false} OfNone(c: Class, ms: seq<Msg>)
    requires forall m :: m in ms ==> !In(c, m)
    ensures Of(c, ms) == []
  {
    if ms != [] {
      assert ms[|ms| - 1] in ms;
      OfNone(c, ms[..|ms| - 1]);
    }
  }

  function Sends(pipe: seq<Cmd>): seq<Msg> {
    if pipe == [] then []
    else if pipe[0].Send? then [pipe[0].m] + Sends(pipe[1..])
    else Sends(pipe[1..])
  }

  lemma {:induction false} SendsMore(pipe: seq<Cmd>, x: Cmd)
    ensures Sends(pipe + [x]) == if x.Send? then Sends(pipe) + [x.m] else Sends(pipe)
  {
    if pipe == [] {
      assert pipe + [x] == [x] && [x][1..] == [];
    } else {
      assert (pipe + [x])[1..] == pipe[1..] + [x];
      SendsMore(pipe[1..], x);
    }
  }

  // ---------------------------------------------------------------- the invariant

  /** The socket since its lists were freed, or since its birth. */
  function Now(s: State): Sock {
    if s.worker.Freed? then Late(s.past, s.sock) else Late(s.past, s.sock).(wbSize := s.sock.wbSize)
  }

  /** Accepted before everything else: refused unstarted, begun before the lists were freed, lost with them. */
  function Head(s: State): seq<Msg> {
    s.early + (s.past.begun + Waiting(s.past))
  }

  /** Begun since, waiting, dropped, in the pipe: in the order the wire will see it. */
  function Body(s: State): seq<Msg> {
    Flow(Now(s)) + (s.dropped + Sends(s.pipe))
  }

  function Hand(s: State, c: Class): seq<Msg> {
    if c.caller in s.pcs && s.pcs[c.caller].msg.urgent == c.urgent then [s.pcs[c.caller].msg] else []
  }

  /** No message of a caller and priority is lost track of, and all of them stay in call order. */
  ghost predicate Conserved(s: State) {
    forall c: Class :: Of(c, Head(s)) + (Of(c, Body(s)) + Hand(s, c)) == Of(c, s.calls)
  }

  function Pushers(pcs: map<nat, Pc>): set<nat> {
    set t | t in pcs && pcs[t].stage == Pushing
  }

  /** `sending` counts the requests of 'D' and 'P' commands that are not finished. */
  predicate Tallied(s: State) {
    s.sending == |Sends(s.pipe)| + |Pushers(s.pcs)| + if s.worker == Settling then 1 else 0
  }

  predicate Holds(stage: Stage) {
    stage in {SecondHigh, SecondLow, SecondDw, SecondSending, SecondKind, Writing, Unlocking}
  }

  predicate Locked(s: State) {
    && (forall t :: t in s.pcs ==> (Holds(s.pcs[t].stage) <==> s.lock == Some(t)))
    && (s.lock.Some? ==> s.lock.value in s.pcs)
  }

  predicate Dead(sock: Sock) {
    sock.kind in {Invalid, HalfCloseWrite} || sock.closing
  }

  predicate Typed(s: State) {
    && s.sock.kind in {Connecting, Connected, HalfCloseRead, HalfCloseWrite, Invalid, PAccept, Bound}
    && (s.sock.closing ==> s.sock.kind in {HalfCloseRead, Invalid})
    && (s.sock.kind.PAccept? ==> s.sock.high == [] && s.sock.low == [] && s.sock.dw.None? && s.sock.begun == [])
    && (s.dropped != [] ==> Dead(s.sock) || (s.worker.Freed? && s.sock.dw.Some?))
    && (forall x :: x in s.sock.low ==> !x.msg.urgent)
  }

  /** What the record of the freed lists says about the socket. */
  ghost predicate Kept(s: State) {
    && s.past.wire <= s.sock.wire && s.past.begun <= s.sock.begun
    && Recorded(s.past)
    && (s.past == NOTHING_FREED || s.worker.Freed? || s.sock.kind.Invalid?)
    && (s.worker.Freed? ==> s.sock.high == [] && s.sock.low == [])
    && (s.worker in {Closing, Freed} ==> !s.sock.kind.Invalid?)
  }

  predicate NotFrom(t: nat, ms: seq<Msg>) {
    forall m :: m in ms ==> m.caller != t
  }

  /** What a caller knows at each stage of a direct write. */
  ghost predicate Knows(s: State, t: nat)
    requires t in s.pcs
  {
    var stage := s.pcs[t].stage;
    && s.pcs[t].msg.caller == t
    && (stage !in {Counting, Pushing} ==> s.pcs[t].msg.urgent)
    && (stage in {Locking, SecondHigh, SecondLow, SecondDw, SecondSending, SecondKind, Writing} ==>
          NotFrom(t, Sends(s.pipe)))
    && (stage in {SecondLow, SecondDw, SecondSending, SecondKind, Writing} ==>
          NotFrom(t, Unbegun(s.sock.high)) && AllFresh(s.sock.high))
    && (stage in {SecondSending, SecondKind, Writing} ==> s.sock.dw.None?)
    && (stage == Writing ==> s.sock.kind !in {Invalid, PAccept} && NotFrom(t, s.dropped))
  }

  ghost predicate Inv(s: State) {
    && Good(Now(s))
    && Kept(s)
    && Typed(s)
    && Tallied(s)
    && Locked(s)
    && Conserved(s)
    && forall t :: t in s.pcs ==> Knows(s, t)
  }

  /** Until the lists are freed nothing is set aside. */
  lemma NowIsSock(s: State)
    requires s.past == NOTHING_FREED && !s.worker.Freed?
    ensures Now(s) == s.sock && Head(s) == s.early
  {
    NoneLeft();
    Neutral(s.early);
    assert s.sock.wire[0..] == s.sock.wire && s.sock.begun[0..] == s.sock.begun;
  }

  lemma StartInv(s: State)
    requires Start(s)
    ensures Inv(s)
  {
    NowIsSock(s);
    NoneLeft();
    ConcatNone();
    hide Concat, BytesLeft, Unbegun, Now, Head;
    assert Flow(s.sock) == [];
    assert Body(s) == [];
    assert Pushers(s.pcs) == {};
  }

  /** A step that changes neither the order nor the messages in hand keeps the order. */
  lemma SameOrder(s: State, s': State)
    requires Conserved(s) && Head(s') == Head(s) && Body(s') == Body(s) && s'.calls == s.calls
    requires s'.pcs.Keys == s.pcs.Keys && forall t :: t in s.pcs ==> s'.pcs[t].msg == s.pcs[t].msg
    ensures Conserved(s')
  {
    hide Of, Head, Body;
    forall c: Class
      ensures Of(c, Head(s')) + (Of(c, Body(s')) + Hand(s', c)) == Of(c, s'.calls)
    {
      assert Hand(s', c) == Hand(s, c);
    }
  }

  /** The same when messages only pass from the body to the head. */
  lemma SameWhole(s: State, s': State)
    requires Conserved(s) && Head(s') + Body(s') == Head(s) + Body(s) && s'.calls == s.calls && s'.pcs == s.pcs
    ensures Conserved(s')
  {
    hide Of, Head, Body;
    forall c: Class
      ensures Of(c, Head(s')) + (Of(c, Body(s')) + Hand(s', c)) == Of(c, s'.calls)
    {
      assert Hand(s', c) == Hand(s, c);
      OfMore(c, Head(s), Body(s));
      OfMore(c, Head(s'), Body(s'));
      Assoc(Of(c, Head(s)), Of(c, Body(s)), Hand(s, c));
      Assoc(Of(c, Head(s')), Of(c, Body(s')), Hand(s, c));
    }
  }

  // ---------------------------------------------------------------- steps of the caller threads

  /** What the invariant says about the socket does not depend on the threads. */
  lemma SameSocket(s: State, s': State)
    requires s'.sock == s.sock && s'.worker == s.worker && s'.past == s.past && s'.dropped == s.dropped
    requires s'.early == s.early
    ensures Now(s') == Now(s) && Head(s') == Head(s)
    ensures Kept(s) ==> Kept(s')
    ensures Typed(s) ==> Typed(s')
    ensures Sends(s'.pipe) == Sends(s.pipe) ==> Body(s') == Body(s)
  {
    hide Flow, Sends, Unbegun, Recorded;
  }

  /** A step of one thread leaves what the others know alone if it touches nothing they rely on. */
  lemma OthersKnow(s: State, s': State, t: nat)
    requires s'.pcs == s.pcs - {t} || (t in s'.pcs && s'.pcs - {t} == s.pcs - {t})
    requires s'.sock == s.sock && s'.dropped == s.dropped && Sends(s'.pipe) == Sends(s.pipe)
    requires forall u :: u in s.pcs && u != t ==> Knows(s, u)
    ensures forall u :: u in s'.pcs && u != t ==> Knows(s', u)
  {
    hide Sends, Unbegun, NotFrom, AllFresh;
    forall u | u in s'.pcs && u != t
      ensures Knows(s', u)
    {
      assert u in s'.pcs - {t} && (s'.pcs - {t})[u] == (s.pcs - {t})[u];
      assert Knows(s, u);
    }
  }

  /** Steps that move one thread on without touching the socket or the pipe. */
  lemma MovedOn(s: State, t: nat, stage: Stage, lock: Option<nat>, sending: nat)
    requires t in s.pcs
    requires lock == (if Holds(stage) then Some(t) else if Holds(s.pcs[t].stage) then None else s.lock)
    requires Holds(stage) && !Holds(s.pcs[t].stage) ==> s.lock == None
    requires Knows(Goto(s, t, stage), t)
    requires Tallied(Goto(s, t, stage).(lock := lock, sending := sending))
    requires Inv(s)
    ensures Inv(Goto(s, t, stage).(lock := lock, sending := sending))
  {
    hide Good, Now, Tallied, Conserved, Typed, Kept, Head, Body, Locked, Knows, Sends;
    var s' := Goto(s, t, stage).(lock := lock, sending := sending);
    StillKnows(Goto(s, t, stage), s', t);
    SameSocket(s, s');
    SameOrder(s, s');
    MovedLocks(s, s', t);
    OthersKnow(s, s', t);
  }

  lemma StillKnows(s: State, s': State, t: nat)
    requires t in s.pcs && Knows(s, t)
    requires s'.sock == s.sock && s'.dropped == s.dropped && s'.pipe == s.pipe && s'.pcs == s.pcs
    ensures Knows(s', t)
  {
    hide Sends, Unbegun, NotFrom, AllFresh;
  }

  lemma MovedLocks(s: State, s': State, t: nat)
    requires Locked(s) && t in s.pcs && t in s'.pcs && s'.pcs - {t} == s.pcs - {t}
    requires s'.lock ==
             if Holds(s'.pcs[t].stage) then Some(t) else if Holds(s.pcs[t].stage) then None else s.lock
    requires Holds(s'.pcs[t].stage) && !Holds(s.pcs[t].stage) ==> s.lock == None
    ensures Locked(s')
  {
    forall u | u in s'.pcs
      ensures Holds(s'.pcs[u].stage) <==> s'.lock == Some(u)
    {
      if u != t {
        assert u in s'.pcs - {t} && (s'.pcs - {t})[u] == (s.pcs - {t})[u];
      }
    }
    if s'.lock.Some? && s'.lock.value != t {
      assert s'.lock == s.lock && s.lock.value in s.pcs - {t};
      assert s.lock.value in s'.pcs - {t};
    }
  }

  lemma SameTally(s: State, t: nat, stage: Stage, lock: Option<nat>)
    requires Tallied(s) && t in s.pcs && stage != Pushing && s.pcs[t].stage != Pushing
    ensures Tallied(Goto(s, t, stage).(lock := lock, sending := s.sending))
  {
    assert Pushers(Goto(s, t, stage).pcs) == Pushers(s.pcs);
  }

  lemma BeginInv(s: State, t: nat, urgent: bool, values: seq<bv8>)
    requires Inv(s) && CanDo(s, Begin(t, urgent, values))
    ensures Inv(Do(s, Begin(t, urgent, values)))
  {
    var s', m := Do(s, Begin(t, urgent, values)), Stamp(|s.calls|, t, urgent, values);
    StampFacts(|s.calls|, t, urgent, values);
    SameSocket(s, s');
    hide Good, Now, Of, Unbegun, Kept, Typed, Sends, AllFresh, NotFrom, Stamp, Head, Body;
    assert s'.pcs - {t} == s.pcs && s.pcs - {t} == s.pcs;
    BeginConserves(s, s', t, m);
    BeginLocks(s, s', t);
    hide Conserved, Locked, Tallied;
    OthersKnow(s, s', t);
  }

  /** A thread that enters holds no lock and has pushed nothing. */
  lemma BeginLocks(s: State, s': State, t: nat)
    requires Locked(s) && Tallied(s) && t !in s.pcs
    requires s'.pipe == s.pipe && s'.worker == s.worker && s'.lock == s.lock && s'.sending == s.sending
    requires t in s'.pcs && s'.pcs == s.pcs[t := s'.pcs[t]] && s'.pcs[t].stage in {Checking, Counting}
    ensures Locked(s') && Tallied(s')
  {
    hide Sends;
    assert Pushers(s'.pcs) == Pushers(s.pcs);
  }

  lemma StampFacts(serial: nat, caller: nat, urgent: bool, values: seq<bv8>)
    ensures var m := Stamp(serial, caller, urgent, values);
            && m.serial == serial && m.caller == caller && m.urgent == urgent
            && forall b :: b in m.data ==> b.serial == serial
  {
  }

  lemma BeginConserves(s: State, s': State, t: nat, m: Msg)
    requires Conserved(s) && t !in s.pcs && m.caller == t
    requires s'.calls == s.calls + [m] && t in s'.pcs && s'.pcs - {t} == s.pcs && s'.pcs[t].msg == m
    requires Head(s') == Head(s) && Body(s') == Body(s)
    ensures Conserved(s')
  {
    hide Of, Head, Body;
    forall c: Class
      ensures Of(c, Head(s')) + (Of(c, Body(s')) + Hand(s', c)) == Of(c, s'.calls)
    {
      assert Of(c, Head(s)) + (Of(c, Body(s)) + Hand(s, c)) == Of(c, s.calls);
      OfMore(c, s.calls, [m]);
      OfOne(c, m);
      if c.caller == t {
        assert Hand(s, c) == [] && Hand(s', c) == Of(c, [m]);
        Neutral(Of(c, Body(s)));
        Assoc(Of(c, Head(s)), Of(c, Body(s)), Of(c, [m]));
      } else {
        HandOfOther(s, s', t, c);
        Neutral(Of(c, s.calls));
      }
    }
  }

  lemma HandOfOther(s: State, s': State, t: nat, c: Class)
    requires c.caller != t && s'.pcs - {t} == s.pcs - {t}
    ensures Hand(s', c) == Hand(s, c)
  {
    assert c.caller in s.pcs <==> c.caller in s.pcs - {t};
    assert c.caller in s'.pcs <==> c.caller in s'.pcs - {t};
    if c.caller in s.pcs {
      assert (s'.pcs - {t})[c.caller] == (s.pcs - {t})[c.caller];
    }
  }

  /** The unlocked check: `sending` read as zero means none of this caller's messages is in the pipe. */
  lemma FirstCheckInv(s: State, t: nat, pass: bool)
    requires Inv(s) && CanDo(s, FirstCheck(t, pass))
    ensures Inv(Do(s, FirstCheck(t, pass)))
  {
    hide Good, Flow, Of, Unbegun, Kept, Conserved;
    assert Knows(s, t);
    SameTally(s, t, if pass then Locking else Counting, s.lock);
    MovedOn(s, t, if pass then Locking else Counting, s.lock, s.sending);
  }

  lemma TryLockInv(s: State, t: nat)
    requires Inv(s) && CanDo(s, TryLock(t))
    ensures Inv(Do(s, TryLock(t)))
  {
    hide Good, Flow, Of, Unbegun, Kept, Conserved;
    assert Knows(s, t);
    SameTally(s, t, if s.lock == None then SecondHigh else Counting, if s.lock == None then Some(t) else s.lock);
    MovedOn(s, t, if s.lock == None then SecondHigh else Counting, if s.lock == None then Some(t) else s.lock,
            s.sending);
  }

  /** The locked check, one read at a time. */
  lemma SecondReadInv(s: State, t: nat)
    requires Inv(s) && CanDo(s, SecondRead(t))
    ensures Inv(Do(s, SecondRead(t)))
  {
    NoneLeft();
    hide Good, Flow, Of, Unbegun, Kept, Conserved;
    assert Knows(s, t);
    var (next, pass) := SecondPasses(s, s.pcs[t].stage);
    SameTally(s, t, if pass then next else Unlocking, s.lock);
    MovedOn(s, t, if pass then next else Unlocking, s.lock, s.sending);
  }

  lemma UnlockInv(s: State, t: nat)
    requires Inv(s) && CanDo(s, Unlock(t))
    ensures Inv(Do(s, Unlock(t)))
  {
    hide Good, Flow, Of, Unbegun, Kept, Conserved;
    assert Knows(s, t);
    SameTally(s, t, Counting, None);
    MovedOn(s, t, Counting, None, s.sending);
  }

  lemma CountInv(s: State, t: nat)
    requires Inv(s) && CanDo(s, Count(t))
    ensures Inv(Do(s, Count(t)))
  {
    hide Good, Flow, Of, Unbegun, Sends, Tallied, Conserved, Typed, Kept, NotFrom, AllFresh, Head, Body;
    assert Knows(s, t);
    CountTallied(s, t);
    MovedOn(s, t, Pushing, s.lock, s.sending + 1);
  }

  lemma CountTallied(s: State, t: nat)
    requires Tallied(s) && CanDo(s, Count(t))
    ensures Tallied(Do(s, Count(t)))
  {
    hide Sends;
    assert Pushers(Do(s, Count(t)).pcs) == Pushers(s.pcs) + {t};
  }

  lemma PushConserves(s: State, t: nat)
    requires Inv(s) && CanDo(s, Push(t))
    ensures Conserved(Do(s, Push(t)))
  {
    var m := s.pcs[t].msg;
    SendsMore(s.pipe, Send(m));
    hide Good, Flow, Of, Unbegun, Sends, Typed, Kept, Locked, Tallied, NotFrom;
    assert Knows(s, t);
    var s' := Do(s, Push(t));
    BodyLonger(s, s', m);
    hide Head, Body, Do, Inv;
    forall c: Class
      ensures Of(c, Head(s')) + (Of(c, Body(s')) + Hand(s', c)) == Of(c, s'.calls)
    {
      assert Of(c, Head(s)) + (Of(c, Body(s)) + Hand(s, c)) == Of(c, s.calls);
      HandedOver(s, s', t, c);
    }
  }

  lemma BodyLonger(s: State, s': State, m: Msg)
    requires Now(s') == Now(s) && s'.dropped == s.dropped && Sends(s'.pipe) == Sends(s.pipe) + [m]
    ensures Body(s') == Body(s) + [m]
  {
    hide Flow, Sends, Now;
    Assoc(s.dropped, Sends(s.pipe), [m]);
    Assoc(Flow(Now(s)), s.dropped + Sends(s.pipe), [m]);
  }

  lemma HandedOver(s: State, s': State, t: nat, c: Class)
    requires t in s.pcs && s.pcs[t].msg.caller == t
    requires s'.pcs == s.pcs - {t} && Body(s') == Body(s) + [s.pcs[t].msg]
    ensures Of(c, Body(s')) + Hand(s', c) == Of(c, Body(s)) + Hand(s, c)
  {
    var m := s.pcs[t].msg;
    hide Of, Body;
    OfMore(c, Body(s), [m]);
    OfOne(c, m);
    HandAfter(s, s', t, c);
    if c.caller == t {
      Neutral(Of(c, Body(s')));
    } else {
      Neutral(Of(c, Body(s)));
    }
  }

  lemma HandAfter(s: State, s': State, t: nat, c: Class)
    requires t in s.pcs && s.pcs[t].msg.caller == t && s'.pcs == s.pcs - {t}
    ensures c.caller == t ==> Hand(s', c) == [] && Hand(s, c) == if In(c, s.pcs[t].msg) then [s.pcs[t].msg] else []
    ensures c.caller != t ==> Hand(s', c) == Hand(s, c) && !In(c, s.pcs[t].msg)
  {
  }

  lemma PushInv(s: State, t: nat)
    requires Inv(s) && CanDo(s, Push(t))
    ensures Inv(Do(s, Push(t)))
  {
    hide Good, Now, Of, Unbegun, Sends, Conserved, Head, Body, Kept, Typed, Knows;
    var m, s' := s.pcs[t].msg, Do(s, Push(t));
    SendsMore(s.pipe, Send(m));
    PushConserves(s, t);
    SameSocket(s, s');
    assert Pushers(s'.pcs) == Pushers(s.pcs) - {t};
    CallerIs(s, t);
    PushKnows(s, s', t);
  }

  lemma CallerIs(s: State, t: nat)
    requires t in s.pcs && Knows(s, t)
    ensures s.pcs[t].msg.caller == t
  {
    hide Sends, Unbegun, NotFrom, AllFresh;
  }

  lemma PushKnows(s: State, s': State, t: nat)
    requires t in s.pcs && s'.pcs == s.pcs - {t} && s.pcs[t].msg.caller == t
    requires s'.sock == s.sock && s'.dropped == s.dropped && Sends(s'.pipe) == Sends(s.pipe) + [s.pcs[t].msg]
    requires forall u :: u in s.pcs ==> Knows(s, u)
    ensures forall u :: u in s'.pcs ==> Knows(s', u)
  {
    hide Sends, Unbegun, AllFresh;
    forall u | u in s'.pcs
      ensures Knows(s', u)
    {
      assert Knows(s, u);
    }
  }

  lemma CommandInv(s: State, op: Op)
    requires Inv(s) && CanDo(s, Command(op))
    ensures Inv(Do(s, Command(op)))
  {
    SendsMore(s.pipe, Control(op));
    QuietInv(s, Do(s, Command(op)));
  }

  /** A step that touches neither the socket nor a thread, only the counter's bookkeeping. */
  lemma QuietInv(s: State, s': State)
    requires Inv(s)
    requires s'.sock == s.sock && s'.lock == s.lock && s'.pcs == s.pcs && s'.calls == s.calls
    requires s'.dropped == s.dropped && s'.early == s.early && s'.past == s.past
    requires Sends(s'.pipe) == Sends(s.pipe) && Tallied(s')
    requires s'.worker == s.worker || (s.worker.Settling? && s'.worker.Idle?)
    ensures Inv(s')
  {
    hide Good, Flow, Of, Unbegun, Sends, Tallied, AllFresh, NotFrom, Recorded;
    assert Body(s') == Body(s);
    SameOrder(s, s');
    hide Conserved;
    forall u | u in s'.pcs
      ensures Knows(s', u)
    {
      assert Knows(s, u);
    }
  }

  lemma SettledInv(s: State)
    requires Inv(s) && CanDo(s, Settled)
    ensures Inv(Do(s, Settled))
  {
    hide Good, Kept, Typed, Conserved, Knows, Sends;
    assert Tallied(Do(s, Settled));
    QuietInv(s, Do(s, Settled));
  }

  /** What a direct write does to the order of transmission: its message goes right behind `begun`. */
  lemma WaitingAfterDirect(sock: Sock, m: Msg, w: Write)
    requires sock.dw.None? && AllFresh(sock.high)
    ensures Flow(DirectWrite(sock, m, w)) == sock.begun + ([m] + (Unbegun(sock.high) + Unbegun(sock.low)))
    ensures Flow(sock) == sock.begun + (Unbegun(sock.high) + Unbegun(sock.low))
  {
    DirectOutcome(sock, m, w);
    NoneLeft();
    UnbegunOne(m, 0);
    var n := if w.Accept? then Min(w.n, |m.data|) else 0;
    UnbegunOne(m, n);
    hide DirectWrite, Unbegun;
    var rest := Unbegun(sock.high) + Unbegun(sock.low);
    Neutral(rest);
    Assoc(sock.begun, [m], rest);
  }

  lemma UnbegunOne(m: Msg, off: nat)
    ensures Unbegun([Item(m, off)]) == if off == 0 then [m] else []
  {
    assert [Item(m, off)][1..] == [];
  }

  /** A direct write after the lists were freed is a direct write of the socket as it is since then. */
  lemma DirectNow(s: State, t: nat, w: Write)
    requires Kept(s) && t in s.pcs
    ensures Now(s.(sock := DirectWrite(s.sock, s.pcs[t].msg, w), lock := None, pcs := s.pcs - {t})) ==
            DirectWrite(Now(s), s.pcs[t].msg, w)
  {
    hide Recorded;
    var m := s.pcs[t].msg;
    var n := if w.Accept? then Min(w.n, |m.data|) else 0;
    assert (s.sock.wire + m.data[..n])[|s.past.wire|..] == s.sock.wire[|s.past.wire|..] + m.data[..n];
    var more := if n > 0 || m.data == [] then [m] else [];
    assert (s.sock.begun + more)[|s.past.begun|..] == s.sock.begun[|s.past.begun|..] + more;
  }

  /** The direct write overtakes no message of its own caller that is still on its way. */
  lemma DirectConserves(s: State, t: nat, w: Write)
    requires Inv(s) && CanDo(s, Direct(t, w))
    ensures Conserved(Do(s, Direct(t, w)))
  {
    assert Knows(s, t);
    DirectNow(s, t, w);
    var sock, s' := Now(s), Do(s, Direct(t, w));
    assert sock.high == s.sock.high && sock.low == s.sock.low && sock.dw == s.sock.dw;
    WaitingAfterDirect(sock, s.pcs[t].msg, w);
    LowIsLow(sock.low);
    hide Of, Flow, Unbegun, Sends, DirectWrite, Hand, Now, Good, Kept, Typed;
    assert Head(s') == Head(s);
    forall c: Class
      ensures Of(c, Head(s')) + (Of(c, Body(s')) + Hand(s', c)) == Of(c, s'.calls)
    {
      assert Of(c, Head(s)) + (Of(c, Body(s)) + Hand(s, c)) == Of(c, s.calls);
      DirectClass(s, s', t, c, Unbegun(sock.high), Unbegun(sock.low));
    }
  }

  lemma DirectClass(s: State, s': State, t: nat, c: Class, high: seq<Msg>, low: seq<Msg>)
    requires t in s.pcs && s.pcs[t].msg.caller == t && s.pcs[t].msg.urgent
    requires s'.pcs == s.pcs - {t} && s'.dropped == s.dropped && s'.pipe == s.pipe
    requires Flow(Now(s)) == Now(s).begun + (high + low)
    requires Flow(Now(s')) == Now(s).begun + ([s.pcs[t].msg] + (high + low))
    requires NotFrom(t, high) && NotFrom(t, s.dropped) && NotFrom(t, Sends(s.pipe))
    requires forall x :: x in low ==> !x.urgent
    ensures Of(c, Body(s')) + Hand(s', c) == Of(c, Body(s)) + Hand(s, c)
  {
    var m := s.pcs[t].msg;
    hide Of, Flow, Sends, Now;
    if In(c, m) {
      OfNone(c, high);
      OfNone(c, low);
      OfNone(c, s.dropped);
      OfNone(c, Sends(s.pipe));
    }
    OfInsert(c, Now(s).begun, m, high, low, s.dropped, Sends(s.pipe));
    HandAfter(s, s', t, c);
    hide Hand, NotFrom;
    Neutral(Of(c, Body(s)));
    Neutral(Of(c, Body(s')));
  }

  /** Inserting one message after `begun` is seen only by its own class, and there as the last one. */
  lemma OfInsert(c: Class, begun: seq<Msg>, m: Msg, high: seq<Msg>, low: seq<Msg>, dropped: seq<Msg>, piped: seq<Msg>)
    requires In(c, m) ==> Of(c, high) == [] && Of(c, low) == [] && Of(c, dropped) == [] && Of(c, piped) == []
    ensures var before := (begun + (high + low)) + (dropped + piped);
            var after := (begun + ([m] + (high + low))) + (dropped + piped);
            if In(c, m) then Of(c, before) == Of(c, begun) && Of(c, after) == Of(c, begun) + [m]
            else Of(c, after) == Of(c, before)
  {
    OfMore(c, begun + (high + low), dropped + piped);
    OfMore(c, begun, high + low);
    OfMore(c, begun + ([m] + (high + low)), dropped + piped);
    OfMore(c, begun, [m] + (high + low));
    OfMore(c, [m], high + low);
    OfMore(c, high, low);
    OfMore(c, dropped, piped);
    OfOne(c, m);
    hide Of;
    Neutral(Of(c, begun));
    Neutral(Of(c, begun) + [m]);
    Neutral(Of(c, high + low));
    Neutral([m]);
  }

  lemma DirectInv(s: State, t: nat, w: Write)
    requires Inv(s) && CanDo(s, Direct(t, w))
    ensures Inv(Do(s, Direct(t, w)))
  {
    var m, s' := s.pcs[t].msg, Do(s, Direct(t, w));
    assert Knows(s, t);
    DirectNow(s, t, w);
    assert Good(Now(s')) by {
      hide Flow, Of, Sends;
      GoodDirectWrite(Now(s), m, w);
    }
    DirectConserves(s, t, w);
    DirectKept(s, t, w);
    DirectLocks(s, s', t);
    hide Good, Flow, Of, Unbegun, Sends, Conserved, Head, Body, AllFresh, NotFrom, Kept, Now, Locked, Tallied;
    forall u | u in s'.pcs
      ensures Knows(s', u)
    {
      DirectKnows(s, t, w, u);
    }
    hide Knows;
    DirectOutcome(s.sock, m, w);
  }

  /** The lock keeps every other thread away from what the direct write changes. */
  lemma DirectKnows(s: State, t: nat, w: Write, u: nat)
    requires Locked(s) && CanDo(s, Direct(t, w)) && u in s.pcs && u != t && Knows(s, u)
    ensures Knows(Do(s, Direct(t, w)), u)
  {
    hide Unbegun, Sends, NotFrom, AllFresh;
    assert Holds(s.pcs[t].stage) && !Holds(s.pcs[u].stage);
  }

  lemma DirectLocks(s: State, s': State, t: nat)
    requires Locked(s) && Tallied(s) && At(s, t, Writing)
    requires s'.pipe == s.pipe && s'.worker == s.worker && s'.lock == None && s'.sending == s.sending
    requires s'.pcs == s.pcs - {t}
    ensures Locked(s') && Tallied(s')
  {
    hide Sends;
    assert Pushers(s'.pcs) == Pushers(s.pcs);
  }

  lemma DirectKept(s: State, t: nat, w: Write)
    requires Kept(s) && CanDo(s, Direct(t, w)) && !s.sock.kind.Invalid? && s.sock.dw.None?
    ensures Kept(Do(s, Direct(t, w)))
  {
    hide Recorded;
  }

  lemma {:induction false} LowIsLow(low: seq<Item>)
    requires forall x :: x in low ==> !x.msg.urgent
    ensures forall m :: m in Unbegun(low) ==> !m.urgent
  {
    if low != [] {
      assert low[0] in low;
      LowIsLow(low[1..]);
    }
  }

  // ---------------------------------------------------------------- steps of the socket thread

  /** Queueing a request puts its message behind everything of its own class. */
  lemma SendSocketOrder(sock: Sock, m: Msg, c: Class)
    requires !Refuses(sock) && forall x :: x in sock.low ==> !x.msg.urgent
    ensures Of(c, Flow(SendSocket(sock, m))) == Of(c, Flow(sock)) + Of(c, [m])
  {
    var x := Item(m, 0);
    var dw, high, low := Unbegun(Side(sock)), Unbegun(sock.high), Unbegun(sock.low);
    OfParts(c, sock.begun, dw, high, low);
    if m.urgent || (sock.high == [] && sock.low == []) {
      AppendFacts(sock.high, x);
      LowIsLow(sock.low);
      OfOne(c, m);
      NoneLeft();
      if m.urgent && In(c, m) {
        OfNone(c, low);
      }
      OfParts(c, sock.begun, dw, high + [m], low);
      OfMore(c, high, [m]);
      hide Of, Unbegun;
      PutInside(Of(c, sock.begun), Of(c, dw), Of(c, high), Of(c, low), Of(c, [m]));
    } else {
      AppendFacts(sock.low, x);
      OfParts(c, sock.begun, dw, high, low + [m]);
      OfMore(c, low, [m]);
      hide Of, Unbegun;
      PutLast(Of(c, sock.begun), Of(c, dw), Of(c, high), Of(c, low), Of(c, [m]));
    }
  }

  lemma PutInside<T>(b: seq<T>, d: seq<T>, h: seq<T>, l: seq<T>, one: seq<T>)
    requires l == [] || one == []
    ensures b + (d + ((h + one) + l)) == (b + (d + (h + l))) + one
  {
    if one == [] {
      Neutral(h);
      Neutral(b + (d + (h + l)));
    } else {
      Neutral(h);
      Neutral(h + one);
      Assoc(d, h, one);
      Assoc(b, d + h, one);
    }
  }

  lemma PutLast<T>(b: seq<T>, d: seq<T>, h: seq<T>, l: seq<T>, one: seq<T>)
    ensures b + (d + (h + (l + one))) == (b + (d + (h + l))) + one
  {
    Assoc(h, l, one);
    Assoc(d, h + l, one);
    Assoc(b, d + (h + l), one);
  }

  lemma OfParts(c: Class, begun: seq<Msg>, dw: seq<Msg>, high: seq<Msg>, low: seq<Msg>)
    ensures Of(c, begun + (dw + (high + low))) == Of(c, begun) + (Of(c, dw) + (Of(c, high) + Of(c, low)))
  {
    OfMore(c, begun, dw + (high + low));
    OfMore(c, dw, high + low);
    OfMore(c, high, low);
  }

  lemma ServeConserves(s: State, m: Msg)
    requires s.pipe != [] && s.pipe[0] == Send(m) && s.worker.Idle? && Inv(s)
    ensures Conserved(ServeSend(s, m))
  {
    var rest, s' := Sends(s.pipe[1..]), ServeSend(s, m);
    assert Sends(s.pipe) == [m] + rest;
    if s.sock.kind.PAccept? {
      NothingQueued(s.sock);
      ServeEarly(s, s', m, rest);
    } else if Refuses(s.sock) {
      hide Flow, Of, Sends, Good, Unbegun;
      Assoc(s.dropped, [m], rest);
      assert Body(s') == Body(s);
      SameOrder(s, s');
    } else {
      NowIsSock(s);
      NowIsSock(s');
      assert s.dropped == [] && s'.dropped == [];
      ServeQueued(s, s', m, rest);
    }
  }

  lemma NothingQueued(sock: Sock)
    requires sock.high == [] && sock.low == [] && sock.dw.None? && sock.begun == []
    ensures Flow(sock) == []
  {
    NoneLeft();
  }

  /** A request refused because the socket is not started goes before everything sent later. */
  lemma ServeEarly(s: State, s': State, m: Msg, rest: seq<Msg>)
    requires Conserved(s) && s.sock.kind.PAccept? && s.past == NOTHING_FREED && !s.worker.Freed?
    requires Flow(s.sock) == [] && s.dropped == []
    requires s.pipe != [] && s' == ServeSend(s, m) && Sends(s.pipe) == [m] + rest && Sends(s'.pipe) == rest
    ensures Conserved(s')
  {
    hide Flow, Sends, Unbegun, Of, Conserved;
    NowIsSock(s);
    NowIsSock(s');
    hide Now;
    assert Head(s) + Body(s) == s.early + ([] + ([] + ([m] + rest)));
    assert Head(s') + Body(s') == (s.early + [m]) + ([] + ([] + rest));
    SameWhole(s, s');
  }

  /** A request that is queued. */
  lemma ServeQueued(s: State, s': State, m: Msg, rest: seq<Msg>)
    requires Conserved(s) && Now(s) == s.sock && Now(s') == SendSocket(s.sock, m) && Head(s') == Head(s)
    requires !Refuses(s.sock) && forall x :: x in s.sock.low ==> !x.msg.urgent
    requires s.dropped == [] && s'.dropped == [] && Sends(s.pipe) == [m] + rest && Sends(s'.pipe) == rest
    requires s'.pcs == s.pcs && s'.calls == s.calls
    ensures Conserved(s')
  {
    hide Of, Flow, Sends, SendSocket, Hand, Head, Now;
    forall c: Class
      ensures Of(c, Head(s')) + (Of(c, Body(s')) + Hand(s', c)) == Of(c, s'.calls)
    {
      SendSocketOrder(s.sock, m, c);
      ServedOrder(c, Flow(s.sock), Flow(Now(s')), m, rest);
      assert Of(c, Head(s)) + (Of(c, Body(s)) + Hand(s, c)) == Of(c, s.calls);
      SameHand(s, s', c);
    }
  }

  lemma SameHand(s: State, s': State, c: Class)
    requires s'.pcs == s.pcs
    ensures Hand(s', c) == Hand(s, c)
  {
  }

  lemma ServedOrder(c: Class, flow: seq<Msg>, flow': seq<Msg>, m: Msg, rest: seq<Msg>)
    requires Of(c, flow') == Of(c, flow) + Of(c, [m])
    ensures Of(c, flow' + ([] + rest)) == Of(c, flow + ([] + ([m] + rest)))
  {
    hide Of;
    Neutral(rest);
    Neutral([m] + rest);
    OfMore(c, flow, [m] + rest);
    OfMore(c, [m], rest);
    OfMore(c, flow', rest);
    Assoc(Of(c, flow), Of(c, [m]), Of(c, rest));
  }

  lemma ServeSendKnows(s: State, s': State, m: Msg, u: nat)
    requires u in s.pcs && Knows(s, u) && s.pipe != [] && s' == ServeSend(s, m)
    requires Sends(s.pipe) == [m] + Sends(s'.pipe)
    ensures Knows(s', u)
  {
    AppendFacts(s.sock.high, Item(m, 0));
    hide Sends, Unbegun, AllFresh;
    assert NotFrom(u, Sends(s.pipe)) ==> NotFrom(u, Sends(s'.pipe)) && m.caller != u by {
      assert m in [m] + Sends(s'.pipe);
      assert forall x :: x in Sends(s'.pipe) ==> x in Sends(s.pipe);
    }
  }

  lemma ServeSendSocket(s: State, m: Msg)
    requires Good(Now(s)) && Kept(s) && Typed(s) && s.worker.Idle? && s.pipe != []
    ensures Good(Now(ServeSend(s, m))) && Kept(ServeSend(s, m)) && Typed(ServeSend(s, m))
  {
    if !Refuses(s.sock) {
      NowIsSock(s);
      NowIsSock(ServeSend(s, m));
      GoodSendSocket(s.sock, m);
    }
    hide Good, Recorded;
    assert forall x :: x in s.sock.low + [Item(m, 0)] ==> x in s.sock.low || x == Item(m, 0);
  }

  lemma ServeSendInv(s: State, m: Msg)
    requires s.pipe != [] && s.pipe[0] == Send(m) && s.worker.Idle? && Inv(s)
    ensures Inv(ServeSend(s, m))
  {
    var s' := ServeSend(s, m);
    ServeConserves(s, m);
    ServeSendSocket(s, m);
    assert Sends(s.pipe) == [m] + Sends(s.pipe[1..]);
    hide Good, Unbegun, Sends, Conserved, AllFresh, NotFrom, Typed, Kept, Now, SendSocket;
    forall u | u in s'.pcs
      ensures Knows(s', u)
    {
      ServeSendKnows(s, s', m, u);
    }
    hide Knows;
  }

  // ---------------------------------------------------------------- force_close

  /** Freeing the lists with nothing in `dw_buffer` sets everything up to here aside. */
  lemma FreedWhole(early: seq<Msg>, begun: seq<Msg>, waiting: seq<Msg>, tail: seq<Msg>)
    ensures (early + (begun + waiting)) + ([] + tail) == early + ((begun + ([] + waiting)) + tail)
  {
    Neutral(tail);
    Neutral(waiting);
    Assoc(early, begun + waiting, tail);
  }

  /** What is freed behind the side buffer moves to the front of the dropped messages. */
  lemma FreedBehind(begun: seq<Msg>, side: seq<Msg>, waiting: seq<Msg>, dropped: seq<Msg>, piped: seq<Msg>)
    ensures (begun + (side + ([] + []))) + ((waiting + dropped) + piped) ==
            (begun + (side + waiting)) + (dropped + piped)
  {
    Neutral<Msg>([]);
    Neutral(side);
    Assoc(waiting, dropped, piped);
    Assoc(begun + side, waiting, dropped + piped);
    Assoc(begun, side, waiting);
  }

  lemma FreeConserves(s: State)
    requires Inv(s) && s.worker.Closing?
    ensures Conserved(FreeUnlocked(s))
  {
    var s' := FreeUnlocked(s);
    var waiting := Unbegun(s.sock.high) + Unbegun(s.sock.low);
    NowIsSock(s);
    NoneLeft();
    if s.sock.dw.None? {
      assert Now(s').begun == [] && Now(s').dw.None? && Now(s').high == [] && Now(s').low == [];
      assert Flow(Now(s')) == [];
      hide Good, Sends, Unbegun, Of, Now, Conserved, Kept, Typed;
      FreedWhole(s.early, s.sock.begun, waiting, s.dropped + Sends(s.pipe));
      assert Head(s') + Body(s') == Head(s) + Body(s);
      SameWhole(s, s');
    } else {
      assert Now(s').begun == s.sock.begun && Now(s').dw == s.sock.dw && Now(s').high == [] && Now(s').low == [];
      hide Good, Sends, Unbegun, Of, Now, Conserved, Kept, Typed;
      FreedBehind(s.sock.begun, Unbegun(Side(s.sock)), waiting, s.dropped, Sends(s.pipe));
      assert Body(s') == Body(s);
      SameOrder(s, s');
    }
  }

  lemma FreeSocket(s: State)
    requires Good(Now(s)) && Kept(s) && Typed(s) && s.worker.Closing?
    ensures Good(Now(FreeUnlocked(s))) && Kept(FreeUnlocked(s)) && Typed(FreeUnlocked(s))
  {
    NowIsSock(s);
    GoodFreed(s.sock);
    hide Good, Recorded;
    if s.sock.dw.Some? {
      assert s.sock.wire[0..] == s.sock.wire && s.sock.begun[0..] == s.sock.begun;
    }
  }

  lemma FreeKnows(s: State, u: nat)
    requires u in s.pcs && Knows(s, u)
    ensures Knows(FreeUnlocked(s), u)
  {
    NoneLeft();
    hide Sends;
  }

  lemma FreeInv(s: State)
    requires Inv(s) && s.worker.Closing?
    ensures Inv(FreeUnlocked(s))
  {
    var s' := FreeUnlocked(s);
    assert Conserved(s') by {
      hide *;
      FreeConserves(s);
    }
    assert Good(Now(s')) && Kept(s') && Typed(s') by {
      hide Good, Conserved, Knows;
      FreeSocket(s);
    }
    hide Good, Sends, Conserved, Typed, Kept, Now, Unbegun, Knows;
    SameThreads(s, s');
    hide Locked, Tallied;
    forall u | u in s'.pcs
      ensures Knows(s', u)
    {
      FreeKnows(s, u);
    }
  }

  lemma SameThreads(s: State, s': State)
    requires s'.pcs == s.pcs && s'.lock == s.lock && s'.sending == s.sending && s'.pipe == s.pipe
    requires s'.worker.Settling? <==> s.worker.Settling?
    ensures Locked(s) ==> Locked(s')
    ensures Tallied(s) ==> Tallied(s')
  {
    hide Sends;
  }

  lemma FreedNow(s: State)
    requires s.worker.Freed? && Kept(s)
    ensures Now(s).begun == Beyond(s.sock.begun, |s.past.begun|) && Now(s).dw == s.sock.dw
    ensures Now(s).high == [] && Now(s).low == []
  {
    hide Recorded;
  }

  lemma ForcedNow(s: State)
    requires CanDo(s, Force) && Kept(s)
    ensures var s' := Do(s, Force);
            && Now(s').begun == Beyond(s.sock.begun, |s.past.begun|) && Now(s').dw.None?
            && Now(s').high == [] && Now(s').low == []
            && s'.dropped == Unbegun(Side(s.sock)) + s.dropped && s'.pipe == s.pipe
  {
    hide Unbegun, Recorded;
  }

  /** Closing under the lock drops what a direct write left behind, and loses nothing else. */
  lemma ForceBody(s: State)
    requires CanDo(s, Force) && Kept(s)
    ensures Body(Do(s, Force)) == Body(s)
  {
    FreedNow(s);
    ForcedNow(s);
    hide Sends, Unbegun, Now, Kept, Do, Beyond;
    NoneLeft();
    var begun := Now(s).begun;
    FreedBehind(begun, [], Unbegun(Side(s.sock)), s.dropped, Sends(s.pipe));
    FreedBehind(begun, Unbegun(Side(s.sock)), [], s.dropped, Sends(s.pipe));
    Neutral(s.dropped);
    Neutral(Unbegun(Side(s.sock)));
  }

  lemma ForceConserves(s: State)
    requires Inv(s) && CanDo(s, Force)
    ensures Conserved(Do(s, Force))
  {
    hide Good, Body, Unbegun, Sends, Conserved, Of, Kept, Typed, Now, Tallied, Locked, Knows, Waiting;
    ForceBody(s);
    assert Head(Do(s, Force)) == Head(s);
    SameOrder(s, Do(s, Force));
  }

  lemma ForceInv(s: State)
    requires Inv(s) && CanDo(s, Force)
    ensures Inv(Do(s, Force))
  {
    var s' := Do(s, Force);
    ForceConserves(s);
    assert Good(Now(s')) by {
      NeverTorn(Now(s));
    }
    hide Good, Unbegun, Sends, Conserved, AllFresh, NotFrom, Recorded, Now;
    forall u | u in s'.pcs
      ensures Knows(s', u)
    {
      assert Knows(s, u);
    }
    hide Knows;
  }

  // ---------------------------------------------------------------- verdicts

  lemma InvalidFlow(sock: Sock)
    requires Good(sock) && sock.kind.Invalid?
    ensures Flow(sock) == sock.begun
  {
    NoneLeft();
  }

  /** Freeing the queues at once moves what was waiting to the front of the dropped messages. */
  lemma FreedJourney(flow: seq<Msg>, begun: seq<Msg>, dropped: seq<Msg>, piped: seq<Msg>)
    requires begun <= flow
    ensures begun + ((Beyond(flow, |begun|) + dropped) + piped) == flow + (dropped + piped)
  {
    Assoc(flow[|begun|..], dropped, piped);
    Assoc(begun, flow[|begun|..], dropped + piped);
  }

  lemma {:induction false} SendListKeepsLow(items: seq<Item>, k: seq<Write>)
    requires forall x :: x in items ==> !x.msg.urgent
    ensures forall x :: x in SendList(items, k).rest ==> !x.msg.urgent
    decreases |k|
  {
    if items != [] && k != [] {
      assert items[0] in items;
      if k[0].Interrupted? {
        SendListKeepsLow(items, k[1..]);
      } else if k[0].Accept? && k[0].n >= |items[0].Rest()| {
        SendListKeepsLow(items[1..], k[1..]);
      }
    }
  }

  lemma SendBufferKeepsLow(sock: Sock, k: seq<Write>)
    requires forall x :: x in sock.low ==> !x.msg.urgent
    ensures forall x :: x in SendBuffer(sock, k).0.low ==> !x.msg.urgent
  {
    var a := SendHigh(Unload(sock), k);
    SendListKeepsLow(sock.low, a.1.answers);
  }

  lemma PollWriteOrder(s: State, k: seq<Write>)
    requires Inv(s) && s.worker.Idle? && Enabled(s.sock, WriteEvent(k))
    ensures var s' := Apply(s, Decide(s.sock, WriteEvent(k), true));
            Good(Now(s')) && Head(s') == Head(s) && Body(s') == Body(s)
  {
    NowIsSock(s);
    GoodSendBuffer(s.sock, k);
    var c := SendBuffer(s.sock, k).0;
    if c.kind.Invalid? {
      InvalidFlow(c);
    }
    PollWriteBody(s, c);
  }

  lemma PollWriteBody(s: State, c: Sock)
    requires s.past == NOTHING_FREED && s.worker.Idle? && c.begun <= Flow(s.sock)
    requires if c.kind.Invalid? then Flow(c) == c.begun else Flow(c) == Flow(s.sock)
    ensures var s' := Apply(s, Verdict(c, Nothing, false));
            Now(s') == c && Head(s') == Head(s) && Body(s') == Body(s)
  {
    var s' := Apply(s, Verdict(c, Nothing, false));
    NowIsSock(s);
    NowIsSock(s');
    hide Flow, Sends, Now, Head;
    if c.kind.Invalid? {
      FreedJourney(Flow(s.sock), c.begun, s.dropped, Sends(s.pipe));
    } else {
      Neutral(s.dropped);
    }
  }

  /** What makes applying a verdict harmless to the callers. */
  lemma ApplyInv(s: State, pipe: seq<Cmd>, v: Verdict)
    requires Inv(s) && s.worker.Idle? && Sends(pipe) == Sends(s.pipe)
    requires var s' := Apply(s.(pipe := pipe), v);
             Good(Now(s')) && Kept(s') && Typed(s') && Head(s') == Head(s) && Body(s') == Body(s)
    requires s.lock == None || (v.sock.high == s.sock.high && v.sock.dw == s.sock.dw &&
                                Apply(s.(pipe := pipe), v).dropped == s.dropped &&
                                (v.sock.kind in {Invalid, PAccept} ==> s.sock.kind in {Invalid, PAccept}))
    ensures Inv(Apply(s.(pipe := pipe), v))
  {
    hide Good, Flow, Of, Unbegun, Sends, Head, Body, Conserved, NotFrom, AllFresh, Typed, Kept, Now, Pushers;
    var s' := Apply(s.(pipe := pipe), v);
    SameOrder(s, s');
    forall u | u in s'.pcs
      ensures Knows(s', u)
    {
      assert Knows(s, u);
    }
  }

  lemma PollWriteInv(s: State, k: seq<Write>, idle: bool)
    requires Inv(s) && CanDo(s, Poll(WriteEvent(k), idle))
    ensures Inv(Do(s, Poll(WriteEvent(k), idle)))
  {
    hide Inv, Good, Decide, Enabled, Apply, Typed, Kept, Head, Body, Now;
    WriteIsWrite(s.sock, k, idle);
    PollWriteTyped(s, k);
    PollWriteOrder(s, k);
    ApplyInv(s, s.pipe, Decide(s.sock, WriteEvent(k), idle));
  }

  lemma WriteIsWrite(sock: Sock, k: seq<Write>, idle: bool)
    ensures Decide(sock, WriteEvent(k), idle) == Decide(sock, WriteEvent(k), true)
  {
    hide SendBuffer;
  }

  lemma PollWriteTyped(s: State, k: seq<Write>)
    requires Inv(s) && s.worker.Idle? && Enabled(s.sock, WriteEvent(k))
    ensures var s' := Apply(s, Decide(s.sock, WriteEvent(k), true)); Typed(s') && Kept(s')
  {
    hide Good, Conserved, Locked, Tallied, Knows, SendBuffer, Flow, Recorded;
    NowIsSock(s);
    SendBufferKeepsLow(s.sock, k);
    SendBufferKind(s.sock, k);
    if s.sock.kind.PAccept? {
      SendBufferNothing(s.sock, k);
    }
    hide Now;
    Neutral(s.dropped);
  }

  lemma SendBufferNothing(sock: Sock, k: seq<Write>)
    requires sock.high == [] && sock.low == [] && sock.dw.None?
    ensures var c := SendBuffer(sock, k).0;
            c.high == [] && c.low == [] && c.dw.None? && c.begun == sock.begun && c.wire == sock.wire
  {
    Neutral(sock.wire);
    Neutral(sock.begun);
  }

  /** Everything but sending only changes the type, and keeps a dead socket dead. */
  lemma RelabelVerdict(sock: Sock, op: Op, idle: bool)
    requires op.CloseCmd? || op.ResumeCmd? || op.ConnectEvent? || op.ReadEvent? || op.ErrorEvent? || op.HangUp?
    requires Enabled(sock, op)
    requires sock.kind in {Connecting, Connected, HalfCloseRead, HalfCloseWrite, Invalid, PAccept, Bound}
    requires sock.closing ==> sock.kind in {HalfCloseRead, Invalid}
    ensures var v := Decide(sock, op, idle).sock;
            && v == sock.(kind := v.kind, closing := v.closing)
            && v.kind in {Connecting, Connected, HalfCloseRead, HalfCloseWrite, Invalid, PAccept, Bound}
            && (v.closing ==> v.kind in {HalfCloseRead, Invalid})
            && (v.kind.Invalid? <==> sock.kind.Invalid?)
            && (v.kind.PAccept? ==> sock.kind.PAccept?)
            && (sock.kind.Invalid? ==> v == sock && !Decide(sock, op, idle).force)
            && (Dead(sock) ==> Dead(v))
  {
  }

  /** Commands and events that only change the type of the socket or ask for it to be freed. */
  lemma RelabelInv(s: State, pipe: seq<Cmd>, op: Op, idle: bool)
    requires Inv(s) && s.worker.Idle? && Sends(pipe) == Sends(s.pipe) && Enabled(s.sock, op)
    requires op.CloseCmd? || op.ResumeCmd? || op.ConnectEvent? || op.ReadEvent? || op.ErrorEvent? || op.HangUp?
    ensures Inv(Apply(s.(pipe := pipe), Decide(s.sock, op, idle)))
  {
    var v := Decide(s.sock, op, idle);
    RelabelVerdict(s.sock, op, idle);
    RelabelOrder(s, pipe, v);
    hide Good, Now, Head, Body, Of, Unbegun, Sends, Decide, Conserved, Enabled, Knows, Locked, Tallied;
    ApplyInv(s, pipe, v);
  }

  lemma InvalidNow(s: State)
    requires Good(Now(s)) && Kept(s) && s.worker.Idle? && s.sock.kind.Invalid?
    ensures Flow(s.sock) == s.sock.begun
  {
    NoneLeft();
  }

  lemma RelabelOrder(s: State, pipe: seq<Cmd>, v: Verdict)
    requires Good(Now(s)) && Kept(s) && Typed(s) && s.worker.Idle? && Sends(pipe) == Sends(s.pipe)
    requires v.sock == s.sock.(kind := v.sock.kind, closing := v.sock.closing)
    requires v.sock.kind.Invalid? <==> s.sock.kind.Invalid?
    requires s.sock.kind.Invalid? ==> v.sock == s.sock && !v.force
    requires v.sock.kind in {Connecting, Connected, HalfCloseRead, HalfCloseWrite, Invalid, PAccept, Bound}
    requires v.sock.closing ==> v.sock.kind in {HalfCloseRead, Invalid}
    requires v.sock.kind.PAccept? ==> s.sock.kind.PAccept?
    requires Dead(s.sock) ==> Dead(v.sock)
    ensures var s' := Apply(s.(pipe := pipe), v);
            && Good(Now(s')) && Kept(s') && Typed(s') && s'.dropped == s.dropped
            && Head(s') == Head(s) && Body(s') == Body(s)
  {
    hide Good, Flow, Sends, Unbegun, Recorded;
    var s' := Apply(s.(pipe := pipe), v);
    Neutral(s.dropped);
    if s.sock.kind.Invalid? {
      InvalidNow(s);
      assert Now(s') == Now(s);
    } else {
      NowIsSock(s);
      NowIsSock(s');
      GoodRelabelled(s.sock, v.sock.kind, v.sock.closing);
    }
  }

  lemma ServeControlInv(s: State, op: Op, idle: bool)
    requires s.pipe != [] && s.pipe[0] == Control(op) && s.worker.Idle?
    requires op.CloseCmd? || op.ResumeCmd?
    requires Inv(s)
    ensures Inv(ServeControl(s, op, idle))
  {
    hide Inv, Decide, Enabled, Apply, Sends;
    SendsSkips(s.pipe);
    ControlEnabled(s, op);
    RelabelInv(s, s.pipe[1..], op, idle);
  }

  lemma SendsSkips(pipe: seq<Cmd>)
    requires pipe != [] && pipe[0].Control?
    ensures Sends(pipe[1..]) == Sends(pipe)
  {
  }

  lemma ControlEnabled(s: State, op: Op)
    requires (op.CloseCmd? || op.ResumeCmd?) && Inv(s)
    ensures Enabled(s.sock, op)
  {
    hide Good, Kept, Tallied, Locked, Conserved, Knows;
  }

  // ---------------------------------------------------------------- every run

  predicate PipeOk(s: State) {
    forall x :: x in s.pipe && x.Control? ==> x.op.CloseCmd? || x.op.ResumeCmd?
  }

  lemma StepInv(s: State, step: Step)
    requires Inv(s) && PipeOk(s) && CanDo(s, step)
    ensures Inv(Do(s, step)) && PipeOk(Do(s, step))
  {
    hide Inv, Decide;
    assert step.Serve? ==> s.pipe[0] in s.pipe;
    match step {
      case Begin(t, urgent, values) => BeginInv(s, t, urgent, values);
      case FirstCheck(t, pass) => FirstCheckInv(s, t, pass);
      case TryLock(t) => TryLockInv(s, t);
      case SecondRead(t) => SecondReadInv(s, t);
      case Direct(t, w) => DirectInv(s, t, w);
      case Unlock(t) => UnlockInv(s, t);
      case Count(t) => CountInv(s, t);
      case Push(t) => PushInv(s, t);
      case Command(op) => CommandInv(s, op);
      case Serve(idle) =>
        if s.pipe[0].Send? { ServeSendInv(s, s.pipe[0].m); } else { ServeControlInv(s, s.pipe[0].op, idle); }
      case Settled => SettledInv(s);
      case Poll(op, idle) =>
        if op.WriteEvent? { PollWriteInv(s, op.k, idle); } else { RelabelInv(s, s.pipe, op, idle); }
      case Free => FreeInv(s);
      case Force => ForceInv(s);
    }
  }

  lemma {:induction false} RunInv(s: State, steps: seq<Step>)
    requires Start(s)
    ensures Inv(Exec(s, steps)) && PipeOk(Exec(s, steps))
  {
    hide Inv, Do, CanDo;
    if steps == [] {
      StartInv(s);
    } else {
      var before := Exec(s, steps[..|steps| - 1]);
      RunInv(s, steps[..|steps| - 1]);
      if CanDo(before, steps[|steps| - 1]) {
        StepInv(before, steps[|steps| - 1]);
      }
    }
  }
}
