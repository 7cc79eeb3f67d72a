/**
 What a caller of `socket_server_send` may rely on, over every run of `SocketProtocol`.

 On a socket that is open and not being freed, the messages of one caller and priority begin on
 the wire in call order and none is torn. `force_close` puts an end to that: it frees the lists
 before it takes the lock, and a direct write in between goes ahead of what was thrown away. The
 theorems say exactly when order or wholeness is lost, and what survives in any case.
 */
module SocketFifo {
  import opened Options
  import opened Sequences
  import opened SocketState
  import opened SocketLifecycle
  import opened SocketProtocol

  // ---------------------------------------------------------------- messages are told apart by their number

  /** Calls are numbered, and their bytes with them. */
  ghost predicate Numbered(calls: seq<Msg>) {
    forall i :: 0 <= i < |calls| ==> calls[i].serial == i && OwnBytes(calls[i])
  }

  ghost predicate OwnBytes(m: Msg) {
    forall b :: b in m.data ==> b.serial == m.serial
  }

  lemma {:induction false} NumberedRun(s: State, steps: seq<Step>)
    requires Start(s)
    ensures Numbered(Exec(s, steps).calls)
  {
    if steps != [] {
      var before, step := Exec(s, steps[..|steps| - 1]), steps[|steps| - 1];
      NumberedRun(s, steps[..|steps| - 1]);
      if step.Begin? {
        StampFacts(|before.calls|, step.t, step.urgent, step.values);
      } else if CanDo(before, step) {
        SameCalls(before, step);
      }
    }
  }

  lemma SameCalls(s: State, step: Step)
    requires CanDo(s, step) && !step.Begin?
    ensures Do(s, step).calls == s.calls
  {
    hide Decide, SendSocket, DirectWrite, Flow, Sends, Unbegun;
  }

  ghost predicate Rising(ms: seq<Msg>) {
    forall i, j :: 0 <= i < j < |ms| ==> ms[i].serial < ms[j].serial
  }

  lemma RisesBy(ms: seq<Msg>, last: Msg)
    requires Rising(ms) && forall m :: m in ms ==> m.serial < last.serial
    ensures Rising(ms + [last])
  {
    assert forall i :: 0 <= i < |ms| ==> ms[i] in ms;
  }

  lemma {:induction false} OfRising(c: Class, ms: seq<Msg>)
    requires Rising(ms)
    ensures Rising(Of(c, ms)) && forall m :: m in Of(c, ms) <==> m in ms && In(c, m)
  {
    if ms != [] {
      var front, last := ms[..|ms| - 1], ms[|ms| - 1];
      assert ms == front + [last];
      assert forall m :: m in front ==> m.serial < last.serial;
      OfRising(c, front);
      assert Of(c, ms) == Of(c, front) + if In(c, last) then [last] else [];
      hide Of, In;
      RisesBy(Of(c, front), last);
    }
  }

  lemma {:induction false} OfMembers(c: Class, ms: seq<Msg>)
    ensures forall m :: m in Of(c, ms) <==> m in ms && In(c, m)
  {
    if ms != [] {
      OfMembers(c, ms[..|ms| - 1]);
      assert ms == ms[..|ms| - 1] + [ms[|ms| - 1]];
    }
  }

  // ---------------------------------------------------------------- one state

  /** Begun since the lists were freed, or since birth. */
  function LateBegun(s: State): seq<Msg> {
    Beyond(s.sock.begun, |s.past.begun|)
  }

  function LateWire(s: State): seq<Byte> {
    Beyond(s.sock.wire, |s.past.wire|)
  }

  function Queued(s: State): seq<Msg> {
    Unbegun(Side(Now(s))) + (Unbegun(Now(s).high) + Unbegun(Now(s).low))
  }

  lemma BodyParts(s: State)
    requires Inv(s)
    ensures s.sock.begun == s.past.begun + LateBegun(s)
    ensures Body(s) == (LateBegun(s) + Queued(s)) + (s.dropped + Sends(s.pipe))
  {
    hide Good, Typed, Tallied, Locked, Knows, Recorded, Unbegun, Sends, Conserved;
  }

  lemma ConservedAt(s: State, c: Class)
    requires Inv(s)
    ensures Of(c, s.early + (s.past.begun + Waiting(s.past))) + (Of(c, Body(s)) + Hand(s, c)) == Of(c, s.calls)
  {
    hide Good, Typed, Tallied, Locked, Knows, Recorded, Body, Hand, Of, Waiting;
    assert Head(s) == s.early + (s.past.begun + Waiting(s.past));
  }

  /** The calls of one class, by what became of them. */
  lemma Decompose(s: State, c: Class) returns (rest: seq<Msg>)
    requires Inv(s)
    ensures s.sock.begun == s.past.begun + LateBegun(s)
    ensures Of(c, s.sock.begun) == Of(c, s.past.begun) + Of(c, LateBegun(s))
    ensures Of(c, s.calls) ==
            (Of(c, s.early) + (Of(c, s.past.begun) + Of(c, Waiting(s.past)))) + (Of(c, LateBegun(s)) + rest)
  {
    hide *;
    var late, queued, after := LateBegun(s), Queued(s), s.dropped + Sends(s.pipe);
    rest := (Of(c, queued) + Of(c, after)) + Hand(s, c);
    BodyParts(s);
    ConservedAt(s, c);
    OfMore(c, s.past.begun, late);
    OfMore(c, s.early, s.past.begun + Waiting(s.past));
    OfMore(c, s.past.begun, Waiting(s.past));
    OfMore(c, late + queued, after);
    OfMore(c, late, queued);
    Assoc(Of(c, late), Of(c, queued), Of(c, after));
    Assoc(Of(c, late), Of(c, queued) + Of(c, after), Hand(s, c));
  }

  ghost predicate Different<T>(all: seq<T>) {
    forall i, j :: 0 <= i < j < |all| ==> all[i] != all[j]
  }

  /** Leaving out `e` and `w` leaves a prefix exactly when nothing follows what is left out. */
  lemma PrefixExactly<T>(e: seq<T>, p: seq<T>, w: seq<T>, l: seq<T>, rest: seq<T>)
    requires Different((e + (p + w)) + (l + rest))
    ensures p + l <= (e + (p + w)) + (l + rest) <==> (e == [] || p + l == []) && (w == [] || l == [])
  {
    var all := (e + (p + w)) + (l + rest);
    if e == [] && w != [] && l != [] {
      assert all[|p|] == w[0] && all[|p| + |w|] == l[0] && (p + l)[|p|] == l[0];
    } else if e != [] && p != [] {
      assert all[0] == e[0] && all[|e|] == p[0] && (p + l)[0] == p[0];
    } else if e != [] && l != [] {
      assert all[0] == e[0] && all[|e| + |p| + |w|] == l[0] && (p + l)[0] == l[0];
    }
  }

  lemma OrderAt(s: State, c: Class)
    requires Inv(s) && Numbered(s.calls)
    ensures Of(c, s.sock.begun) <= Of(c, s.calls) <==>
            (Of(c, s.early) == [] || Of(c, s.sock.begun) == []) &&
            (Of(c, Waiting(s.past)) == [] || Of(c, LateBegun(s)) == [])
  {
    hide Inv, Waiting, LateBegun, Numbered;
    var rest := Decompose(s, c);
    NumberedRises(s.calls);
    OfRising(c, s.calls);
    RisingDiffers(Of(c, s.calls));
    hide Of, Rising, Different;
    PrefixExactly(Of(c, s.early), Of(c, s.past.begun), Of(c, Waiting(s.past)), Of(c, LateBegun(s)), rest);
  }

  lemma {:induction false} ConcatByte(ms: seq<Msg>, k: nat) returns (m: Msg)
    requires k < |Concat(ms)|
    ensures m in ms && Concat(ms)[k] in m.data
  {
    if ms != [] {
      var front := ms[..|ms| - 1];
      m := ms[|ms| - 1];
      if k < |Concat(front)| {
        m := ConcatByte(front, k);
      }
    }
  }

  lemma SameNumber(calls: seq<Msg>, m: Msg, n: Msg)
    requires Numbered(calls) && m in calls && n in calls && m.serial == n.serial
    ensures m == n
  {
    hide OwnBytes;
  }

  lemma NumberedRises(calls: seq<Msg>)
    requires Numbered(calls)
    ensures Rising(calls)
  {
    hide OwnBytes;
  }

  lemma RisingDiffers(ms: seq<Msg>)
    requires Rising(ms)
    ensures Different(ms)
  {
  }

  lemma NotTwice<T>(e: seq<T>, p: seq<T>, w: seq<T>, l: seq<T>, rest: seq<T>)
    requires Different((e + (p + w)) + (l + rest))
    ensures forall i, j :: 0 <= i < |p| && 0 <= j < |l| ==> p[i] != l[j]
  {
    var all := (e + (p + w)) + (l + rest);
    forall i, j | 0 <= i < |p| && 0 <= j < |l|
      ensures p[i] != l[j]
    {
      assert all[|e| + i] == p[i] && all[|e| + |p| + |w| + j] == l[j];
    }
  }

  /** A message begun before the lists were freed is not one begun afterwards. */
  lemma BegunOnce(s: State, m: Msg, n: Msg)
    requires Inv(s) && Numbered(s.calls) && m in s.past.begun && n in LateBegun(s)
    ensures m in s.calls && n in s.calls && m.serial != n.serial
  {
    hide Inv, LateBegun, Numbered;
    BegunCalled(s, m);
    BegunCalled(s, n);
    if m.serial == n.serial {
      var c := Class(m.caller, m.urgent);
      var rest := Decompose(s, c);
      SameNumber(s.calls, m, n);
      NumberedRises(s.calls);
      OfRising(c, s.calls);
      RisingDiffers(Of(c, s.calls));
      OfMembers(c, s.past.begun);
      OfMembers(c, LateBegun(s));
      hide Of, Rising, Different, Waiting;
      NotTwice(Of(c, s.early), Of(c, s.past.begun), Of(c, Waiting(s.past)), Of(c, LateBegun(s)), rest);
    }
  }

  lemma BegunCalled(s: State, m: Msg)
    requires Inv(s) && (m in s.past.begun || m in LateBegun(s))
    ensures m in s.calls
  {
    hide Inv, LateBegun;
    var c := Class(m.caller, m.urgent);
    var rest := Decompose(s, c);
    OfMembers(c, s.calls);
    OfMembers(c, s.past.begun);
    OfMembers(c, LateBegun(s));
    hide Of;
    assert m in Of(c, s.calls);
  }

  /** What the invariant says about the bytes before and after the lists were freed. */
  lemma WireParts(s: State)
    requires Inv(s)
    ensures s.sock.wire == s.past.wire + LateWire(s)
    ensures s.sock.begun == s.past.begun + LateBegun(s)
    ensures s.past.wire + CutRest(s.past.high) == Concat(s.past.begun)
    ensures LateWire(s) <= Concat(LateBegun(s))
    ensures CutRest(s.past.high) != [] ==>
              && s.past.begun != [] && s.past.begun[|s.past.begun| - 1] == s.past.high[0].msg
              && CutRest(s.past.high)[0] in s.past.high[0].msg.data
  {
    hide Typed, Tallied, Locked, Conserved, Knows;
    NeverTorn(Now(s));
    hide Good, Concat, AllFresh, HeadMayBePartial;
  }

  lemma PrefixAtCut<T>(front: seq<T>, tail: seq<T>, late: seq<T>, whole: seq<T>)
    requires late <= whole
    ensures tail == [] || late == [] ==> front + late <= (front + tail) + whole
    ensures tail != [] && late != [] && tail[0] != late[0] ==> !(front + late <= (front + tail) + whole)
  {
    if tail != [] && late != [] {
      assert (front + late)[|front|] == late[0] && ((front + tail) + whole)[|front|] == tail[0];
    }
  }

  /** After a cut, anything accepted later shows the cut. */
  lemma WholeAt(s: State)
    requires Inv(s) && Numbered(s.calls)
    ensures s.sock.wire <= Concat(s.sock.begun) <==> CutRest(s.past.high) == [] || LateWire(s) == []
  {
    hide Inv, CutRest, LateWire, LateBegun, Concat;
    WireParts(s);
    var tail, late, begun := CutRest(s.past.high), LateWire(s), LateBegun(s);
    ConcatMore(s.past.begun, begun);
    PrefixAtCut(s.past.wire, tail, late, Concat(begun));
    if tail != [] && late != [] {
      var cut := s.past.begun[|s.past.begun| - 1];
      assert cut in s.past.begun;
      var n := ConcatByte(begun, 0);
      BegunOnce(s, cut, n);
      assert OwnBytes(cut) && OwnBytes(n);
      assert late[0] == Concat(begun)[0];
    }
  }

  // ---------------------------------------------------------------- one step

  function Taken(m: Msg, w: Write): nat {
    if w.Accept? then Min(w.n, |m.data|) else 0
  }

  predicate Starts(m: Msg, w: Write) {
    Taken(m, w) > 0 || m.data == []
  }

  /** A direct write while `force_close` has freed the lists and still waits for the lock. */
  predicate BetweenFreeAndLock(s: State, step: Step) {
    step.Direct? && CanDo(s, step) && s.worker.Freed?
  }

  /** It starts a message of `c` although the freed lists held one. */
  predicate Overtakes(s: State, step: Step, c: Class) {
    && BetweenFreeAndLock(s, step)
    && In(c, s.pcs[step.t].msg) && Starts(s.pcs[step.t].msg, step.w)
    && Of(c, Waiting(s.past)) != []
  }

  /** It puts bytes on the wire although the head of the freed list was sent in part. */
  predicate Tears(s: State, step: Step) {
    && BetweenFreeAndLock(s, step)
    && Taken(s.pcs[step.t].msg, step.w) > 0
    && CutRest(s.past.high) != []
  }

  /** What a step does to the messages and bytes that came after the lists were freed. */
  lemma LateStep(s: State, step: Step)
    requires PipeOk(s) && CanDo(s, step) && Inv(s)
    ensures var s' := Do(s, step);
            if step.Free? then
              s.past == NOTHING_FREED && (s'.past == NOTHING_FREED || (LateBegun(s') == [] && LateWire(s') == []))
            else if BetweenFreeAndLock(s, step) then
              var m := s.pcs[step.t].msg;
              && s'.past == s.past
              && LateBegun(s') == LateBegun(s) + (if Starts(m, step.w) then [m] else [])
              && LateWire(s') == LateWire(s) + m.data[..Taken(m, step.w)]
            else
              && s'.past == s.past
              && (s.past == NOTHING_FREED || (LateBegun(s') == LateBegun(s) && LateWire(s') == LateWire(s)))
  {
    hide Good, Conserved, Tallied, Recorded, Unbegun, Flow, Sends, Of;
    assert step.Serve? ==> s.pipe[0] in s.pipe;
    if step.Direct? {
      assert Knows(s, step.t);
      hide Knows, Locked;
      DirectLate(s, step.t, step.w);
    } else if step.Poll? || (step.Serve? && s.pipe[0].Control?) {
      hide Knows, Locked;
      VerdictLate(s, step);
    } else {
      hide Knows, Locked, Decide;
    }
  }

  lemma DirectLate(s: State, t: nat, w: Write)
    requires CanDo(s, Direct(t, w)) && Kept(s)
    ensures var s', m := Do(s, Direct(t, w)), s.pcs[t].msg;
            && s'.past == s.past
            && LateBegun(s') == LateBegun(s) + (if Starts(m, w) then [m] else [])
            && LateWire(s') == LateWire(s) + m.data[..Taken(m, w)]
  {
    hide Recorded;
    var m := s.pcs[t].msg;
    var more := if Starts(m, w) then [m] else [];
    assert (s.sock.wire + m.data[..Taken(m, w)])[|s.past.wire|..] == LateWire(s) + m.data[..Taken(m, w)];
    assert (s.sock.begun + more)[|s.past.begun|..] == LateBegun(s) + more;
  }

  lemma VerdictLate(s: State, step: Step)
    requires CanDo(s, step) && Kept(s) && Typed(s)
    requires step.Poll? || (step.Serve? && s.pipe[0].Control? && (s.pipe[0].op.CloseCmd? || s.pipe[0].op.ResumeCmd?))
    ensures var s' := Do(s, step);
            && s'.past == s.past
            && (s.past == NOTHING_FREED || (LateBegun(s') == LateBegun(s) && LateWire(s') == LateWire(s)))
  {
    hide Recorded;
    if step.Serve? {
      assert Enabled(s.sock, s.pipe[0].op);
      RelabelVerdict(s.sock, s.pipe[0].op, step.idle);
    }
    hide Decide;
  }

  // ---------------------------------------------------------------- every run

  predicate Overtaken(s: State, steps: seq<Step>, c: Class) {
    && steps != []
    && (Overtaken(s, steps[..|steps| - 1], c) || Overtakes(Exec(s, steps[..|steps| - 1]), steps[|steps| - 1], c))
  }

  predicate Torn(s: State, steps: seq<Step>) {
    && steps != []
    && (Torn(s, steps[..|steps| - 1]) || Tears(Exec(s, steps[..|steps| - 1]), steps[|steps| - 1]))
  }

  lemma OfStarted(c: Class, late: seq<Msg>, m: Msg, starts: bool)
    ensures Of(c, late + (if starts then [m] else [])) != [] <==> Of(c, late) != [] || (starts && In(c, m))
  {
    OfMore(c, late, if starts then [m] else []);
    OfOne(c, m);
  }

  lemma {:induction false} OvertakenIff(s: State, steps: seq<Step>, c: Class)
    requires Start(s)
    ensures var e := Exec(s, steps);
            Overtaken(s, steps, c) <==> Of(c, Waiting(e.past)) != [] && Of(c, LateBegun(e)) != []
  {
    NoneLeft();
    assert Waiting(NOTHING_FREED) == [];
    hide Inv, Do, CanDo, Waiting, LateBegun, LateWire, Starts, Start, Unbegun;
    if steps == [] {
      assert s.past == NOTHING_FREED by { StartFresh(s); }
    } else {
      var before, step := Exec(s, steps[..|steps| - 1]), steps[|steps| - 1];
      OvertakenIff(s, steps[..|steps| - 1], c);
      RunInv(s, steps[..|steps| - 1]);
      if CanDo(before, step) {
        LateStep(before, step);
        if BetweenFreeAndLock(before, step) {
          var m := before.pcs[step.t].msg;
          OfStarted(c, LateBegun(before), m, Starts(m, step.w));
        }
      }
    }
  }

  lemma StartFresh(s: State)
    requires Start(s)
    ensures s.past == NOTHING_FREED && s.early == [] && s.sock.begun == []
  {
  }

  lemma {:induction false} TornIff(s: State, steps: seq<Step>)
    requires Start(s)
    ensures var e := Exec(s, steps); Torn(s, steps) <==> CutRest(e.past.high) != [] && LateWire(e) != []
  {
    assert CutRest(NOTHING_FREED.high) == [];
    hide Inv, Do, CanDo, CutRest, LateBegun, LateWire, Start;
    if steps == [] {
      assert s.past == NOTHING_FREED by { StartFresh(s); }
    } else {
      var before, step := Exec(s, steps[..|steps| - 1]), steps[|steps| - 1];
      TornIff(s, steps[..|steps| - 1]);
      RunInv(s, steps[..|steps| - 1]);
      if CanDo(before, step) {
        LateStep(before, step);
      }
    }
  }

  /** Only urgent messages are written directly. */
  lemma {:induction false} LowNeverOvertaken(s: State, steps: seq<Step>, c: Class)
    requires Start(s) && !c.urgent
    ensures !Overtaken(s, steps, c)
  {
    hide Do, Start;
    if steps != [] {
      var before, step := Exec(s, steps[..|steps| - 1]), steps[|steps| - 1];
      LowNeverOvertaken(s, steps[..|steps| - 1], c);
      RunInv(s, steps[..|steps| - 1]);
      if BetweenFreeAndLock(before, step) {
        DirectIsUrgent(before, step.t);
      }
    }
  }

  lemma DirectIsUrgent(s: State, t: nat)
    requires At(s, t, Writing) && Inv(s)
    ensures s.pcs[t].msg.urgent
  {
    hide Good, Kept, Typed, Conserved, Tallied, Locked;
    assert Knows(s, t);
  }

  /**
   Per-caller FIFO, on every run, for every caller and priority: the messages begun on the wire are
   a prefix of the messages sent, except exactly when a direct write got between the freeing of the
   lists and the lock while one of them was waiting, or one begins after one was refused because the
   accepted socket was not started. Nothing is dropped from a socket that can still take data.
   */
  lemma FifoPerCaller(s: State, steps: seq<Step>, c: Class)
    requires Start(s)
    ensures var e := Exec(s, steps);
            && (Of(c, e.sock.begun) <= Of(c, e.calls) <==>
                (Of(c, e.early) == [] || Of(c, e.sock.begun) == []) && !Overtaken(s, steps, c))
            && (!s.sock.kind.PAccept? ==> e.early == [])
            && (!c.urgent ==> !Overtaken(s, steps, c))
            && (e.dropped != [] ==> Dead(e.sock) || e.worker.Freed?)
  {
    var e := Exec(s, steps);
    RunInv(s, steps);
    NumberedRun(s, steps);
    OvertakenIff(s, steps, c);
    if !c.urgent {
      LowNeverOvertaken(s, steps, c);
    }
    if !s.sock.kind.PAccept? {
      OpenedIsStarted(s, steps);
    }
    hide Exec, Overtaken, Of, Waiting, LateBegun, Start;
    OrderAt(e, c);
    assert Typed(e);
  }

  /**
   No torn messages: on every run the accepted bytes are a prefix of the messages begun, put one
   behind the other, except exactly when a direct write got between the freeing of the lists and the
   lock while a message sent in part was thrown away.
   */
  lemma NoMessageTorn(s: State, steps: seq<Step>)
    requires Start(s)
    ensures Exec(s, steps).sock.wire <= Concat(Exec(s, steps).sock.begun) <==> !Torn(s, steps)
  {
    RunInv(s, steps);
    NumberedRun(s, steps);
    TornIff(s, steps);
    hide Exec, Torn, Inv, Concat, LateWire, Start;
    WholeAt(Exec(s, steps));
  }

  // ---------------------------------------------------------------- what survives in any case

  /** `a` is `b` with some elements left out: the order is kept and nothing is repeated. */
  predicate Within<T(==)>(a: seq<T>, b: seq<T>) {
    a == [] || (b != [] && ((a[0] == b[0] && Within(a[1..], b[1..])) || Within(a, b[1..])))
  }

  lemma {:induction false} WithinBoth<T>(a: seq<T>, b: seq<T>, c: seq<T>, d: seq<T>)
    requires Within(a, b) && Within(c, d)
    ensures Within(a + c, b + d)
    decreases |b|
  {
    if b == [] {
      Neutral(c);
      Neutral(d);
    } else {
      assert (b + d)[1..] == b[1..] + d;
      if a == [] {
        WithinBoth(a, b[1..], c, d);
      } else if a[0] == b[0] && Within(a[1..], b[1..]) {
        WithinBoth(a[1..], b[1..], c, d);
        assert (a + c)[1..] == a[1..] + c;
      } else {
        WithinBoth(a, b[1..], c, d);
      }
    }
  }

  lemma {:induction false} WithinSelf<T>(a: seq<T>)
    ensures Within(a, a)
  {
    if a != [] {
      WithinSelf(a[1..]);
    }
  }

  lemma WithinParts<T>(e: seq<T>, p: seq<T>, w: seq<T>, l: seq<T>, rest: seq<T>)
    ensures Within(p + l, (e + (p + w)) + (l + rest))
  {
    WithinSelf(p);
    WithinSelf(l);
    WithinBoth(p, p, [], w);
    WithinBoth([], e, p + [], p + w);
    WithinBoth(l, l, [], rest);
    Neutral(p);
    Neutral(l);
    WithinBoth(p, e + (p + w), l, l + rest);
  }

  /**
   Whatever happens, the messages of one caller and priority begin in call order and none begins
   twice: only some may be missing.
   */
  lemma OrderSurvives(s: State, steps: seq<Step>, c: Class)
    requires Start(s)
    ensures var e := Exec(s, steps); Within(Of(c, e.sock.begun), Of(c, e.calls))
  {
    var e := Exec(s, steps);
    RunInv(s, steps);
    hide Exec, Inv, Of, Waiting, LateBegun, Start, Within;
    var rest := Decompose(e, c);
    WithinParts(Of(c, e.early), Of(c, e.past.begun), Of(c, Waiting(e.past)), Of(c, LateBegun(e)), rest);
  }

  // ---------------------------------------------------------------- sockets opened by connect or bind

  lemma StaysStarted(s: State, step: Step)
    requires PipeOk(s) && CanDo(s, step) && Inv(s) && !s.sock.kind.PAccept?
    ensures !Do(s, step).sock.kind.PAccept? && Do(s, step).early == s.early
  {
    hide Good, Conserved, Tallied, Locked, Knows, Kept, Unbegun, Flow, Sends;
    assert step.Serve? ==> s.pipe[0] in s.pipe;
    match step {
      case Poll(op, idle) =>
        if op.WriteEvent? {
          SendBufferKind(s.sock, op.k);
        } else {
          RelabelVerdict(s.sock, op, idle);
          hide Decide;
        }
        hide SendBuffer;
      case Serve(idle) =>
        if s.pipe[0].Control? {
          RelabelVerdict(s.sock, s.pipe[0].op, idle);
        }
        hide Decide;
      case _ =>
        hide Decide;
    }
  }

  /** Such a socket refuses nothing before its start, so only the freeing of the lists can cost order. */
  lemma {:induction false} OpenedIsStarted(s: State, steps: seq<Step>)
    requires Start(s) && !s.sock.kind.PAccept?
    ensures !Exec(s, steps).sock.kind.PAccept? && Exec(s, steps).early == []
  {
    hide Inv, Do, CanDo, Start;
    if steps == [] {
      StartFresh(s);
    } else {
      var before, step := Exec(s, steps[..|steps| - 1]), steps[|steps| - 1];
      OpenedIsStarted(s, steps[..|steps| - 1]);
      RunInv(s, steps[..|steps| - 1]);
      if CanDo(before, step) {
        StaysStarted(before, step);
      }
    }
  }

  // ---------------------------------------------------------------- runs that lose it

  function Unused(kind: Kind): State {
    State(Sock(kind, false, [], [], 0, None, [], []), Idle, None, 0, [], map[], [], [], [], NOTHING_FREED)
  }

  lemma OneMore(b: State, steps: seq<Step>, x: Step)
    requires CanDo(Exec(b, steps), x)
    ensures Exec(b, steps + [x]) == Do(Exec(b, steps), x)
  {
    assert (steps + [x])[..|steps|] == steps;
  }

  /** A send call whose unlocked check fails: its message is queued, or refused before the start. */
  lemma SendsByPipe(b: State, before: seq<Step>, t: nat, values: seq<bv8>) returns (steps: seq<Step>)
    requires var s := Exec(b, before);
             && s.worker.Idle? && s.pipe == [] && t !in s.pcs && s.sending < MAX_SENDING
             && s.sock.kind in {Connected, PAccept} && !s.sock.closing
    ensures var s := Exec(b, before);
            var m := Stamp(|s.calls|, t, true, values);
            Exec(b, steps) == s.(sock := SendSocket(s.sock, m), calls := s.calls + [m],
                                 early := if s.sock.kind.PAccept? then s.early + [m] else s.early)
  {
    hide Exec, SendSocket, Decide, Stamp;
    var s := Exec(b, before);
    var m := Stamp(|s.calls|, t, true, values);
    OneMore(b, before, Begin(t, true, values));
    steps := before + [Begin(t, true, values)];
    OneMore(b, steps, FirstCheck(t, false));
    steps := steps + [FirstCheck(t, false)];
    OneMore(b, steps, Count(t));
    steps := steps + [Count(t)];
    OneMore(b, steps, Push(t));
    steps := steps + [Push(t)];
    assert Exec(b, steps) == s.(sending := s.sending + 1, calls := s.calls + [m], pipe := [Send(m)]);
    OneMore(b, steps, Serve(false));
    steps := steps + [Serve(false)];
    OneMore(b, steps, Settled);
    steps := steps + [Settled];
  }

  /** A send call that finds nothing waiting gets past both checks and writes directly. */
  lemma SendsDirectly(b: State, before: seq<Step>, t: nat, values: seq<bv8>, w: Write) returns (steps: seq<Step>)
    requires var s := Exec(b, before);
             && s.lock == None && t !in s.pcs && s.sending == 0
             && s.sock.kind.Connected? && s.sock.high == [] && s.sock.low == [] && s.sock.dw.None?
    ensures var s := Exec(b, before);
            var m := Stamp(|s.calls|, t, true, values);
            Exec(b, steps) == s.(sock := DirectWrite(s.sock, m, w), calls := s.calls + [m])
  {
    hide Exec, DirectWrite, Decide, Stamp;
    var s := Exec(b, before);
    var m := Stamp(|s.calls|, t, true, values);
    OneMore(b, before, Begin(t, true, values));
    steps := before + [Begin(t, true, values)];
    OneMore(b, steps, FirstCheck(t, true));
    steps := steps + [FirstCheck(t, true)];
    OneMore(b, steps, TryLock(t));
    steps := steps + [TryLock(t)];
    assert Exec(b, steps) == s.(lock := Some(t), calls := s.calls + [m], pcs := s.pcs[t := Pc(SecondHigh, m)]);
    for i := 0 to 5
      invariant Exec(b, steps) == s.(lock := Some(t), calls := s.calls + [m], pcs := s.pcs[t := Pc(Reads(i), m)])
    {
      OneMore(b, steps, SecondRead(t));
      steps := steps + [SecondRead(t)];
    }
    OneMore(b, steps, Direct(t, w));
    steps := steps + [Direct(t, w)];
    assert s.pcs[t := Pc(Writing, m)] - {t} == s.pcs;
  }

  function Reads(i: nat): Stage {
    if i == 0 then SecondHigh else if i == 1 then SecondLow else if i == 2 then SecondDw
    else if i == 3 then SecondSending else if i == 4 then SecondKind else Writing
  }

  /** `socket_server_shutdown` up to the point where the lists are freed and the lock is not taken yet. */
  lemma ShutsDown(b: State, before: seq<Step>) returns (steps: seq<Step>)
    requires var s := Exec(b, before);
             s.worker.Idle? && s.pipe == [] && s.sock.kind.Connected? && s.sock.dw.None?
    ensures var s := Exec(b, before);
            Exec(b, steps) == s.(sock := FreeLists(s.sock), worker := Freed,
                                      past := Past(s.sock.wire, s.sock.begun, s.sock.high, s.sock.low))
  {
    hide Exec, Flow, Unbegun;
    var s := Exec(b, before);
    OneMore(b, before, Command(CloseCmd(true)));
    steps := before + [Command(CloseCmd(true))];
    OneMore(b, steps, Serve(false));
    steps := steps + [Serve(false)];
    Neutral(s.dropped);
    assert Exec(b, steps) == s.(worker := Closing);
    OneMore(b, steps, Free);
    steps := steps + [Free];
  }

  /** The kernel takes one byte of the first of two messages. */
  lemma TakesOne(b: State, before: seq<Step>, m0: Msg, m1: Msg) returns (steps: seq<Step>)
    requires |m0.data| == 2
    requires var s := Exec(b, before);
             && s.worker.Idle? && s.lock == None && s.sock.kind.Connected?
             && s.sock.high == [Item(m0, 0), Item(m1, 0)] && s.sock.dw.None?
    ensures var s := Exec(b, before);
            Exec(b, steps) == s.(sock := s.sock.(high := [Item(m0, 1), Item(m1, 0)], wbSize := s.sock.wbSize - 1,
                                                      wire := s.sock.wire + [m0.data[0]], begun := s.sock.begun + [m0]))
  {
    hide Exec, Flow;
    var s, op := Exec(b, before), WriteEvent([Accept(1)]);
    OneMore(b, before, Poll(op, true));
    steps := before + [Poll(op, true)];
    assert SendList(s.sock.high, [Accept(1)]) ==
           Sent([Item(m0, 1), Item(m1, 0)], [m0.data[0]], [m0], [], false);
    Neutral(s.dropped);
  }

  /** Two messages wait, the first is cut after one byte, and a third is written between free and lock. */
  lemma LosingRun(m0: Msg, m1: Msg, m2: Msg) returns (steps: seq<Step>)
    requires m0 == Stamp(0, 0, true, [1, 2]) && m1 == Stamp(1, 0, true, [3]) && m2 == Stamp(2, 0, true, [9])
    ensures var e := Exec(Unused(Connected), steps);
            && e.past == Past([m0.data[0]], [m0], [Item(m0, 1), Item(m1, 0)], [])
            && e.sock.begun == [m0, m2] && e.sock.wire == [m0.data[0]] + m2.data
  {
    var b := Unused(Connected);
    hide Exec, DirectWrite, CanDo, Do;
    assert Exec(b, []) == b by { ExecNone(b); }
    steps := SendsByPipe(b, [], 0, [1, 2]);
    steps := SendsByPipe(b, steps, 0, [3]);
    assert Exec(b, steps).sock.high == [Item(m0, 0), Item(m1, 0)];
    steps := TakesOne(b, steps, m0, m1);
    steps := ShutsDown(b, steps);
    var s := Exec(b, steps);
    steps := SendsDirectly(b, steps, 0, [9], Accept(1));
    DirectOutcome(s.sock, m2, Accept(1));
  }

  /**
   The input at which the promise fails: two messages wait, one byte of the first is taken, the
   socket is shut down, and the same thread's third message is written before the lock is taken.
   The second message is overtaken and the first is torn.
   */
  lemma ShutdownLosesOrder() returns (steps: seq<Step>)
    ensures Start(Unused(Connected))
    ensures var e := Exec(Unused(Connected), steps);
            && !(Of(Class(0, true), e.sock.begun) <= Of(Class(0, true), e.calls))
            && !(e.sock.wire <= Concat(e.sock.begun))
  {
    var b, c := Unused(Connected), Class(0, true);
    var m0, m1, m2 := Stamp(0, 0, true, [1, 2]), Stamp(1, 0, true, [3]), Stamp(2, 0, true, [9]);
    steps := LosingRun(m0, m1, m2);
    var e := Exec(b, steps);
    assert LateBegun(e) == [m2] && LateWire(e) == m2.data;
    assert Of(c, Waiting(e.past)) != [] by {
      WaitingSecond(m0, m1);
      OfOne(c, m1);
    }
    assert Of(c, LateBegun(e)) != [] by {
      OfOne(c, m2);
    }
    assert CutRest(e.past.high) != [];
    hide Exec, Of, Waiting, LateBegun, LateWire, CutRest, Overtaken, Torn, Concat;
    OvertakenIff(b, steps, c);
    TornIff(b, steps);
    FifoPerCaller(b, steps, c);
    NoMessageTorn(b, steps);
  }

  /**
   An accepted socket that is not started yet: what is sent is thrown away, and once it is started
   the next message of the same thread goes out.
   */
  lemma UnstartedLosesOrder() returns (steps: seq<Step>)
    ensures Start(Unused(PAccept))
    ensures var e := Exec(Unused(PAccept), steps); !(Of(Class(0, true), e.sock.begun) <= Of(Class(0, true), e.calls))
  {
    var b, c := Unused(PAccept), Class(0, true);
    var m0, m1 := Stamp(0, 0, true, [1]), Stamp(1, 0, true, [2]);
    assert Exec(b, []) == b by { ExecNone(b); }
    hide Exec, DirectWrite, CanDo, Do;
    steps := SendsByPipe(b, [], 0, [1]);
    assert Exec(b, steps) == b.(calls := [m0], early := [m0]);
    steps := StartsAccepted(b, steps);
    steps := SendsDirectly(b, steps, 0, [2], Accept(1));
    DirectOutcome(Unused(Connected).sock, m1, Accept(1));
    OfOne(c, m0);
    OfOne(c, m1);
    FifoPerCaller(b, steps, c);
  }

  /** `socket_server_start` on an accepted socket. */
  lemma StartsAccepted(b: State, before: seq<Step>) returns (steps: seq<Step>)
    requires var s := Exec(b, before); s.worker.Idle? && s.pipe == [] && s.sock.kind.PAccept?
    ensures var s := Exec(b, before); Exec(b, steps) == s.(sock := s.sock.(kind := Connected))
  {
    hide Exec, Flow;
    OneMore(b, before, Command(ResumeCmd));
    steps := before + [Command(ResumeCmd)];
    OneMore(b, steps, Serve(true));
    steps := steps + [Serve(true)];
    Neutral(Exec(b, before).dropped);
  }

  lemma ExecNone(b: State)
    ensures Exec(b, []) == b
  {
  }

  lemma WaitingSecond(m0: Msg, m1: Msg)
    ensures Unbegun([Item(m0, 1), Item(m1, 0)]) + Unbegun([]) == [m1]
  {
    assert [Item(m0, 1), Item(m1, 0)][1..] == [Item(m1, 0)];
    assert [Item(m1, 0)][1..] == [];
  }
}
