/**
 Workers, services and the global list as one transition system (skynet-src/skynet_server.c over
 skynet-src/skynet_mq.c), for any number of workers and of threads sending messages. A step is
 one region under a lock: `skynet_globalmq_pop`, `skynet_mq_pop`, `skynet_mq_push` and
 `skynet_globalmq_push`; `MessageQueue` proves what each does to the real structures.
 */
module Scheduler {
  import opened Sequences

  datatype Msg = Msg(source: nat, session: nat)

  datatype Service = Service(concurrent: bool, published: bool, inGlobal: bool, ring: seq<Msg>)

  /** A worker inside `skynet_message_dispatch`: it has taken the queue, or runs the callback. */
  datatype Task = Held(sid: nat) | Running(sid: nat, msg: Msg)

  datatype State = State(
    services: map<nat, Service>,
    global: seq<nat>,
    workers: map<nat, Task>,
    posted: map<nat, seq<Msg>>,      // every message pushed to a service
    handled: map<nat, seq<Msg>>)     // every message popped for its callback

  datatype Step =
    | Create(sid: nat, concurrent: bool)
    | Publish(sid: nat)              // end of skynet_service_create
    | Post(sid: nat, m: Msg)         // skynet_mq_push, from a callback or from any other thread
    | Take(w: nat)                   // skynet_globalmq_pop
    | Run(w: nat)                    // skynet_mq_pop
    | Finish(w: nat)                 // the callback is over

  predicate CanDo(s: State, step: Step) {
    match step
    case Create(sid, _) => sid !in s.services
    case Publish(sid) => sid in s.services && !s.services[sid].published
    case Post(sid, _) => sid in s.services
    case Take(w) => w !in s.workers && s.global != [] && s.global[0] in s.services
    case Run(w) => w in s.workers && s.workers[w].Held? && s.workers[w].sid in s.services
    case Finish(w) => w in s.workers && s.workers[w].Running? && s.workers[w].sid in s.services
  }

  function Get(m: map<nat, seq<Msg>>, sid: nat): seq<Msg> {
    if sid in m then m[sid] else []
  }

  function Do(s: State, step: Step): State
    requires CanDo(s, step)
  {
    match step
    case Create(sid, concurrent) =>
      s.(services := s.services[sid := Service(concurrent, false, true, [])],
         posted := s.posted[sid := []], handled := s.handled[sid := []])
    case Publish(sid) =>
      s.(services := s.services[sid := s.services[sid].(published := true)], global := s.global + [sid])
    case Post(sid, m) =>
      var v := s.services[sid];
      var s' := s.(services := s.services[sid := v.(ring := v.ring + [m], inGlobal := true)],
                   posted := s.posted[sid := Get(s.posted, sid) + [m]]);
      if v.inGlobal then s' else s'.(global := s.global + [sid])
    case Take(w) =>
      var sid := s.global[0];
      s.(global := s.global[1..] + (if s.services[sid].concurrent then [sid] else []),
         workers := s.workers[w := Held(sid)])
    case Run(w) =>
      var sid := s.workers[w].sid;
      var v := s.services[sid];
      if v.ring == [] then
        s.(services := s.services[sid := v.(inGlobal := v.inGlobal && v.concurrent)], workers := s.workers - {w})
      else
        s.(services := s.services[sid := v.(ring := v.ring[1..])], workers := s.workers[w := Running(sid, v.ring[0])],
           handled := s.handled[sid := Get(s.handled, sid) + [v.ring[0]]])
    case Finish(w) =>
      var sid := s.workers[w].sid;
      s.(global := s.global + (if s.services[sid].concurrent then [] else [sid]), workers := s.workers - {w})
  }

  function Exec(s: State, steps: seq<Step>): State {
    if steps == [] then s
    else
      var before := Exec(s, steps[..|steps| - 1]);
      if CanDo(before, steps[|steps| - 1]) then Do(before, steps[|steps| - 1]) else before
  }

  const BOOT := State(map[], [], map[], map[], map[])

  // ---------------------------------------------------------------- the invariant

  function Owners(s: State, sid: nat): set<nat> {
    set w | w in s.workers && s.workers[w].sid == sid
  }

  function Times(s: State, sid: nat): nat {
    multiset(s.global)[sid]
  }

  /**
   The four places a queue can be in, counted: in the making, `times` in the global list, with `owners`
   workers, or idle.
   */
  function Places(v: Service, times: nat, owners: nat): int {
    (if v.published then 0 else 1) + times + owners + if v.inGlobal then 0 else 1
  }

  predicate WellPlaced(v: Service, times: nat, owners: nat) {
    if v.concurrent then
      v.inGlobal && times == (if v.published then 1 else 0) && (!v.published ==> owners == 0)
    else
      Places(v, times, owners) == 1 && (!v.inGlobal ==> v.ring == [])
  }

  predicate Placed(s: State, sid: nat)
    requires sid in s.services
  {
    WellPlaced(s.services[sid], Times(s, sid), |Owners(s, sid)|)
  }

  ghost predicate Inv(s: State) {
    && (forall sid :: sid in s.services ==> Placed(s, sid))
    && (forall sid :: sid in s.global ==> sid in s.services)
    && (forall w :: w in s.workers ==> s.workers[w].sid in s.services)
    && (forall sid :: sid in s.services ==> Get(s.posted, sid) == Get(s.handled, sid) + s.services[sid].ring)
    && (forall sid :: sid !in s.services ==> Get(s.posted, sid) == [] && Get(s.handled, sid) == [])
  }

  /** How a step changes the owners of one queue. */
  lemma OwnersStep(s: State, step: Step, x: nat)
    requires CanDo(s, step)
    ensures var s' := Do(s, step);
            match step
            case Take(w) => Owners(s', x) == Owners(s, x) + (if x == s.global[0] then {w} else {}) && w !in Owners(s, x)
            case Run(w) => Owners(s', x) == Owners(s, x) - (if s.services[s.workers[w].sid].ring == [] then {w} else {})
            case Finish(w) => Owners(s', x) == Owners(s, x) - {w}
            case _ => Owners(s', x) == Owners(s, x)
  {
  }

  lemma OwnerIs(s: State, w: nat, x: nat)
    requires w in s.workers
    ensures w in Owners(s, x) <==> s.workers[w].sid == x
  {
  }

  /** How a step changes their number. */
  lemma OwnerCountStep(s: State, step: Step, x: nat)
    requires CanDo(s, step)
    ensures |Owners(Do(s, step), x)| == |Owners(s, x)| +
            match step
            case Take(w) => if x == s.global[0] then 1 else 0
            case Run(w) => if x == s.workers[w].sid && s.services[x].ring == [] then -1 else 0
            case Finish(w) => if x == s.workers[w].sid then -1 else 0
            case _ => 0
  {
    OwnersStep(s, step, x);
    hide Owners, Do;
    match step {
      case Run(w) => OwnerIs(s, w, x);
      case Finish(w) => OwnerIs(s, w, x);
      case _ =>
    }
  }

  lemma GlobalStep(s: State, step: Step)
    requires CanDo(s, step)
    ensures Do(s, step).global ==
            match step
            case Publish(sid) => s.global + [sid]
            case Post(sid, _) => s.global + if s.services[sid].inGlobal then [] else [sid]
            case Take(_) => s.global[1..] + if s.services[s.global[0]].concurrent then [s.global[0]] else []
            case Finish(w) =>
              s.global + if s.services[s.workers[w].sid].concurrent then [] else [s.workers[w].sid]
            case _ => s.global
  {
    Neutral(s.global);
  }

  /** How often a queue is in the list after one is taken from its front and one appended. */
  lemma TimesIn(g: seq<nat>, x: nat, y: nat)
    ensures multiset(g + [y])[x] == multiset(g)[x] + if x == y then 1 else 0
    ensures g != [] ==> multiset(g[1..])[x] == multiset(g)[x] - if x == g[0] then 1 else 0
  {
    if g != [] {
      assert g == [g[0]] + g[1..];
    }
  }

  lemma TimesStep(s: State, step: Step, x: nat)
    requires CanDo(s, step)
    ensures Times(Do(s, step), x) == Times(s, x) +
            match step
            case Publish(sid) => if x == sid then 1 else 0
            case Post(sid, _) => if x == sid && !s.services[sid].inGlobal then 1 else 0
            case Take(w) => if x == s.global[0] && !s.services[x].concurrent then -1 else 0
            case Finish(w) => if x == s.workers[w].sid && !s.services[x].concurrent then 1 else 0
            case _ => 0
  {
    GlobalStep(s, step);
    hide Do;
    match step {
      case Publish(sid) => TimesIn(s.global, x, sid);
      case Post(sid, _) => TimesIn(s.global, x, sid);
      case Take(_) =>
        TimesIn(s.global, x, s.global[0]);
        TimesIn(s.global[1..], x, s.global[0]);
      case Finish(w) => TimesIn(s.global, x, s.workers[w].sid);
      case _ =>
    }
  }

  /** How a step changes the record of one service. */
  lemma RecordStep(s: State, step: Step, x: nat)
    requires CanDo(s, step) && x in s.services
    ensures x in Do(s, step).services
    ensures var v, v' := s.services[x], Do(s, step).services[x];
            match step
            case Publish(sid) => v' == if x == sid then v.(published := true) else v
            case Post(sid, m) => v' == if x == sid then v.(ring := v.ring + [m], inGlobal := true) else v
            case Run(w) =>
              v' == if x != s.workers[w].sid then v
                    else if v.ring == [] then v.(inGlobal := v.inGlobal && v.concurrent) else v.(ring := v.ring[1..])
            case _ => v' == v
  {
  }

  lemma PlacedStep(s: State, step: Step, x: nat)
    requires Inv(s) && CanDo(s, step) && x in s.services
    ensures x in Do(s, step).services && Placed(Do(s, step), x)
  {
    OwnerCountStep(s, step, x);
    TimesStep(s, step, x);
    RecordStep(s, step, x);
    assert Placed(s, x);
    match step {
      case Run(w) => OwnedOnce(s, w);
      case Finish(w) => OwnedOnce(s, w);
      case _ =>
    }
    hide Owners, Times, Do, Inv;
  }

  lemma OwnedOnce(s: State, w: nat)
    requires w in s.workers
    ensures |Owners(s, s.workers[w].sid)| >= 1
  {
    assert w in Owners(s, s.workers[w].sid);
  }

  /** How a step changes the logs of one service. */
  lemma LogStep(s: State, step: Step, x: nat)
    requires CanDo(s, step)
    ensures Get(Do(s, step).posted, x) ==
            match step
            case Create(sid, _) => if x == sid then [] else Get(s.posted, x)
            case Post(sid, m) => if x == sid then Get(s.posted, x) + [m] else Get(s.posted, x)
            case _ => Get(s.posted, x)
    ensures Get(Do(s, step).handled, x) ==
            match step
            case Create(sid, _) => if x == sid then [] else Get(s.handled, x)
            case Run(w) =>
              if x == s.workers[w].sid && s.services[x].ring != [] then Get(s.handled, x) + [s.services[x].ring[0]]
              else Get(s.handled, x)
            case _ => Get(s.handled, x)
  {
    hide Placed;
  }

  lemma OrderStep(s: State, step: Step, x: nat)
    requires Inv(s) && CanDo(s, step) && x in s.services
    ensures x in Do(s, step).services
    ensures Get(Do(s, step).posted, x) == Get(Do(s, step).handled, x) + Do(s, step).services[x].ring
  {
    hide Do, Get, Placed;
    LogStep(s, step, x);
    RecordStep(s, step, x);
    var done, ring := Get(s.handled, x), s.services[x].ring;
    assert Get(s.posted, x) == done + ring;
    match step {
      case Post(sid, m) => Assoc(done, ring, [m]);
      case Run(w) =>
        if ring != [] {
          assert [ring[0]] + ring[1..] == ring;
          Assoc(done, [ring[0]], ring[1..]);
        }
      case _ =>
    }
  }

  lemma ServicesStep(s: State, step: Step)
    requires CanDo(s, step)
    ensures Do(s, step).services.Keys == s.services.Keys + if step.Create? then {step.sid} else {}
    ensures step.Create? ==> Do(s, step).services[step.sid] == Service(step.concurrent, false, true, [])
  {
  }

  lemma RefsStep(s: State, step: Step)
    requires Inv(s) && CanDo(s, step)
    ensures forall sid :: sid in Do(s, step).global ==> sid in s.services
    ensures forall w :: w in Do(s, step).workers ==> Do(s, step).workers[w].sid in s.services
  {
    hide Placed, Get;
  }

  lemma CreatedPlaced(s: State, step: Step)
    requires Inv(s) && CanDo(s, step) && step.Create?
    ensures step.sid in Do(s, step).services && Placed(Do(s, step), step.sid)
    ensures var s' := Do(s, step);
            Get(s'.posted, step.sid) == Get(s'.handled, step.sid) + s'.services[step.sid].ring
  {
    OwnerCountStep(s, step, step.sid);
    TimesStep(s, step, step.sid);
    assert step.sid !in s.global && Owners(s, step.sid) == {};
  }

  lemma StepInv(s: State, step: Step)
    requires Inv(s) && CanDo(s, step)
    ensures Inv(Do(s, step))
  {
    hide Do, Placed, Get;
    var s' := Do(s, step);
    ServicesStep(s, step);
    RefsStep(s, step);
    forall x
      ensures x in s'.services ==> Placed(s', x) && Get(s'.posted, x) == Get(s'.handled, x) + s'.services[x].ring
      ensures x !in s'.services ==> Get(s'.posted, x) == [] && Get(s'.handled, x) == []
    {
      LogStep(s, step, x);
      if x in s.services {
        PlacedStep(s, step, x);
        OrderStep(s, step, x);
      } else if x in s'.services {
        CreatedPlaced(s, step);
      } else {
        UnknownStep(s, step, x);
      }
    }
  }

  lemma UnknownStep(s: State, step: Step, x: nat)
    requires Inv(s) && CanDo(s, step) && x !in s.services && x !in Do(s, step).services
    ensures Get(Do(s, step).posted, x) == [] && Get(Do(s, step).handled, x) == []
  {
    hide Placed;
  }

  lemma {:induction false} RunInv(steps: seq<Step>)
    ensures Inv(Exec(BOOT, steps))
  {
    hide Do, CanDo;
    if steps != [] {
      RunInv(steps[..|steps| - 1]);
      var before := Exec(BOOT, steps[..|steps| - 1]);
      if CanDo(before, steps[|steps| - 1]) {
        StepInv(before, steps[|steps| - 1]);
      }
    }
  }

  // ---------------------------------------------------------------- what the invariant gives

  /** Two workers never run the callback of one non-concurrent service together. */
  lemma OneWorkerPerService(steps: seq<Step>, w: nat, u: nat)
    ensures var s := Exec(BOOT, steps);
            w in s.workers && u in s.workers && s.workers[w].sid == s.workers[u].sid && w != u ==>
              s.workers[w].sid in s.services && s.services[s.workers[w].sid].concurrent
  {
    RunInv(steps);
    var s := Exec(BOOT, steps);
    if w in s.workers && u in s.workers && s.workers[w].sid == s.workers[u].sid && w != u {
      var sid := s.workers[w].sid;
      assert Placed(s, sid);
      assert {w, u} <= Owners(s, sid);
      TwoIsMore(Owners(s, sid), w, u);
    }
  }

  lemma TwoIsMore(s: set<nat>, a: nat, b: nat)
    requires a in s && b in s && a != b
    ensures |s| >= 2
  {
    assert s == {a} + (s - {a});
    assert b in s - {a};
  }

  /** No message is stranded: a published queue with messages is in the global list or owned by a worker. */
  lemma NothingStranded(steps: seq<Step>, sid: nat)
    ensures var s := Exec(BOOT, steps);
            sid in s.services && s.services[sid].published && s.services[sid].ring != [] ==>
              sid in s.global || Owners(s, sid) != {}
  {
    RunInv(steps);
    var s := Exec(BOOT, steps);
    if sid in s.services {
      assert Placed(s, sid);
    }
  }

  /** A queue is never in the global list twice, so the linked list stays acyclic. */
  lemma ListedOnce(steps: seq<Step>, i: nat, j: nat)
    ensures var s := Exec(BOOT, steps); i < j < |s.global| ==> s.global[i] != s.global[j]
  {
    RunInv(steps);
    var s := Exec(BOOT, steps);
    if i < j < |s.global| && s.global[i] == s.global[j] {
      var g := s.global;
      assert g[i] in g && Placed(s, g[i]);
      hide Placed, Exec;
      Twice(g, i, j);
    }
  }

  lemma Twice(g: seq<nat>, i: nat, j: nat)
    requires i < j < |g| && g[i] == g[j]
    ensures multiset(g)[g[i]] >= 2
  {
    assert g == g[..j] + g[j..];
    assert g[..j][i] in multiset(g[..j]) && g[j..][0] in multiset(g[j..]);
  }

  /** `skynet_mq_push` publishes only a queue that is in no list and owned by nobody. */
  lemma PublishedOnlyWhenFree(steps: seq<Step>, sid: nat)
    ensures var s := Exec(BOOT, steps);
            sid in s.services && !s.services[sid].inGlobal ==>
              sid !in s.global && Owners(s, sid) == {} && s.services[sid].ring == [] && s.services[sid].published
  {
    RunInv(steps);
    var s := Exec(BOOT, steps);
    if sid in s.services {
      assert Placed(s, sid);
    }
  }

  /** Every service handles its messages in the order they were pushed, each once. */
  lemma HandledInOrder(steps: seq<Step>, sid: nat)
    ensures var s := Exec(BOOT, steps);
            Get(s.handled, sid) <= Get(s.posted, sid)
  {
    RunInv(steps);
  }

  /** The queues the workers took from the global list during a run, in order. */
  function Taken(s: State, steps: seq<Step>): seq<nat> {
    if steps == [] then []
    else
      var before, last := Exec(s, steps[..|steps| - 1]), steps[|steps| - 1];
      Taken(s, steps[..|steps| - 1]) + if last.Take? && CanDo(before, last) then [before.global[0]] else []
  }

  /** The list loses its front to a `Take` and otherwise only grows at its end. */
  lemma FrontStays(s: State, step: Step)
    requires CanDo(s, step)
    ensures (if step.Take? then s.global[1..] else s.global) <= Do(s, step).global
  {
    GlobalStep(s, step);
    hide Do;
  }

  /** From any state on, the queues taken and those still listed begin with the queues listed at the start. */
  lemma {:induction false} ServedInListOrder(s: State, steps: seq<Step>)
    ensures s.global <= Taken(s, steps) + Exec(s, steps).global
  {
    if steps == [] {
      Neutral(s.global);
    } else {
      var before, last := Exec(s, steps[..|steps| - 1]), steps[|steps| - 1];
      var taken := Taken(s, steps[..|steps| - 1]);
      ServedInListOrder(s, steps[..|steps| - 1]);
      Neutral(taken);
      if CanDo(before, last) {
        FrontStays(before, last);
        var kept := if last.Take? then before.global[1..] else before.global;
        if last.Take? {
          assert before.global == [before.global[0]] + kept;
          Assoc(taken, [before.global[0]], kept);
        }
        hide Do, CanDo;
        StillPrefix(s.global, Taken(s, steps), kept, Exec(s, steps).global);
      }
    }
  }

  lemma StillPrefix(g: seq<nat>, a: seq<nat>, b: seq<nat>, c: seq<nat>)
    requires g <= a + b && b <= c
    ensures g <= a + c
  {
    assert a + c == a + b + c[|b|..];
  }

  /**
   No queue overtakes another, on any run: the queue `i` places behind the front is the one taken after
   `i` others, and until then it is exactly as many places further forward as queues have been taken.
   */
  lemma NoOvertaking(s: State, steps: seq<Step>, i: nat)
    requires i < |s.global|
    ensures var taken, global := Taken(s, steps), Exec(s, steps).global;
            if i < |taken| then taken[i] == s.global[i]
            else i - |taken| < |global| && global[i - |taken|] == s.global[i]
  {
    ServedInListOrder(s, steps);
    assert s.global[i] == (Taken(s, steps) + Exec(s, steps).global)[i];
  }
}
