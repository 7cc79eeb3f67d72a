/**
 The timer object of skynet-src/skynet_timer.c with its lists changed in place, proved against
 the history specification of `TimerWheel`.
 */
module Timer {
  import opened Options
  import opened TimerWheel

  /** The timers other threads register, as entries of the specification. */
  function Entries<E>(rs: seq<Request<E>>, now: nat): (h: seq<Entry<E>>)
    ensures |h| == |rs|
    ensures forall x :: x in h ==> now < x.due < now + HALF
  {
    if rs == [] then []
    else Entries(rs[..|rs| - 1], now) + [Entry(now + rs[|rs| - 1].delay, rs[|rs| - 1].event)]
  }

  lemma WireAdd(now: nat, delay: Delay)
    ensures (delay + Wire(now)) % WORD == Wire(now + delay)
  {
  }

  /** The weight of the digit that indexes a far level. */
  function Unit(i: nat): (r: int)
    requires i < 4
    ensures r >= 0x100
  {
    [0x100, 0x4000, 0x100000, 0x4000000][i]
  }

  /** No level below `i` compares equal. */
  predicate HigherDiffers(e: U32, t: U32, i: nat) {
    && e / 0x100 != t / 0x100
    && (i > 0 ==> e / 0x4000 != t / 0x4000)
    && (i > 1 ==> e / 0x100000 != t / 0x100000)
    && (i > 2 ==> e / 0x4000000 != t / 0x4000000)
  }

  /** The loop of `add_node` stops at the level `PlaceOf` names. */
  lemma FoundLevel(e: U32, t: U32, i: nat)
    requires i < 4 && HigherDiffers(e, t, i) && (i < 3 ==> e / (Unit(i) * 64) == t / (Unit(i) * 64))
    ensures PlaceOf(e, t) == Far(i, e / Unit(i) % 64)
  {
    if i == 0 {} else if i == 1 {} else if i == 2 {} else {}
  }

  lemma NearOrFar(e: U32, t: U32)
    ensures e / 0x100 == t / 0x100 ==> PlaceOf(e, t) == Near(e % 0x100)
  {
  }

  predicate LowDigitsZero(t: U32, i: nat)
    requires i < 4
  {
    && (i > 0 ==> t % 0x100 == 0 && t / 0x100 % 64 == 0)
    && (i > 1 ==> t / 0x4000 % 64 == 0)
    && (i > 2 ==> t / 0x100000 % 64 == 0)
  }

  /** One turn of the loop of `timer_shift`: it stops at the lowest non-zero digit. */
  lemma LevelStep(t: U32, i: nat)
    requires i < 4 && t != 0 && LowDigitsZero(t, i) && t % Unit(i) == 0
    ensures t % 0x100 == 0
    ensures t / Unit(i) % 64 != 0 ==> Cascade(t) == Some(Far(i, t / Unit(i) % 64))
    ensures t / Unit(i) % 64 == 0 ==> i < 3 && LowDigitsZero(t, i + 1) && t / Unit(i) / 64 == t / Unit(i + 1)
    ensures t / Unit(i) % 64 == 0 ==> t % Unit(i + 1) == 0 && Unit(i + 1) == Unit(i) * 64
  {
    var d := DigitsOf(t);
    if i == 0 {} else if i == 1 {} else if i == 2 {} else {}
  }

  lemma StartOfLoop(t: U32)
    ensures Unit(0) == 0x100 && LowDigitsZero(t, 0)
  {
  }

  lemma CascadeEnds(t: U32)
    ensures t == 0 ==> Cascade(t) == Some(Far(3, 0))
    ensures t % Unit(0) != 0 ==> Cascade(t) == None
  {
  }

  lemma TimeStep(t: U32, now: nat)
    requires t == Wire(now)
    ensures (t + 1) % WORD == Wire(now + 1)
  {
  }

  /** The slot of the current tick: what is due now before it is drained, and nothing afterwards. */
  lemma SlotIsDue<E>(l: Lists<E>, h: seq<Entry<E>>, now: nat, lo: nat)
    requires lo == now || lo == now + 1
    requires Canonical(l, h, lo, Wire(now)) && Window(h, now)
    ensures var slot := Near(Wire(now) % 0x100);
            && slot.Ok()
            && Canonical(l[slot := []], h, now + 1, Wire(now))
            && EventsOf(l[slot]) == (if lo == now then EventsDue(h, now) else [])
            && (EventsOf(l[slot]) == [] <==> l[slot] == [])
  {
    hide Sel, PlaceOf, Wire, EventsDue;
    var slot := Near(Wire(now) % 0x100);
    DrainIsExact(h, now, slot);
    if lo == now {
      CanonicalAfterDrain(l, h, now);
    } else {
      assert l[slot] == [];
      assert l[slot := []] == l;
    }
  }

  /** Every entry that `now` has added to the history of tick `from` is due after `from`. */
  ghost predicate Grown<E>(before: seq<Entry<E>>, after: seq<Entry<E>>, from: nat) {
    |before| <= |after| && after[..|before|] == before && forall x :: x in after[|before|..] ==> x.due > from
  }

  lemma GrownKeepsDue<E>(before: seq<Entry<E>>, after: seq<Entry<E>>, from: nat, k: nat)
    requires Grown(before, after, from) && k <= from
    ensures EventsDue(after, k) == EventsDue(before, k)
  {
    DueIsStable(before, after[|before|..], k);
    assert after == before + after[|before|..];
  }

  lemma EntriesGrow<E>(h: seq<Entry<E>>, rs: seq<Request<E>>, now: nat)
    ensures Grown(h, h + Entries(rs, now), now) && Grown(h, h, now)
  {
    assert (h + Entries(rs, now))[|h|..] == Entries(rs, now);
  }

  lemma GrownTwice<E>(a: seq<Entry<E>>, b: seq<Entry<E>>, c: seq<Entry<E>>, from: nat, later: nat)
    requires Grown(a, b, from) && Grown(b, c, later) && from <= later
    ensures Grown(a, c, from)
  {
    assert c == b + c[|b|..] && b == a + b[|a|..];
    assert c[|a|..] == b[|a|..] + c[|b|..];
  }

  lemma PutAllStep<E>(l: Lists<E>, list: seq<Node<E>>, t: U32)
    requires Complete(l)
    ensures PutAll(l, list[..0], t) == l
    ensures forall k :: 0 <= k < |list| ==> PutAll(l, list[..k + 1], t) == Put(PutAll(l, list[..k], t), list[k], t)
  {
    hide Put;
    forall k | 0 <= k < |list|
      ensures PutAll(l, list[..k + 1], t) == Put(PutAll(l, list[..k], t), list[k], t)
    {
      assert list[..k + 1][..k] == list[..k];
    }
  }

  class Timer<E> {
    const near: array<seq<Node<E>>>
    const far: array2<seq<Node<E>>>
    var time: U32
    var current: nat         // the uint64 counters of the update loop
    var currentPoint: nat
    ghost var now: nat                  // the clock without wrap-around
    ghost var history: seq<Entry<E>>    // every timer ever added, in order

    ghost predicate Shaped()
    {
      near.Length == 256 && far.Length0 == 4 && far.Length1 == 64
    }

    ghost function At(p: Place): seq<Node<E>>
      requires Shaped() && p.Ok()
      reads near, far
    {
      match p
      case Near(slot) => near[slot]
      case Far(level, slot) => far[level, slot]
    }

    ghost function View(): (l: Lists<E>)
      requires Shaped()
      reads near, far
      ensures Complete(l)
    {
      imap p: Place | p.Ok() :: At(p)
    }

    /** Every list is exactly the selection of the history that belongs there, from tick `lo` on. */
    ghost predicate ValidFrom(lo: nat)
      reads this, near, far
    {
      && Shaped()
      && time == Wire(now)
      && Window(history, now)
      && Canonical(View(), history, lo, time)
    }

    /** Between operations: nothing due at or before `now` is left, everything later is in its place. */
    ghost predicate Valid()
      reads this, near, far
    {
      ValidFrom(now + 1)
    }

    constructor ()
      ensures Valid() && fresh(near) && fresh(far)
      ensures history == [] && now == 0 && current == 0 && currentPoint == 0
    {
      near := new seq<Node<E>>[256](_ => []);
      far := new seq<Node<E>>[4, 64]((_, _) => []);
      time := 0;
      current, currentPoint := 0, 0;
      now := 0;
      history := [];
    }

    method AddNode(node: Node<E>)
      requires Shaped()
      modifies near, far
      ensures View() == Put(old(View()), node, time)
    {
      hide PlaceOf;
      var e := node.expire;
      NearOrFar(e, time);
      if e / 0x100 == time / 0x100 {
        near[e % 0x100] := near[e % 0x100] + [node];
      } else {
        var i, mask: int, unit: int := 0, 0x4000, 0x100;
        while i < 3 && e / mask != time / mask
          invariant 0 <= i <= 3 && unit == Unit(i) && mask == Unit(i) * 64
          invariant HigherDiffers(e, time, i)
        {
          i, mask, unit := i + 1, mask * 64, unit * 64;
        }
        FoundLevel(e, time, i);
        far[i, e / unit % 64] := far[i, e / unit % 64] + [node];
      }
    }

    method TimerAdd(event: E, delay: Delay)
      requires Valid()
      modifies this`history, near, far
      ensures Valid()
      ensures history == old(history) + [Entry(now + delay, event)]
    {
      hide PlaceOf, Wire, Canonical, Put;
      WireAdd(now, delay);
      var node := Node((delay + time) % WORD, event);
      ghost var x := Entry(now + delay, event);
      CanonicalAfterAdd(View(), history, x, now + 1, time);
      AddNode(node);
      history := history + [x];
    }

    method MoveList(level: nat, idx: nat)
      requires Shaped() && level < 4 && idx < 64
      modifies near, far
      ensures var c := Far(level, idx); View() == PutAll(old(View())[c := []], old(View())[c], time)
    {
      hide Put, PutAll;
      var list := far[level, idx];
      far[level, idx] := [];
      ghost var cleared := View();
      assert cleared == old(View())[Far(level, idx) := []];
      PutAllStep(cleared, list, time);
      var k := 0;
      while k < |list|
        invariant 0 <= k <= |list| && View() == PutAll(cleared, list[..k], time)
      {
        AddNode(list[k]);
        k := k + 1;
      }
      assert list[..k] == list;
    }

    /** The loop of `timer_shift`, after the clock has advanced. */
    method Redistribute()
      requires Shaped()
      modifies near, far
      ensures View() == Redistributed(old(View()), time)
    {
      hide PlaceOf, Cascade, Wire, Tick, Unit, LowDigitsZero, PutAll;
      CascadeEnds(time);
      if time == 0 {
        MoveList(3, 0);
      } else {
        StartOfLoop(time);
        var mask: int, rest: int, i := 0x100, time / 0x100, 0;
        while time % mask == 0
          invariant 0 <= i < 4 && mask == Unit(i) && rest == time / Unit(i)
          invariant LowDigitsZero(time, i) && (i > 0 ==> time % Unit(i) == 0)
          invariant View() == old(View())
          modifies near, far
          decreases 4 - i
        {
          var idx := rest % 64;
          LevelStep(time, i);
          if idx != 0 {
            assert Cascade(time) == Some(Far(i, idx));
            MoveList(i, idx);
            return;
          }
          mask, rest, i := mask * 64, rest / 64, i + 1;
        }
        assert Cascade(time) == None;
      }
    }

    /** One tick of the clock: canonical placement holds again after at most one list was rerouted. */
    method TimerShift()
      requires Valid()
      modifies this`time, this`now, near, far
      ensures now == old(now) + 1 && ValidFrom(now)
    {
      hide PlaceOf, Cascade, Wire, Tick, Canonical, Redistributed;
      TimeStep(time, now);
      CanonicalAfterShift(View(), history, now);
      time := (time + 1) % WORD;
      now := now + 1;
      Redistribute();
    }

    /** Hands every node of a detached list to its service; runs without the lock. */
    method DispatchList(list: seq<Node<E>>) returns (events: seq<E>)
      ensures events == EventsOf(list)
    {
      events := [];
      var k := 0;
      while k < |list|
        invariant 0 <= k <= |list| && events == EventsOf(list[..k])
      {
        assert list[..k + 1][..k] == list[..k];
        events := events + [list[k].event];
        k := k + 1;
      }
      assert list[..k] == list;
    }

    /** Other threads take the lock and register timers. */
    method Others(rs: seq<Request<E>>)
      requires Valid()
      modifies this`history, near, far
      ensures Valid() && history == old(history) + Entries(rs, now)
      ensures Grown(old(history), history, now)
    {
      EntriesGrow(history, rs, now);
      hide Canonical;
      var k := 0;
      while k < |rs|
        invariant 0 <= k <= |rs| && Valid()
        invariant history == old(history) + Entries(rs[..k], now)
      {
        assert rs[..k + 1][..k] == rs[..k];
        TimerAdd(rs[k].event, rs[k].delay);
        k := k + 1;
      }
      assert rs[..k] == rs;
    }

    /**
     Drains the current slot. `others(k)` are the timers other threads add in the k-th window
     in which the lock is open; none of them lands in the slot, so there is at most one window.
     */
    method TimerExecute(others: nat -> seq<Request<E>>, ghost lo: nat) returns (fired: seq<E>)
      requires lo == now || lo == now + 1
      requires ValidFrom(lo)
      modifies this`history, near, far
      ensures Valid()
      ensures fired == if lo == now then EventsDue(old(history), now) else []
      ensures history == if fired == [] then old(history) else old(history) + Entries(others(0), now)
    {
      hide Sel, PlaceOf, Wire, EventsDue, Entries;
      var idx := time % 0x100;
      var windows := 0;
      fired := [];
      SlotIsDue(View(), history, now, lo);
      while near[idx] != []
        invariant windows == 0 ==> ValidFrom(lo) && fired == [] && history == old(history) && View() == old(View())
        invariant windows > 0 ==> Valid() && near[idx] == [] && fired == EventsOf(old(near[idx])) && fired != []
        invariant windows > 0 ==> history == old(history) + Entries(others(0), now)
        decreases |near[idx]|
      {
        var current := near[idx];
        near[idx] := [];
        assert View() == old(View())[Near(idx) := []];
        var events := DispatchList(current);
        fired := fired + events;
        Others(others(windows));
        windows := windows + 1;
        SlotIsDue(View(), history, now, now + 1);
      }
      assert windows == 0 ==> View() == View()[Near(idx) := []];
    }

    /** One tick: exactly the timers due at the new time fire, whatever other threads add meanwhile. */
    method TimerUpdate(others: nat -> seq<Request<E>>) returns (fired: seq<E>)
      requires Valid()
      modifies this`time, this`now, this`history, near, far
      ensures Valid() && now == old(now) + 1
      ensures fired == EventsDue(history, now)
      ensures Grown(old(history), history, now)
      ensures history == if fired == [] then old(history) else old(history) + Entries(others(0), now)
    {
      hide Sel, PlaceOf, Wire, Canonical, EventsDue, Entries, Grown;
      var none := TimerExecute(others, now + 1);
      TimerShift();
      label shifted:
      fired := TimerExecute(others, now);
      EntriesGrow(old(history), others(0), now);
      GrownKeepsDue(old@shifted(history), history, now, now);
    }

    /** `skynet_timer_register`: a delay that is not positive is sent at once, not queued. */
    method Register(event: E, delay: int) returns (immediate: bool)
      requires Valid() && delay < HALF
      modifies this`history, near, far
      ensures Valid() && immediate == (delay <= 0)
      ensures history == if delay <= 0 then old(history) else old(history) + [Entry(now + delay, event)]
    {
      immediate := delay <= 0;
      if !immediate {
        TimerAdd(event, delay);
      }
    }

    /**
     The loop of `skynet_updatetime`: one `TimerUpdate` per elapsed tick, with `between(i)`
     registered by other threads before tick i and `during(i, _)` while it dispatches.
     */
    method RunTicks(diff: nat, between: nat -> seq<Request<E>>, during: (nat, nat) -> seq<Request<E>>)
      returns (ticks: seq<seq<E>>)
      requires Valid()
      modifies this`time, this`now, this`history, near, far
      ensures Valid() && |ticks| == diff && now == old(now) + diff
      ensures Grown(old(history), history, old(now))
      ensures forall k :: 0 <= k < diff ==> ticks[k] == EventsDue(history, old(now) + 1 + k)
    {
      hide Sel, PlaceOf, Wire, Canonical, EventsDue, Entries, Grown, Window;
      EntriesGrow(history, [], now);
      ticks := [];
      var i := 0;
      while i < diff
        invariant 0 <= i <= diff && |ticks| == i && Valid() && now == old(now) + i
        invariant Grown(old(history), history, old(now))
        invariant forall k :: 0 <= k < i ==> ticks[k] == EventsDue(history, old(now) + 1 + k)
      {
        ghost var before := history;
        Others(between(i));
        label added:
        var fired := TimerUpdate((w: nat) => during(i, w));
        GrownTwice(before, old@added(history), history, old(now) + i, now);
        GrownTwice(old(history), before, history, old(now), old(now) + i);
        forall k | 0 <= k < i
          ensures ticks[k] == EventsDue(history, old(now) + 1 + k)
        {
          GrownKeepsDue(before, history, old(now) + i, old(now) + 1 + k);
        }
        ticks := ticks + [fired];
        i := i + 1;
      }
    }

    /** `skynet_updatetime` at monotonic time `cp`. */
    method UpdateTime(cp: nat, between: nat -> seq<Request<E>>, during: (nat, nat) -> seq<Request<E>>)
      returns (ticks: seq<seq<E>>)
      requires Valid()
      modifies this, near, far
      ensures Valid() && currentPoint == cp
      ensures |ticks| == if cp < old(currentPoint) then 0 else (cp - old(currentPoint)) % WORD
      ensures now == old(now) + |ticks|
      ensures current == if |ticks| == 0 then old(current) else (old(current) + |ticks|) % 0x1_0000_0000_0000_0000
      ensures Grown(old(history), history, old(now))
      ensures forall k :: 0 <= k < |ticks| ==> ticks[k] == EventsDue(history, old(now) + 1 + k)
    {
      hide Canonical, EventsDue, Grown;
      EntriesGrow(history, [], now);
      ticks := [];
      if cp < currentPoint {
        currentPoint := cp;
      } else if cp != currentPoint {
        var diff := (cp - currentPoint) % WORD;
        currentPoint := cp;
        current := if diff == 0 then current else (current + diff) % 0x1_0000_0000_0000_0000;
        ticks := RunTicks(diff, between, during);
      }
    }
  }

  // ---------------------------------------------------------------- exactly once

  /** Everything handed over in the ticks a .. b-1. */
  ghost function FiredDuring<E>(h: seq<Entry<E>>, a: nat, b: nat): seq<E>
    requires a <= b
    decreases b - a
  {
    if a == b then [] else FiredDuring(h, a, b - 1) + EventsDue(h, b - 1)
  }

  /** The timers of the history due in the ticks a .. b-1, each counted once. */
  ghost function AddedFor<E>(h: seq<Entry<E>>, a: nat, b: nat): multiset<E> {
    if h == [] then multiset{}
    else AddedFor(h[..|h| - 1], a, b) + if a <= h[|h| - 1].due < b then multiset{h[|h| - 1].event} else multiset{}
  }

  /** Over any stretch of ticks the events handed over are the timers due there: none lost, none twice. */
  lemma {:induction false} ExactlyOnce<E>(h: seq<Entry<E>>, a: nat, b: nat)
    requires a <= b
    ensures multiset(FiredDuring(h, a, b)) == AddedFor(h, a, b)
    decreases b - a
  {
    hide EventsDue, AddedFor;
    if a == b {
      NoneAdded(h, a);
    } else {
      ExactlyOnce(h, a, b - 1);
      OneTickMore(h, a, b - 1);
      CountConcat(FiredDuring(h, a, b - 1), EventsDue(h, b - 1));
    }
  }

  lemma CountConcat<T>(x: seq<T>, y: seq<T>)
    ensures multiset(x + y) == multiset(x) + multiset(y)
  {
  }

  lemma {:induction false} NoneAdded<E>(h: seq<Entry<E>>, a: nat)
    ensures AddedFor(h, a, a) == multiset{}
  {
    if h != [] {
      NoneAdded(h[..|h| - 1], a);
    }
  }

  lemma {:induction false} OneTickMore<E>(h: seq<Entry<E>>, a: nat, b: nat)
    requires a <= b
    ensures AddedFor(h, a, b + 1) == AddedFor(h, a, b) + multiset(EventsDue(h, b))
  {
    if h != [] {
      OneTickMore(h[..|h| - 1], a, b);
    }
  }
}
