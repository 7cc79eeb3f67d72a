/**
 The hierarchical timer wheel of skynet-src/skynet_timer.c: 256 near lists and four levels of
 64 lists over a wrapping 32-bit clock.

 The specification is a history of timers with unbounded due times. Every list of the wheel is
 a selection from that history (`Sel`), in the order the timers were added, so one invariant
 says that placement is canonical, that no timer is lost or doubled and that order is kept.

 The C code compares `x | (span-1)` with `y | (span-1)` and indexes with shifts and masks; for
 the power-of-two spans used here these are `x / span == y / span` and quotients and
 remainders, which is how they are written below.
 */
module TimerWheel {
  import opened Options

  const WORD := 0x1_0000_0000
  const HALF := 0x8000_0000

  type U32 = x: int | 0 <= x < WORD
  type Delay = d: int | 0 < d < HALF witness 1

  datatype Node<E> = Node(expire: U32, event: E)

  /** A timer of the specification: the unwrapped tick at which it is due. */
  datatype Entry<E> = Entry(due: nat, event: E)

  datatype Request<E> = Request(event: E, delay: Delay)

  datatype Place = Near(slot: nat) | Far(level: nat, slot: nat) {
    predicate Ok() {
      match this
      case Near(slot) => slot < 256
      case Far(level, slot) => level < 4 && slot < 64
    }

    predicate Below(i: nat) {
      Near? || level < i
    }
  }

  // ---------------------------------------------------------------- placement arithmetic

  /** The list `add_node` chooses for an expiry time when the clock shows `t`. */
  function PlaceOf(e: U32, t: U32): (p: Place)
    ensures p.Ok()
  {
    if e / 0x100 == t / 0x100 then Near(e % 0x100)
    else if e / 0x4000 == t / 0x4000 then Far(0, e / 0x100 % 64)
    else if e / 0x100000 == t / 0x100000 then Far(1, e / 0x4000 % 64)
    else if e / 0x4000000 == t / 0x4000000 then Far(2, e / 0x100000 % 64)
    else Far(3, e / 0x4000000 % 64)
  }

  /** The one list `timer_shift` redistributes when the clock becomes `ct`. */
  function Cascade(ct: U32): (p: Option<Place>)
  {
    if ct == 0 then Some(Far(3, 0))
    else if ct % 0x100 != 0 then None
    else if ct / 0x100 % 64 != 0 then Some(Far(0, ct / 0x100 % 64))
    else if ct / 0x4000 % 64 != 0 then Some(Far(1, ct / 0x4000 % 64))
    else if ct / 0x100000 % 64 != 0 then Some(Far(2, ct / 0x100000 % 64))
    else Some(Far(3, ct / 0x4000000 % 64))
  }

  function Tick(t: U32): U32 {
    (t + 1) % WORD
  }

  /** `e` lies 1 .. 2^31-1 ticks after `t` on the 32-bit circle. */
  predicate Ahead(e: U32, t: U32) {
    0 < (e - t) % WORD < HALF
  }

  /** A clock value split into its low byte and four 6-bit digits. */
  datatype Digits = Digits(n: int, a: int, b: int, c: int, d: int) {
    predicate Ok() {
      0 <= n < 256 && 0 <= a < 64 && 0 <= b < 64 && 0 <= c < 64 && 0 <= d < 64
    }

    function Value(): int {
      n + 0x100 * a + 0x4000 * b + 0x100000 * c + 0x4000000 * d
    }

    function Next(): Digits {
      if n < 255 then this.(n := n + 1)
      else if a < 63 then Digits(0, a + 1, b, c, d)
      else if b < 63 then Digits(0, 0, b + 1, c, d)
      else if c < 63 then Digits(0, 0, 0, c + 1, d)
      else if d < 63 then Digits(0, 0, 0, 0, d + 1)
      else Digits(0, 0, 0, 0, 0)
    }

    function Cascaded(): Option<Place>
      requires Ok()
    {
      if n != 0 then None
      else if a != 0 then Some(Far(0, a))
      else if b != 0 then Some(Far(1, b))
      else if c != 0 then Some(Far(2, c))
      else Some(Far(3, d))
    }

    function PlaceAt(t: Digits): Place
      requires Ok()
    {
      if (a, b, c, d) == (t.a, t.b, t.c, t.d) then Near(n)
      else if (b, c, d) == (t.b, t.c, t.d) then Far(0, a)
      else if (c, d) == (t.c, t.d) then Far(1, b)
      else if d == t.d then Far(2, c)
      else Far(3, d)
    }
  }

  lemma DigitsOf(x: U32) returns (r: Digits)
    ensures r.Ok() && r.Value() == x
    ensures x % 0x100 == r.n && x / 0x100 % 64 == r.a && x / 0x4000 % 64 == r.b
    ensures x / 0x100000 % 64 == r.c && x / 0x4000000 == r.d
    ensures x / 0x4000000 == r.d && x / 0x100000 == r.c + 64 * r.d
    ensures x / 0x4000 == r.b + 64 * (r.c + 64 * r.d)
    ensures x / 0x100 == r.a + 64 * (r.b + 64 * (r.c + 64 * r.d))
  {
    r := Digits(x % 0x100, x / 0x100 % 64, x / 0x4000 % 64, x / 0x100000 % 64, x / 0x4000000);
    DividedAgain(x);
  }

  /** Dividing by 64 again and again gives the next digit each time. */
  lemma DividedAgain(x: nat)
    ensures x / 0x100 / 64 == x / 0x4000 && x / 0x4000 / 64 == x / 0x100000 && x / 0x100000 / 64 == x / 0x4000000
  {
  }

  /** Clock values compare like their digits, most significant first. */
  lemma DigitsCompare(x: Digits, y: Digits)
    requires x.Ok() && y.Ok()
    ensures x.d < y.d ==> x.Value() < y.Value()
    ensures x.d == y.d && x.c < y.c ==> x.Value() < y.Value()
    ensures x.d == y.d && x.c == y.c && x.b < y.b ==> x.Value() < y.Value()
    ensures x.d == y.d && x.c == y.c && x.b == y.b && x.a < y.a ==> x.Value() < y.Value()
  {
  }

  lemma DigitsUnique(x: Digits, y: Digits)
    requires x.Ok() && y.Ok() && x.Value() == y.Value()
    ensures x == y
  {
    DigitsCompare(x, y);
    DigitsCompare(y, x);
  }

  lemma DigitsPlace(e: U32, t: U32) returns (x: Digits, y: Digits)
    ensures x.Ok() && x.Value() == e && y.Ok() && y.Value() == t
    ensures PlaceOf(e, t) == x.PlaceAt(y) && Cascade(t) == y.Cascaded()
  {
    x := DigitsOf(e);
    y := DigitsOf(t);
  }

  /** A pending expiry either follows the clock digit by digit or has wrapped far behind it. */
  predicate Follows(x: Digits, y: Digits) {
    || x.d < y.d - 1
    || x.d > y.d
    || (x.d == y.d && x.c > y.c)
    || (x.d == y.d && x.c == y.c && x.b > y.b)
    || (x.d == y.d && x.c == y.c && x.b == y.b && x.a > y.a)
    || (x.d == y.d && x.c == y.c && x.b == y.b && x.a == y.a && x.n > y.n)
  }

  lemma AheadFollows(x: Digits, y: Digits)
    requires x.Ok() && y.Ok()
    requires 0 < x.Value() - y.Value() || x.Value() - y.Value() + HALF < 0
    ensures Follows(x, y)
  {
  }

  lemma NextValue(y: Digits)
    requires y.Ok()
    ensures y.Next().Ok() && y.Next().Value() == if y.Value() == WORD - 1 then 0 else y.Value() + 1
  {
  }

  lemma StepDigits(x: Digits, y: Digits)
    requires x.Ok() && y.Ok() && Follows(x, y)
    ensures y.Next().Ok()
    ensures x.PlaceAt(y) != x.PlaceAt(y.Next()) <==> y.Next().Cascaded() == Some(x.PlaceAt(y))
    ensures y.Next().Cascaded().Some? ==>
              y.Next().Cascaded().value.Far? && !x.PlaceAt(y).Below(y.Next().Cascaded().value.level)
    ensures y.Next().Cascaded() == Some(x.PlaceAt(y)) ==> x.PlaceAt(y.Next()).Below(x.PlaceAt(y).level)
  {
  }

  lemma TickDigits(x: Digits, y: Digits, x': Digits, z: Digits)
    requires x.Ok() && y.Ok() && x'.Ok() && z.Ok()
    requires 0 < x.Value() - y.Value() || x.Value() - y.Value() + HALF < 0
    requires x'.Value() == x.Value()
    requires z.Value() == if y.Value() == WORD - 1 then 0 else y.Value() + 1
    ensures x' == x && z == y.Next() && Follows(x, y)
  {
    DigitsUnique(x, x');
    AheadFollows(x, y);
    NextValue(y);
    DigitsUnique(z, y.Next());
  }

  lemma Circle(e: U32, t: U32)
    requires Ahead(e, t)
    ensures 0 < e - t || e - t + HALF < 0
    ensures Tick(t) == if t == WORD - 1 then 0 else t + 1
  {
  }

  /** One tick moves a pending timer to another list exactly when it sits in the cascaded list. */
  lemma ShiftMovesExactly(e: U32, t: U32)
    requires Ahead(e, t)
    ensures PlaceOf(e, t) != PlaceOf(e, Tick(t)) <==> Cascade(Tick(t)) == Some(PlaceOf(e, t))
    ensures Cascade(Tick(t)).Some? ==>
              Cascade(Tick(t)).value.Far? && !PlaceOf(e, t).Below(Cascade(Tick(t)).value.level)
    ensures Cascade(Tick(t)) == Some(PlaceOf(e, t)) ==> PlaceOf(e, Tick(t)).Below(PlaceOf(e, t).level)
  {
    var u := Tick(t);
    Circle(e, t);
    var x, y := DigitsPlace(e, t);
    var x', z := DigitsPlace(e, u);
    TickDigits(x, y, x', z);
    StepDigits(x, y);
  }


  /** The near slot of the current tick holds exactly the timers expiring at this very value. */
  lemma CurrentSlotIsNow(e: U32, t: U32)
    ensures PlaceOf(e, t) == Near(t % 0x100) <==> e == t
  {
  }

  // ---------------------------------------------------------------- history and selections

  function Wire(due: nat): U32 {
    due % WORD
  }

  /** The timers of the history due at `lo` or later that belong in list `p` at clock value `t`. */
  ghost function Sel<E>(h: seq<Entry<E>>, lo: nat, t: U32, p: Place): seq<Node<E>> {
    if h == [] then []
    else
      var x := h[|h| - 1];
      var earlier := Sel(h[..|h| - 1], lo, t, p);
      if x.due >= lo && PlaceOf(Wire(x.due), t) == p then earlier + [Node(Wire(x.due), x.event)] else earlier
  }

  /** The part of a list that `add_node` puts into list `p`. */
  ghost function Routed<E>(list: seq<Node<E>>, t: U32, p: Place): seq<Node<E>> {
    if list == [] then []
    else
      var n := list[|list| - 1];
      var earlier := Routed(list[..|list| - 1], t, p);
      if PlaceOf(n.expire, t) == p then earlier + [n] else earlier
  }

  function EventsOf<E>(list: seq<Node<E>>): seq<E> {
    if list == [] then [] else EventsOf(list[..|list| - 1]) + [list[|list| - 1].event]
  }

  /** The events due at tick `k`, in the order their timers were added. */
  ghost function EventsDue<E>(h: seq<Entry<E>>, k: nat): seq<E> {
    if h == [] then []
    else
      var earlier := EventsDue(h[..|h| - 1], k);
      if h[|h| - 1].due == k then earlier + [h[|h| - 1].event] else earlier
  }

  /** Timers never reach half the clock range ahead of `now`. */
  ghost predicate Window<E>(h: seq<Entry<E>>, now: nat) {
    forall x :: x in h ==> x.due < now + HALF
  }

  lemma DueAhead(due: nat, now: nat)
    requires now < due < now + HALF
    ensures Ahead(Wire(due), Wire(now))
  {
  }

  lemma DueNow(due: nat, now: nat)
    requires now <= due < now + HALF
    ensures PlaceOf(Wire(due), Wire(now)) == Near(Wire(now) % 0x100) <==> due == now
  {
    CurrentSlotIsNow(Wire(due), Wire(now));
  }

  lemma WireNext(now: nat)
    ensures Wire(now + 1) == Tick(Wire(now))
  {
  }

  lemma SelAppend<E>(h: seq<Entry<E>>, x: Entry<E>, lo: nat, t: U32, p: Place)
    ensures Sel(h + [x], lo, t, p) ==
            if x.due >= lo && PlaceOf(Wire(x.due), t) == p then Sel(h, lo, t, p) + [Node(Wire(x.due), x.event)]
            else Sel(h, lo, t, p)
  {
    assert (h + [x])[..|h|] == h;
  }

  lemma RoutedAppend<E>(list: seq<Node<E>>, n: Node<E>, t: U32, p: Place)
    ensures Routed(list + [n], t, p) ==
            if PlaceOf(n.expire, t) == p then Routed(list, t, p) + [n] else Routed(list, t, p)
  {
    assert (list + [n])[..|list|] == list;
  }

  lemma EventsDueAppend<E>(h: seq<Entry<E>>, x: Entry<E>, k: nat)
    ensures EventsDue(h + [x], k) == if x.due == k then EventsDue(h, k) + [x.event] else EventsDue(h, k)
  {
    assert (h + [x])[..|h|] == h;
  }

  /** Cascaded timers never land in a list that already holds a pending timer. */
  lemma {:induction false} RoutedStaysBelow<E>(h: seq<Entry<E>>, now: nat, p: Place)
    requires Window(h, now)
    requires Cascade(Wire(now + 1)).Some?
    requires Cascade(Wire(now + 1)).value.Far? && !p.Below(Cascade(Wire(now + 1)).value.level)
    ensures Routed(Sel(h, now + 1, Wire(now), Cascade(Wire(now + 1)).value), Wire(now + 1), p) == []
  {
    hide PlaceOf, Cascade, Wire, Tick;
    if h != [] {
      var x := h[|h| - 1];
      var c := Cascade(Wire(now + 1)).value;
      var rest := h[..|h| - 1];
      RoutedStaysBelow(rest, now, p);
      if x.due >= now + 1 && PlaceOf(Wire(x.due), Wire(now)) == c {
        DueAhead(x.due, now);
        WireNext(now);
        ShiftMovesExactly(Wire(x.due), Wire(now));
        RoutedAppend(Sel(rest, now + 1, Wire(now), c), Node(Wire(x.due), x.event), Wire(now + 1), p);
        assert PlaceOf(Wire(x.due), Wire(now + 1)) != p;
      }
    }
  }

  /** A list after one tick, given the lists before it: the cascaded list is emptied and rerouted. */
  ghost function Shifted<E>(h: seq<Entry<E>>, now: nat, p: Place): seq<Node<E>> {
    var c := Cascade(Wire(now + 1));
    if c.None? then Sel(h, now + 1, Wire(now), p)
    else
      (if p == c.value then [] else Sel(h, now + 1, Wire(now), p)) +
      Routed(Sel(h, now + 1, Wire(now), c.value), Wire(now + 1), p)
  }

  /** Emptying and rerouting one list re-establishes canonical placement of every list, in order. */
  lemma {:induction false} ShiftIsCanonical<E>(h: seq<Entry<E>>, now: nat, p: Place)
    requires Window(h, now)
    ensures Shifted(h, now, p) == Sel(h, now + 1, Wire(now + 1), p)
  {
    hide PlaceOf, Cascade, Wire, Tick;
    if h != [] {
      var x := h[|h| - 1];
      var rest := h[..|h| - 1];
      ShiftIsCanonical(rest, now, p);
      if x.due >= now + 1 {
        var c := Cascade(Wire(now + 1));
        var e := Wire(x.due);
        DueAhead(x.due, now);
        WireNext(now);
        ShiftMovesExactly(e, Wire(now));
        if c.Some? {
          if c.value == PlaceOf(e, Wire(now)) {
            RoutedAppend(Sel(rest, now + 1, Wire(now), c.value), Node(e, x.event), Wire(now + 1), p);
          } else {
            RoutedStaysBelow(rest, now, PlaceOf(e, Wire(now)));
          }
        }
      }
    }
  }

  /** Draining the current slot removes exactly the timers due now. */
  lemma {:induction false} DrainIsExact<E>(h: seq<Entry<E>>, now: nat, p: Place)
    requires Window(h, now)
    ensures Sel(h, now + 1, Wire(now), p) ==
            if p == Near(Wire(now) % 0x100) then [] else Sel(h, now, Wire(now), p)
    ensures EventsOf(Sel(h, now, Wire(now), Near(Wire(now) % 0x100))) == EventsDue(h, now)
  {
    hide PlaceOf, Cascade, Wire, Tick;
    if h != [] {
      var x := h[|h| - 1];
      var slot := Near(Wire(now) % 0x100);
      DrainIsExact(h[..|h| - 1], now, p);
      if x.due >= now {
        DueNow(x.due, now);
        if x.due == now {
          var earlier, n := Sel(h[..|h| - 1], now, Wire(now), slot), Node(Wire(x.due), x.event);
          assert Sel(h, now, Wire(now), slot) == earlier + [n];
          assert (earlier + [n])[..|earlier|] == earlier;
        }
      }
    }
  }

  /** What is due at a tick is not changed by timers added for later ticks. */
  lemma {:induction false} DueIsStable<E>(h: seq<Entry<E>>, more: seq<Entry<E>>, k: nat)
    requires forall x :: x in more ==> x.due > k
    ensures EventsDue(h + more, k) == EventsDue(h, k)
  {
    if more == [] {
      assert h + more == h;
    } else {
      var x := more[|more| - 1];
      assert h + more == (h + more[..|more| - 1]) + [x];
      EventsDueAppend(h + more[..|more| - 1], x, k);
      DueIsStable(h, more[..|more| - 1], k);
    }
  }

  // ---------------------------------------------------------------- the wheel as a value

  lemma CascadeOk(t: U32)
    ensures Cascade(t).Some? ==> Cascade(t).value.Ok()
  {
  }

  /** All lists of the wheel as one value. */
  type Lists<E> = imap<Place, seq<Node<E>>>

  ghost predicate Complete<E>(l: Lists<E>) {
    forall p: Place :: p.Ok() <==> p in l
  }

  ghost function Put<E>(l: Lists<E>, n: Node<E>, t: U32): (r: Lists<E>)
    requires Complete(l)
    ensures Complete(r)
  {
    var p := PlaceOf(n.expire, t);
    l[p := l[p] + [n]]
  }

  ghost function PutAll<E>(l: Lists<E>, list: seq<Node<E>>, t: U32): (r: Lists<E>)
    requires Complete(l)
    ensures Complete(r)
  {
    if list == [] then l else Put(PutAll(l, list[..|list| - 1], t), list[|list| - 1], t)
  }

  /** Adding nodes one by one appends to each list the nodes routed there, in order. */
  lemma {:induction false} PutAllRoutes<E>(l: Lists<E>, list: seq<Node<E>>, t: U32, p: Place)
    requires Complete(l) && p.Ok()
    ensures PutAll(l, list, t)[p] == l[p] + Routed(list, t, p)
  {
    hide PlaceOf;
    if list != [] {
      PutAllRoutes(l, list[..|list| - 1], t, p);
    }
  }

  /** The effect of `timer_shift` on the lists, once the clock shows `t`. */
  ghost function Redistributed<E>(l: Lists<E>, t: U32): (r: Lists<E>)
    requires Complete(l)
    ensures Complete(r)
  {
    CascadeOk(t);
    match Cascade(t)
    case None => l
    case Some(c) => PutAll(l[c := []], l[c], t)
  }

  /** Every list holds exactly the timers of the history that belong there, in the order added. */
  ghost predicate Canonical<E>(l: Lists<E>, h: seq<Entry<E>>, lo: nat, t: U32) {
    Complete(l) && forall p: Place :: p.Ok() ==> l[p] == Sel(h, lo, t, p)
  }

  lemma CanonicalAfterAdd<E>(l: Lists<E>, h: seq<Entry<E>>, x: Entry<E>, lo: nat, t: U32)
    requires Canonical(l, h, lo, t) && x.due >= lo
    ensures Canonical(Put(l, Node(Wire(x.due), x.event), t), h + [x], lo, t)
  {
    hide PlaceOf, Wire, Sel;
    forall p: Place | p.Ok()
      ensures Put(l, Node(Wire(x.due), x.event), t)[p] == Sel(h + [x], lo, t, p)
    {
      SelAppend(h, x, lo, t, p);
    }
  }

  lemma CanonicalAfterShift<E>(l: Lists<E>, h: seq<Entry<E>>, now: nat)
    requires Canonical(l, h, now + 1, Wire(now)) && Window(h, now)
    ensures Canonical(Redistributed(l, Wire(now + 1)), h, now + 1, Wire(now + 1))
  {
    hide PlaceOf, Cascade, Wire, Tick, Sel, Routed, PutAll;
    var c := Cascade(Wire(now + 1));
    CascadeOk(Wire(now + 1));
    forall p: Place | p.Ok()
      ensures Redistributed(l, Wire(now + 1))[p] == Sel(h, now + 1, Wire(now + 1), p)
    {
      if c.Some? {
        PutAllRoutes(l[c.value := []], l[c.value], Wire(now + 1), p);
      }
      ShiftIsCanonical(h, now, p);
    }
  }

  lemma CanonicalAfterDrain<E>(l: Lists<E>, h: seq<Entry<E>>, now: nat)
    requires Canonical(l, h, now, Wire(now)) && Window(h, now)
    ensures var slot := Near(Wire(now) % 0x100);
            Canonical(l[slot := []], h, now + 1, Wire(now)) && EventsOf(l[slot]) == EventsDue(h, now)
  {
    hide PlaceOf, Wire, Sel, EventsDue, EventsOf;
    var slot := Near(Wire(now) % 0x100);
    DrainIsExact(h, now, slot);
    forall p: Place | p.Ok()
      ensures l[slot := []][p] == Sel(h, now + 1, Wire(now), p)
    {
      DrainIsExact(h, now, p);
    }
  }
}
