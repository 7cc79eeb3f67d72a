/**
 Handles (skynet-src/skynet_harbor.c) and the sorted name array of skynet-src/skynet_service.c as
 values: bit fields, the order of `strcmp`, and what inserting and deleting do to a sorted array.
 */
module ServiceNames {
  // ---------------------------------------------------------------- handles

  /** `((harbor << 8) & 0xff00) | (index & 0x00ff)`. */
  function Handle(harbor: nat, index: nat): nat {
    harbor % 256 * 256 + index % 256
  }

  function HarborId(handle: nat): nat {
    handle / 256 % 256
  }

  function Index(handle: nat): nat {
    handle % 256
  }

  /** A handle keeps its slot index exactly while there are at most 256 slots. */
  lemma HandleKeepsIndex(harbor: nat, index: nat)
    ensures Index(Handle(harbor, index)) == index <==> index < 256
    ensures HarborId(Handle(harbor, index)) == harbor <==> harbor < 256
    ensures 0 < harbor < 256 ==> Handle(harbor, index) >= 256
  {
  }

  predicate PowerOfTwo(n: nat) {
    n in {2, 4, 8, 16, 32, 64, 128, 256}
  }

  /** `handle & (size*2 - 1)` when the table doubles: every service keeps its slot. */
  lemma RehashKeepsSlot(handle: nat, size: nat)
    requires PowerOfTwo(size) && size < 256 && Index(handle) < size
    ensures handle % (size * 2) == Index(handle)
  {
    var h, i, m := handle / 256, handle % 256, size * 2;
    var k := 256 / m;
    assert k * m == 256;
    hide PowerOfTwo;
    MulAssoc(h, k, m);
    ModOf(h * k, m, i);
  }

  lemma MulAssoc(a: nat, b: nat, c: nat)
    ensures a * (b * c) == a * b * c
  {
  }

  lemma ModOf(a: nat, m: nat, i: nat)
    requires i < m
    ensures (a * m + i) % m == i
  {
    var q := (a * m + i) / m;
    assert a * m + i == m * q + (a * m + i) % m;
    Below(a, q, m);
    Below(q, a, m);
  }

  lemma Below(a: nat, b: nat, m: nat)
    ensures a < b ==> a * m + m <= m * b
  {
    if a < b {
      MulAdd(m, a, b - a);
    }
  }

  lemma MulAdd(m: nat, a: nat, d: nat)
    ensures m * (a + d) == m * a + m * d
    ensures d >= 1 ==> m * d >= m
  {
  }

  lemma NextPower(a: nat, b: nat)
    requires PowerOfTwo(a) && PowerOfTwo(b) && a < b
    ensures a * 2 <= b && PowerOfTwo(a * 2)
  {
  }

  // ---------------------------------------------------------------- strcmp

  /** `strcmp(a, b) < 0`. */
  predicate Less(a: string, b: string) {
    b != [] && (a == [] || a[0] < b[0] || (a[0] == b[0] && Less(a[1..], b[1..])))
  }

  lemma {:induction false} LessTotal(a: string, b: string)
    ensures a == b || Less(a, b) || Less(b, a)
  {
    if a != [] && b != [] && a[0] == b[0] {
      LessTotal(a[1..], b[1..]);
      assert a == [a[0]] + a[1..] && b == [b[0]] + b[1..];
    }
  }

  lemma {:induction false} LessAsym(a: string, b: string)
    requires Less(a, b)
    ensures a != b && !Less(b, a)
  {
    if a != [] && a[0] == b[0] {
      LessAsym(a[1..], b[1..]);
    }
  }

  lemma {:induction false} LessTrans(a: string, b: string, c: string)
    requires Less(a, b) && Less(b, c)
    ensures Less(a, c)
  {
    if a != [] && a[0] == b[0] == c[0] {
      LessTrans(a[1..], b[1..], c[1..]);
    }
  }

  // ---------------------------------------------------------------- sorted names

  datatype Entry = Entry(name: string, handle: nat)

  ghost predicate Sorted(es: seq<Entry>) {
    forall i, j :: 0 <= i < j < |es| ==> Less(es[i].name, es[j].name)
  }

  /** The map a name array stands for. */
  ghost function Bindings(es: seq<Entry>): map<string, nat> {
    if es == [] then map[] else Bindings(es[..|es| - 1])[es[|es| - 1].name := es[|es| - 1].handle]
  }

  lemma {:induction false} BindAt(es: seq<Entry>, i: nat)
    requires Sorted(es) && i < |es|
    ensures es[i].name in Bindings(es) && Bindings(es)[es[i].name] == es[i].handle
  {
    var last, rest := |es| - 1, es[..|es| - 1];
    if i < last {
      BindAt(rest, i);
      LessAsym(es[i].name, es[last].name);
    }
  }

  lemma {:induction false} BindKey(es: seq<Entry>, n: string) returns (i: nat)
    requires n in Bindings(es)
    ensures i < |es| && es[i].name == n
  {
    var last := |es| - 1;
    if n == es[last].name {
      i := last;
    } else {
      i := BindKey(es[..last], n);
    }
  }

  /** `at` splits a sorted array around a name that is not in it. */
  ghost predicate Gap(es: seq<Entry>, name: string, at: nat) {
    && at <= |es|
    && (forall i :: 0 <= i < at ==> Less(es[i].name, name))
    && (forall i :: at <= i < |es| ==> Less(name, es[i].name))
  }

  function Insert(es: seq<Entry>, at: nat, e: Entry): seq<Entry>
    requires at <= |es|
  {
    es[..at] + [e] + es[at..]
  }

  function Delete(es: seq<Entry>, at: nat): seq<Entry>
    requires at < |es|
  {
    es[..at] + es[at + 1..]
  }

  lemma InsertOrder(es: seq<Entry>, at: nat, e: Entry)
    requires Sorted(es) && Gap(es, e.name, at)
    ensures Sorted(Insert(es, at, e))
  {
    var r := Insert(es, at, e);
    InsertPoints(es, at, e);
    forall i, j | 0 <= i < j < |r|
      ensures Less(r[i].name, r[j].name)
    {
      if i < at < j {
        LessTrans(es[i].name, e.name, es[j - 1].name);
      }
    }
  }

  /** What was bound stays bound. */
  lemma InsertKeeps(es: seq<Entry>, at: nat, e: Entry, n: string)
    requires Sorted(es) && at <= |es| && Sorted(Insert(es, at, e)) && n in Bindings(es)
    ensures n in Bindings(Insert(es, at, e)) && Bindings(Insert(es, at, e))[n] == Bindings(es)[n]
  {
    InsertPoints(es, at, e);
    hide Sorted, Bindings, Insert;
    var i := BindKey(es, n);
    BindAt(es, i);
    BindAt(Insert(es, at, e), if i < at then i else i + 1);
  }

  /** Nothing else is bound. */
  lemma InsertAdds(es: seq<Entry>, at: nat, e: Entry, n: string)
    requires Sorted(es) && at <= |es| && n in Bindings(Insert(es, at, e)) && n != e.name
    ensures n in Bindings(es)
  {
    InsertPoints(es, at, e);
    hide Sorted, Bindings, Insert;
    var i := BindKey(Insert(es, at, e), n);
    BindAt(es, if i < at then i else i - 1);
  }

  lemma InsertBinds(es: seq<Entry>, at: nat, e: Entry, n: string)
    requires Sorted(es) && Gap(es, e.name, at) && Sorted(Insert(es, at, e))
    ensures n in Bindings(Insert(es, at, e)) <==> n in Bindings(es) || n == e.name
    ensures n in Bindings(es) ==> n != e.name && Bindings(Insert(es, at, e))[n] == Bindings(es)[n]
    ensures e.name in Bindings(Insert(es, at, e)) && Bindings(Insert(es, at, e))[e.name] == e.handle
  {
    GapMissing(es, e.name, at);
    InsertPoints(es, at, e);
    hide Sorted, Bindings, Insert, Gap;
    BindAt(Insert(es, at, e), at);
    if n in Bindings(es) {
      var i := BindKey(es, n);
      InsertKeeps(es, at, e, n);
    }
    if n in Bindings(Insert(es, at, e)) && n != e.name {
      InsertAdds(es, at, e, n);
    }
  }

  lemma InsertSorted(es: seq<Entry>, at: nat, e: Entry)
    requires Sorted(es) && Gap(es, e.name, at)
    ensures Sorted(Insert(es, at, e)) && e.name !in Bindings(es)
    ensures Bindings(Insert(es, at, e)) == Bindings(es)[e.name := e.handle]
  {
    InsertOrder(es, at, e);
    hide Sorted, Bindings, Insert, Gap;
    forall n
      ensures n in Bindings(Insert(es, at, e)) <==> n in Bindings(es) || n == e.name
      ensures n in Bindings(es) ==> n != e.name && Bindings(Insert(es, at, e))[n] == Bindings(es)[n]
    {
      InsertBinds(es, at, e, n);
    }
    InsertBinds(es, at, e, e.name);
  }

  lemma InsertPoints(es: seq<Entry>, at: nat, e: Entry)
    requires at <= |es|
    ensures |Insert(es, at, e)| == |es| + 1
    ensures forall i :: 0 <= i <= |es| ==>
              Insert(es, at, e)[i] == if i < at then es[i] else if i == at then e else es[i - 1]
  {
  }

  lemma DeletePoints(es: seq<Entry>, at: nat)
    requires at < |es|
    ensures |Delete(es, at)| == |es| - 1
    ensures forall i :: 0 <= i < |es| - 1 ==> Delete(es, at)[i] == if i < at then es[i] else es[i + 1]
  {
  }

  lemma GapMissing(es: seq<Entry>, name: string, at: nat)
    requires Gap(es, name, at)
    ensures forall i :: 0 <= i < |es| ==> es[i].name != name
  {
    forall i | 0 <= i < |es|
      ensures es[i].name != name
    {
      if i < at {
        LessAsym(es[i].name, name);
      } else {
        LessAsym(name, es[i].name);
      }
    }
  }

  lemma DeleteBinds(es: seq<Entry>, at: nat, n: string)
    requires Sorted(es) && at < |es| && Sorted(Delete(es, at))
    ensures n in Bindings(Delete(es, at)) <==> n in Bindings(es) && n != es[at].name
    ensures n in Bindings(Delete(es, at)) ==> Bindings(Delete(es, at))[n] == Bindings(es)[n]
  {
    var r := Delete(es, at);
    DeletePoints(es, at);
    OnlyOne(es, at);
    hide Sorted, Bindings, Delete;
    if n in Bindings(es) && n != es[at].name {
      var i := BindKey(es, n);
      BindAt(es, i);
      BindAt(r, if i < at then i else i - 1);
    }
    if n in Bindings(r) {
      var i := BindKey(r, n);
      BindAt(es, if i < at then i else i + 1);
    }
  }

  lemma DeleteOrder(es: seq<Entry>, at: nat)
    requires Sorted(es) && at < |es|
    ensures Sorted(Delete(es, at))
  {
    DeletePoints(es, at);
    hide Delete;
  }

  lemma OneLess(m: map<string, nat>, m': map<string, nat>, x: string)
    requires forall n :: n in m' <==> n in m && n != x
    requires forall n :: n in m' ==> m'[n] == m[n]
    ensures m' == m - {x}
  {
  }

  lemma DeleteSorted(es: seq<Entry>, at: nat)
    requires Sorted(es) && at < |es|
    ensures Sorted(Delete(es, at))
    ensures Bindings(Delete(es, at)) == Bindings(es) - {es[at].name}
  {
    DeleteOrder(es, at);
    var m, m', x := Bindings(es), Bindings(Delete(es, at)), es[at].name;
    hide *;
    forall n: string
      ensures n in m' <==> n in m && n != x
    {
      DeleteBinds(es, at, n);
    }
    forall n: string | n in m'
      ensures m'[n] == m[n]
    {
      DeleteBinds(es, at, n);
    }
    OneLess(m, m', x);
  }

  lemma OnlyOne(es: seq<Entry>, at: nat)
    requires Sorted(es) && at < |es|
    ensures forall i :: 0 <= i < |es| && i != at ==> es[i].name != es[at].name
  {
    forall i | 0 <= i < |es| && i != at
      ensures es[i].name != es[at].name
    {
      LessAsym(es[if i < at then i else at].name, es[if i < at then at else i].name);
    }
  }

  /** Pigeonhole: distinct numbers below `n` are at most `n` many. */
  lemma {:induction false} Pigeonhole(s: seq<nat>, n: nat)
    requires forall i :: 0 <= i < |s| ==> s[i] < n
    requires forall i, j :: 0 <= i < j < |s| ==> s[i] != s[j]
    ensures |s| <= n
    decreases n
  {
    if n == 0 {
    } else if n - 1 in s {
      var k :| 0 <= k < |s| && s[k] == n - 1;
      var r := s[..k] + s[k + 1..];
      assert forall i :: 0 <= i < |r| ==> r[i] == s[if i < k then i else i + 1];
      Pigeonhole(r, n - 1);
    } else {
      forall i | 0 <= i < |s|
        ensures s[i] < n - 1
      {
        assert s[i] in s;
      }
      Pigeonhole(s, n - 1);
    }
  }
}
