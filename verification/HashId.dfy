/**
 The pooled hash of connection ids, service-src/util/hashid.h: intrusive chains over a fixed
 node array. Node pointers are indexes into the array, null is -1. The class refines a finite
 map from id to slot.

 `id & hashmod` with `hashmod` one less than a power of two is the non-negative remainder, also
 for negative ids.
 */
module HashId {
  const INT_MAX := 0x7fff_ffff

  /** The arrays as values, with the node indexes of every chain. */
  datatype Table = Table(hashmod: nat, id: seq<int>, next: seq<int>, hash: seq<int>, chains: seq<seq<int>>)

  function Bucket(x: int, hashmod: nat): (h: int)
    ensures 0 <= h <= hashmod
  {
    x % (hashmod + 1)
  }

  /** The nodes `first`, `next[first]`, ... up to the null pointer are exactly `chain`. */
  ghost predicate Linked(first: int, next: seq<int>, chain: seq<int>) {
    && first == (if |chain| > 0 then chain[0] else -1)
    && (forall k {:trigger chain[k]} :: 0 <= k < |chain| ==> 0 <= chain[k] < |next|)
    && (forall k {:trigger next[chain[k]]} :: 0 <= k < |chain| ==>
          next[chain[k]] == if k == |chain| - 1 then -1 else chain[k + 1])
  }

  ghost predicate NoRepeat(chain: seq<int>) {
    forall i, j :: 0 <= i < j < |chain| ==> chain[i] != chain[j]
  }

  ghost function Used(id: seq<int>): set<int> {
    set n | 0 <= n < |id| && id[n] != -1
  }

  ghost predicate Shaped(t: Table) {
    |t.next| == |t.id| && |t.hash| == t.hashmod + 1 == |t.chains|
  }

  /** Every chain is acyclic and holds only used nodes of its own bucket. */
  ghost predicate ChainOk(t: Table, h: int)
    requires Shaped(t) && 0 <= h <= t.hashmod
  {
    && Linked(t.hash[h], t.next, t.chains[h])
    && NoRepeat(t.chains[h])
    && forall n :: n in t.chains[h] ==> 0 <= n < |t.id| && t.id[n] >= 0 && Bucket(t.id[n], t.hashmod) == h
  }

  ghost predicate Distinct(id: seq<int>) {
    forall n, m :: 0 <= n < |id| && 0 <= m < |id| && id[n] >= 0 && id[n] == id[m] ==> n == m
  }

  /** Free nodes have id -1 and no successor; a used node is on the chain of its id; ids are distinct. */
  ghost predicate NodesOk(t: Table)
    requires Shaped(t)
  {
    && (forall n :: 0 <= n < |t.id| ==> t.id[n] >= -1)
    && (forall n :: 0 <= n < |t.id| && t.id[n] == -1 ==> t.next[n] == -1)
    && (forall n :: 0 <= n < |t.id| && t.id[n] >= 0 ==> n in t.chains[Bucket(t.id[n], t.hashmod)])
    && Distinct(t.id)
  }

  ghost predicate Ok(t: Table) {
    && Shaped(t)
    && (forall h :: 0 <= h <= t.hashmod ==> ChainOk(t, h))
    && NodesOk(t)
  }

  /** The finite map the node array stands for. */
  ghost function Model(id: seq<int>): map<int, int>
    requires Distinct(id)
  {
    map n | 0 <= n < |id| && id[n] >= 0 :: id[n] := n
  }

  lemma ModelAt(id: seq<int>, n: int)
    requires Distinct(id) && 0 <= n < |id| && id[n] >= 0
    ensures id[n] in Model(id) && Model(id)[id[n]] == n
  {
  }

  lemma ModelKey(id: seq<int>, y: int) returns (n: int)
    requires Distinct(id) && y in Model(id)
    ensures 0 <= n < |id| && id[n] == y >= 0 && Model(id)[y] == n
  {
    n := Model(id)[y];
  }

  lemma ModelHolds(id: seq<int>)
    requires Distinct(id)
    ensures forall n :: 0 <= n < |id| && id[n] >= 0 ==> id[n] in Model(id) && Model(id)[id[n]] == n
    ensures forall y :: y in Model(id) ==> 0 <= Model(id)[y] < |id| && id[Model(id)[y]] == y >= 0
  {
  }

  lemma DistinctGrows(id: seq<int>, x: int, c: int)
    requires Distinct(id) && 0 <= c < |id| && id[c] < 0 && x >= 0 && x !in Model(id)
    ensures Distinct(id[c := x])
  {
    ModelHolds(id);
    assert forall n :: 0 <= n < |id| ==> id[n] != x;
  }

  lemma ModelGrows(id: seq<int>, x: int, c: int)
    requires 0 <= c < |id| && id[c] < 0 && x >= 0 && Distinct(id) && Distinct(id[c := x])
    ensures Model(id[c := x]) == Model(id)[x := c]
  {
    hide Model, Distinct;
    var id' := id[c := x];
    ModelAt(id', c);
    forall y | y in Model(id)
      ensures y in Model(id') && (y != x ==> Model(id')[y] == Model(id)[y])
    {
      var n := ModelKey(id, y);
      ModelAt(id', n);
    }
    forall y | y in Model(id') && y != x
      ensures y in Model(id)
    {
      var n := ModelKey(id', y);
      ModelAt(id, n);
    }
  }

  lemma DistinctShrinks(id: seq<int>, c: int)
    requires 0 <= c < |id| && Distinct(id)
    ensures Distinct(id[c := -1])
    ensures forall n :: 0 <= n < |id| && n != c && id[c] >= 0 ==> id[n] != id[c]
  {
  }

  lemma ModelShrinksAt(id: seq<int>, c: int, y: int)
    requires 0 <= c < |id| && id[c] >= 0 && Distinct(id) && Distinct(id[c := -1])
    ensures y in Model(id[c := -1]) <==> y in Model(id) && y != id[c]
    ensures y in Model(id[c := -1]) ==> Model(id[c := -1])[y] == Model(id)[y]
  {
    DistinctShrinks(id, c);
    hide Model, Distinct;
    if y in Model(id) && y != id[c] {
      var n := ModelKey(id, y);
      ModelAt(id[c := -1], n);
    }
    if y in Model(id[c := -1]) {
      var n := ModelKey(id[c := -1], y);
      ModelAt(id, n);
    }
  }

  lemma ModelShrinks(id: seq<int>, c: int)
    requires 0 <= c < |id| && id[c] >= 0 && Distinct(id)
    ensures Distinct(id[c := -1])
    ensures id[c] in Model(id) && Model(id)[id[c]] == c && Model(id[c := -1]) == Model(id) - {id[c]}
  {
    DistinctShrinks(id, c);
    ModelAt(id, c);
    hide *;
    forall y
      ensures y in Model(id[c := -1]) <==> y in Model(id) && y != id[c]
      ensures y in Model(id[c := -1]) ==> Model(id[c := -1])[y] == Model(id)[y]
    {
      ModelShrinksAt(id, c, y);
    }
    OneLess(Model(id), Model(id[c := -1]), id[c]);
  }

  lemma OneLess(m: map<int, int>, m': map<int, int>, x: int)
    requires forall y :: y in m' <==> y in m && y != x
    requires forall y :: y in m' ==> m'[y] == m[y]
    ensures m' == m - {x}
  {
    forall y
      ensures y in m' <==> y in m - {x}
    {
    }
    forall y | y in m'
      ensures m'[y] == (m - {x})[y]
    {
    }
  }

  // ---------------------------------------------------------------- insertion

  function Inserted(t: Table, x: int, c: int): Table
    requires |t.hash| == |t.chains| == t.hashmod + 1 && 0 <= c < |t.id| == |t.next|
  {
    var h := Bucket(x, t.hashmod);
    t.(id := t.id[c := x], next := t.next[c := t.hash[h]], hash := t.hash[h := c],
       chains := t.chains[h := [c] + t.chains[h]])
  }

  /** A node in front of a chain that does not hold it. */
  lemma LongerChain(next: seq<int>, first: int, chain: seq<int>, c: int)
    requires Linked(first, next, chain) && NoRepeat(chain) && 0 <= c < |next| && c !in chain
    ensures Linked(c, next[c := first], [c] + chain) && NoRepeat([c] + chain)
  {
    var longer, next' := [c] + chain, next[c := first];
    forall k | 0 <= k < |longer|
      ensures 0 <= longer[k] < |next'| && next'[longer[k]] == if k == |longer| - 1 then -1 else longer[k + 1]
    {
      if k > 0 {
        assert longer[k] == chain[k - 1] && chain[k - 1] in chain;
        assert next[chain[k - 1]] == if k - 1 == |chain| - 1 then -1 else chain[k];
      }
    }
    forall i, j | 0 <= i < j < |longer|
      ensures longer[i] != longer[j]
    {
      assert longer[j] == chain[j - 1] && chain[j - 1] in chain;
    }
  }

  /** Chains that do not hold the changed nodes are as they were. */
  lemma OtherChain(next: seq<int>, next': seq<int>, first: int, chain: seq<int>)
    requires Linked(first, next, chain) && |next'| == |next|
    requires forall i :: 0 <= i < |chain| ==> next'[chain[i]] == next[chain[i]]
    ensures Linked(first, next', chain)
  {
  }

  lemma InsertedChain(t: Table, x: int, c: int, g: int)
    requires Ok(t) && 0 <= c < |t.id| && t.id[c] == -1 && x >= 0 && 0 <= g <= t.hashmod
    ensures ChainOk(Inserted(t, x, c), g)
  {
    var t', chain := Inserted(t, x, c), t.chains[g];
    assert ChainOk(t, g);
    assert c !in chain;
    if g == Bucket(x, t.hashmod) {
      LongerChain(t.next, t.hash[g], chain, c);
    } else {
      assert forall k :: 0 <= k < |chain| ==> chain[k] in chain;
      OtherChain(t.next, t'.next, t.hash[g], chain);
    }
    hide Linked, NoRepeat, NodesOk, Bucket;
  }

  lemma InsertedNodes(t: Table, x: int, c: int)
    requires Ok(t) && 0 <= c < |t.id| && t.id[c] == -1 && x >= 0 && x !in Model(t.id)
    ensures NodesOk(Inserted(t, x, c))
  {
    var t', h := Inserted(t, x, c), Bucket(x, t.hashmod);
    DistinctGrows(t.id, x, c);
    hide ChainOk, Bucket, Model, Distinct;
    forall n | 0 <= n < |t'.id| && t'.id[n] >= 0
      ensures n in t'.chains[Bucket(t'.id[n], t'.hashmod)]
    {
      if n == c {
        assert t'.chains[h][0] == c;
      } else {
        assert n in t.chains[Bucket(t.id[n], t.hashmod)];
      }
    }
  }

  /** Inserting a new id into a free node keeps the invariant and adds one binding. */
  lemma InsertedOk(t: Table, x: int, c: int)
    requires Ok(t) && 0 <= c < |t.id| && t.id[c] == -1 && x >= 0 && x !in Model(t.id)
    ensures Ok(Inserted(t, x, c)) && Model(Inserted(t, x, c).id) == Model(t.id)[x := c]
    ensures Used(Inserted(t, x, c).id) == Used(t.id) + {c}
  {
    var t' := Inserted(t, x, c);
    UsedGrows(t.id, x, c);
    InsertedNodes(t, x, c);
    ModelGrows(t.id, x, c);
    hide ChainOk, Bucket, Model, Distinct, Used;
    forall g | 0 <= g <= t'.hashmod
      ensures ChainOk(t', g)
    {
      InsertedChain(t, x, c, g);
    }
  }

  lemma UsedGrows(id: seq<int>, x: int, c: int)
    requires 0 <= c < |id| && x >= 0
    ensures Used(id[c := x]) == Used(id) + {c}
  {
  }

  // ---------------------------------------------------------------- removal

  function Without(chain: seq<int>, k: int): seq<int>
    requires 0 <= k < |chain|
  {
    chain[..k] + chain[k + 1..]
  }

  /** Unlinks the k-th node of chain `h`. */
  function Removed(t: Table, h: int, k: int): Table
    requires |t.hash| == |t.chains| == t.hashmod + 1 && |t.next| == |t.id|
    requires 0 <= h <= t.hashmod && 0 <= k < |t.chains[h]|
    requires forall i :: 0 <= i < |t.chains[h]| ==> 0 <= t.chains[h][i] < |t.id|
  {
    var chain := t.chains[h];
    var c := chain[k];
    var next := if k == 0 then t.next else t.next[chain[k - 1] := t.next[c]];
    t.(id := t.id[c := -1], next := next[c := -1], hash := if k == 0 then t.hash[h := t.next[c]] else t.hash,
    chains := t.chains[h := Without(chain, k)])
  }

  /** The next pointers after unlinking: only the two nodes around the gap change. */
  lemma RemovedNext(next: seq<int>, chain: seq<int>, k: int)
    requires Linked(if |chain| > 0 then chain[0] else -1, next, chain) && NoRepeat(chain) && 0 <= k < |chain|
    ensures var relinked := if k == 0 then next else next[chain[k - 1] := next[chain[k]]];
            Linked(if k == 0 then next[chain[0]] else chain[0], relinked[chain[k] := -1], Without(chain, k))
    ensures NoRepeat(Without(chain, k)) && forall n :: n in Without(chain, k) ==> n in chain && n != chain[k]
  {
    var c, shorter := chain[k], Without(chain, k);
    var next' := (if k == 0 then next else next[chain[k - 1] := next[chain[k]]])[c := -1];
    assert next[chain[k]] == if k == |chain| - 1 then -1 else chain[k + 1];
    forall i | 0 <= i < |shorter|
      ensures shorter[i] == chain[if i < k then i else i + 1] && 0 <= shorter[i] < |next|
      ensures next'[shorter[i]] == if i == |shorter| - 1 then -1 else shorter[i + 1]
    {
      var o := if i < k then i else i + 1;
      assert shorter[i] == chain[o];
      assert next[chain[o]] == if o == |chain| - 1 then -1 else chain[o + 1];
      if i + 1 < |shorter| {
        assert shorter[i + 1] == chain[if i + 1 < k then i + 1 else i + 2];
      }
    }
  }

  lemma RemovedChain(t: Table, h: int, k: int, g: int)
    requires Ok(t) && 0 <= h <= t.hashmod && 0 <= k < |t.chains[h]| && 0 <= g <= t.hashmod
    requires forall i :: 0 <= i < |t.chains[h]| ==> 0 <= t.chains[h][i] < |t.id|
    ensures ChainOk(Removed(t, h, k), g)
  {
    assert ChainOk(t, g) && ChainOk(t, h);
    hide Ok, Bucket, NodesOk;
    if g == h {
      ShorterChain(t, h, k);
    } else {
      UntouchedChain(t, h, k, g);
    }
  }

  lemma ShorterChain(t: Table, h: int, k: int)
    requires Shaped(t) && 0 <= h <= t.hashmod && 0 <= k < |t.chains[h]| && ChainOk(t, h)
    requires forall i :: 0 <= i < |t.chains[h]| ==> 0 <= t.chains[h][i] < |t.id|
    ensures ChainOk(Removed(t, h, k), h)
  {
    var t', chain := Removed(t, h, k), t.chains[h];
    hide Bucket;
    assert chain[k] in chain;
    RemovedNext(t.next, chain, k);
    hide Linked, NoRepeat, Without;
    assert t'.chains[h] == Without(chain, k);
  }

  lemma UntouchedChain(t: Table, h: int, k: int, g: int)
    requires Shaped(t) && 0 <= h <= t.hashmod && 0 <= k < |t.chains[h]| && 0 <= g <= t.hashmod && g != h
    requires ChainOk(t, h) && ChainOk(t, g)
    requires forall i :: 0 <= i < |t.chains[h]| ==> 0 <= t.chains[h][i] < |t.id|
    ensures ChainOk(Removed(t, h, k), g)
  {
    var t', chain, other := Removed(t, h, k), t.chains[h], t.chains[g];
    hide NoRepeat, Without;
    forall i | 0 <= i < |other|
      ensures t'.next[other[i]] == t.next[other[i]]
    {
      assert other[i] in other && chain[k] in chain && (k > 0 ==> chain[k - 1] in chain);
    }
    assert chain[k] in chain;
    OtherChain(t.next, t'.next, t.hash[g], other);
    hide Linked, Bucket;
  }

  lemma RemovedNodes(t: Table, h: int, k: int)
    requires Ok(t) && 0 <= h <= t.hashmod && 0 <= k < |t.chains[h]|
    requires forall i :: 0 <= i < |t.chains[h]| ==> 0 <= t.chains[h][i] < |t.id|
    ensures NodesOk(Removed(t, h, k))
  {
    var t', chain := Removed(t, h, k), t.chains[h];
    assert ChainOk(t, h);
    hide Bucket;
    forall n | 0 <= n < |t.id| && t'.id[n] >= 0
      ensures n in t'.chains[Bucket(t'.id[n], t'.hashmod)]
    {
      var b := Bucket(t.id[n], t.hashmod);
      assert n in t.chains[b];
      if b == h {
        var i :| 0 <= i < |chain| && chain[i] == n;
        assert Without(chain, k)[if i < k then i else i - 1] == n;
      }
    }
    hide ChainOk;
    assert forall i :: 0 <= i < |chain| ==> chain[i] in chain;
  }

  /** Unlinking a node keeps the invariant and removes one binding. */
  lemma RemovedOk(t: Table, h: int, k: int)
    requires Ok(t) && 0 <= h <= t.hashmod && 0 <= k < |t.chains[h]|
    requires forall i :: 0 <= i < |t.chains[h]| ==> 0 <= t.chains[h][i] < |t.id|
    ensures var c := t.chains[h][k];
            && Ok(Removed(t, h, k)) && t.id[c] in Model(t.id) && Model(t.id)[t.id[c]] == c
            && Model(Removed(t, h, k).id) == Model(t.id) - {t.id[c]}
            && Used(t.id) == Used(Removed(t, h, k).id) + {c} && c !in Used(Removed(t, h, k).id)
  {
    var t', c := Removed(t, h, k), t.chains[h][k];
    forall g | 0 <= g <= t'.hashmod
      ensures ChainOk(t', g)
    {
      RemovedChain(t, h, k, g);
    }
    RemovedNodes(t, h, k);
    assert ChainOk(t, h) && c in t.chains[h];
    hide ChainOk;
    ModelShrinks(t.id, c);
  }

  // ---------------------------------------------------------------- the object

  /** `hashmod` is a mask of low bits. */
  predicate IsMask(hashmod: nat) {
    hashmod == 0 || (hashmod % 2 == 1 && IsMask(hashmod / 2))
  }

  lemma FirstMask()
    ensures IsMask(15)
  {
  }

  lemma LongerMask(hashmod: nat)
    requires hashmod % 2 == 1 && IsMask(hashmod / 2)
    ensures IsMask(hashmod)
  {
  }

  lemma NextMask(cap: nat)
    requires cap > 0 && IsMask(cap - 1)
    ensures IsMask(cap * 2 - 1)
  {
    hide IsMask;
    assert (cap * 2 - 1) / 2 == cap - 1;
    LongerMask(cap * 2 - 1);
  }

  /** The node the loop of `hashid_insert` looks at in turn `i`. */
  function Probe(i: int, x: int, cap: nat): (r: int)
    requires cap > 0
    ensures 0 <= r < cap
  {
    (i + x) % cap
  }

  /** The first turn that would overflow is reached: every node probed before it is used. */
  ghost predicate Overruns(id: seq<int>, x: int) {
    && INT_MAX - x < |id| - 1
    && forall j {:trigger Probe(j, x, |id|)} :: 0 <= j <= INT_MAX - x ==> id[Probe(j, x, |id|)] != -1
  }

  /** `c` is the first free node of the probe sequence of `x`. */
  ghost predicate FirstFree(id: seq<int>, x: int, c: int) {
    exists k :: FreeAt(id, x, k) && c == Probe(k, x, |id|)
  }

  ghost predicate FreeAt(id: seq<int>, x: int, k: int) {
    && 0 <= k < |id| && id[Probe(k, x, |id|)] == -1
    && forall j {:trigger Probe(j, x, |id|)} :: 0 <= j < k ==> id[Probe(j, x, |id|)] != -1
  }

  lemma FirstIsFree(id: seq<int>, x: int, c: int)
    requires FirstFree(id, x, c)
    ensures 0 <= c < |id| && id[c] == -1
  {
    hide Probe;
  }

  /** The ids for which no table with a free node makes the probe overflow. */
  lemma NeverOverruns(x: int, cap: nat)
    requires 0 <= x <= INT_MAX && 0 < cap
    ensures (forall id | |id| == cap && Distinct(id) && -1 in id :: !Overruns(id, x)) <==> x + cap - 1 <= INT_MAX
  {
    if x + cap - 1 > INT_MAX {
      var free := Probe(INT_MAX - x + 1, x, cap);
      var id := seq(cap, n => if n == free then -1 else n);
      assert id[free] == -1;
      forall j | 0 <= j <= INT_MAX - x
        ensures id[Probe(j, x, cap)] != -1
      {
        ProbesDiffer(x, cap, j, INT_MAX - x + 1);
      }
      hide Probe;
      assert Overruns(id, x);
    }
  }

  /** Two turns of one run over the array look at two nodes. */
  lemma ProbesDiffer(x: int, cap: nat, i: int, j: int)
    requires 0 <= i < j < cap
    ensures Probe(i, x, cap) != Probe(j, x, cap)
  {
    var p, q := (i + x) / cap, (j + x) / cap;
    if Probe(i, x, cap) == Probe(j, x, cap) {
      assert j - i == cap * q - cap * p;
      Distribute(cap, p, q - p);
      Bounded(cap, q - p);
      assert false;
    }
  }

  class HashId {
    var hashmod: nat
    var cap: nat
    var count: int
    const id: array<int>
    const next: array<int>
    const hash: array<int>
    ghost var chains: seq<seq<int>>

    ghost function View(): Table
      reads this, id, next, hash
    {
      Table(hashmod, id[..], next[..], hash[..], chains)
    }

    ghost predicate Valid()
      reads this, id, next, hash
    {
      && id != next && id != hash && next != hash && id.Length == cap
      && Shaped(View()) && Ok(View()) && count == |Used(id[..])|
      && IsMask(hashmod)
    }

    /** The finite map from connection id to slot. */
    ghost function Slots(): map<int, int>
      requires Valid()
      reads this, id, next, hash
    {
      Model(id[..])
    }

    constructor (max: nat)
      ensures Valid() && Slots() == map[] && cap == max <= hashmod + 1 && id[..] == seq(max, _ => -1)
      ensures fresh(id) && fresh(next) && fresh(hash)
    {
      var hashcap := 16;
      FirstMask();
      while hashcap < max
        invariant hashcap >= 16 && IsMask(hashcap - 1)
      {
        NextMask(hashcap);
        hashcap := hashcap * 2;
      }
      hashmod := hashcap - 1;
      cap := max;
      count := 0;
      id := new int[max](_ => -1);
      next := new int[max](_ => -1);
      hash := new int[hashcap](_ => -1);
      chains := seq(hashcap, _ => []);
      new;
      EmptyOk(View());
    }

    /** `hashid_lookup`, for any id: the slot, or -1. */
    method Lookup(x: int) returns (r: int)
      requires Valid()
      ensures r == if x in Slots() then Slots()[x] else -1
    {
      hide Ok, Bucket, Model;
      var h := Bucket(x, hashmod);
      ghost var t, chain := View(), chains[h];
      ChainFacts(t, h);
      ModelHolds(t.id);
      var c := hash[h];
      ghost var k := 0;
      while c != -1
        invariant 0 <= k <= |chain|
        invariant c == if k < |chain| then chain[k] else -1
        invariant forall j :: 0 <= j < k ==> t.id[chain[j]] != x
        decreases |chain| - k
      {
        assert t.id[chain[k]] == id[c] && t.next[chain[k]] == next[c];
        if id[c] == x {
          return c;
        }
        c := next[c];
        k := k + 1;
      }
      NotOnChain(t, x);
      return -1;
    }

    /** `hashid_full`: no node is free. */
    method Full() returns (b: bool)
      requires Valid()
      ensures b <==> -1 !in id[..]
    {
      b := count == cap;
      FullMeansAll(id[..]);
    }

    /**
     `hashid_insert` of a new id while a node is free, for every id whose probe does not overflow: the
     id goes into the first free node of its probe sequence.
     */
    method Insert(x: int) returns (r: int)
      requires Valid() && 0 <= x <= INT_MAX && x !in Slots() && -1 in id[..]
      requires !Overruns(id[..], x)
      modifies this, id, next, hash
      ensures Valid() && cap == old(cap) && 0 <= r < cap && id[..] == old(id[..])[r := x]
      ensures Slots() == old(Slots())[x := r] && r !in old(Slots()).Values
      ensures FirstFree(old(id[..]), x, r)
    {
      hide Ok, Model, Bucket, Distinct, Used, FirstFree, Overruns;
      var overflow, c := FindFree(x);
      ghost var t := View();
      FirstIsFree(t.id, x, c);
      InsertedFresh(t, x, c);
      count := count + 1;
      id[c] := x;
      var h := Bucket(x, hashmod);
      if hash[h] != -1 {
        next[c] := hash[h];
      }
      hash[h] := c;
      chains := chains[h := [c] + chains[h]];
      assert View() == Inserted(t, x, c);
      r := c;
    }

    /**
     The probe loop of `hashid_insert`, for every id: it meets the first free node, or `i + id` leaves
     the range of an int, exactly when the nodes probed before that are all used.
     */
    method FindFree(x: int) returns (overflow: bool, c: int)
      requires Valid() && 0 <= x <= INT_MAX && -1 in id[..]
      ensures overflow <==> Overruns(id[..], x)
      ensures !overflow ==> FirstFree(id[..], x, c)
    {
      hide Ok, Probe;
      ghost var n :| 0 <= n < cap && id[n] == -1;
      ProbeReaches(x, cap, n);
      var i := 0;
      while i < cap
        invariant 0 <= i <= cap && (i > 0 ==> i - 1 <= INT_MAX - x)
        invariant forall j {:trigger Probe(j, x, cap)} :: 0 <= j < i ==> id[Probe(j, x, cap)] != -1
      {
        if i > INT_MAX - x {
          return true, -1;
        }
        var index := Probe(i, x, cap);
        if id[index] == -1 {
          return false, index;
        }
        i := i + 1;
      }
      assert false;
    }

    /** `hashid_remove`, for any id: the slot that was freed, or -1. */
    method Remove(x: int) returns (r: int)
      requires Valid()
      modifies this, id, next, hash
      ensures Valid() && cap == old(cap)
      ensures r == if x in old(Slots()) then old(Slots())[x] else -1
      ensures Slots() == old(Slots()) - {x}
    {
      hide Ok, Bucket, Model, Used;
      var h := Bucket(x, hashmod);
      ghost var t, chain := View(), chains[h];
      ChainFacts(t, h);
      ModelHolds(t.id);
      ghost var k := 0;
      var c := hash[h];
      if c == -1 {
        NotOnChain(t, x);
        return -1;
      }
      if id[c] == x {
        Unlink(c, h, -1, 0);
        return c;
      }
      while next[c] != -1
        invariant 0 <= k < |chain| && c == chain[k]
        invariant forall j :: 0 <= j <= k ==> t.id[chain[j]] != x
        invariant View() == t && Valid() && cap == old(cap)
        decreases |chain| - k
      {
        assert t.next[chain[k]] == next[c];
        var node := next[c];
        assert t.id[chain[k + 1]] == id[node];
        if id[node] == x {
          Unlink(node, h, c, k + 1);
          return node;
        }
        c := node;
        k := k + 1;
      }
      assert t.next[chain[k]] == next[c];
      NotOnChain(t, x);
      return -1;
    }

    /** The `_clear` part of `hashid_remove`, with the node before `c` or -1. */
    method Unlink(c: int, h: int, before: int, ghost k: int)
      requires Valid() && 0 <= h <= hashmod && 0 <= k < |chains[h]| && chains[h][k] == c && 0 <= c < cap && id[c] >= 0
      requires before == (if k == 0 then -1 else chains[h][k - 1]) && before < cap && (k > 0 ==> before >= 0)
      modifies this, id, next, hash
      ensures Valid() && cap == old(cap) && hashmod == old(hashmod)
      ensures old(id[c]) in old(Slots()) && old(Slots())[old(id[c])] == c
      ensures Slots() == old(Slots()) - {old(id[c])}
    {
      hide Ok, Bucket, Model, Used, Distinct, Without;
      ghost var t := View();
      UnlinkReady(t, h, k);
      if before == -1 {
        hash[h] := next[c];
      } else {
        next[before] := next[c];
      }
      id[c] := -1;
      next[c] := -1;
      count := count - 1;
      chains := chains[h := Without(chains[h], k)];
      assert id[..] == t.id[c := -1];
      assert hash[..] == if k == 0 then t.hash[h := t.next[c]] else t.hash;
      assert next[..] == (if k == 0 then t.next else t.next[before := t.next[c]])[c := -1];
    }
  }

  /**
   A table of two nodes, one of them free, that cannot take the id INT_MAX: its probe starts at the
   used node and overflows before it comes to the free one.
   */
  method OverflowReached() returns (h: HashId)
    ensures fresh(h) && h.Valid() && h.Slots() == map[1 := 1] && -1 in h.id[..] && Overruns(h.id[..], INT_MAX)
  {
    hide Ok, Model, Overruns, FirstFree;
    TwoNodes();
    h := new HashId(2);
    assert h.id[..] == [-1, -1];
    var r := h.Insert(1);
    assert r == 1;
    assert h.id[..] == [-1, 1] && -1 == h.id[..][0];
  }

  lemma TwoNodes()
    ensures !Overruns([-1, -1], 1) && Overruns([-1, 1], INT_MAX)
    ensures forall c :: FirstFree([-1, -1], 1, c) ==> c == 1
  {
    assert Probe(0, 1, 2) == 1 && Probe(0, INT_MAX, 2) == 1;
  }

  /** What `Unlink` needs of the table before it changes it. */
  lemma UnlinkReady(t: Table, h: int, k: int)
    requires Ok(t) && 0 <= h <= t.hashmod && 0 <= k < |t.chains[h]|
    ensures forall i :: 0 <= i < |t.chains[h]| ==> 0 <= t.chains[h][i] < |t.id|
    ensures var c, t' := t.chains[h][k], Removed(t, h, k);
            && Ok(t') && Shaped(t') && Distinct(t.id) && Distinct(t'.id)
            && t.id[c] in Model(t.id) && Model(t.id)[t.id[c]] == c
            && Model(t'.id) == Model(t.id) - {t.id[c]}
            && |Used(t.id)| == |Used(t'.id)| + 1
  {
    hide Ok, ChainOk, Bucket, Model, Used, Without;
    OkIsDistinct(t);
    ChainFacts(t, h);
    RemovedOk(t, h, k);
    OkIsDistinct(Removed(t, h, k));
  }

  lemma OkIsDistinct(t: Table)
    requires Ok(t)
    ensures Shaped(t) && Distinct(t.id)
  {
  }


  lemma EmptyOk(t: Table)
    requires Shaped(t)
    requires forall n :: 0 <= n < |t.id| ==> t.id[n] == -1 && t.next[n] == -1
    requires forall h :: 0 <= h <= t.hashmod ==> t.hash[h] == -1 && t.chains[h] == []
    ensures Ok(t) && Used(t.id) == {} && Model(t.id) == map[]
  {
    hide Bucket;
  }

  /** What `Insert` needs of the table before it changes it. */
  lemma InsertedFresh(t: Table, x: int, c: int)
    requires Ok(t) && 0 <= c < |t.id| && t.id[c] == -1 && x >= 0 && x !in Model(t.id)
    ensures t.next[c] == -1 && c !in Used(t.id) && c !in Model(t.id).Values
    ensures Ok(Inserted(t, x, c)) && Model(Inserted(t, x, c).id) == Model(t.id)[x := c]
    ensures Used(Inserted(t, x, c).id) == Used(t.id) + {c} && Distinct(Inserted(t, x, c).id)
  {
    ModelHolds(t.id);
    InsertedOk(t, x, c);
    hide ChainOk, Bucket;
  }

  /** What walking one chain may rely on. */
  lemma ChainFacts(t: Table, h: int)
    requires Ok(t) && 0 <= h <= t.hashmod
    ensures var chain := t.chains[h];
            && t.hash[h] == (if |chain| > 0 then chain[0] else -1)
            && (forall k {:trigger chain[k]} :: 0 <= k < |chain| ==> 0 <= chain[k] < |t.id| && t.id[chain[k]] >= 0)
            && (forall k {:trigger t.next[chain[k]]} :: 0 <= k < |chain| ==>
                  t.next[chain[k]] == if k == |chain| - 1 then -1 else chain[k + 1])
            && Distinct(t.id)
  {
    assert ChainOk(t, h);
    assert forall k :: 0 <= k < |t.chains[h]| ==> t.chains[h][k] in t.chains[h];
  }

  /** An id whose chain does not hold it is not in the table. */
  lemma NotOnChain(t: Table, x: int)
    requires Ok(t)
    requires var chain := t.chains[Bucket(x, t.hashmod)];
             forall i :: 0 <= i < |chain| ==> 0 <= chain[i] < |t.id| && t.id[chain[i]] != x
    ensures x !in Model(t.id)
  {
    hide ChainOk, Bucket;
    forall n | 0 <= n < |t.id| && t.id[n] >= 0
      ensures t.id[n] != x
    {
      assert n in t.chains[Bucket(t.id[n], t.hashmod)];
    }
  }

  lemma {:induction false} FullMeansAll(id: seq<int>)
    ensures |Used(id)| <= |id| && (|Used(id)| == |id| <==> -1 !in id)
  {
    if id != [] {
      var n := |id| - 1;
      FullMeansAll(id[..n]);
      assert Used(id) == Used(id[..n]) + if id[n] != -1 then {n} else {};
      assert n !in Used(id[..n]);
      assert id == id[..n] + [id[n]];
    }
  }

  /** The probe sequence visits every node, so a free one is found. */
  lemma ProbeReaches(x: int, cap: nat, n: nat)
    requires 0 <= x && n < cap
    ensures exists j :: 0 <= j < cap && Probe(j, x, cap) == n
  {
    var q, r := x / cap, x % cap;
    var j, up := if n >= r then n - r else n - r + cap, if n >= r then 0 else 1;
    Quotient(q, r, up, cap, j, n, x);
    assert Probe(j, x, cap) == n;
  }

  lemma Quotient(q: int, r: int, up: int, cap: nat, j: int, n: nat, x: int)
    requires cap > 0 && x == cap * q + r && j == n - r + cap * up && n < cap
    ensures (j + x) % cap == n
  {
    var a := j + x;
    var d := (q + up) - a / cap;
    Distribute(cap, q, up);
    Distribute(cap, a / cap, d);
    assert a == cap * (a / cap) + a % cap;
    Bounded(cap, d);
  }

  lemma Distribute(a: int, b: int, c: int)
    ensures a * (b + c) == a * b + a * c
  {
  }

  lemma Bounded(cap: nat, d: int)
    requires cap > 0
    ensures d >= 1 ==> cap * d >= cap
    ensures d <= -1 ==> cap * d <= -(cap as int)
  {
  }
}
