/**
 `sha1` (service-src/util/sha1.h): cutting the message into blocks in place, against the padding of
 FIPS 180-4, section 5.1.1.
 */
module Sha1 {
  import opened Sha1Block

  const TWO32 := 0x1_0000_0000

  // ---------------------------------------------------------------- padding

  /** A byte shifted to its place in a word, the first byte on top. */
  function Place(b: bv8, q: nat): bv32 {
    if q == 0 then (b as bv32) << 24
    else if q == 1 then (b as bv32) << 16
    else if q == 2 then (b as bv32) << 8
    else b as bv32
  }

  function Or(a: bv32, b: bv32): bv32 {
    a | b
  }

  function Word(b0: bv8, b1: bv8, b2: bv8, b3: bv8): bv32 {
    Or(Or(Or(Place(b0, 0), Place(b1, 1)), Place(b2, 2)), Place(b3, 3))
  }

  /** Byte `x` of the message, the single one bit behind it, and zeros. */
  function ByteAt(m: seq<bv8>, x: nat): bv8 {
    if x < |m| then m[x] else if x == |m| then 0x80 else 0
  }

  function WordAt(m: seq<bv8>, k: nat): bv32 {
    Word(ByteAt(m, 4 * k), ByteAt(m, 4 * k + 1), ByteAt(m, 4 * k + 2), ByteAt(m, 4 * k + 3))
  }

  /** The two words of the length in bits. */
  function High(n: nat): bv32
    requires n < 0x2000_0000_0000_0000
  {
    (n * 8 / TWO32) as bv32
  }

  function Low(n: nat): bv32 {
    (n * 8 % TWO32) as bv32
  }

  /** How many blocks hold the message, the one bit and the length. */
  function FipsBlocks(n: nat): (c: nat)
    ensures n + 9 <= 64 * c < n + 9 + 64
  {
    (n + 8) / 64 + 1
  }

  function FipsWords(m: seq<bv8>): seq<bv32>
    requires |m| < 0x2000_0000_0000_0000
  {
    var count := 16 * FipsBlocks(|m|);
    seq(count, k requires 0 <= k < count =>
      if k == count - 2 then High(|m|) else if k == count - 1 then Low(|m|) else WordAt(m, k))
  }

  /** The blocks `sha1` feeds to `sha1mix`: one more than whole blocks, or two when `n % 64 > 56`. */
  function CodeBlocks(n: nat): nat {
    n / 64 + if n % 64 > 56 then 2 else 1
  }

  function CodeWords(m: seq<bv8>): seq<bv32> {
    var count := 16 * CodeBlocks(|m|);
    seq(count, k requires 0 <= k < count => if k == count - 1 then Low(|m|) else WordAt(m, k))
  }

  lemma CountsAgree(n: nat)
    ensures CodeBlocks(n) == FipsBlocks(n) <==> n % 64 != 56
  {
    var q, r := n / 64, n % 64;
    assert n == 64 * q + r;
  }

  lemma HighIsZero(n: nat)
    requires n < 0x2000_0000_0000_0000
    ensures High(n) == 0 <==> n < 0x2000_0000
  {
    var x := n * 8 / TWO32;
    if n < 0x2000_0000 {
      assert x == 0;
    } else {
      assert 0 < x < TWO32;
      NotZero(x);
    }
  }

  lemma NotZero(x: int)
    requires 0 < x < TWO32
    ensures x as bv32 != 0
  {
  }

  /** Behind the one bit there are only zeros. */
  lemma ZeroWord(m: seq<bv8>, k: nat)
    requires 4 * k > |m|
    ensures WordAt(m, k) == 0
  {
  }

  /** The source pads as the standard does exactly for these lengths. */
  lemma PaddingIsStandard(m: seq<bv8>)
    requires |m| < 0x2000_0000_0000_0000
    ensures CodeWords(m) == FipsWords(m) <==> |m| % 64 != 56 && |m| < 0x2000_0000
  {
    var n := |m|;
    var c, f := CodeBlocks(n), FipsBlocks(n);
    CountsAgree(n);
    HighIsZero(n);
    assert |CodeWords(m)| == 16 * c && |FipsWords(m)| == 16 * f;
    if c == f {
      var k := 16 * f - 2;
      ZeroWord(m, k);
      hide WordAt, High, Low, CodeBlocks, FipsBlocks;
      assert CodeWords(m)[k] == 0 && FipsWords(m)[k] == High(n);
      if High(n) == 0 {
        assert CodeWords(m) == FipsWords(m);
      }
    }
  }

  // ---------------------------------------------------------------- hashing

  function Hash(h: Vars, words: seq<bv32>): Vars
    decreases |words|
  {
    if |words| < 16 then h else Compress(Hash(h, words[..|words| - 16]), words[|words| - 16..])
  }

  lemma HashStep(h: Vars, words: seq<bv32>, a: nat)
    requires a + 16 <= |words|
    ensures Hash(h, words[..a + 16]) == Compress(Hash(h, words[..a]), words[a..a + 16])
  {
    var front := words[..a + 16];
    assert front[..a] == words[..a] && front[a..] == words[a..a + 16];
    hide Compress;
  }

  function WordBytes(x: bv32): seq<bv8> {
    [((x >> 24) & 0xff) as bv8, ((x >> 16) & 0xff) as bv8, ((x >> 8) & 0xff) as bv8, (x & 0xff) as bv8]
  }

  function Output(v: Vars): seq<bv8> {
    WordBytes(v.a) + WordBytes(v.b) + WordBytes(v.c) + WordBytes(v.d) + WordBytes(v.e)
  }

  /** SHA-1 by the standard. */
  function Digest(m: seq<bv8>): seq<bv8>
    requires |m| < 0x2000_0000_0000_0000
  {
    Output(Hash(H0, FipsWords(m)))
  }

  // ---------------------------------------------------------------- filling a block in place

  /** Byte `x` of a stream of which only `i` bytes have been written. */
  function Written(m: seq<bv8>, i: nat, x: nat): bv8 {
    if x < i then ByteAt(m, x) else 0
  }

  function WrittenWord(m: seq<bv8>, i: nat, k: nat): bv32 {
    Word(Written(m, i, 4 * k), Written(m, i, 4 * k + 1), Written(m, i, 4 * k + 2), Written(m, i, 4 * k + 3))
  }

  /** The block from word `base` on, with `i` bytes written. */
  function Partial(m: seq<bv8>, base: nat, i: nat): seq<bv32> {
    seq(16, k requires 0 <= k < 16 => WrittenWord(m, i, base + k))
  }

  lemma OrZero(a: bv32)
    ensures Or(a, 0) == a && Or(0, a) == a
  {
  }

  lemma PlaceZero(q: nat)
    ensures Place(0, q) == 0
  {
  }

  lemma WordOr(b0: bv8, b1: bv8, b2: bv8, b3: bv8)
    ensures Or(Word(0, 0, 0, 0), Place(b0, 0)) == Word(b0, 0, 0, 0)
    ensures Or(Word(b0, 0, 0, 0), Place(b1, 1)) == Word(b0, b1, 0, 0)
    ensures Or(Word(b0, b1, 0, 0), Place(b2, 2)) == Word(b0, b1, b2, 0)
    ensures Or(Word(b0, b1, b2, 0), Place(b3, 3)) == Word(b0, b1, b2, b3)
  {
    var p0, p1, p2, p3 := Place(b0, 0), Place(b1, 1), Place(b2, 2), Place(b3, 3);
    PlaceZero(0);
    PlaceZero(1);
    PlaceZero(2);
    PlaceZero(3);
    hide Or, Place;
    OrZero(0);
    OrZero(p0);
    OrZero(Or(p0, p1));
    OrZero(Or(Or(p0, p1), p2));
  }

  /** Writing one more byte with `|=`. */
  lemma WriteByte(m: seq<bv8>, i: nat)
    ensures Or(WrittenWord(m, i, i / 4), Place(ByteAt(m, i), i % 4)) == WrittenWord(m, i + 1, i / 4)
  {
    hide Word, Place, ByteAt, Or;
    var k := i / 4;
    WordOr(ByteAt(m, 4 * k), ByteAt(m, 4 * k + 1), ByteAt(m, 4 * k + 2), ByteAt(m, 4 * k + 3));
    assert i == 4 * k + i % 4;
  }

  lemma OtherWords(m: seq<bv8>, i: nat, k: nat)
    requires k != i / 4
    ensures WrittenWord(m, i, k) == WrittenWord(m, i + 1, k)
  {
    hide Word, ByteAt;
  }

  lemma WordWritten(m: seq<bv8>, i: nat, k: nat)
    requires 4 * k + 4 <= i || i > |m|
    ensures WrittenWord(m, i, k) == WordAt(m, k)
  {
    hide Word;
  }

  lemma NothingWritten(m: seq<bv8>, i: nat, k: nat)
    requires i <= 4 * k
    ensures WrittenWord(m, i, k) == 0
  {
    PlaceZero(0);
    PlaceZero(1);
    PlaceZero(2);
    PlaceZero(3);
    OrZero(0);
    hide Place, Or;
  }

  lemma PartialStep(m: seq<bv8>, base: nat, i: nat)
    requires base % 16 == 0 && 4 * base <= i < 4 * base + 64
    ensures i / 4 == base + i / 4 % 16
    ensures var k := i / 4 % 16; var was := Partial(m, base, i);
      was[k := Or(was[k], Place(ByteAt(m, i), i % 4))] == Partial(m, base, i + 1)
  {
    var k, was, now := i / 4 % 16, Partial(m, base, i), Partial(m, base, i + 1);
    assert i / 4 == base + k;
    WriteByte(m, i);
    hide Or, Place, WrittenWord, ByteAt;
    forall j | 0 <= j < 16 && j != k
      ensures was[j] == now[j]
    {
      OtherWords(m, i, base + j);
    }
  }

  /** The statement `w[i >> 2 & 0xf] |= ...` for byte `i` of the stream. */
  method OrByte(w: array<bv32>, i: nat, b: bv8, ghost m: seq<bv8>, ghost base: nat)
    requires w.Length == 16 && base % 16 == 0 && 4 * base <= i < 4 * base + 64
    requires w[..] == Partial(m, base, i) && b == ByteAt(m, i)
    modifies w
    ensures w[..] == Partial(m, base, i + 1)
  {
    ghost var was := w[..];
    PartialStep(m, base, i);
    hide *;
    w[i / 4 % 16] := Or(w[i / 4 % 16], Place(b, i % 4));
    assert w[..] == was[i / 4 % 16 := Or(was[i / 4 % 16], Place(b, i % 4))];
  }

  // ---------------------------------------------------------------- sha1

  /** The `do` loop that loads a whole block of the message. */
  method LoadBlock(w: array<bv32>, p: seq<bv8>, start: nat)
    requires w.Length == 16 && start % 64 == 0 && start + 64 <= |p|
    modifies w
    ensures w[..] == CodeWords(p)[start / 4..start / 4 + 16]
  {
    var i := start;
    ghost var c, base := 0, start / 4;
    hide Word, Low;
    while i < start + 64
      invariant 0 <= c <= 16 && i == start + 4 * c
      invariant forall k :: 0 <= k < c ==> w[k] == WordAt(p, base + k)
    {
      assert i / 4 % 16 == c && ByteAt(p, 4 * (base + c)) == p[i];
      w[i / 4 % 16] := Word(p[i], p[i + 1], p[i + 2], p[i + 3]);
      i := i + 4;
      c := c + 1;
    }
    WholeBlock(p, start);
    hide *;
    ghost var block := CodeWords(p)[base..base + 16];
    assert forall k :: 0 <= k < 16 ==> w[k] == block[k];
  }

  lemma WholeBlock(m: seq<bv8>, start: nat)
    requires start % 64 == 0 && start + 64 <= |m|
    ensures start / 4 + 16 < |CodeWords(m)|
    ensures var block := CodeWords(m)[start / 4..start / 4 + 16];
            forall k :: 0 <= k < 16 ==> block[k] == WordAt(m, start / 4 + k)
  {
    hide WordAt, Low;
  }

  /** The words behind the last whole block: one block, or two when the length does not fit behind the one bit. */
  lemma LastBlocks(m: seq<bv8>)
    ensures var n := |m|; var base := n / 64 * 16; var ws := CodeWords(m); var tail := Partial(m, base, n + 1);
      if n % 64 > 56 then
        |ws| == base + 32 && ws[base..base + 16] == tail
        && ws[base + 16..base + 32] == seq(16, _ => 0 as bv32)[15 := Low(n)]
      else |ws| == base + 16 && ws[base..base + 16] == tail[15 := Low(n)]
  {
    var n, base, ws := |m|, |m| / 64 * 16, CodeWords(m);
    hide WordAt, Low, WrittenWord;
    var tail := Partial(m, base, n + 1);
    forall k | 0 <= k < 16
      ensures tail[k] == WordAt(m, base + k)
    {
      WordWritten(m, n + 1, base + k);
    }
    if n % 64 > 56 {
      var next := ws[base + 16..base + 32];
      forall k | 0 <= k < 15
        ensures next[k] == 0
      {
        ZeroWord(m, base + 16 + k);
      }
    }
  }

  /** `memset(w, 0, sizeof w)`. */
  method Clear(w: array<bv32>)
    requires w.Length == 16
    modifies w
    ensures w[..] == seq(16, _ => 0 as bv32)
  {
    var k := 0;
    while k < 16
      invariant 0 <= k <= 16 && forall j :: 0 <= j < k ==> w[j] == 0
    {
      w[k] := 0;
      k := k + 1;
    }
  }

  lemma DigestIs(m: seq<bv8>)
    requires |m| < 0x2000_0000_0000_0000
    ensures Digest(m) == Output(Hash(H0, FipsWords(m)))
  {
  }

  lemma InMessage(m: seq<bv8>, i: nat)
    requires i <= |m|
    ensures ByteAt(m, i) == if i < |m| then m[i] else 0x80
  {
  }

  lemma StartPartial(m: seq<bv8>, base: nat)
    ensures Partial(m, base, 4 * base) == seq(16, _ => 0 as bv32)
  {
    hide WrittenWord;
    forall k | 0 <= k < 16
      ensures Partial(m, base, 4 * base)[k] == 0
    {
      NothingWritten(m, 4 * base, base + k);
    }
  }

  lemma BlockIndex(n: nat, q: nat)
    requires q == n / 64
    ensures n - n % 64 == 64 * q && 16 * q == n / 64 * 16
    ensures n == 64 * q ==> n % 64 == 0 && n / 4 == 16 * q
  {
  }

  /** The first loop of `sha1`: every whole block of the message. */
  method WholeBlocks(p: seq<bv8>, r: array<bv32>, w: array<bv32>)
    requires r.Length == 5 && w.Length == 16 && r != w && VarsOf(r[..]) == H0
    modifies r, w
    ensures |p| / 64 * 16 <= |CodeWords(p)|
    ensures VarsOf(r[..]) == Hash(H0, CodeWords(p)[..|p| / 64 * 16])
  {
    var n, i := |p|, 0;
    ghost var words, c, q := CodeWords(p), 0, n / 64;
    assert Hash(H0, words[..0]) == H0;
    hide *;
    BlockIndex(n, q);
    while i < n - n % 64
      invariant 0 <= c <= q && i == 64 * c
      invariant 16 * c <= |words| && VarsOf(r[..]) == Hash(H0, words[..16 * c])
    {
      BlockIndex(i, c);
      WholeBlock(p, i);
      LoadBlock(w, p, i);
      HashStep(H0, words, 16 * c);
      i := i + 64;
      c := c + 1;
      Sha1Mix(r, w);
    }
  }

  /** The last bytes of the message and the one bit, in a cleared block. */
  method FillTail(p: seq<bv8>, w: array<bv32>)
    requires w.Length == 16
    modifies w
    ensures w[..] == Partial(p, |p| / 64 * 16, |p| + 1)
  {
    var n := |p|;
    var i := n - n % 64;
    ghost var base := n / 64 * 16;
    hide *;
    Clear(w);
    StartPartial(p, base);
    assert i == 4 * base;
    while i < n
      invariant 4 * base <= i <= n && w[..] == Partial(p, base, i)
    {
      InMessage(p, i);
      OrByte(w, i, p[i], p, base);
      i := i + 1;
    }
    InMessage(p, n);
    OrByte(w, i, 0x80, p, base);
  }

  /** `sha1`: the standard digest, for the lengths the padding is right for. */
  method ComputeDigest(p: seq<bv8>) returns (h: seq<bv8>)
    ensures h == Output(Hash(H0, CodeWords(p)))
    ensures |p| % 64 != 56 && |p| < 0x2000_0000 ==> h == Digest(p)
  {
    hide *;
    var n := |p|;
    ghost var words, base := CodeWords(p), n / 64 * 16;
    var w, r := new bv32[16](_ => 0), new bv32[5](_ => 0);
    r[0], r[1], r[2], r[3], r[4] := H0.a, H0.b, H0.c, H0.d, H0.e;
    VarsAre(r[..], H0);
    WholeBlocks(p, r, w);
    LastBlocks(p);
    ghost var rs := r[..];
    FillTail(p, w);
    HashStep(H0, words, base);
    assert r[..] == rs;
    if n % 64 > 56 {
      Sha1Mix(r, w);
      rs := r[..];
      Clear(w);
      HashStep(H0, words, base + 16);
      base := base + 16;
    }
    FinalBlock(p, r, w, base);
    h := Output(VarsOf(r[..]));
    if n % 64 != 56 && n < 0x2000_0000 {
      PaddingIsStandard(p);
      DigestIs(p);
    }
  }

  /** The length goes into the last word. */
  method FinalBlock(p: seq<bv8>, r: array<bv32>, w: array<bv32>, ghost base: nat)
    requires r.Length == 5 && w.Length == 16 && r != w && base + 16 == |CodeWords(p)|
    requires VarsOf(r[..]) == Hash(H0, CodeWords(p)[..base])
    requires w[..][15 := Low(|p|)] == CodeWords(p)[base..base + 16]
    modifies r, w
    ensures VarsOf(r[..]) == Hash(H0, CodeWords(p))
  {
    ghost var words, last, rs := CodeWords(p), w[..], r[..];
    hide *;
    HashStep(H0, words, base);
    w[15] := Low(|p|);
    assert w[..] == last[15 := Low(|p|)] && r[..] == rs;
    Sha1Mix(r, w);
    assert words[..base + 16] == words;
  }
}
