/**
 SHA-1 as service-src/util/sha1.h computes it, with 16 schedule words overwritten in place, against
 FIPS 180-4.
 */
module Sha1Block {
  // ---------------------------------------------------------------- FIPS 180-4, section 6.1

  function Rol(x: bv32, s: bv6): bv32
    requires s <= 32
  {
    (x << s) | (x >> (32 - s))
  }

  function Ch(x: bv32, y: bv32, z: bv32): bv32 {
    (x & y) ^ (!x & z)
  }

  function Parity(x: bv32, y: bv32, z: bv32): bv32 {
    x ^ y ^ z
  }

  function Maj(x: bv32, y: bv32, z: bv32): bv32 {
    (x & y) ^ (x & z) ^ (y & z)
  }

  function F(t: nat, x: bv32, y: bv32, z: bv32): bv32 {
    if t < 20 then Ch(x, y, z) else if t < 40 then Parity(x, y, z) else if t < 60 then Maj(x, y, z) else Parity(x, y, z)
  }

  function K(t: nat): bv32 {
    if t < 20 then 0x5a827999 else if t < 40 then 0x6ed9eba1 else if t < 60 then 0x8f1bbcdc else 0xca62c1d6
  }

  function Expand(a: bv32, b: bv32, c: bv32, d: bv32): bv32 {
    Rol(a ^ b ^ c ^ d, 1)
  }

  /** The message schedule, all 80 words of it. */
  function W(block: seq<bv32>, t: nat): bv32
    requires |block| == 16
  {
    if t < 16 then block[t]
    else Expand(W(block, t - 3), W(block, t - 8), W(block, t - 14), W(block, t - 16))
  }

  datatype Vars = Vars(a: bv32, b: bv32, c: bv32, d: bv32, e: bv32)

  function Round(v: Vars, t: nat, w: bv32): Vars {
    Vars(Sum(Rol(v.a, 5), F(t, v.b, v.c, v.d), v.e, K(t), w), v.a, Rol(v.b, 30), v.c, v.d)
  }

  function Sum(a: bv32, b: bv32, c: bv32, d: bv32, e: bv32): bv32 {
    a + b + c + d + e
  }

  function Rounds(h: Vars, block: seq<bv32>, t: nat): Vars
    requires |block| == 16
  {
    if t == 0 then h else Round(Rounds(h, block, t - 1), t - 1, W(block, t - 1))
  }

  function Plus(h: Vars, v: Vars): Vars {
    Vars(h.a + v.a, h.b + v.b, h.c + v.c, h.d + v.d, h.e + v.e)
  }

  function Compress(h: Vars, block: seq<bv32>): Vars
    requires |block| == 16
  {
    Plus(h, Rounds(h, block, 80))
  }

  const H0 := Vars(0x67452301, 0xefcdab89, 0x98badcfe, 0x10325476, 0xc3d2e1f0)

  // ---------------------------------------------------------------- sha1mix

  /** The `mix` macro on the working variables. */
  function Mix(v: Vars, f: bv32, k: bv32, w: bv32): Vars {
    Vars(Sum(f, k, Rol(v.a, 5), v.e, w), v.a, Rol(v.b, 30), v.c, v.d)
  }

  function Choose(b: bv32, c: bv32, d: bv32): bv32 {
    d ^ (b & (c ^ d))
  }

  function Majority(b: bv32, c: bv32, d: bv32): bv32 {
    (b & c) | (d & (b | c))
  }

  function MixChoose(v: Vars, w: bv32): Vars {
    Mix(v, Choose(v.b, v.c, v.d), 0x5a827999, w)
  }

  function MixParity(v: Vars, k: bv32, w: bv32): Vars {
    Mix(v, Parity(v.b, v.c, v.d), k, w)
  }

  function MixMajority(v: Vars, w: bv32): Vars {
    Mix(v, Majority(v.b, v.c, v.d), 0x8f1bbcdc, w)
  }

  /** The bit tricks of the source are the functions of section 4.1.1. */
  lemma ChooseIsCh(b: bv32, c: bv32, d: bv32)
    ensures Choose(b, c, d) == Ch(b, c, d)
  {
    assert d ^ (b & (c ^ d)) == (b & c) ^ (!b & d);
  }

  lemma MajorityIsMaj(b: bv32, c: bv32, d: bv32)
    ensures Majority(b, c, d) == Maj(b, c, d)
  {
    assert (b & c) | (d & (b | c)) == (b & c) ^ (b & d) ^ (c & d);
  }

  lemma SumOrder(f: bv32, k: bv32, a: bv32, e: bv32, w: bv32)
    ensures Sum(f, k, a, e, w) == Sum(a, f, e, k, w)
  {
  }

  /** Each form of the macro is the round of its range. */
  lemma MixIsRound(v: Vars, t: nat, w: bv32)
    ensures t < 20 ==> MixChoose(v, w) == Round(v, t, w)
    ensures 20 <= t < 40 ==> MixParity(v, 0x6ed9eba1, w) == Round(v, t, w)
    ensures 40 <= t < 60 ==> MixMajority(v, w) == Round(v, t, w)
    ensures 60 <= t ==> MixParity(v, 0xca62c1d6, w) == Round(v, t, w)
  {
    hide Rol, Sum, Ch, Maj, Parity, Choose, Majority;
    ChooseIsCh(v.b, v.c, v.d);
    MajorityIsMaj(v.b, v.c, v.d);
    SumOrder(F(t, v.b, v.c, v.d), K(t), Rol(v.a, 5), v.e, w);
  }

  /** Before round `i` the ring holds the 16 schedule words that end with word `i - 1`. */
  ghost predicate Ring(w: seq<bv32>, block: seq<bv32>, i: nat)
    requires |block| == 16
    ensures Ring(w, block, i) ==> |w| == 16
  {
    |w| == 16 && i >= 16 && forall t :: i - 16 <= t < i ==> w[t % 16] == W(block, t)
  }

  /** The word that round `i` writes. */
  function NextWord(w: seq<bv32>, i: nat): bv32
    requires |w| == 16
  {
    Expand(w[(i + 13) % 16], w[(i + 8) % 16], w[(i + 2) % 16], w[i % 16])
  }

  lemma RingIndex(i: nat)
    requires i >= 16
    ensures (i + 13) % 16 == (i - 3) % 16 && (i + 8) % 16 == (i - 8) % 16
    ensures (i + 2) % 16 == (i - 14) % 16 && i % 16 == (i - 16) % 16
  {
  }

  lemma OtherSlot(t: nat, i: nat)
    requires t < i < t + 16
    ensures t % 16 != i % 16
  {
  }

  lemma RingStep(w: seq<bv32>, block: seq<bv32>, i: nat)
    requires |block| == 16 && Ring(w, block, i)
    ensures NextWord(w, i) == W(block, i)
    ensures Ring(w[i % 16 := NextWord(w, i)], block, i + 1)
  {
    RingIndex(i);
    hide Expand;
    var w' := w[i % 16 := NextWord(w, i)];
    forall t | i + 1 - 16 <= t < i + 1
      ensures w'[t % 16] == W(block, t)
    {
      if t < i {
        OtherSlot(t, i);
      }
    }
  }

  lemma RingStarts(block: seq<bv32>)
    requires |block| == 16
    ensures Ring(block, block, 16)
  {
  }

  function VarsOf(r: seq<bv32>): Vars
    requires |r| == 5
  {
    Vars(r[0], r[1], r[2], r[3], r[4])
  }

  /** The line that overwrites a schedule word. */
  method Advance(w: array<bv32>, i: nat, ghost block: seq<bv32>)
    requires |block| == 16 && Ring(w[..], block, i)
    modifies w
    ensures Ring(w[..], block, i + 1) && w.Length == 16 && w[i % 16] == W(block, i)
  {
    ghost var was := w[..];
    RingStep(was, block, i);
    hide *;
    w[i % 16] := NextWord(w[..], i);
    assert w[..] == was[i % 16 := NextWord(was, i)];
  }

  /** The 80 turns of `sha1mix`. */
  method MixAll(h: Vars, w: array<bv32>) returns (v: Vars)
    requires w.Length == 16
    modifies w
    ensures v == Rounds(h, old(w[..]), 80)
  {
    ghost var block := w[..];
    var i := 0;
    v := h;
    assert Rounds(h, block, 0) == h;
    hide *;
    while i < 16
      invariant 0 <= i <= 16 && v == Rounds(h, block, i) && w[..] == block
    {
      EarlyWord(block, i);
      RoundsStep(h, block, i);
      v := MixChoose(v, w[i % 16]);
      i := i + 1;
    }
    RingStarts(block);
    while i < 20
      invariant 16 <= i <= 20 && v == Rounds(h, block, i) && w.Length == 16 && Ring(w[..], block, i)
      modifies w
    {
      RoundsStep(h, block, i);
      Advance(w, i, block);
      v := MixChoose(v, w[i % 16]);
      i := i + 1;
    }
    while i < 40
      invariant 20 <= i <= 40 && v == Rounds(h, block, i) && Ring(w[..], block, i)
      modifies w
    {
      RoundsStep(h, block, i);
      Advance(w, i, block);
      v := MixParity(v, 0x6ed9eba1, w[i % 16]);
      i := i + 1;
    }
    while i < 60
      invariant 40 <= i <= 60 && v == Rounds(h, block, i) && Ring(w[..], block, i)
      modifies w
    {
      RoundsStep(h, block, i);
      Advance(w, i, block);
      v := MixMajority(v, w[i % 16]);
      i := i + 1;
    }
    while i < 80
      invariant 60 <= i <= 80 && v == Rounds(h, block, i) && Ring(w[..], block, i)
      modifies w
    {
      RoundsStep(h, block, i);
      Advance(w, i, block);
      v := MixParity(v, 0xca62c1d6, w[i % 16]);
      i := i + 1;
    }
  }

  /** `sha1mix`: the compression of section 6.1.2, although only 16 schedule words are ever stored. */
  method Sha1Mix(r: array<bv32>, w: array<bv32>)
    requires r.Length == 5 && w.Length == 16 && r != w
    modifies r, w
    ensures VarsOf(r[..]) == Compress(VarsOf(old(r[..])), old(w[..]))
  {
    ghost var block := w[..];
    var h := VarsOf(r[..]);
    var v := MixAll(h, w);
    hide Plus, Rounds;
    v := Plus(h, v);
    r[0], r[1], r[2], r[3], r[4] := v.a, v.b, v.c, v.d, v.e;
    VarsAre(r[..], v);
  }

  lemma VarsAre(r: seq<bv32>, v: Vars)
    requires r == [v.a, v.b, v.c, v.d, v.e]
    ensures VarsOf(r) == v
  {
  }

  lemma RoundsStep(h: Vars, block: seq<bv32>, i: nat)
    requires |block| == 16
    ensures var v := Rounds(h, block, i); var w := W(block, i); var v' := Rounds(h, block, i + 1);
      (i < 20 ==> MixChoose(v, w) == v') && (20 <= i < 40 ==> MixParity(v, 0x6ed9eba1, w) == v')
      && (40 <= i < 60 ==> MixMajority(v, w) == v') && (60 <= i ==> MixParity(v, 0xca62c1d6, w) == v')
  {
    MixIsRound(Rounds(h, block, i), i, W(block, i));
    hide Round, MixChoose, MixParity, MixMajority, W;
  }

  lemma EarlyWord(block: seq<bv32>, i: nat)
    requires |block| == 16 && i < 16
    ensures W(block, i) == block[i % 16]
  {
  }
}
