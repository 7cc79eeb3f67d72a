/** Bytes and the few operations on them that the parsers and codecs share. */
module Bytes {
  import opened Sequences

  type byte = b: int | 0 <= b < 256

  function Concat(pieces: seq<seq<byte>>): seq<byte> {
    if pieces == [] then [] else pieces[0] + Concat(pieces[1..])
  }

  /** Exclusive or, bit by bit. */
  function XorBits(a: nat, b: nat): nat
    decreases a + b
  {
    if a == 0 && b == 0 then 0 else (a % 2 + b % 2) % 2 + 2 * XorBits(a / 2, b / 2)
  }

  lemma Parity(x: nat, y: nat)
    requires x < 2 && y < 2
    ensures ((x + y) % 2 + y) % 2 == x
  {
  }

  lemma SameHalves(a: nat, b: nat)
    requires a % 2 == b % 2 && a / 2 == b / 2
    ensures a == b
  {
  }

  lemma {:induction false} XorHalves(a: nat, b: nat)
    ensures XorBits(a, b) % 2 == (a % 2 + b % 2) % 2 && XorBits(a, b) / 2 == XorBits(a / 2, b / 2)
  {
    assert XorBits(0, 0) == 0;
  }

  lemma {:induction false} XorTwice(a: nat, b: nat)
    ensures XorBits(XorBits(a, b), b) == a
    decreases a + b
  {
    if a != 0 || b != 0 {
      XorTwice(a / 2, b / 2);
      XorHalves(a, b);
      XorHalves(XorBits(a, b), b);
      hide *;
      Parity(a % 2, b % 2);
      SameHalves(XorBits(XorBits(a, b), b), a);
    }
  }

  lemma {:induction false} XorBound(a: nat, b: nat, n: nat)
    requires n == 1 || n == 2 || n == 4 || n == 8 || n == 16 || n == 32 || n == 64 || n == 128 || n == 256
    requires a < n && b < n
    ensures XorBits(a, b) < n
    decreases n
  {
    if n > 1 {
      XorBound(a / 2, b / 2, n / 2);
    }
  }

  function Xor(a: byte, b: byte): byte {
    XorBound(a, b, 256);
    XorBits(a, b)
  }

  lemma DropWithin(a: seq<byte>, b: seq<byte>, k: nat)
    requires k <= |a|
    ensures (a + b)[k..] == a[k..] + b
  {
  }

  lemma SliceWithin(a: seq<byte>, b: seq<byte>, i: nat, j: nat)
    requires i <= j <= |a|
    ensures (a + b)[i..j] == a[i..j]
  {
  }
}
