/** `base64` of service-src/util/base64.h against section 4 of RFC 4648. */
module Base64 {
  import opened Options
  import opened Bytes
  import opened Sequences

  const EQUALS: byte := 61
  const SIZE_MAX := 0xffff_ffff_ffff_ffff

  // ---------------------------------------------------------------- RFC 4648

  /** The alphabet. */
  function Letter(v: nat): byte
    requires v < 64
  {
    if v < 26 then 65 + v else if v < 52 then 71 + v else if v < 62 then v - 4 else if v == 62 then 43 else 47
  }

  function Value(c: byte): Option<nat> {
    if 65 <= c <= 90 then Some(c - 65)
    else if 97 <= c <= 122 then Some(c - 71)
    else if 48 <= c <= 57 then Some(c + 4)
    else if c == 43 then Some(62)
    else if c == 47 then Some(63)
    else None
  }

  lemma LetterRoundTrip(v: nat)
    requires v < 64
    ensures Letter(v) != EQUALS && Value(Letter(v)) == Some(v)
  {
  }

  /** The four 6-bit values of three bytes. */
  function V0(b0: byte): (v: nat) ensures v < 64 { b0 / 4 }
  function V1(b0: byte, b1: byte): (v: nat) ensures v < 64 { b0 % 4 * 16 + b1 / 16 }
  function V2(b1: byte, b2: byte): (v: nat) ensures v < 64 { b1 % 16 * 4 + b2 / 64 }
  function V3(b2: byte): (v: nat) ensures v < 64 { b2 % 64 }

  /** The three bytes of four 6-bit values. */
  function B0(v0: nat, v1: nat): byte { (v0 * 4 + v1 / 16) % 256 }
  function B1(v1: nat, v2: nat): byte { (v1 % 16 * 16 + v2 / 4) % 256 }
  function B2(v2: nat, v3: nat): byte { (v2 % 4 * 64 + v3) % 256 }

  lemma Split16(q: nat, r: nat)
    requires r < 16
    ensures (q * 16 + r) / 16 == q && (q * 16 + r) % 16 == r
  {
  }

  lemma Split4(q: nat, r: nat)
    requires r < 4
    ensures (q * 4 + r) / 4 == q && (q * 4 + r) % 4 == r
  {
  }

  lemma Regroup0(b0: byte, b1: byte)
    ensures B0(V0(b0), V1(b0, b1)) == b0 && V1(b0, b1) % 16 == b1 as int / 16
  {
    var q: nat, r: nat, h: nat := b0 as int / 4, b0 as int % 4, b1 as int / 16;
    Split16(r, h);
    assert V1(b0, b1) == r * 16 + h && b0 == q * 4 + r;
  }

  lemma Regroup1(b1: byte, b2: byte, v1: nat)
    requires v1 % 16 == b1 as int / 16
    ensures B1(v1, V2(b1, b2)) == b1 && V2(b1, b2) % 4 == b2 as int / 64
  {
    var q: nat, r: nat, h: nat := b1 as int / 16, b1 as int % 16, b2 as int / 64;
    Split4(r, h);
    assert V2(b1, b2) == r * 4 + h && b1 == q * 16 + r;
  }

  lemma Regroup2(b2: byte, v2: nat)
    requires v2 % 4 == b2 as int / 64
    ensures B2(v2, V3(b2)) == b2
  {
  }

  lemma Regroup(b0: byte, b1: byte, b2: byte)
    ensures B0(V0(b0), V1(b0, b1)) == b0 && B1(V1(b0, b1), V2(b1, b2)) == b1 && B2(V2(b1, b2), V3(b2)) == b2
    ensures V1(b0, 0) % 16 == 0 && V2(b1, 0) % 4 == 0
  {
    hide *;
    Regroup0(b0, b1);
    Regroup0(b0, 0);
    Regroup1(b1, b2, V1(b0, b1));
    Regroup1(b1, 0, V1(b0, b1));
    Regroup2(b2, V2(b1, b2));
  }

  /** One group of four characters for one to three bytes. */
  function Group(g: seq<byte>): (c: seq<byte>)
    requires 1 <= |g| <= 3
    ensures |c| == 4
  {
    var b1, b2 := if |g| > 1 then g[1] else 0, if |g| > 2 then g[2] else 0;
    [Letter(V0(g[0])), Letter(V1(g[0], b1)),
     if |g| > 1 then Letter(V2(b1, b2)) else EQUALS,
     if |g| > 2 then Letter(V3(b2)) else EQUALS]
  }

  function Encode(p: seq<byte>): seq<byte> {
    if p == [] then [] else if |p| <= 3 then Group(p) else Group(p[..3]) + Encode(p[3..])
  }

  /** A strict decoder: padding only at the end, and no stray bits under it. */
  function DecodeGroup(s: seq<byte>, last: bool): Option<seq<byte>>
    requires |s| == 4
  {
    match (Value(s[0]), Value(s[1]))
    case (Some(v0), Some(v1)) =>
      if s[2] == EQUALS then
        if last && s[3] == EQUALS && v1 % 16 == 0 then Some([B0(v0, v1)]) else None
      else
        (match Value(s[2])
         case None => None
         case Some(v2) =>
           if s[3] == EQUALS then
             if last && v2 % 4 == 0 then Some([B0(v0, v1), B1(v1, v2)]) else None
           else
             (match Value(s[3])
              case None => None
              case Some(v3) => Some([B0(v0, v1), B1(v1, v2), B2(v2, v3)])))
    case _ => None
  }

  function Decode(s: seq<byte>): Option<seq<byte>> {
    if s == [] then Some([])
    else if |s| < 4 then None
    else
      match DecodeGroup(s[..4], |s| == 4)
      case None => None
      case Some(front) =>
        (match Decode(s[4..])
         case None => None
         case Some(rest) => Some(front + rest))
  }

  lemma GroupRoundTrip(g: seq<byte>, last: bool)
    requires 1 <= |g| <= 3 && (|g| < 3 ==> last)
    ensures |Group(g)| == 4 && DecodeGroup(Group(g), last) == Some(g)
  {
    hide Letter, Value, V0, V1, V2, V3, B0, B1, B2;
    var b1, b2 := if |g| > 1 then g[1] else 0, if |g| > 2 then g[2] else 0;
    LetterRoundTrip(V0(g[0]));
    LetterRoundTrip(V1(g[0], b1));
    LetterRoundTrip(V2(b1, b2));
    LetterRoundTrip(V3(b2));
    Regroup(g[0], b1, b2);
    assert g == if |g| == 1 then [g[0]] else if |g| == 2 then [g[0], g[1]] else [g[0], g[1], g[2]];
  }

  /** Decoding what was encoded gives the input back. */
  lemma {:induction false} RoundTrip(p: seq<byte>)
    ensures Decode(Encode(p)) == Some(p)
    decreases |p|
  {
    if 0 < |p| <= 3 {
      GroupRoundTrip(p, true);
      assert Group(p)[..4] == Group(p) && Group(p)[4..] == [];
      assert p + [] == p;
    } else if |p| > 3 {
      EncodeLength(p[3..]);
      GroupRoundTrip(p[..3], false);
      RoundTrip(p[3..]);
      var s := Encode(p);
      assert s[..4] == Group(p[..3]) && s[4..] == Encode(p[3..]) && p == p[..3] + p[3..];
      hide Group, DecodeGroup;
    }
  }

  // ---------------------------------------------------------------- base64.h

  /** `base64len`. */
  function Base64Len(n: nat): nat {
    (n + 2) / 3 * 4
  }

  lemma {:induction false} EncodeLength(p: seq<byte>)
    ensures |Encode(p)| == Base64Len(|p|)
    decreases |p|
  {
    if |p| > 3 {
      EncodeLength(p[3..]);
      assert (|p| + 2) / 3 == 1 + (|p| - 3 + 2) / 3;
    }
  }

  /** `(u & x) | (~u & y)` in the low `k` bits. */
  function Select(u: nat, x: nat, y: nat, k: nat): nat
    decreases k
  {
    if k == 0 then 0 else (if u % 2 == 1 then x % 2 else y % 2) + 2 * Select(u / 2, x / 2, y / 2, k - 1)
  }

  lemma {:induction false} SelectZero(x: nat, y: nat, k: nat, top: nat)
    requires top == Pow2(k) && y < top
    ensures Select(0, x, y, k) == y
    decreases k
  {
    if k > 0 {
      SelectZero(x / 2, y / 2, k - 1, Pow2(k - 1));
    }
  }

  predicate AllOnes(u: nat, k: nat) {
    k == 0 || (u % 2 == 1 && AllOnes(u / 2, k - 1))
  }

  lemma {:induction false} SelectOnes(u: nat, x: nat, y: nat, k: nat, top: nat)
    requires top == Pow2(k) && x < top && AllOnes(u, k)
    ensures Select(u, x, y, k) == x
    decreases k
  {
    if k > 0 {
      SelectOnes(u / 2, x / 2, y / 2, k - 1, Pow2(k - 1));
    }
  }

  function Pow2(k: nat): nat {
    if k == 0 then 1 else 2 * Pow2(k - 1)
  }

  function HighPart(d: int): nat {
    d % (SIZE_MAX + 1) / 0x8000_0000
  }

  /** `((d >> 31) & '=') | (~(d >> 31) & c)` for a 64-bit unsigned `d`, stored in a char. */
  function Masked(d: int, c: byte): nat {
    Select(HighPart(d), EQUALS, c, 8)
  }

  lemma {:induction false} SelectBound(u: nat, x: nat, y: nat, k: nat)
    ensures Select(u, x, y, k) < Pow2(k)
  {
    if k > 0 {
      SelectBound(u / 2, x / 2, y / 2, k - 1);
    }
  }

  lemma Pow2Eight()
    ensures Pow2(7) == 128 && Pow2(8) == 256
  {
    assert Pow2(4) == 16;
  }

  /** The character that lands in the buffer. */
  function MaskedChar(d: int, c: byte): byte {
    SelectBound(HighPart(d), EQUALS, c, 8);
    Pow2Eight();
    Masked(d, c)
  }

  /** Up to 2^31 the mask picks `=` exactly when the unsigned difference has wrapped around. */
  lemma MaskWorks(d: int, c: byte)
    requires -2 <= d < 0x8000_0000
    ensures MaskedChar(d, c) == if d < 0 then EQUALS else c
  {
    Pow2Eight();
    HighBits(d);
    assert AllOnes(0x1_ffff_ffff, 8);
    hide Select, Pow2, AllOnes, HighPart;
    if d >= 0 {
      SelectZero(EQUALS, c, 8, 256);
    } else {
      SelectOnes(0x1_ffff_ffff, EQUALS, c, 8, 256);
    }
  }

  lemma HighBits(d: int)
    requires -2 <= d < 0x1_0000_0000
    ensures HighPart(d) == if d < 0 then 0x1_ffff_ffff else if d < 0x8000_0000 then 0 else 1
  {
    assert d % (SIZE_MAX + 1) == if d < 0 then d + SIZE_MAX + 1 else d;
  }

  /** From there to 2^32 the lowest bit of `=` gets in: every even character is stored as the next one. */
  lemma MaskFails(d: int, c: byte)
    requires 0x8000_0000 <= d < 0x1_0000_0000
    ensures MaskedChar(d, c) == if c % 2 == 0 then c + 1 else c
  {
    HighBits(d);
    Pow2Eight();
    hide HighPart;
    assert Select(1, EQUALS, c, 8) == 1 + 2 * Select(0, 30, c as int / 2, 7);
    hide Select, Pow2;
    SelectZero(30, c as int / 2, 7, 128);
  }

  /** The three bytes as the loop body packs them; the parts it ors together do not overlap. */
  function Packed(b0: byte, b1: byte, b2: byte): nat {
    b0 as int * 0x10000 + b1 as int * 0x100 + b2 as int
  }

  /** `x >> k * 6 & 0x3f`. */
  function Sextet(x: nat, k: nat): (v: nat)
    ensures v < 64
    decreases k
  {
    if k == 0 then x % 64 else Sextet(x / 64, k - 1)
  }

  lemma GroupCode(b0: byte, b1: byte, b2: byte)
    ensures var x := Packed(b0, b1, b2);
      Sextet(x, 3) == V0(b0) && Sextet(x, 2) == V1(b0, b1) && Sextet(x, 1) == V2(b1, b2) && Sextet(x, 0) == V3(b2)
  {
    var x := Packed(b0, b1, b2);
    var z := b0 as int * 16 + b1 as int / 16;
    var y := b0 as int * 0x400 + b1 as int * 4 + b2 as int / 64;
    ShiftSix(x, y, V3(b2));
    ShiftSix(y, z, V2(b1, b2));
    ShiftSix(z, b0 as int / 4, V1(b0, b1));
    ShiftSix(b0 as int / 4, 0, V0(b0));
    hide V0, V1, V2, V3, Packed;
    assert Sextet(x, 3) == Sextet(y, 2) == Sextet(z, 1) == Sextet(b0 as int / 4, 0);
    assert Sextet(x, 2) == Sextet(y, 1) == Sextet(z, 0);
    assert Sextet(x, 1) == Sextet(y, 0);
  }

  lemma ShiftSix(a: nat, q: nat, r: nat)
    requires a == 64 * q + r && r < 64
    ensures a / 64 == q && a % 64 == r
  {
  }

  /** The four characters of a group as the loop body stores them, `left` bytes before the end. */
  function StoredGroup(g: seq<byte>, left: nat): (c: seq<byte>)
    requires 1 <= |g| <= 3
    ensures |c| == 4
  {
    var x := Packed(g[0], if |g| > 1 then g[1] else 0, if |g| > 2 then g[2] else 0);
    [Letter(Sextet(x, 3)), Letter(Sextet(x, 2)),
     MaskedChar(left - 2, Letter(Sextet(x, 1))), MaskedChar(left - 3, Letter(Sextet(x, 0)))]
  }

  /** Everything the loop stores. */
  function Written(p: seq<byte>): seq<byte> {
    if p == [] then []
    else if |p| <= 3 then StoredGroup(p, |p|)
    else StoredGroup(p[..3], |p|) + Written(p[3..])
  }

  lemma StoredGroupIs(b0: byte, b1: byte, b2: byte, size: nat, left: nat)
    requires 1 <= size <= 3 && (size < 3 ==> b2 == 0) && (size < 2 ==> b1 == 0)
    ensures var g, x := [b0, b1, b2][..size], Packed(b0, b1, b2);
            StoredGroup(g, left) == [Letter(Sextet(x, 3)), Letter(Sextet(x, 2)),
                                     MaskedChar(left - 2, Letter(Sextet(x, 1))),
                                     MaskedChar(left - 3, Letter(Sextet(x, 0)))]
  {
    hide Packed, Sextet, Letter, MaskedChar;
  }

  lemma GroupIs(b0: byte, b1: byte, b2: byte, size: nat)
    requires 1 <= size <= 3 && (size < 3 ==> b2 == 0) && (size < 2 ==> b1 == 0)
    ensures Group([b0, b1, b2][..size]) ==
            [Letter(V0(b0)), Letter(V1(b0, b1)),
             if size > 1 then Letter(V2(b1, b2)) else EQUALS, if size > 2 then Letter(V3(b2)) else EQUALS]
  {
    hide Letter, V0, V1, V2, V3;
  }

  /** Up to 2^31 + 1 bytes before the end a group is stored as it should be. */
  lemma GroupStored(g: seq<byte>, left: nat)
    requires 1 <= |g| <= 3 && left <= 0x8000_0001 && |g| == (if left < 3 then left else 3)
    ensures StoredGroup(g, left) == Group(g)
  {
    var b1, b2 := if |g| > 1 then g[1] else 0, if |g| > 2 then g[2] else 0;
    assert g == [g[0], b1, b2][..|g|];
    hide *;
    StoredGroupIs(g[0], b1, b2, |g|, left);
    GroupIs(g[0], b1, b2, |g|);
    GroupCode(g[0], b1, b2);
    MaskWorks(left - 2, Letter(V2(b1, b2)));
    MaskWorks(left - 3, Letter(V3(b2)));
  }

  lemma {:induction false} WrittenIsEncoded(p: seq<byte>)
    requires |p| <= 0x8000_0001
    ensures Written(p) == Encode(p)
    decreases |p|
  {
    hide StoredGroup, Group;
    if 0 < |p| <= 3 {
      GroupStored(p, |p|);
    } else if |p| > 3 {
      GroupStored(p[..3], |p|);
      WrittenIsEncoded(p[3..]);
    }
  }

  lemma Behind(a: seq<byte>, b: seq<byte>, i: nat, j: nat)
    requires i <= j <= |b|
    ensures (a + b)[|a| + i..|a| + j] == b[i..j]
  {
  }

  /** Where the group of bytes `3 * k` to `3 * k + 2` is stored. */
  lemma {:induction false} GroupPlace(p: seq<byte>, k: nat)
    requires 3 * k + 3 <= |p|
    ensures 4 * k + 4 <= |Written(p)| && Written(p)[4 * k..4 * k + 4] == StoredGroup(p[3 * k..3 * k + 3], |p| - 3 * k)
    ensures 4 * k + 4 <= |Encode(p)| && Encode(p)[4 * k..4 * k + 4] == Group(p[3 * k..3 * k + 3])
    decreases k
  {
    hide StoredGroup, Group;
    if k == 0 {
      assert |p| == 3 ==> p == p[..3];
    } else {
      GroupPlace(p[3..], k - 1);
      Behind(p[..3], p[3..], 3 * (k - 1), 3 * (k - 1) + 3);
      assert p == p[..3] + p[3..];
      Behind(StoredGroup(p[..3], |p|), Written(p[3..]), 4 * (k - 1), 4 * (k - 1) + 4);
      Behind(Group(p[..3]), Encode(p[3..]), 4 * (k - 1), 4 * (k - 1) + 4);
    }
  }

  /** `A` for every sextet but one: the third character of group `k` is `B`. */
  function Spoiled(n: nat, k: nat): (p: seq<byte>)
    ensures |p| == n
  {
    seq(n, i => if i == 3 * k + 2 then 64 else 0)
  }

  /** A group with `B` as its third character is stored with a `C` there. */
  lemma BecomesC(left: nat)
    requires 0x8000_0002 <= left < 0x8000_0005
    ensures StoredGroup([0, 0, 64], left) != Group([0, 0, 64])
  {
    assert [0, 0, 64][..3] == [0, 0, 64];
    StoredGroupIs(0, 0, 64, 3, left);
    GroupIs(0, 0, 64, 3);
    GroupCode(0, 0, 64);
    hide StoredGroup, Group, Sextet, MaskedChar;
    MaskFails(left - 2, 66);
    assert Letter(V2(0, 64)) == 66;
  }

  lemma SpoiledIsMangled(n: nat)
    requires n > 0x8000_0001
    ensures var p := Spoiled(n, (n - 0x8000_0002) / 3); Written(p) != Encode(p)
  {
    var k: nat := (n - 0x8000_0002) / 3;
    var p := Spoiled(n, k);
    assert p[3 * k..3 * k + 3] == [0, 0, 64];
    hide Spoiled, Written, Encode, StoredGroup, Group;
    GroupPlace(p, k);
    BecomesC(n - 3 * k);
  }

  /** Inputs of `n` bytes are all encoded as they should be exactly up to 2^31 + 1 bytes. */
  lemma WrittenExactly(n: nat)
    ensures (forall p: seq<byte> :: |p| == n ==> Written(p) == Encode(p)) <==> n <= 0x8000_0001
  {
    if n <= 0x8000_0001 {
      forall p: seq<byte> | |p| == n
        ensures Written(p) == Encode(p)
      {
        WrittenIsEncoded(p);
      }
    } else {
      SpoiledIsMangled(n);
    }
  }

  lemma {:induction false} WrittenLength(p: seq<byte>)
    ensures |Written(p)| == Base64Len(|p|)
    decreases |p|
  {
    hide StoredGroup;
    if |p| > 3 {
      WrittenLength(p[3..]);
      assert (|p| + 2) / 3 == 1 + (|p| - 3 + 2) / 3;
    }
  }

  /** The bytes of the group that starts at `i`. */
  function Next(p: seq<byte>, i: nat): seq<byte>
    requires i < |p|
  {
    if i + 3 <= |p| then p[i..i + 3] else p[i..]
  }

  function Rest(p: seq<byte>, i: nat): seq<byte> {
    if i <= |p| then p[i..] else []
  }

  lemma WrittenNext(p: seq<byte>, i: nat)
    requires i < |p|
    ensures |Next(p, i)| == if |p| - i < 3 then |p| - i else 3
    ensures Written(Rest(p, i)) == StoredGroup(Next(p, i), |p| - i) + Written(Rest(p, i + 3))
  {
    var r := Rest(p, i);
    hide StoredGroup;
    if |r| <= 3 {
      assert Next(p, i) == r && Rest(p, i + 3) == [];
      assert StoredGroup(r, |r|) + [] == StoredGroup(r, |r|);
    } else {
      assert r[..3] == Next(p, i) && r[3..] == Rest(p, i + 3);
    }
  }

  /** Four times `*buf++ = ...`. */
  method Store(buf: array<byte>, o: nat, c: seq<byte>)
    requires o + 4 <= buf.Length && |c| == 4
    modifies buf
    ensures buf[..o + 4] == old(buf[..o]) + c && buf[o + 4..] == old(buf[o + 4..])
  {
    buf[o], buf[o + 1], buf[o + 2], buf[o + 3] := c[0], c[1], c[2], c[3];
  }

  lemma Done(p: seq<byte>, i: nat)
    requires i >= |p|
    ensures Written(Rest(p, i)) == []
  {
  }

  /** The characters of the groups before `i` are stored, and nothing behind them was touched. */
  ghost predicate Stored(p: seq<byte>, was: seq<byte>, now: seq<byte>, i: nat, o: nat) {
    && |now| == |was| && o + |Written(Rest(p, i))| == |Written(p)| <= |was|
    && now[..o] + Written(Rest(p, i)) == Written(p) && now[o..] == was[o..]
  }

  lemma LengthFits(n: nat)
    requires n < 0x8000_0000_0000_0000
    ensures Base64Len(n) <= SIZE_MAX
  {
  }

  lemma NothingStored(p: seq<byte>, was: seq<byte>)
    requires |Written(p)| <= |was|
    ensures Stored(p, was, was, 0, 0)
  {
    hide Written;
    assert Rest(p, 0) == p && was[..0] + Written(p) == Written(p);
  }

  lemma StoredStep(p: seq<byte>, was: seq<byte>, now: seq<byte>, now': seq<byte>, i: nat, o: nat)
    requires Stored(p, was, now, i, o) && i < |p| && |now'| == |now| && o + 4 <= |now|
    requires |Next(p, i)| == if |p| - i < 3 then |p| - i else 3
    requires now'[..o + 4] == now[..o] + StoredGroup(Next(p, i), |p| - i) && now'[o + 4..] == now[o + 4..]
    ensures Stored(p, was, now', i + 3, o + 4)
  {
    WrittenNext(p, i);
    hide Written, StoredGroup, Next, Rest;
    Assoc(now[..o], StoredGroup(Next(p, i), |p| - i), Written(Rest(p, i + 3)));
    assert now[o + 4..] == now[o..][4..] && was[o + 4..] == was[o..][4..];
  }

  lemma StoredAll(p: seq<byte>, was: seq<byte>, now: seq<byte>, i: nat, o: nat)
    requires Stored(p, was, now, i, o) && i >= |p|
    ensures o == |Written(p)| && now == Written(p) + was[o..]
  {
    Done(p, i);
    assert now[..o] + [] == now[..o];
    assert now == now[..o] + now[o..];
    hide Written;
  }

  lemma RoomForGroup(p: seq<byte>, was: seq<byte>, now: seq<byte>, i: nat, o: nat)
    requires Stored(p, was, now, i, o) && i < |p|
    ensures o + 4 <= |now|
  {
    WrittenNext(p, i);
    hide Written;
  }

  /**
   `base64`: everything `Written`, when the buffer has room for it, and nothing otherwise. This is
   the encoding up to 2^31 + 1 bytes. No object is larger than 2^63 - 1 bytes, so the length fits.
   */
  method Encode64(buf: array<byte>, p: seq<byte>) returns (m: nat)
    requires |p| < 0x8000_0000_0000_0000
    modifies buf
    ensures m == Base64Len(|p|) <= SIZE_MAX
    ensures buf[..] == if buf.Length >= m then Written(p) + old(buf[m..]) else old(buf[..])
    ensures |p| <= 0x8000_0001 && buf.Length >= m ==> buf[..m] == Encode(p)
  {
    hide *;
    var n := |p|;
    m := Base64Len(n);
    LengthFits(n);
    WrittenLength(p);
    if buf.Length < m {
      return;
    }
    var i, o := 0, 0;
    ghost var was := buf[..];
    NothingStored(p, was);
    while i < n
      invariant Stored(p, was, buf[..], i, o)
    {
      ghost var start, now := i, buf[..];
      NextLength(p, i);
      RoomForGroup(p, was, now, i, o);
      var b0 := p[i];
      i := i + 1;
      var b1 := if i < n then p[i] else 0;
      i := i + 1;
      var b2 := if i < n then p[i] else 0;
      var x := Packed(b0, b1, b2);
      var c := [Letter(Sextet(x, 3)), Letter(Sextet(x, 2)),
                MaskedChar(n - i, Letter(Sextet(x, 1))), MaskedChar(n - 1 - i, Letter(Sextet(x, 0)))];
      NextIs(p, start, b0, b1, b2);
      StoredGroupIs(b0, b1, b2, |Next(p, start)|, n - start);
      Store(buf, o, c);
      StoredStep(p, was, now, buf[..], start, o);
      o := o + 4;
      i := i + 1;
    }
    StoredAll(p, was, buf[..], i, o);
    WrittenLength(p);
    if |p| <= 0x8000_0001 {
      WrittenIsEncoded(p);
    }
  }

  lemma NextIs(p: seq<byte>, i: nat, b0: byte, b1: byte, b2: byte)
    requires i < |p| && b0 == p[i]
    requires b1 == (if i + 1 < |p| then p[i + 1] else 0) && b2 == (if i + 2 < |p| then p[i + 2] else 0)
    ensures 1 <= |Next(p, i)| <= 3 && Next(p, i) == [b0, b1, b2][..|Next(p, i)|]
    ensures (|Next(p, i)| < 3 ==> b2 == 0) && (|Next(p, i)| < 2 ==> b1 == 0)
  {
  }

  lemma NextLength(p: seq<byte>, i: nat)
    requires i < |p|
    ensures |Next(p, i)| == if |p| - i < 3 then |p| - i else 3
  {
  }
}
