/** The connection buffer of service-src/util/databuffer.h: a fixed array whose first `ptr` bytes are in use. */
module DataBuffer {
  import opened Bytes
  import opened Framing

  class DataBuffer {
    const sz: nat
    var ptr: nat
    const chunk: array<byte>

    ghost predicate Valid()
      reads this
    {
      ptr <= sz == chunk.Length
    }

    ghost function Contents(): (s: seq<byte>)
      requires Valid()
      reads this, chunk
      ensures |s| == ptr
    {
      chunk[..ptr]
    }

    constructor (size: nat)
      ensures Valid() && sz == size && Contents() == [] && fresh(chunk)
    {
      sz, ptr := size, 0;
      chunk := new byte[size](_ => 0);
    }

    /** `databuffer_push`: refuses what does not fit. */
    method Push(data: seq<byte>) returns (r: int)
      requires Valid()
      modifies this`ptr, chunk
      ensures Valid() && r == if old(ptr) + |data| > sz then -1 else |data|
      ensures Contents() == if r == -1 then old(Contents()) else old(Contents()) + data
    {
      if ptr + |data| > sz {
        return -1;
      }
      var i := 0;
      while i < |data|
        invariant 0 <= i <= |data|
        invariant chunk[..ptr] == old(chunk[..ptr])
        invariant chunk[ptr..ptr + i] == data[..i]
        modifies chunk
      {
        chunk[ptr + i] := data[i];
        i := i + 1;
      }
      ptr := ptr + |data|;
      r := |data|;
    }

    /** `databuffer_pop`: shifts the rest down, byte by byte, over the removed part. */
    method Pop(n: nat) returns (r: nat)
      requires Valid() && n <= ptr
      modifies this`ptr, chunk
      ensures Valid() && r == ptr && Contents() == old(Contents())[n..]
    {
      ptr := ptr - n;
      var c := 0;
      while c < ptr
        invariant 0 <= c <= ptr
        invariant forall i :: 0 <= i < c ==> chunk[i] == old(chunk[n + i])
        invariant forall i :: c <= i < chunk.Length ==> chunk[i] == old(chunk[i])
        modifies chunk
      {
        chunk[c] := chunk[n + c];
        c := c + 1;
      }
      r := ptr;
    }

    /** `databuffer_isfull`. */
    method IsFull() returns (b: bool)
      requires Valid()
      ensures b <==> |Contents()| == sz
    {
      b := ptr >= sz;
    }

    /** The `int` at the front of the buffer. */
    method ReadInt() returns (v: int)
      requires Valid() && ptr >= 4
      ensures v == Int32At(Contents())
    {
      v := Int32At(chunk[..4]);
    }

    /** `databuffer_readpack`: 0 when there is no whole pack; otherwise the data is `Contents()[4..4 + size]`. */
    method ReadPack() returns (size: int)
      requires Valid()
      ensures match PackFront(Contents())
        case Wait => size == 0
        case Take(n, payload) => size == n - 4 && payload == Contents()[4..4 + size]
        case _ => size < 0
    {
      if ptr < 4 {
        return 0;
      }
      var v := ReadInt();
      if v > ptr - 4 {
        return 0;
      }
      size := v;
    }

    /** `databuffer_freepack`. */
    method FreePack()
      requires Valid() && PackFront(Contents()).Take?
      modifies this`ptr, chunk
      ensures Valid() && Contents() == old(Contents())[PackFront(old(Contents())).size..]
    {
      var v := ReadInt();
      var _ := Pop(v + 4);
    }
  }
}
