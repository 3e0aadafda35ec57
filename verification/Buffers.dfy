/** DataBuffer: a fixed-size, zero-filled buffer that is only ever appended to and patched. */
module Buffers {
  import opened Words
  import opened Machine
  import opened Encoding

  function Zeros(n: nat): (z: seq<byte>)
    ensures |z| == n && forall i | 0 <= i < n :: z[i] == 0
  {
    seq(n, _ => 0)
  }

  /** `full` stands for the assertion failure that ends the program when the buffer has no room;
      `contents` is everything that was asked to be appended. */
  class DataBuffer {
    const base: nat
    const buf: array<byte>
    var current: nat
    var full: bool
    ghost var contents: seq<byte>

    /** Until it is full the buffer holds its contents followed by zeros; it is full exactly when
        the contents have reached its size. */
    ghost predicate Valid()
      reads this, buf
    {
      && |contents| == current && (full <==> current >= buf.Length)
      && (!full ==> buf[..current] == contents && forall i | current <= i < buf.Length :: buf[i] == 0)
    }

    constructor (base: nat, size: nat)
      requires 0 < size
      ensures Valid() && fresh(buf) && contents == [] && this.base == base && buf.Length == size
    {
      this.base := base;
      buf := new byte[size](_ => 0);
      current := 0;
      full := false;
      contents := [];
    }

    function CurrentPos(): (a: word)
      reads this
    {
      (base + current) % W32
    }

    /** Room for size more bytes, which are zero. */
    method PutAllocSpace(size: nat) returns (alloced: nat)
      requires Valid()
      modifies this
      ensures Valid() && alloced == |old(contents)| && contents == old(contents) + Zeros(size)
    {
      alloced := current;
      full := full || current + size >= buf.Length;
      current := current + size;
      contents := contents + Zeros(size);
    }

    method PutBytes(data: seq<byte>)
      requires Valid()
      modifies this, buf
      ensures Valid() && contents == old(contents) + data
    {
      var at := PutAllocSpace(|data|);
      if !full {
        forall i | 0 <= i < |data| {
          buf[at + i] := data[i];
        }
        assert buf[..at] == old(contents);
      }
      contents := contents[..at] + data;
    }

    method PutUint32(val: word)
      requires Valid()
      modifies this, buf
      ensures Valid() && contents == old(contents) + Le(val)
    {
      var at := PutAllocSpace(4);
      WriteUint32(at, val);
    }

    /** A little-endian store into the part already allocated. */
    method WriteUint32(at: nat, val: word)
      requires Valid() && at + 4 <= |contents|
      modifies `contents, buf
      ensures Valid() && contents == Patch(old(contents), at, val)
    {
      if !full {
        buf[at] := val % W8;
        buf[at + 1] := val / W8 % W8;
        buf[at + 2] := val / W16 % W8;
        buf[at + 3] := val / (W16 * W8) % W8;
      }
      contents := Patch(contents, at, val);
    }

    method ReadUint32(at: nat) returns (val: word)
      requires Valid() && !full && at + 4 <= |contents|
      ensures val == LeAt(contents, at)
    {
      val := buf[at] + W8 * buf[at + 1] + W16 * buf[at + 2] + W16 * W8 * buf[at + 3];
    }
  }
}
