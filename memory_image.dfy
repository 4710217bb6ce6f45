/**
 * The raw byte buffer that backs one struct instance (MemoryImage.h is not
 * part of this model): a resizable vector of bytes without type information.
 */
module MemoryImages {
  newtype Byte = b: int | 0 <= b < 256

  function Min(a: nat, b: nat): nat { if a <= b then a else b }

  /** What `resize(n)` leaves: the first min(|mem|, n) bytes kept, new bytes zero. */
  function Resized(mem: seq<Byte>, n: nat): (r: seq<Byte>)
    ensures |r| == n
    ensures r[..Min(|mem|, n)] == mem[..Min(|mem|, n)]
    ensures forall i :: |mem| <= i < n ==> r[i] == 0
  {
    if n <= |mem| then mem[..n] else mem + seq(n - |mem|, _ => 0 as Byte)
  }

  /**
   * `mem` with `data` written at `offset`: the one bounds-checked way a member
   * is constructed in place. Bytes outside [offset, offset + |data|) keep their values.
   */
  function Overwrite(mem: seq<Byte>, offset: nat, data: seq<Byte>): (r: seq<Byte>)
    requires offset + |data| <= |mem|
    ensures |r| == |mem|
    ensures r[..offset] == mem[..offset]
    ensures r[offset..offset + |data|] == data
    ensures r[offset + |data|..] == mem[offset + |data|..]
  {
    mem[..offset] + data + mem[offset + |data|..]
  }

  /** Writing `data` right after a prefix `img` extends that prefix by `data`. */
  lemma OverwriteExtends(mem: seq<Byte>, offset: nat, data: seq<Byte>, img: seq<Byte>)
    requires offset + |data| <= |mem| && mem[..offset] == img
    ensures Overwrite(mem, offset, data)[..offset + |data|] == img + data
  {
    var r := Overwrite(mem, offset, data);
    assert r[..offset + |data|] == r[..offset] + r[offset..offset + |data|];
  }

  class MemoryImage {
    var bytes: seq<Byte>

    constructor ()
      ensures bytes == []
    {
      bytes := [];
    }

    method Resize(n: nat)
      modifies this
      ensures bytes == Resized(old(bytes), n)
    {
      bytes := Resized(bytes, n);
    }

    /** Construct a value of |data| bytes at `offset`. */
    method Write(offset: nat, data: seq<Byte>)
      requires offset + |data| <= |bytes|
      modifies this
      ensures bytes == Overwrite(old(bytes), offset, data)
    {
      bytes := Overwrite(bytes, offset, data);
    }
  }
}
