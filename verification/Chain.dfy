/** A chunk of an evbuffer: an allocation with a misaligned run of data in it. */
module Chains {
  import opened Machine
  import opened Pieces

  const CHAIN_SIZE: nat := 48        // header of a chunk on a 64-bit platform
  const MIN_BUFFER_SIZE: nat := 1024
  const CHAIN_MAX: nat := SSIZE_MAX
  const MAX_CHAIN_DATA: nat := CHAIN_MAX - CHAIN_SIZE
  const MAX_TO_REALIGN: nat := 2048

  class Chain {
    var next: Chain?
    const buffer: array<byte>
    var misalign: nat
    var off: nat

    ghost predicate Ok()
      reads this`misalign, this`off
    {
      misalign + off <= buffer.Length && 0 < buffer.Length <= MAX_CHAIN_DATA
    }

    ghost function Data(): (d: seq<byte>)
      requires Ok()
      reads this`misalign, this`off, buffer
      ensures |d| == off
    {
      buffer[misalign..misalign + off]
    }

    ghost function AsPiece(): (p: Piece)
      requires Ok()
      reads this`misalign, this`off, buffer
      ensures p.Ok() && p == Piece(Data(), misalign, buffer.Length) && |p.data| == off
    {
      Piece(Data(), misalign, buffer.Length)
    }

    function SpaceLen(): nat
      requires Ok()
      reads this`misalign, this`off
    {
      buffer.Length - (misalign + off)
    }

    constructor (capacity: nat)
      requires 0 < capacity <= MAX_CHAIN_DATA
      ensures Ok() && next == null && misalign == 0 && off == 0
      ensures fresh(buffer) && buffer.Length == capacity
    {
      buffer := new byte[capacity];
      next, misalign, off := null, 0, 0;
    }

    /** Allocates a chunk for at least size bytes; refuses sizes no chunk can have. */
    static method New(size: nat) returns (c: Chain?)
      ensures c == null <==> size > MAX_CHAIN_DATA
      ensures c != null ==> fresh(c) && fresh(c.buffer) && c.Ok() && c.buffer.Length >= size
      ensures c != null ==> c.next == null && c.misalign == 0 && c.off == 0
      ensures size + CHAIN_SIZE <= MIN_BUFFER_SIZE ==> c != null && c.buffer.Length + CHAIN_SIZE == MIN_BUFFER_SIZE
    {
      if size > CHAIN_MAX - CHAIN_SIZE {
        return null;
      }
      var need := size + CHAIN_SIZE;
      var toAlloc := need;
      if need < CHAIN_MAX / 2 {
        toAlloc := MIN_BUFFER_SIZE;
        while toAlloc < need
          invariant MIN_BUFFER_SIZE <= toAlloc
          invariant toAlloc == MIN_BUFFER_SIZE || (MIN_BUFFER_SIZE < need && toAlloc < 2 * need)
        {
          toAlloc := 2 * toAlloc;
        }
      }
      c := new Chain(toAlloc - CHAIN_SIZE);
    }

    /** A new chunk with data at the very end of its allocation. */
    static method NewAtEnd(data: seq<byte>) returns (c: Chain?)
      ensures c == null <==> |data| > MAX_CHAIN_DATA
      ensures c != null ==> fresh(c) && fresh(c.buffer) && c.Ok() && c.next == null
      ensures c != null ==> c.AsPiece().data == data
    {
      c := New(|data|);
      if c == null {
        return;
      }
      c.SetGap(c.buffer.Length);
      c.FillFront(data);
      assert data + [] == data;
    }

    /** Copies data into the spare room behind the chunk's bytes. */
    method Append(data: seq<byte>)
      requires Ok() && |data| <= AsPiece().Room()
      modifies this`off, buffer
      ensures Ok() && AsPiece() == old(AsPiece()).(data := old(AsPiece().data) + data)
    {
      var at := misalign + off;
      forall i | 0 <= i < |data| {
        buffer[at + i] := data[i];
      }
      off := off + |data|;
      assert Data()[..old(off)] == old(Data());
      assert Data()[old(off)..] == data;
    }

    /** Takes the n bytes that stand in the spare room as the chunk's own. */
    method CommitSpare(n: nat)
      requires Ok() && n <= AsPiece().Room()
      modifies this`off
      ensures Ok() && AsPiece() == old(AsPiece()).(data := old(AsPiece().data) + Spare(old(AsPiece()), n))
    {
      off := off + n;
    }

    /** The first n bytes of the spare room behind the piece p. */
    ghost function Spare(p: Piece, n: nat): seq<byte>
      requires p.Ok() && p.gap + |p.data| + n <= buffer.Length
      reads buffer
    {
      buffer[p.gap + |p.data|..p.gap + |p.data| + n]
    }

    /** Copies data into the gap in front of the chunk's bytes. */
    method FillFront(data: seq<byte>)
      requires Ok() && |data| <= AsPiece().gap
      modifies this`off, this`misalign, buffer
      ensures Ok() && AsPiece() == Piece(data + old(AsPiece().data), old(AsPiece().gap) - |data|, old(AsPiece().cap))
    {
      var at := misalign - |data|;
      forall i | 0 <= i < |data| {
        buffer[at + i] := data[i];
      }
      misalign := at;
      off := off + |data|;
      assert Data()[..|data|] == data;
      assert Data()[|data|..] == old(Data());
    }

    /** Moves the bytes to the start of the allocation. */
    method Align()
      requires Ok()
      modifies this`misalign, buffer
      ensures Ok() && AsPiece() == old(AsPiece()).(gap := 0)
    {
      forall i | 0 <= i < off {
        buffer[i] := buffer[misalign + i];
      }
      misalign := 0;
      assert Data() == old(Data());
    }

    /** A new chunk with the same bytes and room for n more. */
    method Copy(n: nat) returns (c: Chain?)
      requires Ok()
      ensures c == null <==> off + n > MAX_CHAIN_DATA
      ensures c != null ==> fresh(c) && fresh(c.buffer) && c.Ok() && c.next == null
      ensures c != null ==> c.AsPiece().data == AsPiece().data && c.AsPiece().Room() >= n
    {
      c := New(off + n);
      if c == null {
        return;
      }
      c.Append(buffer[misalign..misalign + off]);
      assert [] + Data() == Data();
    }

    /** Gives up the first n bytes. */
    method Consume(n: nat)
      requires Ok() && n <= |AsPiece().data|
      modifies this`off, this`misalign
      ensures Ok() && AsPiece() == old(AsPiece()).Less(n)
    {
      misalign := misalign + n;
      off := off - n;
      assert Data() == old(Data())[n..];
    }

    /** Copies n of the bytes, from number from on, to dst at position at. */
    method CopyTo(from: nat, n: nat, dst: array<byte>, at: nat)
      requires Ok() && from + n <= off && at + n <= dst.Length && dst != buffer
      modifies dst
      ensures dst[..at] == old(dst[..at]) && dst[at + n..] == old(dst[at + n..])
      ensures dst[at..at + n] == Data()[from..from + n]
    {
      forall k | at <= k < at + n {
        dst[k] := buffer[misalign + from + (k - at)];
      }
      ghost var copied, wanted := dst[at..at + n], Data()[from..from + n];
      forall j | 0 <= j < n ensures copied[j] == wanted[j] {
        assert copied[j] == dst[at + j];
      }
    }

    /** Counts an empty chunk as empty at another place. */
    method SetGap(gap: nat)
      requires Ok() && AsPiece().data == [] && gap <= AsPiece().cap
      modifies this`misalign
      ensures Ok() && AsPiece() == Piece([], gap, old(AsPiece().cap))
    {
      misalign := gap;
    }

    /** Is it worth moving the bytes to make room for datalen more? */
    predicate ShouldRealign(datalen: nat)
      requires Ok()
      reads this`misalign, this`off
    {
      buffer.Length - off >= datalen && off < buffer.Length / 2 && off <= MAX_TO_REALIGN
    }
  }
}
