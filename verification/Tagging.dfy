/** Writing tagged records to an evbuffer, and reading them from it. */
module Tagging {

  import opened Machine
  import opened Pieces
  import opened Chains
  import opened EvBuffers
  import opened BufferEnds
  import opened BufferMoves
  import opened BufferSpace
  import opened TagCodec

  /** Bytes may be taken out at the start and put in at the end, and a ssize_t can count them. */
  ghost predicate Usable(buf: EvBuffer)
    reads buf, buf.nodes, buf.bufs
  {
    buf.Valid() && !buf.flags.freezeStart && !buf.flags.freezeEnd && buf.totalLen <= SSIZE_MAX
  }

  // ----- encoding -----

  /** The bytes with nibble j set. */
  function Put(bs: seq<byte>, j: nat, v: nibble): (r: seq<byte>)
    requires j / 2 < |bs|
    ensures |r| == |bs|
  {
    bs[j / 2 := if j % 2 == 1 then 16 * (bs[j / 2] / 16) + v else 16 * v + bs[j / 2] % 16]
  }

  lemma PutSets(bs: seq<byte>, j: nat, v: nibble, k: nat)
    requires j / 2 < |bs| && k / 2 < |bs|
    ensures NibbleAt(Put(bs, j, v), k) == if k == j then v else NibbleAt(bs, k)
  {
    if k / 2 == j / 2 {
      Halves(bs[j / 2] / 16, v);
      Halves(v, bs[j / 2] % 16);
      assert k == 2 * (j / 2) + k % 2 && j == 2 * (j / 2) + j % 2;
    }
  }

  /** The first digits have been written, below place off, and nothing else has. */
  ghost predicate Written(bs: seq<byte>, ds: seq<nibble>, off: nat) {
    && 1 <= off <= |ds| + 1
    && forall j: nat :: j / 2 < |bs| ==> NibbleAt(bs, j) == if 1 <= j < off then ds[j - 1] else 0
  }

  lemma NothingWritten(bs: seq<byte>, ds: seq<nibble>)
    requires forall k :: 0 <= k < |bs| ==> bs[k] == 0
    ensures Written(bs, ds, 1)
  {
  }

  lemma WriteDigit(bs: seq<byte>, ds: seq<nibble>, off: nat)
    requires Written(bs, ds, off) && off <= |ds| && off / 2 < |bs|
    ensures Written(Put(bs, off, ds[off - 1]), ds, off + 1)
  {
    hide NibbleAt, Put;
    var bs' := Put(bs, off, ds[off - 1]);
    forall j: nat | j / 2 < |bs'|
      ensures NibbleAt(bs', j) == if 1 <= j < off + 1 then ds[j - 1] else 0
    {
      PutSets(bs, off, ds[off - 1], j);
    }
  }

  lemma WriteCount(bs: seq<byte>, ds: seq<nibble>)
    requires Written(bs, ds, |ds| + 1) && |ds| <= 16 && |ds| / 2 < |bs|
    ensures var bs' := Put(bs, 0, NibbleOf(ds, 0)); forall i: nat :: i <= |ds| / 2 ==> bs'[i] == ByteOf(ds, i)
  {
    hide NibbleAt, Put;
    var bs' := Put(bs, 0, NibbleOf(ds, 0));
    forall i: nat | i <= |ds| / 2
      ensures bs'[i] == ByteOf(ds, i)
    {
      PutSets(bs, 0, NibbleOf(ds, 0), 2 * i);
      PutSets(bs, 0, NibbleOf(ds, 0), 2 * i + 1);
      HalvesOf(bs', i);
    }
  }

  lemma HalvesOf(bs: seq<byte>, i: nat)
    requires i < |bs|
    ensures bs[i] == 16 * NibbleAt(bs, 2 * i) + NibbleAt(bs, 2 * i + 1)
  {
    assert (2 * i) / 2 == i && (2 * i) % 2 == 0;
    assert (2 * i + 1) / 2 == i && (2 * i + 1) % 2 == 1;
  }

  method Clear(data: array<byte>, at: nat, n: nat)
    requires at + n <= data.Length
    modifies data
    ensures data[..at] == old(data[..at])
    ensures forall k :: at <= k < at + n ==> data[k] == 0
  {
    var i := 0;
    while i < n
      invariant i <= n
      invariant data[..at] == old(data[..at])
      invariant forall k :: at <= k < at + i ==> data[k] == 0
    {
      data[at + i] := 0;
      i := i + 1;
    }
  }

  method SetNibble(data: array<byte>, at: nat, width: nat, j: nat, v: nibble)
    requires at + width <= data.Length && j / 2 < width
    modifies data
    ensures data[..at] == old(data[..at])
    ensures data[at..at + width] == Put(old(data[at..at + width]), j, v)
  {
    if j % 2 == 1 {
      data[at + j / 2] := 16 * (data[at + j / 2] / 16) + v;
    } else {
      data[at + j / 2] := data[at + j / 2] % 16 + 16 * v;
    }
  }

  /** Write the digits, from nibble 1 on; nibble 0 is left for their number. */
  method WriteDigits(data: array<byte>, at: nat, number: u64, width: nat) returns (off: nat)
    requires |Digits(number)| <= 2 * width && at + width + 1 <= data.Length
    modifies data
    ensures data[..at] == old(data[..at]) && off == |Digits(number)| + 1
    ensures Written(data[at..at + width + 1], Digits(number), off)
  {
    hide Written, Put, NibbleAt;
    ghost var ds := Digits(number);
    Clear(data, at, width + 1);
    ghost var bs := data[at..at + width + 1];
    NothingWritten(bs, ds);
    off := 1;
    var n := number;
    while n != 0
      invariant data[..at] == old(data[..at]) && data[at..at + width + 1] == bs
      invariant 1 <= off <= |ds| + 1 && ds[off - 1..] == Digits(n) && Written(bs, ds, off)
    {
      assert off <= |ds|;
      assert ds[off - 1] == ds[off - 1..][0] == n % 16 && ds[off..] == ds[off - 1..][1..];
      WriteDigit(bs, ds, off);
      SetNibble(data, at, width + 1, off, n % 16);
      bs := data[at..at + width + 1];
      n, off := n / 16, off + 1;
    }
  }

  lemma WrittenIsEncoded(bs: seq<byte>, number: u64)
    requires var ds := Digits(number); Written(bs, ds, |ds| + 1) && |ds| <= 16 && |ds| / 2 < |bs|
    ensures |EncodedInt(number)| == |Digits(number)| / 2 + 1
    ensures Put(bs, 0, NibbleOf(Digits(number), 0))[..|EncodedInt(number)|] == EncodedInt(number)
  {
    hide Written, Put, NibbleOf, ByteOf;
    WriteCount(bs, Digits(number));
  }

  /** Write an integer of this many bytes at a place in data, where there must be room for one byte more. */
  method EncodeIntInternal(data: array<byte>, at: nat, number: u64, width: nat) returns (len: nat)
    requires 1 <= width <= 8 && number < Pow16(2 * width) && at + width + 1 <= data.Length
    modifies data
    ensures len == |EncodedInt(number)| <= width + 1
    ensures data[at..at + len] == EncodedInt(number) && data[..at] == old(data[..at])
  {
    hide Pow16, Written, Put, NibbleAt, EncodedInt, Digits;
    DigitsFew(number, 2 * width);
    var off := WriteDigits(data, at, number, width);
    var nibbles := 0;
    if off > 2 {
      nibbles := off - 2;
    }
    WrittenIsEncoded(data[at..at + width + 1], number);
    SetNibble(data, at, width + 1, 0, nibbles % 16);
    len := (off + 1) / 2;
    assert data[at..at + len] == data[at..at + width + 1][..len];
  }

  lemma AnyTag(t: u32)
    ensures t < TagLimit(0)
  {
  }

  lemma TagStep(t: u32, i: nat)
    requires t < TagLimit(i)
    ensures i <= 4
    ensures t < 128 ==> EncodedTag(t) == [t]
    ensures t >= 128 ==> i < 4 && t / 128 < TagLimit(i + 1) && EncodedTag(t) == [t % 128 + 128] + EncodedTag(t / 128)
  {
  }

  /** What will have been written once the rest of the tag, if there is more, is. */
  function InAll(written: seq<byte>, more: bool, t: u32): seq<byte> {
    if more then written + EncodedTag(t) else written
  }

  lemma InAllStep(written: seq<byte>, t: u32, i: nat, lower: byte)
    requires t < TagLimit(i) && lower == t % 128 + if t / 128 == 0 then 0 else 128
    ensures i <= 4 && (t / 128 != 0 ==> i < 4 && t / 128 < TagLimit(i + 1))
    ensures InAll(written, true, t) == InAll(written + [lower], t / 128 != 0, t / 128)
  {
    hide TagLimit, EncodedTag;
    TagStep(t, i);
    if t >= 128 {
      Assoc(written, [lower], EncodedTag(t / 128));
    }
  }

  /** The byte for the lowest bits of the tag; what is left of it; and whether that is anything. */
  method LowestBits(t: u32, ghost written: seq<byte>, ghost i: nat) returns (lower: byte, rest: u32, more: bool)
    requires t < TagLimit(i)
    ensures i <= 4 && (more ==> i < 4 && rest < t && rest < TagLimit(i + 1))
    ensures InAll(written, true, t) == InAll(written + [lower], more, rest)
  {
    hide TagLimit, InAll;
    lower := t % 128;
    rest := t / 128;
    more := rest != 0;
    if more {
      lower := lower + 128;
    }
    InAllStep(written, t, i, lower);
  }

  /** Write a tag at the start of data; the number of bytes it takes. */
  method EncodeTagInternal(data: array<byte>, tag: u32) returns (bytes: nat)
    requires data.Length == 5
    modifies data
    ensures bytes == |EncodedTag(tag)| <= 5 && data[..bytes] == EncodedTag(tag)
  {
    AnyTag(tag);
    ghost var all := EncodedTag(tag);
    assert InAll([], true, tag) == all;
    hide EncodedTag, TagLimit, InAll;
    bytes := 0;
    var t: u32, more := tag, true;
    while more
      invariant more ==> bytes < 5 && t < TagLimit(bytes)
      invariant bytes <= 5 && InAll(data[..bytes], more, t) == all
      decreases more, t
    {
      var lower: byte;
      ghost var was := data[..bytes];
      lower, t, more := LowestBits(t, was, bytes);
      data[bytes] := lower;
      bytes := bytes + 1;
      assert data[..bytes] == was + [lower];
    }
    AllWritten(data[..bytes], t);
  }

  lemma AllWritten(written: seq<byte>, t: u32)
    ensures InAll(written, false, t) == written
  {
  }

  // ----- writing records -----

  /** Add bytes at the end; the callers never look at whether that failed. */
  method Append(buf: EvBuffer, data: seq<byte>)
    requires Usable(buf) && buf.totalLen + |data| <= SSIZE_MAX && |data| < TWO_32
    modifies buf, buf.nodes, buf.bufs
    ensures Usable(buf) && fresh(buf.nodes - old(buf.nodes)) && fresh(buf.bufs - old(buf.bufs))
    ensures buf.Contents() == old(buf.Contents()) + data && buf.totalLen == old(buf.totalLen) + |data|
  {
    hide EvBuffer.Rep, EvBuffer.Designated, EvBuffer.Tailed, Flat;
    var _ := Add(buf, data);
  }

  method EncodeTag(buf: EvBuffer, tag: u32) returns (bytes: nat)
    requires Usable(buf) && buf.totalLen + 5 <= SSIZE_MAX
    modifies buf, buf.nodes, buf.bufs
    ensures Usable(buf) && fresh(buf.nodes - old(buf.nodes)) && fresh(buf.bufs - old(buf.bufs))
    ensures buf.Contents() == old(buf.Contents()) + EncodedTag(tag)
    ensures bytes == |EncodedTag(tag)| <= 5 && buf.totalLen == old(buf.totalLen) + bytes
  {
    hide EvBuffer.Valid;
    var data := new byte[5];
    bytes := EncodeTagInternal(data, tag);
    Append(buf, data[..bytes]);
  }

  method EncodeInt(buf: EvBuffer, number: u64, width: nat)
    requires Usable(buf) && buf.totalLen + width + 1 <= SSIZE_MAX && 1 <= width <= 8 && number < Pow16(2 * width)
    modifies buf, buf.nodes, buf.bufs
    ensures Usable(buf) && fresh(buf.nodes - old(buf.nodes)) && fresh(buf.bufs - old(buf.bufs))
    ensures buf.Contents() == old(buf.Contents()) + EncodedInt(number)
    ensures buf.totalLen == old(buf.totalLen) + |EncodedInt(number)| && |EncodedInt(number)| <= width + 1
  {
    hide EvBuffer.Valid, Pow16;
    var data := new byte[width + 1];
    var len := EncodeIntInternal(data, 0, number, width);
    Append(buf, data[..len]);
  }

  method Marshal(buf: EvBuffer, tag: u32, data: seq<byte>)
    requires Usable(buf) && |data| < TWO_32 && buf.totalLen + 10 + |data| <= SSIZE_MAX
    modifies buf, buf.nodes, buf.bufs
    ensures Usable(buf) && fresh(buf.nodes - old(buf.nodes)) && fresh(buf.bufs - old(buf.bufs))
    ensures buf.Contents() == old(buf.Contents()) + Data(tag, data).Encoded()
    ensures buf.totalLen <= old(buf.totalLen) + 10 + |data|
  {
    hide EvBuffer.Valid, EncodedInt, EncodedTag;
    Pow16Small();
    var _ := EncodeTag(buf, tag);
    EncodeInt(buf, |data|, 4);
    Append(buf, data);
    assert Data(tag, data).Payload() == data;
  }

  /** Write a number of this many bytes: 4 for evtag_marshal_int, 8 for evtag_marshal_int64. */
  method MarshalNumber(buf: EvBuffer, tag: u32, number: u64, width: nat)
    requires Usable(buf) && buf.totalLen + 20 <= SSIZE_MAX && (width == 4 || width == 8) && number < Pow16(2 * width)
    modifies buf, buf.nodes, buf.bufs
    ensures Usable(buf) && fresh(buf.nodes - old(buf.nodes)) && fresh(buf.bufs - old(buf.bufs))
    ensures Data(tag, EncodedInt(number)).Ok() && buf.Contents() == old(buf.Contents()) + Data(tag, EncodedInt(number)).Encoded()
  {
    hide EvBuffer.Valid, EncodedInt, EncodedTag, Pow16;
    Pow16Small();
    var data := new byte[width + 1];
    var len := EncodeIntInternal(data, 0, number, width);
    assert data[..len] == EncodedInt(number);
    Marshal(buf, tag, data[..len]);
    assert Data(tag, EncodedInt(number)).Payload() == EncodedInt(number);
  }

  lemma EncodedByPayload(r: Record, s: Record)
    requires r.tag == s.tag && r.Payload() == s.Payload() && r.Fits()
    ensures r.Encoded() == s.Encoded()
  {
  }

  /** Two integers of 32 bits, one behind the other. */
  method EncodeTwo(first: u32, second: u32) returns (data: seq<byte>)
    ensures data == EncodedInt(first) + EncodedInt(second) && |data| <= 10
  {
    hide EncodedInt, Pow16;
    Pow16Small();
    var bytes := new byte[10];
    var len := EncodeIntInternal(bytes, 0, first, 4);
    ghost var one := bytes[..len];
    var len2 := EncodeIntInternal(bytes, len, second, 4);
    data := bytes[..len + len2];
    assert data == one + bytes[len..len + len2];
  }

  /** Only 32 bits of each field are written. */
  method MarshalTimeval(buf: EvBuffer, tag: u32, sec: int, usec: int)
    requires Usable(buf) && buf.totalLen + 20 <= SSIZE_MAX
    modifies buf, buf.nodes, buf.bufs
    ensures Usable(buf) && fresh(buf.nodes - old(buf.nodes)) && fresh(buf.bufs - old(buf.bufs))
    ensures Time(tag, sec % TWO_32, usec % TWO_32).Ok()
    ensures buf.Contents() == old(buf.Contents()) + Time(tag, sec % TWO_32, usec % TWO_32).Encoded()
  {
    hide EvBuffer.Valid, EncodedInt, Record.Encoded;
    ghost var r := Time(tag, sec % TWO_32, usec % TWO_32);
    var data := EncodeTwo(sec % TWO_32, usec % TWO_32);
    assert data == r.Payload();
    Marshal(buf, tag, data);
    EncodedByPayload(r, Data(tag, data));
  }

  /** Write what another buffer holds, which is left empty: its chunks are moved. */
  method MarshalBuffer(buf: EvBuffer, tag: u32, data: EvBuffer)
    requires Usable(buf) && Usable(data) && Apart(buf, data)
    requires data.totalLen < TWO_32 && buf.totalLen + 10 + data.totalLen <= SSIZE_MAX
    modifies buf, buf.nodes, buf.bufs, data
    ensures Usable(buf) && Usable(data) && Apart(buf, data) && data.Contents() == []
    ensures Data(tag, old(data.Contents())).Fits()
    ensures buf.Contents() == old(buf.Contents()) + Data(tag, old(data.Contents())).Encoded()
  {
    hide EvBuffer.Rep, EvBuffer.Designated, EvBuffer.Tailed, Flat, EncodedInt, EncodedTag, Pow16;
    Pow16Small();
    ghost var r := Data(tag, data.Contents());
    assert r.Payload() == data.Contents();
    var _ := EncodeTag(buf, tag);
    EncodeInt(buf, data.totalLen, 4);
    var _ := AddBuffer(buf, data);
  }

  // ----- decoding -----

  lemma DataStart(c: Chain, n: nat)
    requires c.Ok() && n <= c.off
    ensures c.buffer[c.misalign..c.misalign + n] == c.Data()[..n]
  {
  }

  /** The first n bytes, pulled up. */
  method Front(buf: EvBuffer, n: nat) returns (data: seq<byte>)
    requires Usable(buf) && 0 < n <= buf.totalLen && n <= INT_MAX
    modifies buf, buf.nodes, buf.bufs
    ensures Usable(buf) && fresh(buf.nodes - old(buf.nodes)) && fresh(buf.bufs - old(buf.bufs))
    ensures buf.Contents() == old(buf.Contents()) && buf.totalLen == old(buf.totalLen)
    ensures n <= |buf.Contents()| && data == buf.Contents()[..n]
  {
    hide EvBuffer.Rep, EvBuffer.Designated, EvBuffer.Tailed, Flat;
    var c := Pullup(buf, n);
    data := c.buffer[c.misalign..c.misalign + n];
    DataStart(c, n);
    ghost var d, all := c.Data(), buf.Contents();
    assert d == all[..|d|] && d[..n] == all[..n];
  }

  /** How a tag of which some bytes have been read goes on. */
  function Joined(number: nat, unit: nat, count: nat, more: Option<Num>): Option<Num> {
    if more.None? then None else Some(Num(number + unit * more.value.value, count + more.value.size))
  }

  /** A number with seven bits more, which are worth so much each. */
  function More(number: nat, unit: nat, lower: byte): nat {
    number + unit * (lower % 128)
  }

  lemma JoinedStep(bs: seq<byte>, number: nat, unit: nat, count: nat, lower: byte)
    requires bs != [] && bs[0] == lower
    ensures count > 4 || (count == 4 && lower % 128 > 15) ==> Joined(number, unit, count, DecodedTag(bs, count)) == None
    ensures count <= 4 && !(count == 4 && lower % 128 > 15) ==>
      Joined(number, unit, count, DecodedTag(bs, count)) ==
      var n := More(number, unit, lower);
      if lower < 128 then Some(Num(n, count + 1)) else Joined(n, 128 * unit, count + 1, DecodedTag(bs[1..], count + 1))
  {
    if lower >= 128 {
      var more := DecodedTag(bs[1..], count + 1);
      if more.Some? {
        Distribute(unit, lower % 128, more.value.value);
      }
    }
  }

  lemma JoinedStart(r: Option<Num>)
    ensures Joined(0, 1, 0, r) == r
  {
  }

  lemma JoinedEnd(bs: seq<byte>, number: nat, unit: nat, count: nat)
    requires bs == [] || count > 4
    ensures Joined(number, unit, count, DecodedTag(bs, count)) == None
  {
  }

  lemma Distribute(unit: nat, a: nat, v: nat)
    ensures unit * (a + 128 * v) == unit * a + 128 * unit * v
  {
  }

  /** Read a tag from the bytes pulled up; they are the first of all the bytes. */
  method DecodeTagBytes(data: seq<byte>, len: nat, ghost bs: seq<byte>) returns (r: Option<Num>)
    requires len == |bs| && |data| == (if len < 5 then len else 5) && data == bs[..|data|]
    ensures r == DecodedTag(bs, 0)
  {
    var number: nat, count: nat, shift: nat, unit: nat := 0, 0, 0, 1;
    hide Joined, DecodedTag, More;
    assert bs[0..] == bs;
    JoinedStart(DecodedTag(bs, 0));
    while count < len
      invariant count <= len && count <= 5 && shift == 7 * count
      invariant DecodedTag(bs, 0) == Joined(number, unit, count, DecodedTag(bs[count..], count))
    {
      ghost var rest := bs[count..];
      if shift > 28 {
        JoinedEnd(rest, number, unit, count);
        return None;
      }
      var lower := data[count];
      assert rest[0] == lower;
      JoinedStep(rest, number, unit, count, lower);
      count := count + 1;
      if shift == 28 && lower % 128 > 15 {
        return None;
      }
      assert rest[1..] == bs[count..];
      number := More(number, unit, lower);
      shift, unit := shift + 7, 128 * unit;
      if lower < 128 {
        return Some(Num(number, count));
      }
    }
    JoinedEnd(bs[count..], number, unit, count);
    return None;
  }

  /** Look at a tag, and take it out of the buffer if that is wanted. */
  method DecodeTagInternal(buf: EvBuffer, dodrain: bool) returns (r: Option<Num>)
    requires Usable(buf)
    modifies buf, buf.nodes, buf.bufs
    ensures Usable(buf) && fresh(buf.nodes - old(buf.nodes)) && fresh(buf.bufs - old(buf.bufs))
    ensures r == DecodedTag(old(buf.Contents()), 0)
    ensures r.Some? ==> r.value.value < TWO_32 && r.value.size <= 5 && r.value.size <= old(buf.totalLen)
    ensures buf.Contents() == if dodrain then ReadTag(old(buf.Contents())).rest else old(buf.Contents())
    ensures r.Some? <==> ReadTag(old(buf.Contents())).Got?
    ensures r.Some? ==> r.value.value == ReadTag(old(buf.Contents())).value
    ensures !dodrain ==> buf.totalLen == old(buf.totalLen)
  {
    hide EvBuffer.Rep, EvBuffer.Designated, EvBuffer.Tailed, Flat, DecodedTag;
    ghost var bs := buf.Contents();
    DecodedTagFits(bs, 0);
    var len := buf.totalLen;
    var data := [];
    if len > 0 {
      data := Front(buf, if len < 5 then len else 5);
    }
    r := DecodeTagBytes(data, len, bs);
    if r.Some? && dodrain {
      var _ := Drain(buf, r.value.size);
    }
  }

  lemma {:induction false} ValueOfFirst(bs: seq<byte>, data: seq<byte>, k: nat, d: nat)
    requires k <= d && d / 2 < |data| <= |bs| && data == bs[..|data|]
    ensures ValueFrom(bs, k, d) == ValueFrom(data, k, d)
    decreases d - k
  {
    if k < d {
      ValueOfFirst(bs, data, k + 1, d);
    }
  }

  method DigitsOf(data: seq<byte>, d: nat) returns (number: nat)
    requires d / 2 < |data|
    ensures number == ValueFrom(data, 0, d)
  {
    hide NibbleAt;
    var nibbles: int := d;
    number := 0;
    while nibbles > 0
      invariant 0 <= nibbles <= d && number == ValueFrom(data, nibbles, d)
    {
      number := 16 * number + NibbleAt(data, nibbles);
      nibbles := nibbles - 1;
    }
  }

  lemma DecodedByFirst(bs: seq<byte>, data: seq<byte>, maxNibbles: nat, number: nat)
    requires bs != [] && 1 <= bs[0] / 16 + 1 <= maxNibbles && |data| == (bs[0] / 16 + 1) / 2 + 1 <= |bs| && data == bs[..|data|]
    requires number == ValueFrom(data, 0, bs[0] / 16 + 1)
    ensures DecodedInt(bs, maxNibbles) == Some(Num(number, |data|))
  {
    ValueOfFirst(bs, data, 0, bs[0] / 16 + 1);
  }

  lemma DecodedIfAny(bs: seq<byte>, maxNibbles: nat)
    ensures bs == [] || bs[0] / 16 + 1 > maxNibbles || (bs[0] / 16 + 1) / 2 + 1 > |bs| ==> DecodedInt(bs, maxNibbles) == None
  {
  }

  /** Look at an integer that starts at some offset. */
  method DecodeIntInternal(buf: EvBuffer, offset: nat, maxNibbles: nat) returns (r: Option<Num>)
    requires Usable(buf) && offset <= buf.totalLen && offset <= 16 && maxNibbles <= 16
    modifies buf, buf.nodes, buf.bufs
    ensures Usable(buf) && fresh(buf.nodes - old(buf.nodes)) && fresh(buf.bufs - old(buf.bufs))
    ensures buf.Contents() == old(buf.Contents()) && offset <= |buf.Contents()| == buf.totalLen
    ensures r == DecodedInt(buf.Contents()[offset..], maxNibbles)
    ensures r.Some? ==> r.value.value < Pow16(maxNibbles) && offset + r.value.size <= buf.totalLen && r.value.size <= 9
  {
    hide EvBuffer.Rep, EvBuffer.Designated, EvBuffer.Tailed, Flat, DecodedInt, ValueFrom, Pow16;
    ghost var bs := buf.Contents()[offset..];
    DecodedIntFits(bs, maxNibbles);
    DecodedIfAny(bs, maxNibbles);
    var len: int := buf.totalLen - offset;
    if len <= 0 {
      return None;
    }
    var data := Front(buf, offset + 1);
    var nibbles := data[offset] / 16 + 1;
    assert data[offset] == bs[0];
    if nibbles > maxNibbles || nibbles / 2 + 1 > len {
      return None;
    }
    len := nibbles / 2 + 1;
    data := Front(buf, offset + len);
    assert data[offset..] == bs[..len];
    var number := DigitsOf(data[offset..], nibbles);
    DecodedByFirst(bs, data[offset..], maxNibbles, number);
    return Some(Num(number, len));
  }

  /** Read an integer of 32 bits. */
  method DecodeInt(buf: EvBuffer) returns (r: Option<u32>)
    requires Usable(buf)
    modifies buf, buf.nodes, buf.bufs
    ensures Usable(buf) && fresh(buf.nodes - old(buf.nodes)) && fresh(buf.bufs - old(buf.bufs))
    ensures var o := ReadInt(old(buf.Contents()));
      buf.Contents() == o.rest && r == if o.Got? then Some(o.value) else None
  {
    hide EvBuffer.Rep, EvBuffer.Designated, EvBuffer.Tailed, Flat, DecodedInt, Pow16;
    ghost var bs := buf.Contents();
    assert bs[0..] == bs;
    Pow16Small();
    var n := DecodeIntInternal(buf, 0, 8);
    if n.None? {
      return None;
    }
    var _ := Drain(buf, n.value.size);
    return Some(n.value.value);
  }

  // ----- reading records -----

  /** Read the header of a record: its length as an int, -1 if there is none. */
  method UnmarshalHeader(buf: EvBuffer) returns (len: int, tag: u32)
    requires Usable(buf)
    modifies buf, buf.nodes, buf.bufs
    ensures Usable(buf) && fresh(buf.nodes - old(buf.nodes)) && fresh(buf.bufs - old(buf.bufs))
    ensures buf.Contents() == ReadHeader(old(buf.Contents())).rest
    ensures var o := ReadHeader(old(buf.Contents())); if o.Got? then len == AsInt(o.value.len) && tag == o.value.tag else len == -1
  {
    hide EvBuffer.Rep, EvBuffer.Designated, EvBuffer.Tailed, Flat, ReadTag, ReadInt, DecodedTag;
    var t := DecodeTagInternal(buf, true);
    if t.None? {
      return -1, 0;
    }
    tag := t.value.value;
    var n := DecodeInt(buf);
    if n.None? || buf.totalLen < n.value {
      return -1, tag;
    }
    len := AsInt(n.value);
  }

  /** Drain as many bytes as an int says: as a size_t, a negative one is more than there are. */
  method DrainInt(buf: EvBuffer, len: int)
    requires Usable(buf) && 0 - TWO_32 <= len
    modifies buf, buf.nodes`misalign, buf.nodes`off
    ensures Usable(buf) && buf.nodes == old(buf.nodes) && buf.bufs == old(buf.bufs)
    ensures buf.Contents() == Drained(old(buf.Contents()), len)
  {
    hide EvBuffer.Rep, EvBuffer.Designated, EvBuffer.Tailed, Flat;
    var _ := Drain(buf, if len < 0 then len + TWO_64 else len);
  }

  /** Pass over the record that comes next. */
  method Consume(buf: EvBuffer) returns (r: int)
    requires Usable(buf)
    modifies buf, buf.nodes, buf.bufs
    ensures Usable(buf) && fresh(buf.nodes - old(buf.nodes)) && fresh(buf.bufs - old(buf.bufs))
    ensures buf.Contents() == Consumed(old(buf.Contents())).rest
    ensures r == if Consumed(old(buf.Contents())).Got? then 0 else -1
  {
    hide EvBuffer.Valid, ReadHeader;
    var len, tag := UnmarshalHeader(buf);
    if len == -1 {
      return -1;
    }
    DrainInt(buf, len);
    return 0;
  }

  /** The length of the record that comes next, with its header, in 32 bits; the buffer is left as it is. */
  method PeekLength(buf: EvBuffer) returns (r: Option<u32>)
    requires Usable(buf)
    modifies buf, buf.nodes, buf.bufs
    ensures Usable(buf) && fresh(buf.nodes - old(buf.nodes)) && fresh(buf.bufs - old(buf.bufs))
    ensures buf.Contents() == old(buf.Contents()) && r == Peeked(buf.Contents())
  {
    hide EvBuffer.Valid, DecodedTag, DecodedInt, ReadTag, Pow16;
    var t := DecodeTagInternal(buf, false);
    if t.None? {
      return None;
    }
    var n := DecodeIntInternal(buf, t.value.size, 8);
    if n.None? {
      return None;
    }
    return Some((n.value.value + n.value.size + t.value.size) % TWO_32);
  }

  lemma LongPayload(payload: seq<byte>, behind: seq<byte>)
    requires INT_MAX < |payload| < TWO_32 - 1 && behind != []
    ensures var bs := Data(0, payload).Encoded() + behind;
      && Consumed(bs).Got? && Consumed(bs).rest == [] && Peeked(bs).Some? && Peeked(bs).value != |bs|
  {
    hide EncodedInt, EncodedTag, ReadHeader, Peeked;
    var r := Data(0, payload);
    assert r.Payload() == payload;
    var bs := r.Encoded() + behind;
    HeaderRead(r, behind);
    PeekedIsConsumed(bs);
    assert |ReadHeader(bs).rest| == |payload| + |behind|;
  }

  /** A payload that no int can hold, and something behind it: the length that is told first is not what is drained. */
  method PeekDisagrees(payload: seq<byte>, behind: seq<byte>) returns (buf: EvBuffer, peeked: Option<u32>, drained: nat, r: int)
    requires INT_MAX < |payload| < TWO_32 - 1 && behind != [] && |behind| < TWO_32
    ensures Usable(buf) && peeked.Some? && r == 0 && peeked.value != drained
    ensures drained == |Data(0, payload).Encoded() + behind| && buf.Contents() == []
  {
    hide EvBuffer.Rep, EvBuffer.Designated, EvBuffer.Tailed, Flat, Record.Encoded, Consumed, Peeked;
    buf := new EvBuffer();
    Marshal(buf, 0, payload);
    assert [] + Data(0, payload).Encoded() == Data(0, payload).Encoded();
    Append(buf, behind);
    LongPayload(payload, behind);
    var before := buf.totalLen;
    peeked := PeekLength(buf);
    r := Consume(buf);
    drained := before - buf.totalLen;
  }

  lemma HeaderFits(bs: seq<byte>)
    ensures |ReadHeader(bs).rest| <= |bs|
    ensures ReadHeader(bs).Got? ==> ReadHeader(bs).value.len <= |ReadHeader(bs).rest|
  {
    DecodedTagFits(bs, 0);
    hide DecodedTag, DecodedInt, Pow16;
    match ReadTag(bs)
    case Failed(_) =>
    case Got(_, rest) => DecodedIntFits(rest, 8);
  }

  /** Read a datum into another buffer: how long it is, or -1. A length that reads as negative is one that evbuffer_add refuses. */
  method Unmarshal(src: EvBuffer, dst: EvBuffer) returns (r: int, tag: u32)
    requires Usable(src) && Usable(dst) && Apart(dst, src) && src.totalLen + dst.totalLen <= SSIZE_MAX
    modifies src, src.nodes, src.bufs, dst, dst.nodes, dst.bufs
    ensures Usable(src) && Usable(dst)
    ensures var o := ReadData(old(src.Contents()));
      && src.Contents() == o.rest
      && (o.Failed? ==> r == -1 && dst.Contents() == old(dst.Contents()))
      && (o.Got? ==> o.value == Data(tag, o.value.Payload()) && r == |o.value.Payload()|)
      && (o.Got? ==> dst.Contents() == old(dst.Contents()) + o.value.Payload())
  {
    hide EvBuffer.Rep, EvBuffer.Designated, EvBuffer.Tailed, Flat, ReadHeader;
    HeaderFits(src.Contents());
    var len, t := UnmarshalHeader(src);
    if len < 0 {
      return -1, t;
    }
    var data := [];
    if len > 0 {
      data := Front(src, len);
    }
    Append(dst, data);
    var _ := Drain(src, len);
    return len, t;
  }

  /** Read a number with a given tag, of 8 or 16 digits: what it is, and the bytes it took. */
  method UnmarshalNumber(buf: EvBuffer, need: u32, maxNibbles: nat) returns (r: Option<Num>)
    requires Usable(buf) && (maxNibbles == 8 || maxNibbles == 16)
    modifies buf, buf.nodes, buf.bufs
    ensures Usable(buf) && fresh(buf.nodes - old(buf.nodes)) && fresh(buf.bufs - old(buf.bufs))
    ensures var o := ReadNumber(old(buf.Contents()), need, maxNibbles);
      buf.Contents() == o.rest && (r.Some? <==> o.Got?) && (o.Got? ==> r.value.value == o.value)
  {
    hide EvBuffer.Rep, EvBuffer.Designated, EvBuffer.Tailed, Flat, ReadTag, ReadInt, DecodedTag, DecodedInt, Pow16;
    var t := DecodeTagInternal(buf, true);
    if t.None? || t.value.value != need {
      return None;
    }
    var len := DecodeInt(buf);
    if len.None? || buf.totalLen < len.value {
      return None;
    }
    assert buf.Contents()[0..] == buf.Contents();
    r := DecodeIntInternal(buf, 0, maxNibbles);
    var _ := Drain(buf, len.value);
    if r.Some? && r.value.size > len.value {
      return None;
    }
  }

  /** Read a time with a given tag. */
  method UnmarshalTimeval(buf: EvBuffer, need: u32) returns (r: Option<(u32, u32)>)
    requires Usable(buf)
    modifies buf, buf.nodes, buf.bufs
    ensures Usable(buf) && fresh(buf.nodes - old(buf.nodes)) && fresh(buf.bufs - old(buf.bufs))
    ensures var o := ReadTime(old(buf.Contents()), need);
      buf.Contents() == o.rest && (r.Some? <==> o.Got?) && (o.Got? ==> o.value == Time(need, r.value.0, r.value.1))
  {
    hide EvBuffer.Rep, EvBuffer.Designated, EvBuffer.Tailed, Flat, ReadHeader, DecodedInt, Pow16;
    Pow16Small();
    r := None;
    var len, tag := UnmarshalHeader(buf);
    if len == -1 {
      return;
    }
    if tag == need {
      assert buf.Contents()[0..] == buf.Contents();
      var sec := DecodeIntInternal(buf, 0, 8);
      if sec.Some? {
        var usec := DecodeIntInternal(buf, sec.value.size, 8);
        if usec.Some? && sec.value.size + usec.value.size <= len {
          r := Some((sec.value.value, usec.value.value));
        }
      }
    }
    DrainInt(buf, len);
  }
}
