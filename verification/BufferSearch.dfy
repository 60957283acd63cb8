/** Places in an evbuffer, searching it, and reading lines from it. */
module BufferSearch {
  import opened Machine
  import opened Pieces
  import opened Chains
  import opened EvBuffers
  import opened BufferEnds

  // ----- one chunk -----

  /** The first place of c among the bytes from .. to of the chunk, or -1. */
  method Memchr(chain: Chain, from: nat, to: nat, c: byte) returns (k: int)
    requires chain.Ok() && from <= to <= chain.off
    ensures k == -1 || from <= k < to
    ensures k >= 0 ==> chain.Data()[k] == c && forall j :: from <= j < k ==> chain.Data()[j] != c
    ensures k == -1 ==> forall j :: from <= j < to ==> chain.Data()[j] != c
  {
    k := from;
    while k < to
      invariant from <= k <= to
      invariant forall j :: from <= j < k ==> chain.Data()[j] != c
    {
      if chain.buffer[chain.misalign + k] == c {
        return;
      }
      k := k + 1;
    }
    k := -1;
  }

  const CR: byte := 13
  const LF: byte := 10
  const NUL: byte := 0
  const CHUNK_SZ := 128

  /** The first CR or LF from number from on, or -1; looks at 128 bytes at a time. */
  method FindEolChar(chain: Chain, from: nat) returns (k: int)
    requires chain.Ok() && from <= chain.off
    ensures k == -1 || from <= k < chain.off
    ensures k >= 0 ==> chain.Data()[k] in [CR, LF] && forall j :: from <= j < k ==> chain.Data()[j] !in [CR, LF]
    ensures k == -1 ==> forall j :: from <= j < chain.off ==> chain.Data()[j] !in [CR, LF]
  {
    var s, end := from, chain.off;
    while s < end
      invariant from <= s
      invariant forall j :: from <= j < s && j < end ==> chain.Data()[j] !in [CR, LF]
    {
      var to := if s + CHUNK_SZ < end then s + CHUNK_SZ else end;
      var cr := Memchr(chain, s, to, CR);
      var lf := Memchr(chain, s, to, LF);
      if cr >= 0 {
        if lf >= 0 && lf < cr {
          return lf;
        }
        return cr;
      } else if lf >= 0 {
        return lf;
      }
      s := s + CHUNK_SZ;
    }
    return -1;
  }

  function Diff(a: int, b: int): (d: int)
    ensures (d < 0 <==> a < b) && (d > 0 <==> a > b)
  {
    a - b
  }

  /** Do the n bytes from number from on equal those of mem? As memcmp: 0, or the sign of the first difference, behind `same` bytes. */
  method Memcmp(chain: Chain, from: nat, n: nat, mem: seq<byte>) returns (r: int, ghost same: nat)
    requires chain.Ok() && from + n <= chain.off && n <= |mem|
    ensures r == 0 <==> chain.Data()[from..from + n] == mem[..n]
    ensures r != 0 ==>
      same < n && chain.Data()[from..from + same] == mem[..same] && r == Diff(chain.Data()[from + same], mem[same])
  {
    var j := 0;
    while j < n
      invariant j <= n && chain.Data()[from..from + j] == mem[..j]
    {
      var b := chain.buffer[chain.misalign + from + j];
      assert b == chain.Data()[from + j];
      assert chain.Data()[from..from + j + 1] == chain.Data()[from..from + j] + [b];
      if b != mem[j] {
        assert chain.Data()[from..from + n][j] != mem[..n][j];
        return Diff(b, mem[j]), j;
      }
      j := j + 1;
    }
    return 0, j;
  }

  // ----- places -----

  /** The byte at a place. */
  lemma ByteAt(buf: EvBuffer, p: Ptr, i: nat, k: nat)
    requires |buf.pieces| == |buf.chains| && buf.PtrAt(p, i) && p.posInChain <= k < |buf.pieces[i].data|
    ensures p.pos + k - p.posInChain < |buf.Contents()|
    ensures buf.Contents()[p.pos + k - p.posInChain] == buf.pieces[i].data[k]
  {
    FlatSlice(buf.pieces, i, k, 1);
    var at := |Flat(buf.pieces[..i])| + k;
    assert buf.Contents()[at..at + 1][0] == buf.pieces[i].data[k..k + 1][0];
  }

  /** The place p moved on within its chunk. */
  function Advance(p: Ptr, n: nat): Ptr {
    Ptr(p.pos + n, p.chain, p.posInChain + n)
  }

  /** The place at the start of the next chunk, or at the end. */
  method NextPlace(buf: EvBuffer, p: Ptr, ghost i: nat) returns (q: Ptr)
    requires buf.Core() && p.chain != null && buf.PtrAt(p, i)
    ensures q.pos == p.pos + |buf.pieces[i].data| - p.posInChain <= buf.totalLen
    ensures if i + 1 < |buf.chains| then buf.PtrAt(q, i + 1) else q.chain == null && q.pos == buf.totalLen && q.posInChain == 0
    ensures q.chain != null ==> q.posInChain == 0 && i + 1 < |buf.chains|
  {
    hide EvBuffer.Rep, LastData, Flat;
    buf.At(i);
    FlatAt(buf.pieces, i);
    if i + 1 == |buf.chains| {
      FlatAllEmpty(buf.pieces[i + 1..]);
    }
    q := Ptr(p.pos + (p.chain.off - p.posInChain), p.chain.next, 0);
  }

  /** The place left bytes behind p, if there are that many. */
  method Walk(buf: EvBuffer, p: Ptr, ghost i0: nat, left0: nat) returns (q: Ptr, ok: bool)
    requires buf.Core() && (if p.chain == null then p.pos == buf.totalLen else buf.PtrAt(p, i0))
    ensures ok <==> p.pos + left0 <= buf.totalLen
    ensures if ok then buf.PtrOk(q) && q.pos == p.pos + left0 else q == NOT_FOUND
    ensures q.chain != null ==> q.chain.Ok() && q.posInChain < q.chain.off
    ensures q.chain == null ==> q.posInChain == 0
  {
    hide EvBuffer.Rep, LastData, Flat;
    ghost var i := i0;
    var left: nat := left0;
    q := p;
    if q.chain != null {
      buf.At(i);
      FlatAt(buf.pieces, i);
    }
    while q.chain != null && q.posInChain + left >= q.chain.off
      invariant q.pos + left == p.pos + left0 && q.pos <= buf.totalLen
      invariant q.chain == null ==> q.pos == buf.totalLen
      invariant q.chain != null ==> buf.PtrAt(q, i) && q.chain.Ok() && q.chain.off == |buf.pieces[i].data|
      decreases if q.chain == null then 0 else |buf.chains| - i
    {
      left := left - (q.chain.off - q.posInChain);
      q := NextPlace(buf, q, i);
      i := i + 1;
      if q.chain != null {
        buf.At(i);
      }
    }
    if q.chain != null {
      q := Advance(q, left);
      assert buf.PtrAt(q, i);
      FlatAt(buf.pieces, i);
      ok := true;
    } else if left == 0 {
      q := Ptr(q.pos, null, 0);
      ok := true;
    } else {
      q := NOT_FOUND;
      ok := false;
    }
  }

  /** The place number position. */
  method PtrSet(buf: EvBuffer, position: nat) returns (q: Ptr, ok: bool)
    requires buf.Valid()
    ensures ok <==> position <= buf.totalLen
    ensures if ok then buf.PtrOk(q) && q.pos == position else q == NOT_FOUND
    ensures q.chain != null ==> q.chain.Ok() && q.posInChain < q.chain.off
    ensures q.chain == null ==> q.posInChain == 0
  {
    hide EvBuffer.Rep, LastData, Flat;
    var p; ghost var i;
    p, i := StartAt(buf, None);
    q, ok := Walk(buf, p, i, position);
  }

  /** The place n bytes behind p; a place that was not found stays as it is. */
  method PtrAdd(buf: EvBuffer, p: Ptr, n: nat) returns (q: Ptr, ok: bool)
    requires buf.Valid() && n <= SIZE_MAX && (p.pos < 0 || buf.PtrOk(p))
    ensures ok <==> p.pos >= 0 && p.pos + n <= buf.totalLen
    ensures ok ==> buf.PtrOk(q) && q.pos == p.pos + n
    ensures !ok ==> q == if p.pos < 0 || p.pos + n > SIZE_MAX then p else NOT_FOUND
  {
    hide EvBuffer.Rep, LastData, Flat;
    if p.pos < 0 || SIZE_MAX - n < p.pos {
      return p, false;
    }
    ghost var i: nat := 0;
    if p.chain != null {
      i :| buf.PtrAt(p, i);
    }
    q, ok := Walk(buf, p, i, n);
  }

  // ----- evbuffer_search -----

  ghost predicate MatchAt(s: seq<byte>, what: seq<byte>, p: nat) {
    p + |what| <= |s| && s[p..p + |what|] == what
  }

  lemma MatchSplit(s: seq<byte>, what: seq<byte>, p: nat, n: nat)
    requires n <= |what|
    ensures MatchAt(s, what, p) <==> MatchAt(s, what[..n], p) && MatchAt(s, what[n..], p + n)
  {
    if p + |what| <= |s| {
      var run := s[p..p + |what|];
      PartOfPart(s, p, p + |what|, 0, n);
      PartOfPart(s, p, p + |what|, n, |what|);
      assert run == run[0..n] + run[n..|what|] && what == what[..n] + what[n..];
    }
  }

  lemma MatchMore(s: seq<byte>, mem: seq<byte>, p: nat, k: nat, n: nat)
    requires k + n <= |mem| && MatchAt(s, mem[..k], p) && MatchAt(s, mem[k..][..n], p + k)
    ensures MatchAt(s, mem[..k + n], p) && mem[k..][n..] == mem[k + n..]
  {
    assert mem[..k + n][..k] == mem[..k] && mem[..k + n][k..] == mem[k..][..n];
    MatchSplit(s, mem[..k + n], p, k);
  }

  /** The part of a comparison that lies in one chunk. */
  method ComparePart(buf: EvBuffer, p: Ptr, ghost i: nat, n: nat, mem: seq<byte>) returns (r: int)
    requires buf.Core() && p.chain != null && buf.PtrAt(p, i) && p.posInChain + n <= |buf.pieces[i].data| && n <= |mem|
    ensures r == 0 <==> MatchAt(buf.Contents(), mem[..n], p.pos)
    ensures r != 0 ==> FirstDiffers(buf.Contents(), mem, p.pos, r)
  {
    hide EvBuffer.Rep, EvBuffer.PtrAt, LastData, Flat, FirstDiffers, MatchAt, Diff, Chain.Data, Chain.AsPiece, Chain.Ok;
    PieceData(buf, p, i);
    ghost var same;
    r, same := Memcmp(p.chain, p.posInChain, n, mem);
    PartCompared(buf, p, i, p.chain.Data(), n, mem, r, same);
  }

  lemma PartCompared(buf: EvBuffer, p: Ptr, i: nat, d: seq<byte>, n: nat, mem: seq<byte>, r: int, same: nat)
    requires |buf.pieces| == |buf.chains| && buf.PtrAt(p, i) && d == buf.pieces[i].data
    requires p.posInChain + n <= |d| && n <= |mem| && (r == 0 <==> d[p.posInChain..p.posInChain + n] == mem[..n])
    requires r != 0 ==>
      same < n && d[p.posInChain..p.posInChain + same] == mem[..same] && r == Diff(d[p.posInChain + same], mem[same])
    ensures r == 0 <==> MatchAt(buf.Contents(), mem[..n], p.pos)
    ensures r != 0 ==> FirstDiffers(buf.Contents(), mem, p.pos, r)
  {
    hide EvBuffer.PtrAt, Flat, FirstDiffers, MatchAt, Diff;
    PartMatches(buf, p, i, n, mem);
    if r != 0 {
      PartDiffers(buf, p, i, mem, same, r);
    }
  }

  lemma PieceData(buf: EvBuffer, p: Ptr, i: nat)
    requires buf.Rep() && p.chain != null && buf.PtrAt(p, i)
    ensures p.chain.Ok() && p.chain.Data() == buf.pieces[i].data && p.chain.off == |buf.pieces[i].data|
  {
    buf.At(i);
  }

  lemma PartMatches(buf: EvBuffer, p: Ptr, i: nat, n: nat, mem: seq<byte>)
    requires |buf.pieces| == |buf.chains| && buf.PtrAt(p, i) && p.posInChain + n <= |buf.pieces[i].data| && n <= |mem|
    ensures MatchAt(buf.Contents(), mem[..n], p.pos) <==> buf.pieces[i].data[p.posInChain..p.posInChain + n] == mem[..n]
  {
    hide Flat;
    FlatSlice(buf.pieces, i, p.posInChain, n);
  }

  lemma PartDiffers(buf: EvBuffer, p: Ptr, i: nat, mem: seq<byte>, j: nat, r: int)
    requires |buf.pieces| == |buf.chains| && buf.PtrAt(p, i) && p.posInChain + j < |buf.pieces[i].data| && j < |mem| && r != 0
    requires buf.pieces[i].data[p.posInChain..p.posInChain + j] == mem[..j]
    requires r == Diff(buf.pieces[i].data[p.posInChain + j], mem[j])
    ensures FirstDiffers(buf.Contents(), mem, p.pos, r)
  {
    hide Flat, FirstDiffers;
    FlatSlice(buf.pieces, i, p.posInChain, j);
    ByteAt(buf, p, i, p.posInChain + j);
    DiffersAt(buf.Contents(), mem, p.pos, j, r);
  }

  /** r has the sign of the first difference between mem and the bytes from p on. */
  ghost predicate FirstDiffers(s: seq<byte>, mem: seq<byte>, p: nat, r: int) {
    exists j :: 0 <= j < |mem| && p + j < |s| && s[p..p + j] == mem[..j] && s[p + j] != mem[j] && (r < 0 <==> s[p + j] < mem[j])
  }

  lemma DiffersAt(s: seq<byte>, mem: seq<byte>, p: nat, j: nat, r: int)
    requires j < |mem| && p + j < |s| && s[p..p + j] == mem[..j] && r == Diff(s[p + j], mem[j]) != 0
    ensures FirstDiffers(s, mem, p, r)
  {
  }

  /** A difference behind a part that is the same. */
  lemma DiffersBehind(s: seq<byte>, mem: seq<byte>, p: nat, n: nat, r: int)
    requires n <= |mem| && MatchAt(s, mem[..n], p) && FirstDiffers(s, mem[n..], p + n, r)
    ensures FirstDiffers(s, mem, p, r)
  {
    var rest := mem[n..];
    var j :| 0 <= j < |rest| && p + n + j < |s| && s[p + n..p + n + j] == rest[..j] && s[p + n + j] != rest[j]
             && (r < 0 <==> s[p + n + j] < rest[j]);
    assert s[p..p + (n + j)] == s[p..p + n] + s[p + n..p + n + j];
    assert mem[..n + j] == mem[..n] + rest[..j];
  }

  /** 0 if the bytes at p are mem, as memcmp. */
  method PtrMemcmp(buf: EvBuffer, p: Ptr, ghost i0: nat, mem: seq<byte>) returns (r: int)
    requires buf.Core() && p.chain != null && buf.PtrAt(p, i0)
    ensures r == 0 <==> MatchAt(buf.Contents(), mem, p.pos)
    ensures if p.pos + |mem| > buf.totalLen then r == -1 else r != 0 ==> FirstDiffers(buf.Contents(), mem, p.pos, r)
  {
    hide EvBuffer.Rep, LastData, Flat, MatchAt, FirstDiffers;
    if p.pos + |mem| > buf.totalLen {
      TooLong(buf.Contents(), mem, p.pos);
      return -1;
    }
    ghost var i, s := i0, buf.Contents();
    var q, rest := p, mem;
    EmptyMatches(s, p.pos + |mem|);
    EmptyMatches(s, p.pos);
    assert mem[..0] == [] && mem[0..] == mem;
    while |rest| > 0 && q.chain != null
      invariant |rest| <= |mem| && q.pos + |rest| == p.pos + |mem|
      invariant q.chain == null ==> q.pos == buf.totalLen
      invariant q.chain != null ==> buf.PtrAt(q, i)
      invariant MatchAt(s, mem, p.pos) <==> MatchAt(s, rest, q.pos)
      invariant rest == mem[|mem| - |rest|..] && MatchAt(s, mem[..|mem| - |rest|], p.pos)
      decreases if q.chain == null then 0 else |buf.chains| - i
    {
      buf.At(i);
      var n := if |rest| + q.posInChain > q.chain.off then q.chain.off - q.posInChain else |rest|;
      MatchSplit(s, rest, q.pos, n);
      r := ComparePart(buf, q, i, n, rest);
      if r != 0 {
        DiffersBehind(s, mem, p.pos, |mem| - |rest|, r);
        return r;
      }
      if n == |rest| {
        return 0;
      }
      MatchMore(s, mem, p.pos, |mem| - |rest|, n);
      rest := rest[n..];
      q := NextPlace(buf, q, i);
      i := i + 1;
    }
    return 0;
  }

  lemma EmptyMatches(s: seq<byte>, p: nat)
    requires p <= |s|
    ensures MatchAt(s, [], p)
  {
  }

  lemma TooLong(s: seq<byte>, what: seq<byte>, p: nat)
    requires p + |what| > |s|
    ensures !MatchAt(s, what, p)
  {
  }

  /** No match starts from lo on and before hi. */
  ghost predicate NoMatch(s: seq<byte>, what: seq<byte>, lo: nat, hi: nat) {
    forall q :: lo <= q < hi ==> !MatchAt(s, what, q)
  }

  /** A run of bytes of one chunk that are not the first byte of what holds no match. */
  lemma NoMatchRun(buf: EvBuffer, p: Ptr, i: nat, k: nat, what: seq<byte>)
    requires |buf.pieces| == |buf.chains| && buf.PtrAt(p, i) && p.posInChain <= k <= |buf.pieces[i].data| && what != []
    requires forall j :: p.posInChain <= j < k ==> buf.pieces[i].data[j] != what[0]
    ensures NoMatch(buf.Contents(), what, p.pos, p.pos + k - p.posInChain)
  {
    var s := buf.Contents();
    forall q | p.pos <= q < p.pos + k - p.posInChain ensures !MatchAt(s, what, q) {
      ByteAt(buf, p, i, q - p.pos + p.posInChain);
      if q + |what| <= |s| {
        assert s[q..q + |what|][0] == s[q];
      }
    }
  }

  /** Looks in one chunk, from p on: the first place where what may start, or the end of the chunk. */
  method FindFirst(buf: EvBuffer, p: Ptr, ghost i: nat, what: seq<byte>) returns (found: bool, q: Ptr)
    requires buf.Core() && p.chain != null && buf.PtrAt(p, i) && what != []
    ensures found ==> buf.PtrAt(q, i) && q.chain == p.chain && q.posInChain < |buf.pieces[i].data|
    ensures !found ==> q.pos == p.pos + |buf.pieces[i].data| - p.posInChain
    ensures !found ==> if i + 1 < |buf.chains| then buf.PtrAt(q, i + 1) else q.chain == null && q.pos == buf.totalLen
    ensures !found ==> q.chain != null ==> i + 1 < |buf.chains|
    ensures p.pos <= q.pos <= buf.totalLen && NoMatch(buf.Contents(), what, p.pos, q.pos)
  {
    hide EvBuffer.Rep, LastData, Flat, MatchAt, NoMatch;
    buf.At(i);
    var k := Memchr(p.chain, p.posInChain, p.chain.off, what[0]);
    FlatAt(buf.pieces, i);
    if k >= 0 {
      NoMatchRun(buf, p, i, k, what);
      return true, Advance(p, k - p.posInChain);
    }
    assert forall j :: p.posInChain <= j < p.chain.off ==> p.chain.Data()[j] != what[0];
    NoMatchRun(buf, p, i, p.chain.off, what);
    q := NextPlace(buf, p, i);
    found := false;
  }

  /** The place one byte on, which may be in the next chunk. */
  method NextByte(buf: EvBuffer, p: Ptr, ghost i: nat) returns (q: Ptr, ghost i': nat)
    requires buf.Core() && p.chain != null && buf.PtrAt(p, i) && p.posInChain < |buf.pieces[i].data|
    ensures q.pos == p.pos + 1 <= buf.totalLen
    ensures if q.chain != null then buf.PtrAt(q, i') else q.pos == buf.totalLen
  {
    hide EvBuffer.Rep, LastData, Flat;
    buf.At(i);
    FlatAt(buf.pieces, i);
    if p.posInChain + 1 == p.chain.off {
      q := NextPlace(buf, p, i);
      i' := i + 1;
    } else {
      q := Advance(p, 1);
      i' := i;
    }
  }

  /** The least place from start on where what is, if it also ends by end; NOT_FOUND otherwise. */
  ghost predicate Found(buf: EvBuffer, what: seq<byte>, from: nat, end: Option<Ptr>, r: Ptr)
    reads buf`chains, buf`pieces, buf`totalLen
  {
    var s := buf.Contents();
    if r.pos >= 0 then
      && from <= r.pos && buf.PtrOk(r) && MatchAt(s, what, r.pos) && NoMatch(s, what, from, r.pos)
      && (end.Some? ==> r.pos + |what| <= end.value.pos)
    else
      && r == NOT_FOUND
      && forall q: nat :: from <= q && MatchAt(s, what, q) ==> end.Some? && end.value.pos < q + |what|
  }

  method SearchRange(buf: EvBuffer, what: seq<byte>, start: Option<Ptr>, end: Option<Ptr>) returns (r: Ptr)
    requires buf.Valid() && (start.Some? ==> buf.PtrOk(start.value)) && (end.Some? ==> buf.PtrOk(end.value))
    ensures |what| == 0 || |what| > SSIZE_MAX ==> r == (if start.Some? then start.value else Ptr(0, buf.first, 0))
    ensures 0 < |what| <= SSIZE_MAX ==> 0 <= Start(start) && Found(buf, what, Start(start), end, r)
  {
    hide EvBuffer.Rep, EvBuffer.Designated, LastData, Flat, MatchAt, NoMatch;
    var pos; ghost var i;
    pos, i := StartAt(buf, start);
    if |what| == 0 || |what| > SSIZE_MAX {
      return pos;
    }
    ghost var s, from := buf.Contents(), pos.pos;
    NoMatchYet(s, what, from);
    while pos.chain != null
      invariant from <= pos.pos <= |s| && NoMatch(s, what, from, pos.pos)
      invariant if pos.chain != null then buf.PtrAt(pos, i) else pos.pos == |s|
      decreases |s| - pos.pos, if pos.chain == null then 0 else |buf.chains| - i
    {
      var found, q := FindFirst(buf, pos, i, what);
      NoMatchMore(s, what, from, pos.pos, q.pos);
      if found {
        var r := PtrMemcmp(buf, q, i, what);
        if r == 0 {
          if end.Some? && q.pos + |what| > end.value.pos {
            NoneInTime(s, what, from, q.pos, end.value.pos);
            return NOT_FOUND;
          }
          return q;
        }
        pos, i := NextByte(buf, q, i);
        NoMatchOne(s, what, from, q.pos);
      } else {
        if end.Some? && pos.chain == end.value.chain {
          EndInChunk(buf, pos, i, end.value);
          NoneBefore(s, what, from, q.pos, end.value.pos);
          return NOT_FOUND;
        }
        pos, i := q, i + 1;
      }
    }
    NoneAtAll(s, what, from);
    return NOT_FOUND;
  }

  /** A place in the same chunk is not behind its end. */
  lemma EndInChunk(buf: EvBuffer, p: Ptr, i: nat, e: Ptr)
    requires buf.Rep() && p.chain != null && buf.PtrAt(p, i) && buf.PtrOk(e) && e.chain == p.chain
    ensures e.pos <= p.pos + |buf.pieces[i].data| - p.posInChain
  {
    var j: nat :| buf.PtrAt(e, j);
    buf.Distinct(i, j);
  }

  lemma NoneBefore(s: seq<byte>, what: seq<byte>, from: nat, hi: nat, end: int)
    requires NoMatch(s, what, from, hi) && end <= hi && what != []
    ensures forall q: nat :: from <= q && MatchAt(s, what, q) ==> end < q + |what|
  {
  }

  lemma NoneAtAll(s: seq<byte>, what: seq<byte>, from: nat)
    requires NoMatch(s, what, from, |s|) && what != []
    ensures forall q: nat :: from <= q ==> !MatchAt(s, what, q)
  {
  }

  lemma NoMatchYet(s: seq<byte>, what: seq<byte>, from: nat)
    ensures NoMatch(s, what, from, from)
  {
  }

  lemma NoMatchMore(s: seq<byte>, what: seq<byte>, a: nat, b: nat, c: nat)
    requires NoMatch(s, what, a, b) && NoMatch(s, what, b, c)
    ensures NoMatch(s, what, a, c)
  {
  }

  lemma NoMatchOne(s: seq<byte>, what: seq<byte>, a: nat, b: nat)
    requires NoMatch(s, what, a, b) && !MatchAt(s, what, b)
    ensures NoMatch(s, what, a, b + 1)
  {
  }

  /** If no match starts before p, and one that starts at p ends behind end, none ends by end. */
  lemma NoneInTime(s: seq<byte>, what: seq<byte>, from: nat, p: nat, end: int)
    requires NoMatch(s, what, from, p) && end < p + |what|
    ensures forall q: nat :: from <= q && MatchAt(s, what, q) ==> end < q + |what|
  {
  }

  // ----- evbuffer_search_eol -----

  /** What a scan looks for: one byte, or any byte that ends a line. */
  datatype Wanted = Only(c: byte) | AnyEol {
    predicate Has(b: byte) {
      match this
      case Only(c) => b == c
      case AnyEol => b == CR || b == LF
    }
  }

  /** No wanted byte from lo on and before hi. */
  ghost predicate NoneIn(s: seq<byte>, w: Wanted, lo: nat, hi: nat) {
    forall q :: lo <= q < hi && q < |s| ==> !w.Has(s[q])
  }

  lemma NoneInChunk(buf: EvBuffer, p: Ptr, i: nat, k: nat, w: Wanted)
    requires |buf.pieces| == |buf.chains| && buf.PtrAt(p, i) && p.posInChain <= k <= |buf.pieces[i].data|
    requires forall j :: p.posInChain <= j < k ==> !w.Has(buf.pieces[i].data[j])
    ensures NoneIn(buf.Contents(), w, p.pos, p.pos + k - p.posInChain)
  {
    forall q | p.pos <= q < p.pos + k - p.posInChain && q < |buf.Contents()| ensures !w.Has(buf.Contents()[q]) {
      ByteAt(buf, p, i, q - p.pos + p.posInChain);
    }
  }

  lemma NoneInMore(s: seq<byte>, w: Wanted, a: nat, b: nat, c: nat)
    requires NoneIn(s, w, a, b) && NoneIn(s, w, b, c)
    ensures NoneIn(s, w, a, c)
  {
  }

  method FindInChunk(chain: Chain, from: nat, w: Wanted) returns (k: int)
    requires chain.Ok() && from <= chain.off
    ensures k == -1 || from <= k < chain.off
    ensures k >= 0 ==> w.Has(chain.Data()[k]) && forall j :: from <= j < k ==> !w.Has(chain.Data()[j])
    ensures k == -1 ==> forall j :: from <= j < chain.off ==> !w.Has(chain.Data()[j])
  {
    match w {
      case Only(c) => k := Memchr(chain, from, chain.off, c);
      case AnyEol => k := FindEolChar(chain, from);
    }
  }

  /** The first wanted byte from p on. */
  method Scan(buf: EvBuffer, p: Ptr, ghost i0: nat, w: Wanted) returns (r: Ptr, ghost i: nat)
    requires buf.Core() && (if p.chain == null then p.pos == buf.totalLen else buf.PtrAt(p, i0))
    ensures r.pos >= 0 ==> p.pos <= r.pos < buf.totalLen && w.Has(buf.Contents()[r.pos]) && NoneIn(buf.Contents(), w, p.pos, r.pos)
    ensures r.pos >= 0 ==> r.chain != null && buf.PtrAt(r, i) && r.posInChain < |buf.pieces[i].data|
    ensures r.pos < 0 ==> r == NOT_FOUND && NoneIn(buf.Contents(), w, p.pos, buf.totalLen)
  {
    hide EvBuffer.Rep, LastData, Flat, NoneIn;
    ghost var s := buf.Contents();
    r, i := p, i0;
    assert NoneIn(s, w, p.pos, p.pos) by { NoneInNothing(s, w, p.pos); }
    while r.chain != null
      invariant p.pos <= r.pos && NoneIn(s, w, p.pos, r.pos)
      invariant if r.chain != null then buf.PtrAt(r, i) else r.pos == buf.totalLen
      decreases if r.chain == null then 0 else |buf.chains| - i
    {
      buf.At(i);
      var chain := r.chain;
      var k := FindInChunk(chain, r.posInChain, w);
      if k >= 0 {
        NoneInChunk(buf, r, i, k, w);
        NoneInMore(s, w, p.pos, r.pos, r.pos + k - r.posInChain);
        ByteAt(buf, r, i, k);
        r := Advance(r, k - r.posInChain);
        return;
      }
      assert forall j :: r.posInChain <= j < chain.off ==> !w.Has(chain.Data()[j]);
      NoneInChunk(buf, r, i, chain.off, w);
      NoneInMore(s, w, p.pos, r.pos, r.pos + chain.off - r.posInChain);
      r := NextPlace(buf, r, i);
      i := i + 1;
    }
    r := NOT_FOUND;
  }

  lemma NoneInNothing(s: seq<byte>, w: Wanted, a: nat)
    ensures NoneIn(s, w, a, a)
  {
  }

  /** n is the number of bytes from p on, as many as there are, that are wanted. */
  ghost predicate Span(s: seq<byte>, w: Wanted, p: nat, n: nat) {
    && p + n <= |s|
    && (forall q :: p <= q < p + n ==> w.Has(s[q]))
    && (p + n < |s| ==> !w.Has(s[p + n]))
  }

  /** How many bytes in a row, from p on, are wanted. */
  method StrSpn(buf: EvBuffer, p: Ptr, ghost i0: nat, w: Wanted) returns (count: nat)
    requires buf.Core() && p.chain != null && buf.PtrAt(p, i0)
    ensures Span(buf.Contents(), w, p.pos, count)
  {
    hide EvBuffer.Rep, LastData, Flat;
    ghost var s, i := buf.Contents(), i0;
    count := 0;
    var q := p;
    FlatAt(buf.pieces, i);
    while true
      invariant q.chain != null && buf.PtrAt(q, i) && q.pos == p.pos + count <= |s|
      invariant forall t :: p.pos <= t < p.pos + count ==> w.Has(s[t])
      decreases |buf.chains| - i, |s| - q.pos
    {
      buf.At(i);
      if q.posInChain < q.chain.off {
        ByteAt(buf, q, i, q.posInChain);
        assert q.chain.buffer[q.chain.misalign + q.posInChain] == q.chain.Data()[q.posInChain];
        if !w.Has(q.chain.buffer[q.chain.misalign + q.posInChain]) {
          return;
        }
        count := count + 1;
        q := Advance(q, 1);
      } else {
        var next := NextPlace(buf, q, i);
        if next.chain == null {
          return;
        }
        q := next;
        i := i + 1;
      }
    }
  }

  datatype EolStyle = Any | Crlf | CrlfStrict | Lf | Nul

  const CRLF: seq<byte> := [CR, LF]

  /** What each style takes for the first end of line from number from on: its place, and its length. */
  ghost predicate EolAt(s: seq<byte>, from: nat, style: EolStyle, pos: nat, len: nat) {
    && from <= pos && 0 < len && pos + len <= |s|
    && match style
       case Any => AnyEol.Has(s[pos]) && NoneIn(s, AnyEol, from, pos) && Span(s, AnyEol, pos, len)
       case CrlfStrict => len == 2 && MatchAt(s, CRLF, pos) && NoMatch(s, CRLF, from, pos)
       case Crlf =>
         var lf := pos + len - 1;
         && s[lf] == LF && NoneIn(s, Only(LF), from, lf)
         && len <= 2 && (len == 2 <==> lf > from && s[lf - 1] == CR)
       case Lf => len == 1 && s[pos] == LF && NoneIn(s, Only(LF), from, pos)
       case Nul => len == 1 && s[pos] == NUL && NoneIn(s, Only(NUL), from, pos)
  }

  /** The bytes themselves that end a line: 10, 13 or 0. */
  lemma EolBytes(s: seq<byte>, from: nat, style: EolStyle, pos: nat, len: nat)
    requires EolAt(s, from, style, pos, len)
    ensures match style
      case Any => s[pos] in {10, 13} && (pos + len < |s| ==> s[pos + len] !in {10, 13})
      case CrlfStrict => s[pos..pos + len] == [13, 10]
      case Crlf => s[pos..pos + len] == [10] || s[pos..pos + len] == [13, 10]
      case Lf => s[pos..pos + len] == [10]
      case Nul => s[pos..pos + len] == [0]
  {
  }

  ghost predicate NoEol(s: seq<byte>, from: nat, style: EolStyle) {
    match style
    case Any => NoneIn(s, AnyEol, from, |s|)
    case CrlfStrict => forall q: nat :: from <= q ==> !MatchAt(s, CRLF, q)
    case Crlf => NoneIn(s, Only(LF), from, |s|)
    case Lf => NoneIn(s, Only(LF), from, |s|)
    case Nul => NoneIn(s, Only(NUL), from, |s|)
  }

  /** The byte at a place, or -1. */
  method GetChr(buf: EvBuffer, p: Ptr, ghost i: nat) returns (r: int)
    requires buf.Core() && p.chain != null ==> buf.PtrAt(p, i) && p.posInChain < |buf.pieces[i].data|
    requires buf.Core()
    ensures r == if p.chain == null then -1 else buf.pieces[i].data[p.posInChain]
  {
    if p.chain == null {
      return -1;
    }
    buf.At(i);
    assert p.chain.Data()[p.posInChain] == p.chain.buffer[p.chain.misalign + p.posInChain];
    r := p.chain.buffer[p.chain.misalign + p.posInChain];
  }

  /** The place one byte before p, which has a byte. */
  method StepBack(buf: EvBuffer, p: Ptr, ghost i0: nat) returns (q: Ptr, ghost i: nat)
    requires buf.Valid() && p.chain != null && buf.PtrAt(p, i0) && 0 < p.pos <= buf.totalLen
    ensures q.chain != null && q.pos == p.pos - 1 && buf.PtrAt(q, i) && q.posInChain < |buf.pieces[i].data|
  {
    hide EvBuffer.Rep, LastData, Flat;
    if 1 <= p.posInChain {
      q, i := Ptr(p.pos - 1, p.chain, p.posInChain - 1), i0;
    } else {
      var ok;
      q, ok := PtrSet(buf, p.pos - 1);
      assert q.chain != null;
      i :| buf.PtrAt(q, i);
      buf.At(i);
    }
  }

  /** Steps back over a CR right before the LF at p, but not before the start. */
  method BackOverCr(buf: EvBuffer, p: Ptr, ghost i: nat, from: int) returns (r: Ptr, len: nat)
    requires buf.Valid() && p.chain != null && buf.PtrAt(p, i) && p.posInChain < |buf.pieces[i].data|
    requires 0 <= from <= p.pos < buf.totalLen && buf.Contents()[p.pos] == LF
    requires NoneIn(buf.Contents(), Only(LF), from, p.pos)
    ensures r.pos >= 0 && EolAt(buf.Contents(), from, Crlf, r.pos, len)
  {
    hide EvBuffer.Rep, LastData, Flat;
    if p.pos == from {
      return p, 1;
    }
    var q; ghost var k;
    q, k := StepBack(buf, p, i);
    ByteAt(buf, q, k, q.posInChain);
    var c := GetChr(buf, q, k);
    if c == CR {
      return q, 2;
    }
    return p, 1;
  }

  /** The first end of line from start on, and its length; NOT_FOUND and 0 if there is none. */
  method SearchEol(buf: EvBuffer, start: Option<Ptr>, style: EolStyle) returns (r: Ptr, len: nat)
    requires buf.Valid() && (start.Some? ==> buf.PtrOk(start.value))
    ensures 0 <= Start(start)
    ensures if r.pos >= 0 then EolAt(buf.Contents(), Start(start), style, r.pos, len)
            else r == NOT_FOUND && len == 0 && NoEol(buf.Contents(), Start(start), style)
  {
    hide EvBuffer.Rep, LastData, Flat, MatchAt, NoMatch;
    len := 0;
    var it; ghost var i;
    it, i := StartAt(buf, start);
    if start.Some? && it.chain == null {
      NothingBehind(buf.Contents(), style);
      return NOT_FOUND, 0;
    }
    match style {
      case Any =>
        ghost var k;
        r, k := Scan(buf, it, i, AnyEol);
        if r.pos >= 0 {
          len := StrSpn(buf, r, k, AnyEol);
        }
      case CrlfStrict =>
        r := SearchRange(buf, CRLF, Some(it), None);
        if r.pos >= 0 {
          MatchBound(buf.Contents(), CRLF, r.pos);
          len := 2;
        }
      case Crlf =>
        ghost var k;
        r, k := Scan(buf, it, i, Only(LF));
        if r.pos >= 0 {
          r, len := BackOverCr(buf, r, k, it.pos);
        }
      case Lf =>
        r, i := Scan(buf, it, i, Only(LF));
        len := if r.pos >= 0 then 1 else 0;
      case Nul =>
        r, i := Scan(buf, it, i, Only(NUL));
        len := if r.pos >= 0 then 1 else 0;
    }
  }

  lemma MatchBound(s: seq<byte>, what: seq<byte>, p: nat)
    requires MatchAt(s, what, p)
    ensures p + |what| <= |s|
  {
  }

  lemma NothingBehind(s: seq<byte>, style: EolStyle)
    ensures NoEol(s, |s|, style)
  {
  }

  // ----- evbuffer_readln -----

  /** Takes the first line out of the buffer, as a C string without its end, which goes too; null if there is none. */
  method ReadLn(buf: EvBuffer, style: EolStyle) returns (line: array?<byte>, ghost eol: nat)
    requires buf.Valid()
    modifies buf, buf.nodes`misalign, buf.nodes`off
    ensures buf.Valid() && buf.flags == old(buf.flags) && buf.nodes == old(buf.nodes) && buf.bufs == old(buf.bufs)
    ensures line == null ==> buf.Contents() == old(buf.Contents()) && buf.counts == old(buf.counts)
    ensures line == null <==> old(buf.flags.freezeStart) || NoEol(old(buf.Contents()), 0, style)
    ensures line != null ==>
      && fresh(line) && line.Length > 0 && line[line.Length - 1] == 0
      && EolAt(old(buf.Contents()), 0, style, line.Length - 1, eol)
      && SplitAt(old(buf.Contents()), line[..line.Length - 1], eol, buf.Contents())
  {
    hide EvBuffer.Rep, EvBuffer.Core, LastData, Flat, SplitAt, EolAt, NoEol;
    eol := 0;
    if buf.flags.freezeStart {
      return null, 0;
    }
    ghost var s := buf.Contents();
    var it, extra := SearchEol(buf, None, style);
    if it.pos < 0 {
      return null, 0;
    }
    EolExcludes(s, 0, style, it.pos, extra);
    eol := extra;
    line := TakeLine(buf, it.pos, extra);
  }

  /** line is followed in s by an end of line of length eol and then by rest. */
  ghost predicate SplitAt(s: seq<byte>, line: seq<byte>, eol: nat, rest: seq<byte>) {
    && |line| + eol <= |s|
    && s == line + s[|line|..|line| + eol] + rest
  }

  /** A line as a C string, and how much more to drop behind it. */
  method TakeLine(buf: EvBuffer, n: nat, extra: nat) returns (line: array<byte>)
    requires buf.Valid() && !buf.flags.freezeStart && n + extra <= |buf.Contents()| && 0 < extra
    modifies buf, buf.nodes`misalign, buf.nodes`off
    ensures buf.Valid() && buf.flags == old(buf.flags) && buf.nodes == old(buf.nodes) && buf.bufs == old(buf.bufs)
    ensures fresh(line) && line.Length == n + 1 && line[n] == 0 && SplitAt(old(buf.Contents()), line[..n], extra, buf.Contents())
  {
    hide EvBuffer.Rep, EvBuffer.Core, LastData, Flat, SplitAt;
    ghost var s := buf.Contents();
    assert |s| == buf.totalLen by { LengthKept(buf); }
    line := new byte[n + 1];
    var _ := Remove(buf, line, n);
    line[n] := NUL;
    assert |buf.Contents()| == buf.totalLen by { LengthKept(buf); }
    var _ := Drain(buf, extra);
    SplitTwice(s, n, extra);
  }

  lemma SplitTwice(s: seq<byte>, n: nat, extra: nat)
    requires n + extra <= |s|
    ensures SplitAt(s, s[..n], extra, s[n..][extra..])
  {
  }

  lemma LengthKept(buf: EvBuffer)
    requires buf.Valid()
    ensures |buf.Contents()| == buf.totalLen
  {
  }

  /** Finding an end of line, and there being none, exclude each other. */
  lemma EolExcludes(s: seq<byte>, from: nat, style: EolStyle, pos: nat, len: nat)
    requires EolAt(s, from, style, pos, len)
    ensures !NoEol(s, from, style) && 0 < len && pos + len <= |s|
  {
  }
}
