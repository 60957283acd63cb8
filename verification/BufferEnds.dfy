/** Adding to, prepending to, draining and copying out of an evbuffer. */
module BufferEnds {
  import opened Machine
  import opened Pieces
  import opened Chains
  import opened EvBuffers

  /** The first empty chunk at or behind the designated one, if any, and the chunk before it. */
  method FindTrailingEmpty(buf: EvBuffer) returns (pred: Chain?, ch: Chain?, ghost k: nat)
    requires buf.Core()
    ensures k == (if buf.chains != [] && buf.pieces[buf.lwd].data != [] then buf.lwd + 1 else 0)
    ensures k <= |buf.chains| && EmptyFrom(buf.pieces, k)
    ensures pred == (if k == 0 then null else buf.chains[k - 1])
    ensures ch == (if k == |buf.chains| then null else buf.chains[k])
  {
    hide EvBuffer.Rep, Flat;
    buf.Ends();
    pred := buf.lwdPred;
    ch := buf.LastWithData();
    k := buf.lwd;
    while ch != null && ch.off != 0
      invariant k <= |buf.chains|
      invariant k == buf.lwd || (k == buf.lwd + 1 && buf.pieces[buf.lwd].data != [])
      invariant ch == (if k < |buf.chains| then buf.chains[k] else null)
      invariant pred == (if k == 0 then null else buf.chains[k - 1])
      decreases |buf.chains| - k
    {
      buf.At(k);
      pred := ch;
      ch := ch.next;
      k := k + 1;
    }
    if ch != null {
      buf.At(k);
    }
  }

  /** Frees the empty chunks at the end; the caller must fix buf.last. */
  method FreeTrailingEmpty(buf: EvBuffer) returns (pred: Chain?)
    requires buf.Core()
    modifies buf`first, buf`chains, buf`pieces, buf.nodes`next
    ensures buf.Core() && buf.Contents() == old(buf.Contents()) && buf.Steady()
    ensures buf.chains != [] ==> buf.lwd == |buf.chains| - 1 && buf.pieces[buf.lwd].data != []
    ensures pred == (if buf.chains == [] then null else buf.chains[buf.lwd])
    ensures buf.chains <= old(buf.chains) && buf.pieces <= old(buf.pieces)
  {
    hide EvBuffer.Rep, Flat;
    var ch; ghost var k;
    pred, ch, k := FindTrailingEmpty(buf);
    FlatDropEmpty(buf.pieces, k);
    if ch != null {
      buf.CutAt(pred, k);
    } else {
      assert buf.pieces[..k] == buf.pieces;
    }
  }

  /** Links c behind pred, the end of a list whose last chunk is the designated one. */
  method LinkTail(buf: EvBuffer, pred: Chain?, c: Chain)
    requires buf.Core()
    requires buf.chains != [] ==> buf.lwd == |buf.chains| - 1 && buf.pieces[buf.lwd].data != []
    requires pred == (if buf.chains == [] then null else buf.chains[buf.lwd])
    requires c !in buf.nodes && c.buffer !in buf.bufs && c.next == null && c.Ok()
    requires buf.totalLen + c.off <= SIZE_MAX
    modifies buf`first, buf`last, buf`lwdPred, buf`lwd, buf`totalLen, buf`chains, buf`pieces, buf`nodes, buf`bufs
    modifies buf.nodes`next
    ensures buf.Core() && buf.Tailed() && buf.Steady()
    ensures buf.pieces == old(buf.pieces) + [old(c.AsPiece())] && buf.chains == old(buf.chains) + [c]
    ensures buf.totalLen == old(buf.totalLen) + old(c.off)
    ensures buf.nodes == old(buf.nodes) + {c} && buf.bufs == old(buf.bufs) + {c.buffer}
    ensures buf.lwd == (if old(c.off) > 0 then |old(buf.chains)| else old(buf.lwd))
  {
    hide EvBuffer.Rep, LastData, Flat, Chain.Ok, Chain.Data, Chain.AsPiece;
    buf.Ends();
    ghost var p := c.AsPiece();
    FlatConcat(buf.pieces, [p]);
    FlatOne(p);
    LastDataAppend(buf.pieces, buf.lwd, p);
    buf.last := c;
    buf.totalLen := buf.totalLen + c.off;
    if c.off != 0 {
      buf.lwdPred := pred;
      buf.lwd := |buf.chains|;
    }
    buf.Attach(pred, c);
  }

  /** Puts the chunk c at the end of the list, in the place of the empty chunks there. */
  method ChainInsert(buf: EvBuffer, c: Chain)
    requires buf.Core() && buf.Tailed()
    requires c !in buf.nodes && c.buffer !in buf.bufs && c.next == null && c.Ok()
    requires buf.totalLen + c.off <= SIZE_MAX
    modifies buf`first, buf`last, buf`lwdPred, buf`lwd, buf`totalLen, buf`chains, buf`pieces, buf`nodes, buf`bufs
    modifies buf.nodes`next
    ensures buf.Core() && buf.Tailed() && buf.chains != [] && buf.Steady()
    ensures buf.Contents() == old(buf.Contents()) + old(c.Data())
    ensures buf.nodes == old(buf.nodes) + {c} && buf.bufs == old(buf.bufs) + {c.buffer}
    ensures buf.last == c && buf.pieces[|buf.pieces| - 1] == old(c.AsPiece())
    ensures old(buf.chains) == [] || old(c.off) > 0 ==> buf.lwd == |buf.chains| - 1
    ensures buf.lwd <= |buf.chains| - 1 <= buf.lwd + 1
    ensures old(buf.chains) == [] ==> buf.chains == [c] && |buf.pieces| == 1
  {
    hide EvBuffer.Rep, Flat, Chain.Ok, Chain.Data, Chain.AsPiece;
    buf.Ends();
    var d := buf.LastWithData();
    var pred: Chain? := null;
    if d != null {
      pred := FreeTrailingEmpty(buf);
    }
    ghost var p := c.AsPiece();
    FlatConcat(buf.pieces, [p]);
    FlatOne(p);
    buf.Ends();
    LinkTail(buf, pred, c);
    buf.Ends();
  }

  // ----- evbuffer_add -----

  /** Writes data behind the bytes of the designated chunk. */
  method GrowTail(buf: EvBuffer, c: Chain, data: seq<byte>)
    requires buf.Core() && buf.Balanced() && buf.lwd < |buf.chains| && c == buf.chains[buf.lwd]
    requires |data| <= buf.pieces[buf.lwd].cap - buf.pieces[buf.lwd].gap - |buf.pieces[buf.lwd].data|
    requires buf.totalLen + |data| <= SIZE_MAX
    modifies buf`pieces, buf`totalLen, buf`counts, c`off, c.buffer
    ensures buf.Core() && buf.Balanced()
    ensures buf.Contents() == old(buf.Contents()) + data
    ensures buf.pieces == old(buf.pieces)[buf.lwd := old(buf.pieces[buf.lwd]).(data := old(buf.pieces[buf.lwd].data) + data)]
    ensures buf.totalLen == old(buf.totalLen) + |data| && buf.counts == old(buf.counts.Plus(|data|))
    ensures buf.flags == old(buf.flags) && buf.seenLen == old(buf.seenLen)
  {
    hide EvBuffer.Rep, Flat;
    buf.Ends();
    ghost var was, i := buf.pieces, buf.lwd;
    buf.AppendAt(c, data, i);
    FlatGrow(was, i, buf.pieces[i], data);
    buf.totalLen := buf.totalLen + |data|;
    buf.counts := buf.counts.Plus(|data|);
  }

  /** Makes room behind the bytes of the designated chunk by moving them to its start. */
  method AlignTail(buf: EvBuffer, c: Chain)
    requires buf.Core() && buf.lwd < |buf.chains| && c == buf.chains[buf.lwd]
    modifies buf`pieces, c`misalign, c.buffer
    ensures buf.Core() && buf.Contents() == old(buf.Contents()) && buf.Steady()
    ensures buf.pieces == old(buf.pieces)[buf.lwd := old(buf.pieces[buf.lwd]).(gap := 0)]
  {
    hide EvBuffer.Rep, Flat;
    buf.Ends();
    ghost var was, i := buf.pieces, buf.lwd;
    buf.AlignAt(c, i);
    FlatUpdate(was, i, buf.pieces[i]);
    FlatAt(was, i);
  }

  /** The designated chunk, after allocating one if the list is empty. */
  method ChunkForAdding(buf: EvBuffer, datalen: nat) returns (c: Chain?)
    requires buf.Valid()
    modifies buf`first, buf`last, buf`lwdPred, buf`lwd, buf`totalLen, buf`chains, buf`pieces, buf`nodes, buf`bufs
    modifies buf.nodes`next
    ensures buf.Valid() && buf.Contents() == old(buf.Contents()) && buf.totalLen == old(buf.totalLen) && buf.Steady()
    ensures fresh(buf.nodes - old(buf.nodes)) && fresh(buf.bufs - old(buf.bufs))
    ensures c == null ==> datalen > MAX_CHAIN_DATA
    ensures c != null ==> buf.lwd < |buf.chains| && c == buf.chains[buf.lwd]
  {
    hide EvBuffer.Rep, Flat, Chain.Ok, Chain.Data, Chain.AsPiece;
    buf.Ends();
    var d := buf.LastWithData();
    c := if d == null then buf.last else d;
    if c == null {
      c := Chain.New(datalen);
      if c == null {
        return;
      }
      ghost var was := buf.Contents();
      assert was + c.Data() == was;
      ChainInsert(buf, c);
      buf.Ends();
    }
  }

  /** Fills the empty chunk tmp with data and puts it at the end of the list. */
  method AddChunk(buf: EvBuffer, tmp: Chain, data: seq<byte>)
    requires buf.Valid() && tmp !in buf.nodes && tmp.buffer !in buf.bufs && tmp.next == null
    requires tmp.Ok() && tmp.off == 0 && tmp.misalign == 0 && |data| <= tmp.buffer.Length
    requires buf.totalLen + |data| <= SIZE_MAX
    modifies buf, buf.nodes`next, tmp`off, tmp.buffer
    ensures buf.Valid() && buf.flags == old(buf.flags) && buf.counts == old(buf.counts.Plus(|data|))
    ensures buf.Contents() == old(buf.Contents()) + data
    ensures buf.nodes == old(buf.nodes) + {tmp} && buf.bufs == old(buf.bufs) + {tmp.buffer}
  {
    hide EvBuffer.Rep, EvBuffer.Designated, EvBuffer.Tailed, Flat, Chain.Ok, Chain.Data, Chain.AsPiece;
    assert tmp.AsPiece().data + data == data;
    tmp.Append(data);
    ChainInsert(buf, tmp);
    buf.counts := buf.counts.Plus(|data|);
  }

  /** Fills the designated chunk with the first bytes of data, and puts the rest in a new chunk. */
  method AddInNewChunk(buf: EvBuffer, chain: Chain, data: seq<byte>, remain: nat) returns (ok: bool)
    requires buf.Valid() && buf.lwd < |buf.chains| && chain == buf.chains[buf.lwd]
    requires remain == buf.pieces[buf.lwd].cap - buf.pieces[buf.lwd].gap - |buf.pieces[buf.lwd].data| < |data|
    requires buf.totalLen + |data| <= SIZE_MAX
    modifies buf, buf.nodes, buf.bufs
    ensures buf.Valid() && buf.flags == old(buf.flags)
    ensures fresh(buf.nodes - old(buf.nodes)) && fresh(buf.bufs - old(buf.bufs))
    ensures |data| <= MAX_CHAIN_DATA ==> ok
    ensures buf.Contents() == old(buf.Contents()) + if ok then data else []
    ensures buf.counts == (if ok then old(buf.counts.Plus(|data|)) else old(buf.counts))
  {
    hide EvBuffer.Rep, EvBuffer.Designated, EvBuffer.Tailed, Flat, Chain.Ok, Chain.Data, Chain.AsPiece;
    buf.At(buf.lwd);
    var toAlloc := chain.buffer.Length;
    if toAlloc <= MAX_AUTO_SIZE / 2 {
      toAlloc := 2 * toAlloc;
    }
    if |data| > toAlloc {
      toAlloc := |data|;
    }
    var tmp := Chain.New(toAlloc);
    if tmp == null {
      assert buf.Contents() + [] == buf.Contents();
      return false;
    }
    if remain > 0 {
      GrowTail(buf, chain, data[..remain]);
    } else {
      assert buf.Contents() + data[..remain] == buf.Contents();
    }
    AddChunk(buf, tmp, data[remain..]);
    Assoc(old(buf.Contents()), data[..remain], data[remain..]);
    assert data == data[..remain] + data[remain..];
    return true;
  }

  method Add(buf: EvBuffer, data: seq<byte>) returns (ok: bool)
    requires buf.Valid()
    modifies buf, buf.nodes, buf.bufs
    ensures buf.Valid() && buf.flags == old(buf.flags)
    ensures fresh(buf.nodes - old(buf.nodes)) && fresh(buf.bufs - old(buf.bufs))
    ensures old(buf.flags.freezeEnd) || old(buf.totalLen) + |data| > SIZE_MAX ==> !ok
    ensures !old(buf.flags.freezeEnd) && old(buf.totalLen) + |data| <= SIZE_MAX && |data| <= MAX_CHAIN_DATA ==> ok
    ensures buf.Contents() == old(buf.Contents()) + if ok then data else []
    ensures buf.counts == if ok then old(buf.counts.Plus(|data|).Offered(buf.flags)) else old(buf.counts)
  {
    hide EvBuffer.Rep, EvBuffer.Designated, EvBuffer.Tailed, Flat, Chain.Ok, Chain.Data, Chain.AsPiece;
    ghost var was := buf.Contents();
    assert was + [] == was;
    if buf.flags.freezeEnd {
      return false;
    }
    if |data| > SIZE_MAX - buf.totalLen {
      return false;
    }
    var chain := ChunkForAdding(buf, |data|);
    if chain == null {
      return false;
    }
    buf.At(buf.lwd);
    var remain := chain.buffer.Length - chain.misalign - chain.off;
    if remain >= |data| {
      GrowTail(buf, chain, data);
    } else if chain.ShouldRealign(|data|) {
      AlignTail(buf, chain);
      GrowTail(buf, chain, data);
    } else {
      var done := AddInNewChunk(buf, chain, data, remain);
      if !done {
        return false;
      }
    }
    buf.InvokeCallbacks();
    return true;
  }

  // ----- evbuffer_prepend -----

  /** Writes data into the gap in front of the first chunk's bytes. */
  method FillFirst(buf: EvBuffer, c: Chain, data: seq<byte>)
    requires buf.Valid() && buf.chains != [] && c == buf.chains[0]
    requires |data| <= buf.pieces[0].gap && buf.totalLen + |data| <= SIZE_MAX
    modifies buf`pieces, buf`totalLen, buf`counts, c`off, c`misalign, c.buffer
    ensures buf.Valid() && buf.Contents() == data + old(buf.Contents())
    ensures buf.totalLen == old(buf.totalLen) + |data| && buf.counts == old(buf.counts.Plus(|data|))
    ensures buf.pieces[0].gap == old(buf.pieces[0].gap) - |data|
    ensures buf.pieces[0].data == data + old(buf.pieces[0].data)
  {
    hide EvBuffer.Rep, Flat;
    buf.Ends();
    ghost var was := buf.pieces;
    buf.FillFrontAt(c, data, 0);
    FlatGrowFront(was, buf.pieces[0], data);
    buf.totalLen := buf.totalLen + |data|;
    buf.counts := buf.counts.Plus(|data|);
  }

  /** The first chunk, after allocating one if the list is empty; an empty one has its gap made full. */
  method ChunkForPrepending(buf: EvBuffer, datalen: nat) returns (c: Chain?)
    requires buf.Valid()
    modifies buf, buf.nodes
    ensures buf.Valid() && buf.Contents() == old(buf.Contents()) && buf.totalLen == old(buf.totalLen) && buf.Steady()
    ensures fresh(buf.nodes - old(buf.nodes)) && fresh(buf.bufs - old(buf.bufs))
    ensures c == null ==> datalen > MAX_CHAIN_DATA
    ensures c != null ==> buf.chains != [] && c == buf.chains[0]
    ensures c != null && buf.pieces[0].data == [] ==> buf.pieces[0].gap == buf.pieces[0].cap > 0
  {
    hide EvBuffer.Rep, Flat, Chain.Ok, Chain.Data, Chain.AsPiece;
    buf.Ends();
    c := buf.first;
    if c == null {
      c := Chain.New(datalen);
      if c == null {
        return;
      }
      assert buf.Contents() + c.Data() == buf.Contents();
      ChainInsert(buf, c);
      buf.Ends();
    }
    buf.At(0);
    if c.off == 0 {
      ghost var was := buf.pieces;
      buf.SetGapAt(c, c.buffer.Length, 0);
      FlatUpdate(was, 0, buf.pieces[0]);
      FlatAt(was, 0);
    }
  }

  /** Puts the chunk tmp ahead of a first chunk that has bytes. */
  method LinkFront(buf: EvBuffer, chain: Chain, tmp: Chain)
    requires buf.Valid() && buf.chains != [] && chain == buf.chains[0] && buf.pieces[0].data != []
    requires tmp !in buf.nodes && tmp.buffer !in buf.bufs && tmp.Ok() && buf.totalLen + tmp.off <= SIZE_MAX
    modifies buf, tmp`next
    ensures buf.Valid() && buf.flags == old(buf.flags)
    ensures buf.nodes == old(buf.nodes) + {tmp} && buf.bufs == old(buf.bufs) + {tmp.buffer}
    ensures buf.Contents() == old(tmp.Data()) + old(buf.Contents())
    ensures buf.counts == old(buf.counts.Plus(tmp.off))
  {
    hide EvBuffer.Rep, LastData, Flat, Chain.Ok, Chain.Data, Chain.AsPiece;
    buf.At(0);
    ghost var p := tmp.AsPiece();
    FlatConcat([p], buf.pieces);
    FlatOne(p);
    LastDataPush(buf.pieces, buf.lwd, p);
    buf.Push(tmp);
    if buf.lwdPred == null && chain.off != 0 {
      buf.lwdPred := tmp;
    }
    buf.lwd := buf.lwd + 1;
    buf.totalLen := buf.totalLen + tmp.off;
    buf.counts := buf.counts.Plus(tmp.off);
  }

  /** Puts data in a new chunk ahead of a first chunk that has bytes. */
  method PrependChunk(buf: EvBuffer, chain: Chain, data: seq<byte>) returns (ok: bool)
    requires buf.Valid() && buf.chains != [] && chain == buf.chains[0] && buf.pieces[0].data != []
    requires buf.totalLen + |data| <= SIZE_MAX
    modifies buf
    ensures buf.Valid() && buf.flags == old(buf.flags)
    ensures fresh(buf.nodes - old(buf.nodes)) && fresh(buf.bufs - old(buf.bufs))
    ensures ok <==> |data| <= MAX_CHAIN_DATA
    ensures buf.Contents() == (if ok then data else []) + old(buf.Contents())
    ensures buf.counts == (if ok then old(buf.counts.Plus(|data|)) else old(buf.counts))
  {
    hide EvBuffer.Rep, EvBuffer.Designated, Flat, Chain.Ok, Chain.Data, Chain.AsPiece;
    var tmp := Chain.NewAtEnd(data);
    if tmp == null {
      assert [] + buf.Contents() == buf.Contents();
      return false;
    }
    assert |tmp.AsPiece().data| == tmp.off;
    LinkFront(buf, chain, tmp);
    return true;
  }

  /** Fills the gap of the first chunk with the last bytes of data, and puts the rest in a new chunk. */
  method PrependInNewChunk(buf: EvBuffer, chain: Chain, data: seq<byte>) returns (ok: bool, ghost cut: nat)
    requires buf.Valid() && buf.chains != [] && chain == buf.chains[0]
    requires buf.pieces[0].data == [] ==> buf.pieces[0].gap > 0
    requires buf.pieces[0].gap < |data| && buf.totalLen + |data| <= SIZE_MAX
    modifies buf, buf.nodes, buf.bufs
    ensures buf.Valid() && buf.flags == old(buf.flags)
    ensures fresh(buf.nodes - old(buf.nodes)) && fresh(buf.bufs - old(buf.bufs))
    ensures cut <= |data| && (ok ==> cut == 0) && (!ok ==> |data| > MAX_CHAIN_DATA)
    ensures buf.Contents() == data[cut..] + old(buf.Contents())
    ensures buf.counts == old(buf.counts.Plus(|data| - cut))
  {
    hide EvBuffer.Rep, EvBuffer.Designated, EvBuffer.Tailed, Flat, Chain.Ok, Chain.Data, Chain.AsPiece;
    ghost var was := buf.Contents();
    buf.At(0);
    var n := |data| - chain.misalign;
    if n < |data| {
      FillFirst(buf, chain, data[n..]);
    }
    assert buf.Contents() == data[n..] + was;
    ok := PrependChunk(buf, chain, data[..n]);
    cut := if ok then 0 else n;
    Assoc(data[..n], data[n..], was);
    assert data[..n] + data[n..] == data == data[0..];
  }

  method Prepend(buf: EvBuffer, data: seq<byte>) returns (ok: bool, ghost cut: nat)
    requires buf.Valid()
    modifies buf, buf.nodes, buf.bufs
    ensures buf.Valid() && buf.flags == old(buf.flags)
    ensures fresh(buf.nodes - old(buf.nodes)) && fresh(buf.bufs - old(buf.bufs))
    ensures data == [] ==> ok
    ensures data != [] && (old(buf.flags.freezeStart) || old(buf.totalLen) + |data| > SIZE_MAX) ==> !ok && cut == |data|
    ensures !old(buf.flags.freezeStart) && old(buf.totalLen) + |data| <= SIZE_MAX && |data| <= MAX_CHAIN_DATA ==> ok
    // only a refused allocation can leave a part of data behind, and then its last part
    ensures cut <= |data| && (ok ==> cut == 0) && (!ok && cut < |data| ==> |data| > MAX_CHAIN_DATA)
    ensures buf.Contents() == data[cut..] + old(buf.Contents())
    ensures var c := old(buf.counts.Plus(|data| - cut)); buf.counts == if ok && data != [] then c.Offered(buf.flags) else c
  {
    hide EvBuffer.Rep, EvBuffer.Designated, EvBuffer.Tailed, Flat, Chain.Ok, Chain.Data, Chain.AsPiece;
    assert data[|data|..] + buf.Contents() == buf.Contents();
    cut := |data|;
    if |data| == 0 {
      return true, 0;
    }
    if buf.flags.freezeStart {
      return false, cut;
    }
    if |data| > SIZE_MAX - buf.totalLen {
      return false, cut;
    }
    var chain := ChunkForPrepending(buf, |data|);
    if chain == null {
      return false, cut;
    }
    buf.At(0);
    if chain.misalign >= |data| {
      FillFirst(buf, chain, data);
      ok, cut := true, 0;
    } else {
      ok, cut := PrependInNewChunk(buf, chain, data);
    }
    if ok {
      buf.InvokeCallbacks();
    }
  }

  // ----- evbuffer_drain -----

  /** Forgets all chunks. */
  method ZeroChain(buf: EvBuffer)
    modifies buf`first, buf`last, buf`lwdPred, buf`lwd, buf`totalLen, buf`chains, buf`pieces
    ensures buf.Core() && buf.Tailed() && buf.pieces == [] && buf.chains == [] && buf.totalLen == 0 && buf.lwd == 0
  {
    buf.first, buf.last, buf.lwdPred, buf.totalLen := null, null, null, 0;
    buf.chains, buf.pieces, buf.lwd := [], [], 0;
  }

  /** Chunk k is about to go: if last_with_datap points at it or into it, it falls back to the head. */
  method Undesignate(buf: EvBuffer, chain: Chain, ghost k: nat)
    requires buf.Rep() && buf.Designated() && k < buf.lwd < |buf.chains| && chain == buf.chains[k]
    modifies buf`lwdPred
    ensures buf.lwdPred == (if k + 1 == buf.lwd then null else buf.chains[buf.lwd - 1])
  {
    hide EvBuffer.Rep, LastData;
    var designated := buf.LastWithData();
    buf.Distinct(k, buf.lwd);
    buf.Distinct(k, buf.lwd - 1);
    if chain == designated || chain == buf.lwdPred {
      buf.lwdPred := null;
    }
  }

  /** Walks to the chunk the byte number len is in; keeps the designation off the chunks passed. */
  method WalkTo(buf: EvBuffer, len: nat) returns (chain: Chain, remaining: nat, ghost k: nat)
    requires buf.Core() && len < buf.totalLen
    modifies buf`lwdPred
    ensures k <= buf.lwd < |buf.chains| && chain == buf.chains[k]
    ensures remaining < |buf.pieces[k].data| && len == |Flat(buf.pieces[..k])| + remaining
    ensures buf.lwdPred == (if k == buf.lwd then null else buf.chains[buf.lwd - 1])
  {
    hide EvBuffer.Rep, LastData, Flat;
    buf.Ends();
    ghost var ps := buf.pieces;
    LastDataHas(ps, buf.lwd);
    chain, remaining, k := buf.first, len, 0;
    buf.At(0);
    assert Flat(ps[..0]) == [] by { FlatAllEmpty(ps[..0]); }
    while remaining >= chain.off
      modifies buf`lwdPred
      invariant k <= buf.lwd < |buf.chains| && chain == buf.chains[k]
      invariant len == |Flat(ps[..k])| + remaining
      invariant chain.off == |ps[k].data|
      invariant buf.lwdPred == (if k == buf.lwd then null else buf.chains[buf.lwd - 1])
      decreases |buf.chains| - k
    {
      FlatAt(ps, k);
      FlatEndsEarly(ps, buf.lwd, k);
      buf.At(k);
      buf.At(k + 1);
      var next := chain.next;
      remaining := remaining - chain.off;
      Undesignate(buf, chain, k);
      chain := next;
      k := k + 1;
    }
  }

  /** Gives up len bytes at the front, fewer than there are. */
  method DrainSome(buf: EvBuffer, len: nat)
    requires buf.Core() && buf.Tailed() && len < buf.totalLen
    modifies buf`first, buf`lwdPred, buf`lwd, buf`totalLen, buf`chains, buf`pieces, buf.nodes`misalign, buf.nodes`off
    ensures buf.Core() && buf.Tailed() && buf.Contents() == old(buf.Contents())[len..]
  {
    hide EvBuffer.Rep, LastData, Flat;
    buf.Ends();
    ghost var was := buf.pieces;
    var chain, remaining; ghost var k;
    chain, remaining, k := WalkTo(buf, len);
    buf.totalLen := buf.totalLen - len;
    buf.At(k);
    ghost var p := Piece(was[k].data[remaining..], was[k].gap + remaining, was[k].cap);
    FlatConsume(was, k, remaining, p);
    LastDataDrop(was, buf.lwd, k, p);
    buf.DropTo(chain, k);
    buf.lwd := buf.lwd - k;
    buf.ConsumeAt(chain, remaining, 0);
    assert buf.pieces == [p] + was[k + 1..];
  }

  method Drain(buf: EvBuffer, len: nat) returns (ok: bool)
    requires buf.Valid()
    modifies buf, buf.nodes`misalign, buf.nodes`off
    ensures buf.Valid() && buf.flags == old(buf.flags) && buf.nodes == old(buf.nodes) && buf.bufs == old(buf.bufs)
    ensures ok <==> old(buf.totalLen) == 0 || !old(buf.flags.freezeStart)
    ensures var n := if ok then Min(len, old(buf.totalLen)) else 0;
      && buf.Contents() == old(buf.Contents())[n..]
      && buf.counts == if ok && old(buf.totalLen) > 0 then old(buf.counts.Minus(n).Offered(buf.flags)) else old(buf.counts)
  {
    hide EvBuffer.Rep, EvBuffer.Designated, LastData, Flat;
    var oldLen := buf.totalLen;
    if oldLen == 0 {
      return true;
    }
    if buf.flags.freezeStart {
      return false;
    }
    var n := len;
    if len >= oldLen {
      n := oldLen;
      assert Flat([]) == [] by { FlatAllEmpty([]); }
      ZeroChain(buf);
    } else {
      DrainSome(buf, len);
    }
    buf.counts := buf.counts.Minus(n);
    buf.InvokeCallbacks();
    return true;
  }

  // ----- evbuffer_copyout, evbuffer_remove -----

  /** The place a caller names, or the start. */
  method StartAt(buf: EvBuffer, pos: Option<Ptr>) returns (p: Ptr, ghost i: nat)
    requires buf.Valid() && (pos.Some? ==> buf.PtrOk(pos.value))
    ensures p == if pos.Some? then pos.value else Ptr(0, buf.first, 0)
    ensures buf.PtrOk(p) && 0 <= p.pos <= buf.totalLen && (p.chain != null ==> buf.PtrAt(p, i))
  {
    hide EvBuffer.Rep, LastData, Flat;
    buf.Ends();
    match pos {
      case Some(q) =>
        p := q;
        i := 0;
        if p.chain != null {
          i :| buf.PtrAt(p, i);
          FlatAt(buf.pieces, i);
        }
      case None =>
        p := Ptr(0, buf.first, 0);
        i := 0;
        assert Flat(buf.pieces[..0]) == [] by { FlatAllEmpty(buf.pieces[..0]); }
        assert p.chain != null ==> buf.PtrAt(p, 0);
        assert buf.pieces[..0] == [];
    }
  }

  /** Extends the copied part of want by len bytes found in one chunk. */
  method CopyRun(chain: Chain, from: nat, len: nat, dst: array<byte>, at: nat, ghost want: seq<byte>)
    requires chain.Ok() && from + len <= chain.off && dst != chain.buffer
    requires at + len <= |want| <= dst.Length && dst[..at] == want[..at]
    requires chain.Data()[from..from + len] == want[at..at + len]
    modifies dst
    ensures dst[..at + len] == want[..at + len] && dst[|want|..] == old(dst[|want|..])
  {
    hide Chain.Ok, Chain.Data;
    ghost var was := dst[..];
    chain.CopyTo(from, len, dst, at);
    JoinRuns(dst[..], want, at, at + len);
    SameTail(dst[..], was, at + len, |want|);
  }

  lemma JoinRuns(a: seq<byte>, b: seq<byte>, i: nat, j: nat)
    requires i <= j <= |a| && j <= |b| && a[..i] == b[..i] && a[i..j] == b[i..j]
    ensures a[..j] == b[..j]
  {
    assert a[..j] == a[..i] + a[i..j] && b[..j] == b[..i] + b[i..j];
  }

  lemma SameTail(a: seq<byte>, b: seq<byte>, i: nat, j: nat)
    requires i <= j <= |a| == |b| && a[i..] == b[i..]
    ensures a[j..] == b[j..]
  {
    assert a[j..] == a[i..][j - i..] && b[j..] == b[i..][j - i..];
  }

  lemma PartOfPart(all: seq<byte>, lo: nat, hi: nat, i: nat, j: nat)
    requires lo <= hi <= |all| && i <= j <= hi - lo
    ensures all[lo..hi][i..j] == all[lo + i..lo + j]
  {
    var part, whole := all[lo..hi], all[lo + i..lo + j];
    forall k | 0 <= k < j - i ensures part[i..j][k] == whole[k] {
      assert part[i + k] == all[lo + i + k];
    }
  }

  /** The place behind the bytes of piece i that are taken from p on. */
  lemma NextChunk(buf: EvBuffer, p: Ptr, i: nat, end: nat)
    requires buf.Rep() && buf.PtrAt(p, i) && end <= |buf.Contents()|
    requires p.pos + |buf.pieces[i].data| - p.posInChain < end
    ensures i + 1 < |buf.chains|
    ensures buf.PtrAt(Ptr(p.pos + |buf.pieces[i].data| - p.posInChain, buf.chains[i + 1], 0), i + 1)
  {
    hide EvBuffer.Rep, Flat;
    FlatAt(buf.pieces, i);
    NotLast(buf.pieces, i);
  }

  /** Copies len bytes of the chunk p is in. */
  method CopyWithin(buf: EvBuffer, p: Ptr, ghost i: nat, dst: array<byte>, at: nat, len: nat, ghost want: seq<byte>)
    requires buf.Rep() && dst !in buf.bufs && p.chain != null && buf.PtrAt(p, i)
    requires p.posInChain + len <= |buf.pieces[i].data| && at + len <= |want| <= dst.Length
    requires dst[..at] == want[..at]
    requires at <= p.pos && p.pos - at + |want| <= |buf.Contents()|
    requires want == buf.Contents()[p.pos - at..p.pos - at + |want|]
    modifies dst
    ensures dst[..at + len] == want[..at + len] && dst[|want|..] == old(dst[|want|..])
  {
    hide EvBuffer.Rep, Flat, Chain.Ok, Chain.Data;
    buf.At(i);
    FlatSlice(buf.pieces, i, p.posInChain, len);
    PartOfPart(buf.Contents(), p.pos - at, p.pos - at + |want|, at, at + len);
    CopyRun(p.chain, p.posInChain, len, dst, at, want);
  }

  /** Copies n bytes from the place p on. */
  method CopyFrom(buf: EvBuffer, p: Ptr, ghost i0: nat, dst: array<byte>, n: nat)
    requires buf.Core() && dst !in buf.bufs && n <= dst.Length
    requires p.chain != null && buf.PtrAt(p, i0) && p.pos + n <= buf.totalLen
    modifies dst
    ensures dst[..n] == buf.Contents()[p.pos..p.pos + n] && dst[n..] == old(dst[n..])
  {
    hide EvBuffer.Rep, EvBuffer.Designated, Flat, Chain.Ok, Chain.Data;
    ghost var ps, want := buf.pieces, buf.Contents()[p.pos..p.pos + n];
    ghost var i: nat := i0;
    var chain: Chain? := p.chain;
    var from: nat, left: nat := p.posInChain, n;
    buf.At(i);
    while left > 0 && left >= chain.off - from
      modifies dst
      invariant left <= n
      invariant left > 0 ==> buf.PtrAt(Ptr(p.pos + n - left, chain, from), i)
      invariant left > 0 ==> chain != null && chain.off == |buf.pieces[i].data|
      invariant dst[..n - left] == want[..n - left]
      invariant dst[n..] == old(dst[n..])
      decreases left, |ps| - i
    {
      var len := chain.off - from;
      CopyWithin(buf, Ptr(p.pos + n - left, chain, from), i, dst, n - left, len, want);
      if left > len {
        NextChunk(buf, Ptr(p.pos + n - left, chain, from), i, p.pos + n);
        buf.At(i);
        buf.At(i + 1);
      }
      left := left - len;
      chain, from, i := chain.next, 0, i + 1;
    }
    if left > 0 {
      CopyWithin(buf, Ptr(p.pos + n - left, chain, from), i, dst, n - left, left, want);
    }
  }

  function Start(pos: Option<Ptr>): int {
    if pos.Some? then pos.value.pos else 0
  }

  /** Copies up to datlen bytes from pos on, without taking them out; -1 if the front is frozen. */
  method CopyOutFrom(buf: EvBuffer, pos: Option<Ptr>, dst: array<byte>, datlen: nat) returns (result: int)
    requires buf.Valid() && (pos.Some? ==> buf.PtrOk(pos.value))
    requires dst !in buf.bufs && datlen <= dst.Length
    modifies dst
    ensures Start(pos) <= buf.totalLen
    ensures
      var start, n := Start(pos), Min(datlen, buf.totalLen - Start(pos));
      if pos.Some? && datlen > SSIZE_MAX - start then result == -1 && dst[..] == old(dst[..])
      else if n == 0 then result == 0 && dst[..] == old(dst[..])
      else if buf.flags.freezeStart then result == -1 && dst[..] == old(dst[..])
      else result == n && dst[..n] == buf.Contents()[start..start + n] && dst[n..] == old(dst[n..])
  {
    hide EvBuffer.Rep, LastData, Flat;
    var p; ghost var i;
    p, i := StartAt(buf, pos);
    if pos.Some? && datlen > SSIZE_MAX - p.pos {
      return -1;
    }
    var n := datlen;
    if n + p.pos > buf.totalLen {
      n := buf.totalLen - p.pos;
    }
    if n == 0 {
      return 0;
    }
    if buf.flags.freezeStart {
      return -1;
    }
    CopyFrom(buf, p, i, dst, n);
    return n;
  }

  /** A C conversion to a 32-bit int. */
  function ToInt32(n: int): (r: int)
    ensures -0x8000_0000 <= r < 0x8000_0000
    ensures 0 <= n < 0x8000_0000 ==> r == n
    ensures (n - r) % 0x1_0000_0000 == 0
  {
    var m := n % 0x1_0000_0000;
    if m < 0x8000_0000 then m else m - 0x1_0000_0000
  }

  /** Takes up to datlen bytes out of the front. */
  method Remove(buf: EvBuffer, dst: array<byte>, datlen: nat) returns (r: int)
    requires buf.Valid() && dst !in buf.bufs && datlen <= dst.Length
    modifies dst, buf, buf.nodes`misalign, buf.nodes`off
    ensures buf.Valid() && buf.flags == old(buf.flags) && buf.nodes == old(buf.nodes) && buf.bufs == old(buf.bufs)
    ensures var n := Min(datlen, old(buf.totalLen));
      if n > 0 && buf.flags.freezeStart then
        r == -1 && dst[..] == old(dst[..]) && buf.Contents() == old(buf.Contents()) && buf.counts == old(buf.counts)
      else
        && r == ToInt32(n)
        && dst[..n] == old(buf.Contents())[..n] && dst[n..] == old(dst[n..])
        && buf.Contents() == old(buf.Contents())[n..]
        && buf.counts == if n > 0 then old(buf.counts.Minus(n).Offered(buf.flags)) else old(buf.counts)
  {
    assert buf.totalLen == |buf.Contents()|;
    hide EvBuffer.Rep, EvBuffer.Core, Flat;
    var n := CopyOutFrom(buf, None, dst, datlen);
    if n > 0 {
      var ok := Drain(buf, n);
      if !ok {
        n := -1;
      }
    }
    return ToInt32(n);
  }
}
