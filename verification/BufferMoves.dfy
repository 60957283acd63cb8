/** Moving bytes between evbuffers by relinking chunks. */
module BufferMoves {
  import opened Machine
  import opened Pieces
  import opened Chains
  import opened EvBuffers
  import opened BufferEnds

  /** The two buffers share no memory. */
  ghost predicate Apart(a: EvBuffer, b: EvBuffer)
    reads a`nodes, a`bufs, b`nodes, b`bufs
  {
    a != b && a.nodes !! b.nodes && a.bufs !! b.bufs
  }

  /** Empties src, all of whose chunks now belong to another list. */
  method GiveAway(src: EvBuffer)
    modifies src`first, src`last, src`lwdPred, src`lwd, src`totalLen, src`chains, src`pieces, src`nodes, src`bufs
    ensures src.Core() && src.Tailed() && src.pieces == [] && src.totalLen == 0
    ensures src.Contents() == [] && src.nodes == {} && src.bufs == {}
  {
    ZeroChain(src);
    src.nodes, src.bufs := {}, {};
  }

  /** Links the chunks of src, which has data, behind pred, the end of dst, and designates as src did. */
  method TakeChains(dst: EvBuffer, pred: Chain?, src: EvBuffer)
    requires Apart(dst, src) && dst.Core() && src.Core() && src.Tailed() && src.totalLen > 0
    requires dst.totalLen + src.totalLen <= SIZE_MAX
    requires pred == (if dst.chains == [] then null else dst.chains[|dst.chains| - 1])
    modifies dst, dst.nodes`next
    ensures dst.Core() && dst.Tailed() && dst.Contents() == old(dst.Contents()) + old(src.Contents()) && dst.Steady()
    ensures dst.nodes == old(dst.nodes) + old(src.nodes) && dst.bufs == old(dst.bufs) + old(src.bufs)
  {
    hide EvBuffer.Rep, LastData, Flat;
    dst.Ends();
    src.Ends();
    LastDataHas(src.pieces, src.lwd);
    FlatConcat(dst.pieces, src.pieces);
    LastDataConcat(dst.pieces, src.pieces, src.lwd);
    dst.lwdPred := if src.lwdPred == null then pred else src.lwdPred;
    dst.lwd := |dst.chains| + src.lwd;
    dst.last := src.last;
    dst.totalLen := dst.totalLen + src.totalLen;
    dst.Splice(pred, src);
  }

  /** Puts the chunks of src, which has data, in the place of all chunks of dst. */
  method CopyChain(dst: EvBuffer, src: EvBuffer)
    requires Apart(dst, src) && dst.Core() && src.Core() && src.Tailed() && src.totalLen > 0
    modifies dst, dst.nodes`next
    ensures dst.Core() && dst.Tailed() && dst.Contents() == old(src.Contents()) && dst.Steady()
    ensures dst.nodes == old(dst.nodes) + old(src.nodes) && dst.bufs == old(dst.bufs) + old(src.bufs)
  {
    hide EvBuffer.Rep, EvBuffer.Designated, Flat;
    assert Flat([]) == [] by { FlatAllEmpty([]); }
    ZeroChain(dst);
    assert [] + src.Contents() == src.Contents();
    TakeChains(dst, null, src);
  }

  /** Links the chunks of src, which has data, behind those of dst. */
  method AppendChain(dst: EvBuffer, src: EvBuffer)
    requires Apart(dst, src) && dst.Core() && src.Core() && src.Tailed()
    requires src.totalLen > 0 && dst.totalLen + src.totalLen <= SIZE_MAX
    modifies dst, dst.nodes`next
    ensures dst.Core() && dst.Tailed() && dst.Contents() == old(dst.Contents()) + old(src.Contents()) && dst.Steady()
    ensures dst.nodes == old(dst.nodes) + old(src.nodes) && dst.bufs == old(dst.bufs) + old(src.bufs)
  {
    hide EvBuffer.Rep, EvBuffer.Designated, Flat;
    var pred := FreeTrailingEmpty(dst);
    TakeChains(dst, pred, src);
  }

  /** Links the chunks of src, which has data, ahead of those of dst, which has data too. */
  method PrependChain(dst: EvBuffer, src: EvBuffer)
    requires Apart(dst, src) && dst.Core() && dst.Tailed() && src.Core() && src.Tailed()
    requires dst.totalLen > 0 && src.totalLen > 0 && dst.totalLen + src.totalLen <= SIZE_MAX
    modifies dst, src.nodes`next
    ensures dst.Core() && dst.Tailed() && dst.Contents() == old(src.Contents()) + old(dst.Contents()) && dst.Steady()
    ensures dst.nodes == old(dst.nodes) + old(src.nodes) && dst.bufs == old(dst.bufs) + old(src.bufs)
  {
    hide EvBuffer.Rep, LastData, Flat;
    dst.Ends();
    src.Ends();
    LastDataHas(dst.pieces, dst.lwd);
    LastDataHas(src.pieces, src.lwd);
    FlatConcat(src.pieces, dst.pieces);
    LastDataConcat(src.pieces, dst.pieces, dst.lwd);
    if dst.lwdPred == null {
      dst.lwdPred := src.last;
    }
    dst.lwd := |src.chains| + dst.lwd;
    dst.totalLen := dst.totalLen + src.totalLen;
    dst.SpliceFront(src);
  }

  /** What one move of n bytes from src to dst does to the counts of both. */
  twostate predicate Moved(src: EvBuffer, dst: EvBuffer, n: nat)
    reads src, dst
  {
    && src.flags == old(src.flags) && dst.flags == old(dst.flags)
    && src.counts == old(src.counts.Minus(n).Offered(src.flags))
    && dst.counts == old(dst.counts.Plus(n).Offered(dst.flags))
  }

  method CountMove(src: EvBuffer, dst: EvBuffer, n: nat)
    requires src != dst && src.seenLen + src.counts.added == src.totalLen + src.counts.deleted + n
    requires dst.seenLen + dst.counts.added + n == dst.totalLen + dst.counts.deleted
    modifies src`counts, src`seenLen, dst`counts, dst`seenLen
    ensures src.Balanced() && dst.Balanced() && Moved(src, dst, n)
  {
    src.counts := src.counts.Minus(n);
    dst.counts := dst.counts.Plus(n);
    src.InvokeCallbacks();
    dst.InvokeCallbacks();
  }

  /** Moves all bytes of src to the end of dst. */
  method AddBuffer(dst: EvBuffer, src: EvBuffer) returns (ok: bool)
    requires dst.Valid() && src.Valid() && (dst != src ==> Apart(dst, src))
    requires dst != src ==> dst.totalLen + src.totalLen <= SIZE_MAX
    modifies dst, src, dst.nodes`next
    ensures dst.Valid() && src.Valid() && (dst != src ==> Apart(dst, src))
    ensures dst.nodes <= old(dst.nodes) + old(src.nodes) && src.nodes <= old(src.nodes)
    ensures dst.bufs <= old(dst.bufs) + old(src.bufs) && src.bufs <= old(src.bufs)
    ensures old(src.totalLen) == 0 || dst == src ==> ok
    ensures old(src.totalLen) > 0 && dst != src ==> (ok <==> !old(dst.flags.freezeEnd) && !old(src.flags.freezeStart))
    ensures
      if ok && dst != src && old(src.totalLen) > 0 then
        && dst.Contents() == old(dst.Contents()) + old(src.Contents()) && src.Contents() == []
        && Moved(src, dst, old(src.totalLen))
      else
        dst.Contents() == old(dst.Contents()) && src.Contents() == old(src.Contents()) && dst.Steady() && src.Steady()
  {
    hide EvBuffer.Rep, EvBuffer.Designated, EvBuffer.Tailed, Flat;
    var n := src.totalLen;
    if n == 0 || dst == src {
      return true;
    }
    if dst.flags.freezeEnd || src.flags.freezeStart {
      return false;
    }
    if dst.totalLen == 0 {
      assert dst.Contents() == [];
      assert [] + src.Contents() == src.Contents();
      CopyChain(dst, src);
    } else {
      AppendChain(dst, src);
    }
    GiveAway(src);
    CountMove(src, dst, n);
    return true;
  }

  /** Moves all bytes of src to the front of dst. */
  method PrependBuffer(dst: EvBuffer, src: EvBuffer) returns (ok: bool)
    requires dst.Valid() && src.Valid() && (dst != src ==> Apart(dst, src))
    requires dst != src ==> dst.totalLen + src.totalLen <= SIZE_MAX
    modifies dst, src, dst.nodes`next, src.nodes`next
    ensures dst.Valid() && src.Valid() && (dst != src ==> Apart(dst, src))
    ensures dst.nodes <= old(dst.nodes) + old(src.nodes) && src.nodes <= old(src.nodes)
    ensures dst.bufs <= old(dst.bufs) + old(src.bufs) && src.bufs <= old(src.bufs)
    ensures old(src.totalLen) == 0 || dst == src ==> ok
    ensures old(src.totalLen) > 0 && dst != src ==> (ok <==> !old(dst.flags.freezeStart) && !old(src.flags.freezeStart))
    ensures
      if ok && dst != src && old(src.totalLen) > 0 then
        && dst.Contents() == old(src.Contents()) + old(dst.Contents()) && src.Contents() == []
        && Moved(src, dst, old(src.totalLen))
      else
        dst.Contents() == old(dst.Contents()) && src.Contents() == old(src.Contents()) && dst.Steady() && src.Steady()
  {
    hide EvBuffer.Rep, EvBuffer.Designated, EvBuffer.Tailed, Flat;
    var n := src.totalLen;
    if n == 0 || dst == src {
      return true;
    }
    if dst.flags.freezeStart || src.flags.freezeStart {
      return false;
    }
    if dst.totalLen == 0 {
      assert dst.Contents() == [];
      assert src.Contents() + [] == src.Contents();
      CopyChain(dst, src);
    } else {
      PrependChain(dst, src);
    }
    GiveAway(src);
    CountMove(src, dst, n);
    return true;
  }

  // ----- evbuffer_remove_buffer -----

  /** Moves last_with_datap on to the last chunk with data. */
  method AdvanceLastWithData(buf: EvBuffer) returns (n: nat)
    requires buf.Rep() && |buf.pieces| == |buf.chains|
    requires if buf.chains == [] then buf.lwd == 0 else buf.lwd < |buf.chains|
    requires buf.lwd > 0 ==> buf.pieces[buf.lwd].data != []
    requires buf.lwdPred == (if buf.lwd == 0 then null else buf.chains[buf.lwd - 1])
    modifies buf`lwdPred, buf`lwd
    ensures buf.Designated() && buf.lwd >= old(buf.lwd)
    ensures n == if buf.chains == [] then 0 else |buf.chains| - 1 - old(buf.lwd)
  {
    hide EvBuffer.Rep;
    buf.Ends();
    n := 0;
    if buf.lwd < |buf.chains| {
      buf.At(buf.lwd);
      if buf.lwd > 0 {
        buf.At(buf.lwd - 1);
      }
    }
    var chain := if buf.lwdPred == null then buf.first else buf.lwdPred.next;
    if chain == null {
      return;
    }
    ghost var i := buf.lwd;
    while chain.next != null
      modifies buf`lwdPred, buf`lwd
      invariant old(buf.lwd) <= buf.lwd <= i < |buf.chains| && n == i - old(buf.lwd)
      invariant chain == buf.chains[i] && chain.next == (if i + 1 < |buf.chains| then buf.chains[i + 1] else null)
      invariant buf.lwd > 0 ==> buf.pieces[buf.lwd].data != []
      invariant forall j :: buf.lwd < j <= i ==> buf.pieces[j].data == []
      invariant buf.lwdPred == (if buf.lwd == 0 then null else buf.chains[buf.lwd - 1])
      decreases |buf.chains| - i
    {
      buf.At(i + 1);
      if chain.next.off != 0 {
        buf.lwdPred := chain;
        buf.lwd := i + 1;
      }
      chain := chain.next;
      i := i + 1;
      n := n + 1;
    }
  }

  /** Walks past the chunks that lie within the first datlen bytes, keeping the designation off them. */
  method WalkPast(src: EvBuffer, datlen: nat) returns (chain: Chain, previous: Chain, left: nat, ghost k: nat)
    requires src.Core() && datlen < src.totalLen
    modifies src`lwdPred
    ensures k <= src.lwd < |src.chains| && chain == src.chains[k] && (k > 0 ==> previous == src.chains[k - 1])
    ensures left < |src.pieces[k].data| && datlen == |Flat(src.pieces[..k])| + left
    ensures src.lwdPred == (if k == src.lwd then null else src.chains[src.lwd - 1])
  {
    hide EvBuffer.Rep, LastData, Flat;
    src.Ends();
    ghost var ps := src.pieces;
    LastDataHas(ps, src.lwd);
    chain, previous, left, k := src.first, src.first, datlen, 0;
    src.At(0);
    assert Flat(ps[..0]) == [] by { FlatAllEmpty(ps[..0]); }
    while chain.off <= left
      modifies src`lwdPred
      invariant k <= src.lwd < |src.chains| && chain == src.chains[k] && (k > 0 ==> previous == src.chains[k - 1])
      invariant datlen == |Flat(ps[..k])| + left
      invariant chain.off == |ps[k].data|
      invariant src.lwdPred == (if k == src.lwd then null else src.chains[src.lwd - 1])
      decreases |src.chains| - k
    {
      FlatAt(ps, k);
      FlatEndsEarly(ps, src.lwd, k);
      src.At(k);
      src.At(k + 1);
      left := left - chain.off;
      previous := chain;
      src.Distinct(k, src.lwd - 1);
      if src.lwdPred == chain {
        src.lwdPred := null;
      }
      chain := chain.next;
      k := k + 1;
    }
  }

  /** Moves the first k chunks of src, up to previous, to the end of dst. */
  method MoveChunks(dst: EvBuffer, src: EvBuffer, previous: Chain, chain: Chain, ghost k: nat)
    requires Apart(dst, src) && dst.Core() && src.Rep()
    requires 0 < k < |src.chains| && previous == src.chains[k - 1] && chain == src.chains[k]
    modifies dst`first, dst`last, dst`lwdPred, dst`lwd, dst`chains, dst`pieces, dst`nodes, dst`bufs, dst.nodes`next
    modifies src`first, src`chains, src`pieces, src`nodes, src`bufs, src.nodes`next
    ensures Apart(dst, src) && dst.Rep() && dst.Designated() && dst.Tailed()
    ensures src.Rep() && src.chains == old(src.chains)[k..] && src.pieces == old(src.pieces)[k..]
    ensures dst.Contents() == old(dst.Contents()) + Flat(old(src.pieces)[..k])
    ensures dst.nodes + src.nodes == old(dst.nodes) + old(src.nodes) && dst.bufs + src.bufs == old(dst.bufs) + old(src.bufs)
  {
    hide EvBuffer.Rep, LastData, Flat, Own, Link, Hold;
    src.Ends();
    ghost var cs, ps := src.chains[..k], src.pieces[..k];
    var pred := FreeTrailingEmpty(dst);
    dst.Ends();
    LastDataBound(dst.pieces, dst.lwd);
    FlatConcat(dst.pieces, ps);
    var head := src.first;
    ghost var ns, bs := src.Split(previous, chain, k);
    dst.SpliceRun(pred, head, cs, ps, ns, bs);
    dst.last := previous;
    var _ := AdvanceLastWithData(dst);
  }

  /** Moves the first k chunks of src, which hold n bytes, to the end of dst, and counts them there. */
  method MoveCounted(dst: EvBuffer, src: EvBuffer, previous: Chain, chain: Chain, n: nat, ghost k: nat)
    requires Apart(dst, src) && dst.Valid() && src.Rep() && src.Tailed() && LastData(src.pieces, src.lwd)
    requires 0 < k <= src.lwd < |src.chains| && previous == src.chains[k - 1] && chain == src.chains[k]
    requires k == src.lwd ==> src.pieces[k].data != []
    requires src.lwdPred == (if k == src.lwd then null else src.chains[src.lwd - 1])
    requires n == |Flat(src.pieces[..k])| && dst.totalLen + n <= SIZE_MAX
    modifies dst, dst.nodes`next
    modifies src`first, src`lwd, src`chains, src`pieces, src`nodes, src`bufs, src.nodes`next
    ensures Apart(dst, src) && dst.Valid() && src.Rep() && src.Designated() && src.Tailed()
    ensures src.chains == old(src.chains)[k..] && src.pieces == old(src.pieces)[k..]
    ensures dst.Contents() == old(dst.Contents()) + Flat(old(src.pieces)[..k])
    ensures dst.flags == old(dst.flags) && dst.counts == old(dst.counts.Plus(n))
    ensures dst.nodes + src.nodes == old(dst.nodes) + old(src.nodes) && dst.bufs + src.bufs == old(dst.bufs) + old(src.bufs)
  {
    hide EvBuffer.Rep, LastData, Flat;
    src.Ends();
    LastDataSuffix(src.pieces, src.lwd, k);
    src.lwd := src.lwd - k;
    MoveChunks(dst, src, previous, chain, k);
    assert src.Designated() && src.Tailed();
    hide EvBuffer.Designated, EvBuffer.Tailed, EvBuffer.Core, EvBuffer.Valid;
    CountMore(dst, n);
  }

  /** Counts n bytes more, which are already there. */
  method CountMore(buf: EvBuffer, n: nat)
    requires buf.Rep() && buf.Designated() && buf.Tailed() && buf.Balanced()
    requires |buf.Contents()| == buf.totalLen + n <= SIZE_MAX
    modifies buf`totalLen, buf`counts
    ensures buf.Valid() && buf.counts == old(buf.counts.Plus(n))
  {
    hide EvBuffer.Rep, EvBuffer.Designated, Flat;
    buf.totalLen := buf.totalLen + n;
    buf.counts := buf.counts.Plus(n);
  }

  /** Moves the chunks that lie within the first datlen bytes of src, fewer than it has; left bytes are still to move. */
  method MoveWhole(dst: EvBuffer, src: EvBuffer, datlen: nat) returns (chain: Chain, left: nat)
    requires Apart(dst, src) && dst.Valid() && src.Valid()
    requires datlen < src.totalLen && dst.totalLen + datlen <= SIZE_MAX
    modifies dst, dst.nodes`next
    modifies src`first, src`lwdPred, src`lwd, src`chains, src`pieces, src`nodes, src`bufs, src.nodes`next
    ensures Apart(dst, src) && dst.Valid() && src.Rep() && src.Designated() && src.Tailed()
    ensures src.chains != [] && chain == src.chains[0] && |src.pieces| == |src.chains|
    ensures left < |src.pieces[0].data| && left <= datlen
    ensures dst.Contents() == old(dst.Contents()) + old(src.Contents())[..datlen - left]
    ensures src.Contents() == old(src.Contents())[datlen - left..]
    ensures dst.flags == old(dst.flags) && dst.counts == old(dst.counts.Plus(datlen - left))
    ensures dst.nodes + src.nodes == old(dst.nodes) + old(src.nodes) && dst.bufs + src.bufs == old(dst.bufs) + old(src.bufs)
  {
    hide EvBuffer.Rep, LastData, Flat, EvBuffer.Tailed;
    ghost var ps := src.pieces;
    src.Ends();
    var previous; ghost var k;
    chain, previous, left, k := WalkPast(src, datlen);
    src.Distinct(0, k);
    FlatSplit(ps, k);
    if chain != src.first {
      MoveCounted(dst, src, previous, chain, datlen - left, k);
    } else {
      assert ps[..0] == [] && ps[0..] == ps;
    }
  }

  /** Gives up n bytes of the first chunk, fewer than it has. */
  method ConsumeFirst(buf: EvBuffer, chain: Chain, n: nat)
    requires buf.Rep() && buf.Designated() && buf.chains != [] && chain == buf.chains[0] && n < |buf.pieces[0].data|
    modifies buf`pieces, chain`misalign, chain`off
    ensures buf.Rep() && buf.Designated() && buf.Contents() == old(buf.Contents())[n..]
  {
    hide EvBuffer.Rep, LastData, Flat;
    ghost var ps := buf.pieces;
    ghost var p := Piece(ps[0].data[n..], ps[0].gap + n, ps[0].cap);
    assert Flat(ps[..0]) == [] by { FlatAllEmpty(ps[..0]); }
    FlatConsume(ps, 0, n, p);
    LastDataBound(ps, buf.lwd);
    LastDataUpdate(ps, buf.lwd, 0, p);
    buf.ConsumeAt(chain, n, 0);
    assert buf.pieces == [p] + ps[1..];
  }

  /** Copies the first n bytes of the first chunk of src, fewer than it has, to the end of dst, and gives them up. */
  method CopyFirst(dst: EvBuffer, src: EvBuffer, chain: Chain, n: nat)
    requires Apart(dst, src) && dst.Valid() && !dst.flags.freezeEnd && dst.totalLen + n <= SIZE_MAX
    requires src.Rep() && src.Designated() && src.chains != [] && chain == src.chains[0] && n < |src.pieces[0].data|
    modifies dst, dst.nodes, dst.bufs, src`pieces, chain`misalign, chain`off
    ensures Apart(dst, src) && dst.Valid() && src.Rep() && src.Designated()
    ensures fresh(dst.nodes - old(dst.nodes)) && fresh(dst.bufs - old(dst.bufs))
    ensures dst.Contents() == old(dst.Contents()) + old(src.Contents())[..n]
    ensures src.Contents() == old(src.Contents())[n..]
    ensures dst.flags == old(dst.flags) && dst.counts == old(dst.counts.Plus(n).Offered(dst.flags))
  {
    hide EvBuffer.Rep, LastData, Flat, EvBuffer.Tailed, EvBuffer.Designated;
    src.At(0);
    FirstBytes(src, chain, n);
    hide Chain.Ok, Chain.Data, Chain.AsPiece;
    var rest := chain.buffer[chain.misalign..chain.misalign + n];
    ConsumeFirst(src, chain, n);
    var ok := Add(dst, rest);
  }

  lemma FirstBytes(buf: EvBuffer, chain: Chain, n: nat)
    requires buf.Rep() && buf.chains != [] && chain == buf.chains[0] && |buf.pieces| > 0 && n <= |buf.pieces[0].data|
    ensures chain.Ok() && n <= chain.off && n <= |buf.Contents()|
    ensures chain.buffer[chain.misalign..chain.misalign + n] == buf.Contents()[..n]
  {
    hide EvBuffer.Rep, Flat;
    buf.At(0);
    assert Flat(buf.pieces[..0]) == [] by { FlatAllEmpty(buf.pieces[..0]); }
    FlatSlice(buf.pieces, 0, 0, n);
    assert chain.Data()[0..n] == chain.buffer[chain.misalign..chain.misalign + n];
  }

  lemma TwoSteps(had: seq<byte>, all: seq<byte>, a: nat, n: nat)
    requires a <= n <= |all|
    ensures had + all[..a] + all[a..][..n - a] == had + all[..n]
    ensures all[a..][n - a..] == all[n..]
  {
    assert all[..n] == all[..a] + all[a..][..n - a];
  }

  /** Counts the n bytes that src gave to dst, and tells the callbacks of both. */
  method Settle(dst: EvBuffer, src: EvBuffer, n: nat)
    requires Apart(dst, src) && dst.Valid()
    requires src.Rep() && src.Designated() && src.Tailed() && src.Balanced()
    requires src.totalLen == |src.Contents()| + n <= SIZE_MAX
    modifies dst`counts, dst`seenLen, src`totalLen, src`counts, src`seenLen
    ensures dst.Valid() && dst.counts == old(dst.counts.Offered(dst.flags))
    ensures src.Valid() && src.counts == old(src.counts.Minus(n).Offered(src.flags))
  {
    hide EvBuffer.Rep, EvBuffer.Designated, EvBuffer.Tailed, Flat;
    src.totalLen := src.totalLen - n;
    src.counts := src.counts.Minus(n);
    dst.InvokeCallbacks();
    src.InvokeCallbacks();
  }

  /** Moves the first datlen bytes of src, fewer than it has, to the end of dst; src is still to be told. */
  method TransferSome(dst: EvBuffer, src: EvBuffer, datlen: nat)
    requires Apart(dst, src) && dst.Valid() && src.Valid() && !dst.flags.freezeEnd
    requires datlen < src.totalLen && dst.totalLen + datlen <= SIZE_MAX
    modifies dst, dst.nodes, dst.bufs, src.nodes, src.bufs
    modifies src`first, src`lwdPred, src`lwd, src`chains, src`pieces, src`nodes, src`bufs
    ensures Apart(dst, src) && dst.Valid() && src.Rep() && src.Designated() && src.Tailed()
    ensures fresh(dst.nodes - old(dst.nodes) - old(src.nodes)) && src.nodes <= old(dst.nodes) + old(src.nodes)
    ensures fresh(dst.bufs - old(dst.bufs) - old(src.bufs)) && src.bufs <= old(dst.bufs) + old(src.bufs)
    ensures dst.Contents() == old(dst.Contents()) + old(src.Contents())[..datlen]
    ensures src.Contents() == old(src.Contents())[datlen..]
    ensures dst.flags == old(dst.flags) && dst.counts == old(dst.counts.Plus(datlen).Offered(dst.flags))
  {
    hide EvBuffer.Rep, LastData, Flat, EvBuffer.Tailed, EvBuffer.Designated;
    ghost var all, had := src.Contents(), dst.Contents();
    var chain, left := MoveWhole(dst, src, datlen);
    src.At(0);
    assert chain in old(dst.nodes) + old(src.nodes);
    assert dst.nodes <= old(dst.nodes) + old(src.nodes) && dst.bufs <= old(dst.bufs) + old(src.bufs);
    TwoSteps(had, all, datlen - left, datlen);
    CopyFirst(dst, src, chain, left);
  }

  method RemoveSome(dst: EvBuffer, src: EvBuffer, datlen: nat)
    requires Apart(dst, src) && dst.Valid() && src.Valid() && !dst.flags.freezeEnd
    requires datlen < src.totalLen && dst.totalLen + datlen <= SIZE_MAX
    modifies dst, dst.nodes, dst.bufs, src, src.nodes, src.bufs
    ensures Apart(dst, src) && dst.Valid() && src.Valid() && Moved(src, dst, datlen)
    ensures fresh(dst.nodes - old(dst.nodes) - old(src.nodes)) && src.nodes <= old(dst.nodes) + old(src.nodes)
    ensures fresh(dst.bufs - old(dst.bufs) - old(src.bufs)) && src.bufs <= old(dst.bufs) + old(src.bufs)
    ensures dst.Contents() == old(dst.Contents()) + old(src.Contents())[..datlen]
    ensures src.Contents() == old(src.Contents())[datlen..]
  {
    hide EvBuffer.Rep, EvBuffer.Designated, EvBuffer.Tailed, Flat;
    TransferSome(dst, src, datlen);
    Settle(dst, src, datlen);
  }

  /** Moves the first datlen bytes of src, or all if there are not that many, to the end of dst. */
  method RemoveBuffer(src: EvBuffer, dst: EvBuffer, datlen: nat) returns (r: int)
    requires dst.Valid() && src.Valid() && (dst != src ==> Apart(dst, src))
    requires dst != src ==> dst.totalLen + src.totalLen <= SIZE_MAX
    modifies dst, dst.nodes, dst.bufs, src, src.nodes, src.bufs
    ensures dst.Valid() && src.Valid() && (dst != src ==> Apart(dst, src))
    ensures fresh(dst.nodes - old(dst.nodes) - old(src.nodes)) && src.nodes <= old(dst.nodes) + old(src.nodes)
    ensures fresh(dst.bufs - old(dst.bufs) - old(src.bufs)) && src.bufs <= old(dst.bufs) + old(src.bufs)
    ensures
      var n := Min(datlen, old(src.totalLen));
      if n > 0 && dst != src && !old(dst.flags.freezeEnd) && !old(src.flags.freezeStart) then
        && r == ToInt32(n) && Moved(src, dst, n)
        && dst.Contents() == old(dst.Contents()) + old(src.Contents())[..n]
        && src.Contents() == old(src.Contents())[n..]
      else
        && r == (if datlen == 0 || dst == src || (!old(dst.flags.freezeEnd) && !old(src.flags.freezeStart)) then 0 else -1)
        && dst.Contents() == old(dst.Contents()) && src.Contents() == old(src.Contents())
        && dst.Steady() && src.Steady()
  {
    assert src.totalLen == |src.Contents()|;
    hide EvBuffer.Core, EvBuffer.Tailed, EvBuffer.Balanced, Flat;
    if datlen == 0 || dst == src {
      return 0;
    }
    if dst.flags.freezeEnd || src.flags.freezeStart {
      return -1;
    }
    if datlen >= src.totalLen {
      var n := src.totalLen;
      assert src.Contents()[..n] == src.Contents() && src.Contents()[n..] == [];
      var _ := AddBuffer(dst, src);
      return ToInt32(n);
    }
    RemoveSome(dst, src, datlen);
    return ToInt32(datlen);
  }
}
