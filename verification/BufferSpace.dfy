/** Making the front of an evbuffer contiguous, and making room at its end. */
module BufferSpace {
  import opened Pieces
  import opened Chains
  import opened EvBuffers
  import opened BufferEnds

  // ----- evbuffer_pullup -----

  /** Where the walk of evbuffer_pullup stopped, and what it passed. */
  datatype Pulled = Pulled(rest: Chain?, removedLwd: bool, removedLwdp: bool)

  /** Extends the part of the contents that tmp holds by the first n bytes of chunk k. */
  method CopyBehind(buf: EvBuffer, tmp: Chain, chain: Chain, n: nat, ghost k: nat, ghost was: Piece)
    requires buf.Rep() && tmp !in buf.nodes && tmp.buffer !in buf.bufs && tmp.Ok()
    requires k < |buf.chains| == |buf.pieces| && chain == buf.chains[k] && n <= |buf.pieces[k].data|
    requires |Flat(buf.pieces[..k])| <= |buf.Contents()|
    requires tmp.AsPiece() == was.(data := was.data + buf.Contents()[..|Flat(buf.pieces[..k])|])
    requires was.gap + |was.data| + |Flat(buf.pieces[..k])| + n <= was.cap
    modifies tmp`off, tmp.buffer
    ensures |Flat(buf.pieces[..k])| + n <= |buf.Contents()|
    ensures tmp.Ok() && tmp.AsPiece() == was.(data := was.data + buf.Contents()[..|Flat(buf.pieces[..k])| + n])
  {
    hide EvBuffer.Rep, Flat, Chain.Ok, Chain.Data, Chain.AsPiece;
    ghost var at, all := |Flat(buf.pieces[..k])|, buf.Contents();
    buf.At(k);
    ChunkBytes(buf, chain, n, k);
    tmp.Append(chain.buffer[chain.misalign..chain.misalign + n]);
    Assoc(was.data, all[..at], all[at..at + n]);
    LongerFront(all, at, n);
  }

  lemma ChunkBytes(buf: EvBuffer, chain: Chain, n: nat, k: nat)
    requires buf.Rep() && k < |buf.chains| == |buf.pieces| && chain == buf.chains[k] && n <= |buf.pieces[k].data|
    ensures var at := |Flat(buf.pieces[..k])|;
      && chain.Ok() && n <= chain.off && at + n <= |buf.Contents()|
      && chain.buffer[chain.misalign..chain.misalign + n] == buf.Contents()[at..at + n]
  {
    hide EvBuffer.Rep, Flat;
    buf.At(k);
    FlatSlice(buf.pieces, k, 0, n);
    assert chain.Data()[0..n] == chain.buffer[chain.misalign..chain.misalign + n];
  }

  lemma LongerFront<T>(all: seq<T>, at: nat, n: nat)
    requires at + n <= |all|
    ensures all[..at] + all[at..at + n] == all[..at + n]
  {
  }

  /** Copies the first size bytes of the list behind those of tmp; d is the index of the designated chunk. */
  method Gather(buf: EvBuffer, tmp: Chain, lastWithData: Chain, size: nat, ghost d: nat) returns (r: Pulled, left: nat, ghost k: nat)
    requires buf.Rep() && tmp !in buf.nodes && tmp.buffer !in buf.bufs && tmp.Ok()
    requires size <= tmp.AsPiece().cap - tmp.AsPiece().gap - |tmp.AsPiece().data| && size <= |buf.Contents()|
    requires d < |buf.chains| && lastWithData == buf.chains[d]
    requires if d > 0 then buf.lwdPred == buf.chains[d - 1] else buf.lwdPred !in buf.chains
    modifies tmp`off, tmp.buffer
    ensures k <= |buf.chains| == |buf.pieces| && r.rest == (if k == |buf.chains| then null else buf.chains[k])
    ensures size == |Flat(buf.pieces[..k])| + left
    ensures if r.rest == null then left == 0 else left < |buf.pieces[k].data|
    ensures tmp.Ok() && tmp.AsPiece() == old(tmp.AsPiece()).(data := old(tmp.AsPiece()).data + buf.Contents()[..size])
    ensures (r.removedLwd <==> d < k) && (r.removedLwdp <==> 0 < d <= k)
  {
    hide EvBuffer.Rep, Flat, Chain.Ok, Chain.Data, Chain.AsPiece;
    ghost var was := tmp.AsPiece();
    buf.Ends();
    r := Pulled(buf.first, false, false);
    left, k := size, 0;
    assert Flat(buf.pieces[..0]) == [] by { FlatAllEmpty(buf.pieces[..0]); }
    assert was.data + buf.Contents()[..0] == was.data;
    while r.rest != null && left >= r.rest.off
      modifies tmp`off, tmp.buffer
      invariant k <= |buf.pieces| && r.rest == (if k == |buf.chains| then null else buf.chains[k])
      invariant size == |Flat(buf.pieces[..k])| + left
      invariant tmp.Ok() && tmp.AsPiece() == was.(data := was.data + buf.Contents()[..size - left])
      invariant (r.removedLwd <==> d < k) && (r.removedLwdp <==> 0 < d <= k)
      decreases |buf.pieces| - k
    {
      var chain := r.rest;
      buf.At(k);
      FlatAt(buf.pieces, k);
      CopyBehind(buf, tmp, chain, chain.off, k, was);
      buf.Distinct(k, d);
      if d > 0 {
        buf.Distinct(k, d - 1);
      }
      r := Pulled(chain.next, r.removedLwd || chain == lastWithData, r.removedLwdp || chain == buf.lwdPred);
      left, k := left - chain.off, k + 1;
    }
    if r.rest != null {
      buf.At(k);
      CopyBehind(buf, tmp, r.rest, left, k, was);
    } else {
      assert buf.pieces[..k] == buf.pieces;
    }
  }

  /** The chunk whose next field designates, after the walk of evbuffer_pullup. */
  function PulledPred(buf: EvBuffer, r: Pulled): (pred: Chain?)
    reads buf`first, buf`lwdPred, buf.first, if buf.first != null && buf.first.next != null then {buf.first.next} else {}
  {
    if r.removedLwd then null
    else if !r.removedLwdp then buf.lwdPred
    else if buf.first != null && buf.first.next != null && buf.first.next.off != 0 then buf.first
    else null
  }

  /** Moves last_with_datap off what was pulled, when the second chunk still has data. */
  method Redesignate(buf: EvBuffer, r: Pulled)
    requires buf.Rep() && |buf.pieces| == |buf.chains| >= 2 && buf.pieces[1].data != [] && !r.removedLwd
    modifies buf`lwdPred
    ensures buf.lwdPred == (if r.removedLwdp then buf.chains[0] else old(buf.lwdPred))
  {
    hide EvBuffer.Rep;
    buf.Ends();
    buf.At(0);
    buf.At(1);
    buf.lwdPred := PulledPred(buf, r);
  }

  /** Drops the first k chunks and left bytes of the next. */
  method DropInto(buf: EvBuffer, rest: Chain, left: nat, ghost k: nat)
    requires buf.Rep() && k < |buf.chains| == |buf.pieces| && rest == buf.chains[k] && left <= |buf.pieces[k].data|
    modifies buf`first, buf`chains, buf`pieces, rest`misalign, rest`off
    ensures buf.Rep() && buf.chains == old(buf.chains)[k..]
    ensures
      var ps := old(buf.pieces);
      buf.pieces == [Piece(ps[k].data[left..], ps[k].gap + left, ps[k].cap)] + ps[k + 1..]
  {
    hide EvBuffer.Rep;
    buf.ConsumeAt(rest, left, k);
    buf.DropTo(rest, k);
  }

  /** Puts tmp, which holds the first k chunks and left bytes of the next, in their place. */
  method PutBeforeRest(buf: EvBuffer, tmp: Chain, r: Pulled, left: nat, ghost k: nat, ghost d: nat)
    requires buf.Rep() && buf.Tailed() && DataEnds(buf.pieces, d) && |buf.chains| == |buf.pieces|
    requires tmp !in buf.nodes && tmp.buffer !in buf.bufs && tmp.Ok()
    requires k < |buf.chains| && r.rest == buf.chains[k] && left < |buf.pieces[k].data|
    requires (r.removedLwd <==> d < k) && (r.removedLwdp <==> 0 < d <= k)
    requires buf.lwdPred == (if d > 0 then buf.chains[d - 1] else tmp)
    modifies buf`first, buf`last, buf`lwdPred, buf`lwd, buf`chains, buf`pieces, buf`nodes, buf`bufs
    modifies buf.nodes`misalign, buf.nodes`off, tmp`next
    ensures buf.Rep() && buf.Designated() && buf.Tailed() && buf.chains != [] && buf.chains[0] == tmp
    ensures buf.pieces != [] && buf.pieces[0] == old(tmp.AsPiece())
    ensures |Flat(old(buf.pieces)[..k])| + left <= |old(buf.Contents())|
    ensures buf.Contents() == old(tmp.AsPiece()).data + old(buf.Contents())[|Flat(old(buf.pieces)[..k])| + left..]
    ensures buf.nodes == old(buf.nodes) + {tmp} && buf.bufs == old(buf.bufs) + {tmp.buffer}
  {
    hide EvBuffer.Rep, LastData, DataEnds, Flat, Chain.Ok, Chain.Data, Chain.AsPiece;
    ghost var ps, p := buf.pieces, tmp.AsPiece();
    ghost var q := Piece(ps[k].data[left..], ps[k].gap + left, ps[k].cap);
    LastDataPulled(ps, d, k, left, p, q);
    FlatConsume(ps, k, left, q);
    FlatConcat([p], [q] + ps[k + 1..]);
    FlatOne(p);
    assert [p] + ([q] + ps[k + 1..]) == [p, q] + ps[k + 1..];
    buf.At(k);
    buf.lwd := d - k + 1;
    DropInto(buf, r.rest, left, k);
    buf.Push(tmp);
    assert buf.pieces == [p, q] + ps[k + 1..];
    Redesignate(buf, r);
  }

  /** Puts tmp, which holds everything, in the place of all chunks. */
  method PutAlone(buf: EvBuffer, tmp: Chain, r: Pulled)
    requires buf.Rep() && tmp !in buf.nodes && tmp.buffer !in buf.bufs && tmp.Ok()
    requires r.rest == null && r.removedLwd
    modifies buf`first, buf`last, buf`lwdPred, buf`lwd, buf`chains, buf`pieces, buf`nodes, buf`bufs, tmp`next
    ensures buf.Rep() && buf.Designated() && buf.Tailed() && buf.chains == [tmp]
    ensures buf.pieces == [old(tmp.AsPiece())] && buf.Contents() == old(tmp.AsPiece()).data
    ensures buf.nodes == old(buf.nodes) + {tmp} && buf.bufs == old(buf.bufs) + {tmp.buffer}
  {
    hide EvBuffer.Rep, Flat, Chain.Ok, Chain.Data, Chain.AsPiece;
    FlatOne(tmp.AsPiece());
    buf.Ends();
    buf.DropTo(null, |buf.chains|);
    buf.Push(tmp);
    assert buf.chains == [tmp] && buf.pieces == [old(tmp.AsPiece())];
    buf.last := tmp;
    buf.lwd := 0;
    buf.lwdPred := PulledPred(buf, r);
  }

  /** Pulls size more bytes out of the list into tmp, and puts tmp at its head. */
  method PullIn(buf: EvBuffer, tmp: Chain, lastWithData: Chain, size: nat, ghost d: nat)
    requires buf.Rep() && buf.Tailed() && |buf.chains| == |buf.pieces| && DataEnds(buf.pieces, d)
    requires tmp !in buf.nodes && tmp.buffer !in buf.bufs && tmp.Ok()
    requires size <= tmp.AsPiece().cap - tmp.AsPiece().gap - |tmp.AsPiece().data| && size <= |buf.Contents()|
    requires lastWithData == buf.chains[d] && buf.lwdPred == (if d > 0 then buf.chains[d - 1] else tmp)
    modifies buf`first, buf`last, buf`lwdPred, buf`lwd, buf`chains, buf`pieces, buf`nodes, buf`bufs
    modifies buf.nodes`misalign, buf.nodes`off, tmp`next, tmp`off, tmp.buffer
    ensures buf.Rep() && buf.Designated() && buf.Tailed() && buf.chains != [] && buf.chains[0] == tmp
    ensures buf.pieces != [] && |buf.pieces[0].data| == |old(tmp.AsPiece()).data| + size
    ensures buf.Contents() == old(tmp.AsPiece()).data + old(buf.Contents())
    ensures buf.nodes == old(buf.nodes) + {tmp} && buf.bufs == old(buf.bufs) + {tmp.buffer}
  {
    hide EvBuffer.Rep, LastData, Flat, Chain.Ok, Chain.Data, Chain.AsPiece;
    ghost var all, had := buf.Contents(), tmp.AsPiece().data;
    forall i | 0 <= i < |buf.chains| ensures buf.chains[i] != tmp {
      buf.At(i);
    }
    var r, left; ghost var k;
    r, left, k := Gather(buf, tmp, lastWithData, size, d);
    assert had + all[..size] + all[size..] == had + all;
    if r.rest != null {
      PutBeforeRest(buf, tmp, r, left, k, d);
    } else {
      assert buf.pieces[..k] == buf.pieces && all[..size] == all;
      PutAlone(buf, tmp, r);
    }
  }

  /** Makes the first size bytes of the buffer contiguous, in its first chunk; null if that cannot be. */
  method Pullup(buf: EvBuffer, size: int) returns (result: Chain?)
    requires buf.Valid()
    modifies buf`first, buf`last, buf`lwdPred, buf`lwd, buf`chains, buf`pieces, buf`nodes, buf`bufs
    modifies buf.nodes, buf.bufs
    ensures buf.Valid() && buf.Contents() == old(buf.Contents())
    ensures fresh(buf.nodes - old(buf.nodes)) && fresh(buf.bufs - old(buf.bufs))
    ensures
      var n := if size < 0 then buf.totalLen else size;
      && (n == 0 || n > buf.totalLen ==> result == null)
      && (0 < n <= buf.totalLen && n <= MAX_CHAIN_DATA ==> result != null)
      && (result != null ==>
           && buf.chains != [] && result == buf.chains[0] && result.Ok() && n <= result.off
           && result.Data() <= buf.Contents())
  {
    hide EvBuffer.Rep, EvBuffer.Designated, EvBuffer.Tailed, LastData, DataEnds, Flat, Chain.Ok, Chain.Data, Chain.AsPiece;
    var n := if size < 0 then buf.totalLen else size;
    if n == 0 || n > buf.totalLen {
      return null;
    }
    HasFirst(buf);
    buf.At(0);
    FlatFront(buf.pieces);
    if buf.first.off >= n {
      result := buf.first;
    } else {
      result := PullupMore(buf, n);
      if result == null {
        return;
      }
    }
    buf.At(0);
    FlatFront(buf.pieces);
  }

  lemma HasFirst(buf: EvBuffer)
    requires buf.Core() && buf.totalLen > 0
    ensures buf.chains != [] && buf.first == buf.chains[0] && |buf.pieces| == |buf.chains|
  {
    LastDataHas(buf.pieces, buf.lwd);
  }

  /** Pulls up n bytes, more than the first chunk has. */
  method PullupMore(buf: EvBuffer, n: nat) returns (tmp: Chain?)
    requires buf.Valid() && buf.chains != [] && buf.first == buf.chains[0] && |buf.pieces| == |buf.chains|
    requires |buf.pieces[0].data| < n <= buf.totalLen
    modifies buf`first, buf`last, buf`lwdPred, buf`lwd, buf`chains, buf`pieces, buf`nodes, buf`bufs
    modifies buf.nodes, buf.bufs
    ensures buf.Valid() && buf.Contents() == old(buf.Contents())
    ensures fresh(buf.nodes - old(buf.nodes)) && fresh(buf.bufs - old(buf.bufs))
    ensures n <= MAX_CHAIN_DATA ==> tmp != null
    ensures tmp != null ==> buf.chains != [] && tmp == buf.chains[0] && |buf.pieces| == |buf.chains|
    ensures tmp != null ==> |buf.pieces[0].data| == n
  {
    hide EvBuffer.Rep, EvBuffer.Tailed, LastData, DataEnds, Flat, Chain.Ok, Chain.Data, Chain.AsPiece;
    LastDataBound(buf.pieces, buf.lwd);
    buf.At(0);
    var chain: Chain := buf.first;
    var lastWithData := buf.LastWithData();
    if chain.buffer.Length - chain.misalign >= n {
      tmp := chain;
      PullIntoFirst(buf, chain, lastWithData, n);
    } else {
      tmp := Chain.New(n);
      if tmp == null {
        return;
      }
      assert tmp.AsPiece().data == [];
      PullIntoNew(buf, tmp, lastWithData, n);
    }
  }

  /** There is room in the first chunk, which comes out of the list for a moment. */
  method PullIntoFirst(buf: EvBuffer, chain: Chain, lastWithData: Chain, n: nat)
    requires buf.Valid() && buf.lwd < |buf.chains| == |buf.pieces| && chain == buf.chains[0] && lastWithData == buf.chains[buf.lwd]
    requires |buf.pieces[0].data| < n <= buf.totalLen && chain.buffer.Length - chain.misalign >= n
    modifies buf`first, buf`last, buf`lwdPred, buf`lwd, buf`chains, buf`pieces, buf`nodes, buf`bufs
    modifies buf.nodes`next, buf.nodes`misalign, buf.nodes`off, buf.bufs
    ensures buf.Valid() && buf.Contents() == old(buf.Contents())
    ensures buf.nodes == old(buf.nodes) && buf.bufs == old(buf.bufs)
    ensures buf.chains != [] && chain == buf.chains[0] && |buf.pieces| == |buf.chains| && |buf.pieces[0].data| == n
  {
    hide EvBuffer.Rep, LastData, DataEnds, Flat, Chain.Ok, Chain.Data, Chain.AsPiece;
    ghost var ps, w := buf.pieces, buf.lwd;
    DataBehindFirst(ps, w);
    DataEndsTail(ps, w);
    FlatFront(ps);
    buf.At(0);
    buf.PopFirst(chain);
    PullIn(buf, chain, lastWithData, n - chain.off, w - 1);
  }

  method PullIntoNew(buf: EvBuffer, tmp: Chain, lastWithData: Chain, n: nat)
    requires buf.Valid() && buf.lwd < |buf.chains| == |buf.pieces| && lastWithData == buf.chains[buf.lwd]
    requires |buf.pieces[0].data| < n <= buf.totalLen
    requires tmp !in buf.nodes && tmp.buffer !in buf.bufs && tmp.Ok() && tmp.AsPiece().data == [] && tmp.AsPiece().gap == 0
    requires n <= tmp.buffer.Length
    modifies buf`first, buf`last, buf`lwdPred, buf`lwd, buf`chains, buf`pieces, buf`nodes, buf`bufs
    modifies buf.nodes`misalign, buf.nodes`off, tmp`next, tmp`off, tmp.buffer
    ensures buf.Valid() && buf.Contents() == old(buf.Contents())
    ensures buf.nodes == old(buf.nodes) + {tmp} && buf.bufs == old(buf.bufs) + {tmp.buffer}
    ensures buf.chains != [] && tmp == buf.chains[0] && |buf.pieces| == |buf.chains| && |buf.pieces[0].data| == n
  {
    hide EvBuffer.Rep, LastData, DataEnds, Flat, Chain.Ok, Chain.Data, Chain.AsPiece;
    ghost var all := buf.Contents();
    DataBehindFirst(buf.pieces, buf.lwd);
    DataEndsTail(buf.pieces, buf.lwd);
    PullIn(buf, tmp, lastWithData, n, buf.lwd);
    assert [] + all == all;
    buf.Ends();
  }

  // ----- evbuffer_expand_singlechain -----

  /** Chunk j is where the next bytes can go, and has room for n. */
  ghost predicate HasRoom(buf: EvBuffer, c: Chain, j: nat, n: nat)
    reads buf`chains, buf`pieces, buf`lwd
  {
    && j < |buf.chains| == |buf.pieces| && c == buf.chains[j] && buf.lwd <= j <= buf.lwd + 1
    && buf.pieces[j].Ok() && buf.pieces[j].Room() >= n
  }

  /** Puts a new empty chunk with room for n bytes at the end. */
  method InsertNew(buf: EvBuffer, n: nat) returns (c: Chain?, ghost j: nat)
    requires buf.Valid()
    modifies buf, buf.nodes`next
    ensures buf.Valid() && buf.Contents() == old(buf.Contents()) && buf.totalLen == old(buf.totalLen) && buf.Steady()
    ensures fresh(buf.nodes - old(buf.nodes)) && fresh(buf.bufs - old(buf.bufs))
    ensures (c == null <==> n > MAX_CHAIN_DATA) && (c != null ==> HasRoom(buf, c, j, n) && j == |buf.chains| - 1)
  {
    hide EvBuffer.Rep, LastData, Flat, Chain.Ok, Chain.Data, Chain.AsPiece;
    c := Chain.New(n);
    j := 0;
    if c == null {
      return;
    }
    assert buf.Contents() + c.Data() == buf.Contents();
    ChainInsert(buf, c);
    j := |buf.chains| - 1;
    buf.At(j);
  }

  /** Puts tmp, which holds the same bytes, in the place of the designated chunk, which has some. */
  method SwapIn(buf: EvBuffer, pred: Chain?, chain: Chain, tmp: Chain)
    requires buf.Valid() && buf.lwd < |buf.chains| == |buf.pieces| && chain == buf.chains[buf.lwd]
    requires pred == buf.lwdPred && buf.pieces[buf.lwd].data != []
    requires tmp !in buf.nodes && tmp.buffer !in buf.bufs && tmp.Ok() && tmp.AsPiece().data == buf.pieces[buf.lwd].data
    modifies buf`first, buf`last, buf`chains, buf`pieces, buf`nodes, buf`bufs, buf.nodes`next, tmp`next
    ensures buf.Valid() && buf.Contents() == old(buf.Contents())
    ensures buf.nodes == old(buf.nodes) + {tmp} && buf.bufs == old(buf.bufs) + {tmp.buffer}
    ensures buf.chains == old(buf.chains)[buf.lwd := tmp] && buf.pieces == old(buf.pieces)[buf.lwd := old(tmp.AsPiece())]
  {
    hide EvBuffer.Rep, LastData, Flat, Chain.Ok, Chain.Data, Chain.AsPiece;
    ghost var ps, w := buf.pieces, buf.lwd;
    FlatUpdate(ps, w, tmp.AsPiece());
    FlatAt(ps, w);
    LastDataUpdate(ps, w, w, tmp.AsPiece());
    buf.Distinct(w, |buf.chains| - 1);
    if buf.last == chain {
      buf.last := tmp;
    }
    buf.Replace(pred, chain, tmp, w);
  }

  /** Copies the designated chunk, which has data, into a larger one that takes its place. */
  method Resize(buf: EvBuffer, pred: Chain?, chain: Chain, n: nat) returns (tmp: Chain?)
    requires buf.Valid() && buf.lwd < |buf.chains| == |buf.pieces| && chain == buf.chains[buf.lwd]
    requires pred == buf.lwdPred && buf.pieces[buf.lwd].data != []
    modifies buf`first, buf`last, buf`chains, buf`pieces, buf`nodes, buf`bufs, buf.nodes`next
    ensures buf.Valid() && buf.Contents() == old(buf.Contents())
    ensures fresh(buf.nodes - old(buf.nodes)) && fresh(buf.bufs - old(buf.bufs))
    ensures tmp == null <==> |old(buf.pieces[buf.lwd].data)| + n > MAX_CHAIN_DATA
    ensures tmp != null ==> HasRoom(buf, tmp, buf.lwd, n)
  {
    hide EvBuffer.Rep, LastData, Flat, Chain.Ok, Chain.Data, Chain.AsPiece;
    buf.At(buf.lwd);
    tmp := chain.Copy(n);
    if tmp == null {
      return;
    }
    SwapIn(buf, pred, chain, tmp);
    buf.At(buf.lwd);
  }

  /** The first chunk from the designated one on that has room, if any, and the chunk before it. */
  method FirstWithSpace(buf: EvBuffer) returns (pred: Chain?, chain: Chain?, ghost j: nat)
    requires buf.Core()
    ensures buf.lwd <= j <= buf.lwd + 1 && j <= |buf.chains| == |buf.pieces|
    ensures chain == (if j < |buf.chains| then buf.chains[j] else null)
    ensures pred == (if j == 0 then null else buf.chains[j - 1])
    ensures j == buf.lwd + 1 ==> buf.pieces[buf.lwd].Ok() && buf.pieces[buf.lwd].Room() == 0
    ensures j == buf.lwd && chain != null ==> buf.pieces[j].Ok() && buf.pieces[j].Room() > 0
  {
    hide EvBuffer.Rep, LastData, Flat;
    buf.Ends();
    j := buf.lwd;
    LastDataBound(buf.pieces, j);
    pred := buf.lwdPred;
    chain := buf.LastWithData();
    if chain != null {
      buf.At(j);
      if chain.SpaceLen() == 0 {
        pred := chain;
        chain := chain.next;
        j := j + 1;
      }
    }
  }

  /** Where the first chunk with space is. */
  ghost function SpaceStart(ps: seq<Piece>, w: nat): nat {
    if w < |ps| && ps[w].Ok() && ps[w].Room() == 0 then w + 1 else w
  }

  /** evbuffer_expand_singlechain leaves the room of the designated chunk unused, and takes the chunk behind it. */
  ghost predicate TakesNext(ps: seq<Piece>, w: nat, datlen: nat) {
    && w + 1 < |ps| && ps[w].Ok() && ps[w + 1].Ok()
    && ps[w].data != [] && 0 < ps[w].Room() < datlen <= ps[w + 1].Room()
    && var p := ps[w];
       && !(p.cap - |p.data| >= datlen && |p.data| < p.cap / 2 && |p.data| <= MAX_TO_REALIGN)
       && (p.Room() < p.cap / 8 || |p.data| > MAX_TO_COPY_IN_EXPAND || datlen >= CHAIN_MAX - |p.data|)
  }

  /** Makes room for datlen bytes when the designated chunk has data and some room, but not that much. */
  method ExpandBeyond(buf: EvBuffer, pred: Chain?, chain: Chain, datlen: nat) returns (result: Chain?, ghost j: nat)
    requires buf.Valid() && buf.lwd < |buf.chains| == |buf.pieces| && chain == buf.chains[buf.lwd] && pred == buf.lwdPred
    requires buf.pieces[buf.lwd].Ok() && buf.pieces[buf.lwd].data != [] && 0 < buf.pieces[buf.lwd].Room() < datlen
    modifies buf, buf.nodes, buf.bufs
    ensures buf.Valid() && buf.Contents() == old(buf.Contents()) && buf.totalLen == old(buf.totalLen) && buf.Steady()
    ensures fresh(buf.nodes - old(buf.nodes)) && fresh(buf.bufs - old(buf.bufs))
    ensures datlen + MAX_TO_COPY_IN_EXPAND <= MAX_CHAIN_DATA ==> result != null
    ensures datlen > MAX_CHAIN_DATA ==> result == null
    ensures result != null ==> HasRoom(buf, result, j, datlen)
    ensures result != null && !TakesNext(old(buf.pieces), old(buf.lwd), datlen) ==> j == buf.lwd || j == |buf.chains| - 1
    ensures TakesNext(old(buf.pieces), old(buf.lwd), datlen) ==>
      result != null && buf.pieces == old(buf.pieces) && buf.lwd == old(buf.lwd) && j == buf.lwd + 1
  {
    hide EvBuffer.Rep, EvBuffer.Tailed, LastData, Flat, Chain.Data, Chain.AsPiece;
    j := buf.lwd;
    buf.At(j);
    if chain.ShouldRealign(datlen) {
      AlignTail(buf, chain);
      return chain, j;
    }
    var space := chain.SpaceLen();
    if space < chain.buffer.Length / 8 || chain.off > MAX_TO_COPY_IN_EXPAND || datlen >= CHAIN_MAX - chain.off {
      if chain.next != null {
        buf.At(j + 1);
        if chain.next.SpaceLen() >= datlen {
          return chain.next, j + 1;
        }
      }
      result, j := InsertNew(buf, datlen);
    } else {
      result := Resize(buf, pred, chain, datlen);
    }
  }

  /** Makes room for datlen bytes in one chunk, the one returned; null if the sizes are too large. */
  method ExpandSinglechain(buf: EvBuffer, datlen: nat) returns (result: Chain?, ghost j: nat)
    requires buf.Valid()
    modifies buf, buf.nodes, buf.bufs
    ensures buf.Valid() && buf.Contents() == old(buf.Contents()) && buf.totalLen == old(buf.totalLen) && buf.Steady()
    ensures fresh(buf.nodes - old(buf.nodes)) && fresh(buf.bufs - old(buf.bufs))
    ensures datlen + MAX_TO_COPY_IN_EXPAND <= MAX_CHAIN_DATA ==> result != null
    ensures datlen > MAX_CHAIN_DATA ==> result == null
    ensures result != null ==> HasRoom(buf, result, j, datlen)
    ensures result != null && !TakesNext(old(buf.pieces), old(buf.lwd), datlen) ==>
      j == SpaceStart(buf.pieces, buf.lwd) || j == |buf.chains| - 1
    ensures TakesNext(old(buf.pieces), old(buf.lwd), datlen) ==>
      result != null && buf.pieces == old(buf.pieces) && buf.lwd == old(buf.lwd) && j == buf.lwd + 1
  {
    hide EvBuffer.Rep, EvBuffer.Tailed, LastData, Flat, Chain.Data, Chain.AsPiece;
    var pred, chain;
    pred, chain, j := FirstWithSpace(buf);
    if chain == null {
      result, j := InsertNew(buf, datlen);
      return;
    }
    buf.At(j);
    if chain.SpaceLen() >= datlen {
      return chain, j;
    }
    if chain.off == 0 {
      TakesNextOnlyWithData(buf.pieces, buf.lwd, j, datlen);
      result, j := InsertNew(buf, datlen);
      return;
    }
    OnlyDesignatedHasData(buf, j);
    result, j := ExpandBeyond(buf, pred, chain, datlen);
  }

  lemma TakesNextOnlyWithData(ps: seq<Piece>, w: nat, j: nat, datlen: nat)
    requires LastData(ps, w) && w <= j <= w + 1 && j < |ps| && ps[j].data == []
    requires ps[j].Ok() && ps[j].Room() < datlen
    ensures !TakesNext(ps, w, datlen)
  {
  }

  lemma OnlyDesignatedHasData(buf: EvBuffer, j: nat)
    requires LastData(buf.pieces, buf.lwd) && buf.lwd <= j < |buf.pieces| && buf.pieces[j].data != []
    ensures j == buf.lwd
  {
  }

  // ----- evbuffer_expand_fast_ -----

  /** Where the spare room starts: behind a designated chunk that is full. */
  ghost function RoomStart(ps: seq<Piece>, w: nat): nat {
    if w < |ps| && ps[w].data != [] && ps[w].Ok() && ps[w].Room() == 0 then w + 1 else w
  }

  ghost predicate AllOk(ps: seq<Piece>) {
    forall i :: 0 <= i < |ps| ==> ps[i].Ok()
  }

  /** The at most n chunks that come first in the spare room have room for datlen bytes. */
  ghost predicate HasRooms(ps: seq<Piece>, w: nat, n: nat, datlen: nat) {
    && AllOk(ps)
    && exists m :: RoomStart(ps, w) <= m <= |ps| && m - RoomStart(ps, w) <= n && Rooms(ps[RoomStart(ps, w)..m]) >= datlen
  }

  /** Links an empty chunk behind the last one. */
  method LinkEmpty(buf: EvBuffer, tmp: Chain)
    requires buf.Valid() && buf.chains != []
    requires tmp !in buf.nodes && tmp.buffer !in buf.bufs && tmp.next == null && tmp.Ok() && tmp.off == 0
    modifies buf`first, buf`last, buf`chains, buf`pieces, buf`nodes, buf`bufs, buf.nodes`next
    ensures buf.Valid() && buf.Contents() == old(buf.Contents())
    ensures buf.pieces == old(buf.pieces) + [old(tmp.AsPiece())]
    ensures buf.nodes == old(buf.nodes) + {tmp} && buf.bufs == old(buf.bufs) + {tmp.buffer}
  {
    hide EvBuffer.Rep, LastData, Flat, Chain.Ok, Chain.Data, Chain.AsPiece;
    FlatConcat(buf.pieces, [tmp.AsPiece()]);
    FlatOne(tmp.AsPiece());
    LastDataEmptyTail(buf.pieces, buf.lwd, tmp.AsPiece());
    var pred := buf.last;
    buf.last := tmp;
    buf.Attach(pred, tmp);
  }

  /** Cuts off all chunks behind the designated one. */
  method CutBehind(buf: EvBuffer, chain: Chain)
    requires buf.Valid() && buf.lwd < |buf.chains| && chain == buf.chains[buf.lwd]
    modifies buf`first, buf`last, buf`chains, buf`pieces, buf.nodes`next
    ensures buf.Valid() && buf.Contents() == old(buf.Contents())
    ensures buf.lwd < |old(buf.pieces)| && buf.pieces == old(buf.pieces)[..buf.lwd + 1] && |buf.chains| == buf.lwd + 1
  {
    hide EvBuffer.Rep, LastData, Flat;
    buf.Ends();
    LastDataCut(buf.pieces, buf.lwd);
    BehindIsEmpty(buf.pieces, buf.lwd);
    FlatDropEmpty(buf.pieces, buf.lwd + 1);
    buf.last := chain;
    buf.CutAt(chain, buf.lwd + 1);
  }

  lemma BehindIsEmpty(ps: seq<Piece>, w: nat)
    requires LastData(ps, w)
    ensures EmptyFrom(ps, w + 1)
  {
  }

  lemma RoomsGrow(ps: seq<Piece>, a: nat, b: nat)
    requires AllOk(ps) && a <= b < |ps|
    ensures Rooms(ps[a..b + 1]) == Rooms(ps[a..b]) + ps[b].Room()
  {
    assert ps[a..b + 1][..b - a] == ps[a..b];
  }

  lemma AllPiecesOk(buf: EvBuffer)
    requires buf.Rep()
    ensures AllOk(buf.pieces)
  {
    forall i | 0 <= i < |buf.pieces| ensures buf.pieces[i].Ok() {
      buf.At(i);
    }
  }

  /** The room behind the bytes of chunk i, which is realigned if it has none. */
  method CountOne(buf: EvBuffer, chain: Chain, ghost i: nat) returns (space: nat)
    requires buf.Valid() && buf.lwd <= i < |buf.chains| == |buf.pieces| && chain == buf.chains[i]
    modifies buf`pieces, chain`misalign
    ensures buf.Valid() && buf.Contents() == old(buf.Contents()) && AllOk(buf.pieces)
    ensures |buf.pieces| == |old(buf.pieces)| && buf.pieces == old(buf.pieces)[i := buf.pieces[i]]
    ensures buf.pieces[i].data == old(buf.pieces[i]).data && space == buf.pieces[i].Room()
    ensures space == 0 ==> buf.pieces[i].data != []
    ensures buf.pieces[i].data != [] ==> i == buf.lwd && buf.pieces == old(buf.pieces)
  {
    hide EvBuffer.Rep, Flat;
    buf.At(i);
    ghost var ps := buf.pieces;
    if chain.off != 0 {
      space := chain.SpaceLen();
    } else {
      space := chain.buffer.Length;
      buf.SetGapAt(chain, 0, i);
      FlatUpdate(ps, i, buf.pieces[i]);
      FlatAt(ps, i);
    }
    AllPiecesOk(buf);
  }

  /** The chunks up to number i have been counted. */
  ghost predicate CountedTo(ps: seq<Piece>, w: nat, i: nat, used: nat, avail: nat) {
    && AllOk(ps) && w <= i <= |ps|
    && if i == w then used == avail == 0 else
         RoomStart(ps, w) <= i && used == i - RoomStart(ps, w) && avail == Rooms(ps[RoomStart(ps, w)..i])
  }

  lemma CountStep(was: seq<Piece>, ps: seq<Piece>, w: nat, i: nat, used: nat, avail: nat)
    requires CountedTo(was, w, i, used, avail) && i < |was| == |ps| && AllOk(ps)
    requires ps == was[i := ps[i]] && ps[i].data == was[i].data
    requires ps[i].data != [] ==> i == w && ps == was
    requires ps[i].Room() == 0 ==> ps[i].data != []
    ensures CountedTo(ps, w, i + 1, if ps[i].Room() > 0 then used + 1 else used, avail + ps[i].Room())
  {
    var rs := RoomStart(ps, w);
    if rs <= i {
      assert ps[rs..i] == was[rs..i];
      RoomsGrow(ps, rs, i);
    }
  }

  lemma CountedNone(ps: seq<Piece>, w: nat)
    requires AllOk(ps) && w < |ps|
    ensures CountedTo(ps, w, w, 0, 0)
  {
  }

  /** Counts chunk i. */
  method CountNext(buf: EvBuffer, chain: Chain, ghost i: nat, ghost used: nat, ghost avail: nat) returns (space: nat, next: Chain?)
    requires buf.Valid() && buf.lwd <= i < |buf.chains| && chain == buf.chains[i]
    requires CountedTo(buf.pieces, buf.lwd, i, used, avail)
    modifies buf`pieces, buf.nodes`misalign
    ensures buf.Valid() && buf.Contents() == old(buf.Contents())
    ensures CountedTo(buf.pieces, buf.lwd, i + 1, if space > 0 then used + 1 else used, avail + space)
    ensures next == (if i + 1 < |buf.chains| then buf.chains[i + 1] else null)
  {
    hide EvBuffer.Rep, EvBuffer.Tailed, LastData, Flat, CountedTo;
    buf.At(i);
    next := chain.next;
    ghost var was := buf.pieces;
    space := CountOne(buf, chain, i);
    CountStep(was, buf.pieces, buf.lwd, i, used, avail);
  }

  /** Counts the room at the end, realigning empty chunks, until it is datlen or n chunks are counted. */
  method CountRoom(buf: EvBuffer, datlen: nat, n: nat) returns (avail: nat, used: nat, ghost i: nat)
    requires buf.Valid() && buf.chains != [] && n >= 2
    modifies buf`pieces, buf.nodes`misalign
    ensures buf.Valid() && buf.Contents() == old(buf.Contents())
    ensures CountedTo(buf.pieces, buf.lwd, i, used, avail) && buf.lwd < i && used <= n
    ensures avail >= datlen || used == n || i == |buf.chains|
  {
    hide EvBuffer.Rep, EvBuffer.Tailed, LastData, Flat, CountedTo;
    buf.Ends();
    LastDataBound(buf.pieces, buf.lwd);
    AllPiecesOk(buf);
    CountedNone(buf.pieces, buf.lwd);
    var chain := buf.LastWithData();
    avail, used, i := 0, 0, buf.lwd;
    hide EvBuffer.Core, EvBuffer.Valid;
    while chain != null
      modifies buf`pieces, buf.nodes`misalign
      invariant buf.Valid() && buf.Contents() == old(buf.Contents())
      invariant buf.lwd <= i <= |buf.chains| && chain == (if i < |buf.chains| then buf.chains[i] else null)
      invariant CountedTo(buf.pieces, buf.lwd, i, used, avail) && used < n
      decreases |buf.chains| - i
    {
      var space;
      space, chain := CountNext(buf, chain, i, used, avail);
      if space > 0 {
        avail := avail + space;
        used := used + 1;
      }
      i := i + 1;
      if avail >= datlen || used == n {
        return;
      }
    }
  }

  lemma RoomsAt(ps: seq<Piece>, w: nat, m: nat, n: nat, datlen: nat)
    requires AllOk(ps) && RoomStart(ps, w) <= m <= |ps| && m - RoomStart(ps, w) <= n
    requires Rooms(ps[RoomStart(ps, w)..m]) >= datlen
    ensures HasRooms(ps, w, n, datlen)
  {
  }

  lemma RoomsInTwo(ps: seq<Piece>, w: nat, datlen: nat)
    requires AllOk(ps) && w + 1 < |ps| && ps[w].Room() + ps[w + 1].Room() >= datlen
    ensures HasRooms(ps, w, 2, datlen)
  {
    var rs := RoomStart(ps, w);
    if rs == w {
      RoomsGrow(ps, w, w);
    }
    RoomsGrow(ps, rs, w + 1);
    RoomsAt(ps, w, w + 2, 2, datlen);
  }

  lemma RoomsInOneOfTwo(ps: seq<Piece>, w: nat, j: nat, datlen: nat)
    requires AllOk(ps) && w <= j <= w + 1 && j < |ps| && ps[j].Room() >= datlen
    ensures HasRooms(ps, w, 2, datlen)
  {
    var rs := RoomStart(ps, w);
    if rs <= j {
      RoomsGrow(ps, rs, j);
      RoomsAt(ps, w, j + 1, 2, datlen);
    } else {
      RoomsAt(ps, w, rs, 2, datlen);
    }
  }

  lemma RoomsInOne(ps: seq<Piece>, datlen: nat)
    requires AllOk(ps) && |ps| == 1 && ps[0].data == [] && ps[0].Room() >= datlen
    ensures HasRooms(ps, 0, 2, datlen)
  {
    RoomsGrow(ps, 0, 0);
    RoomsAt(ps, 0, 1, 2, datlen);
  }

  lemma RoomsWithOneMore(ps: seq<Piece>, w: nat, used: nat, avail: nat, p: Piece, n: nat, datlen: nat)
    requires CountedTo(ps, w, |ps|, used, avail) && w < |ps| && used < n && p.Ok() && avail + p.Room() >= datlen
    ensures HasRooms(ps + [p], w, n, datlen)
  {
    var qs := ps + [p];
    var rs := RoomStart(ps, w);
    assert RoomStart(qs, w) == rs;
    assert qs[rs..|ps|] == ps[rs..|ps|];
    RoomsGrow(qs, rs, |ps|);
    RoomsAt(qs, w, |qs|, n, datlen);
  }

  lemma MoreChunks(ps: seq<Piece>, w: nat, n: nat, datlen: nat)
    requires HasRooms(ps, w, 2, datlen) && n >= 2
    ensures HasRooms(ps, w, n, datlen)
  {
  }

  /** Puts one empty chunk in the place of all chunks, none of which has data. */
  method NukeAll(buf: EvBuffer, datlen: nat) returns (ok: bool)
    requires buf.Valid() && buf.Contents() == []
    modifies buf, buf.nodes`next
    ensures buf.Valid() && buf.Contents() == [] && buf.totalLen == old(buf.totalLen) && buf.Steady()
    ensures fresh(buf.nodes - old(buf.nodes)) && fresh(buf.bufs - old(buf.bufs))
    ensures datlen <= MAX_CHAIN_DATA <==> ok
    ensures ok ==> HasRooms(buf.pieces, buf.lwd, 2, datlen)
  {
    hide EvBuffer.Rep, LastData, Flat, HasRooms, Chain.Ok, Chain.Data, Chain.AsPiece;
    ZeroChain(buf);
    assert Flat([]) == [] by { FlatAllEmpty([]); }
    var tmp := Chain.New(datlen);
    ok := tmp != null;
    if ok {
      LinkTail(buf, null, tmp);
      AllPiecesOk(buf);
      RoomsInOne(buf.pieces, datlen);
    }
  }

  /** Replaces all empty chunks by one, so that it and the designated chunk have room for datlen bytes. */
  method Nuke(buf: EvBuffer, datlen: nat) returns (ok: bool)
    requires buf.Valid() && buf.lwd < |buf.chains| == |buf.pieces| && buf.pieces[buf.lwd].Ok()
    requires buf.pieces[buf.lwd].data != [] ==> buf.pieces[buf.lwd].Room() < datlen
    modifies buf, buf.nodes`next
    ensures buf.Valid() && buf.Contents() == old(buf.Contents()) && buf.totalLen == old(buf.totalLen) && buf.Steady()
    ensures fresh(buf.nodes - old(buf.nodes)) && fresh(buf.bufs - old(buf.bufs))
    ensures datlen <= MAX_CHAIN_DATA ==> ok
    ensures ok ==> HasRooms(buf.pieces, buf.lwd, 2, datlen)
  {
    hide EvBuffer.Rep, LastData, Flat, HasRooms, Chain.Data, Chain.AsPiece;
    var chain := buf.LastWithData();
    buf.At(buf.lwd);
    if chain.off == 0 {
      NothingThere(buf.pieces, buf.lwd);
      ok := NukeAll(buf, datlen);
    } else {
      var avail := chain.SpaceLen();
      CutBehind(buf, chain);
      var tmp := Chain.New(datlen - avail);
      ok := tmp != null;
      if ok {
        assert tmp.AsPiece().Room() >= datlen - avail;
        LinkEmpty(buf, tmp);
        AllPiecesOk(buf);
        RoomsInTwo(buf.pieces, buf.lwd, datlen);
      }
    }
  }

  lemma NothingThere(ps: seq<Piece>, w: nat)
    requires LastData(ps, w) && w < |ps| && ps[w].data == []
    ensures Flat(ps) == []
  {
    FlatAllEmpty(ps);
  }

  /** Makes room for datlen bytes in the last n chunks; false if a size is too large. */
  method ExpandFast(buf: EvBuffer, datlen: nat, n: nat) returns (ok: bool)
    requires buf.Valid() && n >= 2
    modifies buf, buf.nodes`next, buf.nodes`misalign
    ensures buf.Valid() && buf.Contents() == old(buf.Contents()) && buf.totalLen == old(buf.totalLen) && buf.Steady()
    ensures fresh(buf.nodes - old(buf.nodes)) && fresh(buf.bufs - old(buf.bufs))
    ensures datlen <= MAX_CHAIN_DATA ==> ok
    ensures ok ==> HasRooms(buf.pieces, buf.lwd, n, datlen)
  {
    hide EvBuffer.Rep, LastData, Flat, HasRooms, CountedTo, Chain.Data, Chain.AsPiece;
    buf.Ends();
    if buf.last == null {
      var c; ghost var j;
      c, j := InsertNew(buf, datlen);
      if c != null {
        AllPiecesOk(buf);
        RoomsInOneOfTwo(buf.pieces, buf.lwd, j, datlen);
        MoreChunks(buf.pieces, buf.lwd, n, datlen);
      }
      return c != null;
    }
    var avail, used; ghost var i;
    avail, used, i := CountRoom(buf, datlen, n);
    buf.Ends();
    EnoughCounted(buf.pieces, buf.lwd, i, used, avail, n, datlen);
    if avail >= datlen {
      return true;
    }
    if used < n {
      ok := AddRoom(buf, datlen, avail, used, n);
    } else {
      ok := Nuke(buf, datlen);
      if ok {
        MoreChunks(buf.pieces, buf.lwd, n, datlen);
      }
    }
  }

  /** Adds an empty chunk with the room that the used chunks counted lack. */
  method AddRoom(buf: EvBuffer, datlen: nat, avail: nat, used: nat, n: nat) returns (ok: bool)
    requires buf.Valid() && buf.lwd < |buf.pieces| == |buf.chains| && avail < datlen && used < n
    requires CountedTo(buf.pieces, buf.lwd, |buf.pieces|, used, avail)
    modifies buf`first, buf`last, buf`chains, buf`pieces, buf`nodes, buf`bufs, buf.nodes`next
    ensures buf.Valid() && buf.Contents() == old(buf.Contents())
    ensures fresh(buf.nodes - old(buf.nodes)) && fresh(buf.bufs - old(buf.bufs))
    ensures datlen <= MAX_CHAIN_DATA ==> ok
    ensures ok ==> HasRooms(buf.pieces, buf.lwd, n, datlen)
  {
    hide EvBuffer.Rep, LastData, Flat, HasRooms, CountedTo, Chain.Data, Chain.AsPiece;
    var tmp := Chain.New(datlen - avail);
    ok := tmp != null;
    if ok {
      RoomsWithOneMore(buf.pieces, buf.lwd, used, avail, tmp.AsPiece(), n, datlen);
      LinkEmpty(buf, tmp);
    }
  }

  /** What the counting of evbuffer_expand_fast_ has found out when it stops. */
  lemma EnoughCounted(ps: seq<Piece>, w: nat, i: nat, used: nat, avail: nat, n: nat, datlen: nat)
    requires CountedTo(ps, w, i, used, avail) && w < i && used <= n
    ensures w < |ps| && ps[w].Ok() && (avail >= datlen ==> HasRooms(ps, w, n, datlen))
    ensures used > 0 && ps[w].data != [] ==> ps[w].Room() <= avail
  {
    var rs := RoomStart(ps, w);
    if avail >= datlen {
      RoomsAt(ps, w, i, n, datlen);
    }
    if rs == w {
      FirstRoom(ps, w, i);
    }
  }

  lemma {:induction false} FirstRoom(ps: seq<Piece>, a: nat, b: nat)
    requires AllOk(ps) && a < b <= |ps|
    ensures ps[a].Room() <= Rooms(ps[a..b])
  {
    RoomsGrow(ps, a, b - 1);
    if a < b - 1 {
      FirstRoom(ps, a, b - 1);
    }
  }
}
