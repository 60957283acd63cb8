/** The evbuffer: a byte queue held as a linked list of partly filled chunks. */
module EvBuffers {
  import opened Machine
  import opened Pieces
  import opened Chains

  const MAX_AUTO_SIZE: nat := 4096
  const MAX_TO_COPY_IN_EXPAND: nat := 4096

  datatype CallbackInfo = CallbackInfo(origSize: nat, nAdded: nat, nDeleted: nat)

  datatype Flags = Flags(freezeStart: bool, freezeEnd: bool, hasCallbacks: bool, deferredCbs: bool) {
    /** Deferred callbacks keep the counts until they run. */
    predicate Keep() {
      hasCallbacks && deferredCbs
    }
  }

  /** Bytes added and deleted since the callbacks were last told. */
  datatype Counts = Counts(added: nat, deleted: nat) {
    function Plus(n: nat): Counts {
      Counts(added + n, deleted)
    }

    function Minus(n: nat): Counts {
      Counts(added, deleted + n)
    }

    /** What is left of the counts once the callbacks were offered them. */
    function Offered(flags: Flags): Counts {
      if flags.Keep() then this else Counts(0, 0)
    }
  }

  /** A place in an evbuffer: its number, and the chunk it is in; no chunk at the end, or when not found. */
  datatype Ptr = Ptr(pos: int, chain: Chain?, posInChain: nat)

  const NOT_FOUND := Ptr(-1, null, 0)

  /** The chunks cs are distinct, and their memory is within ns and bs. */
  ghost predicate Own(cs: seq<Chain>, ns: set<Chain>, bs: set<array<byte>>) {
    && (forall i :: 0 <= i < |cs| ==> cs[i] in ns && cs[i].buffer in bs)
    && (forall i, j :: 0 <= i < j < |cs| ==> cs[i] != cs[j] && cs[i].buffer != cs[j].buffer)
  }

  /** The chunks cs are linked in that order, and end there. */
  ghost predicate Link(cs: seq<Chain>, ns: set<Chain>, bs: set<array<byte>>)
    requires Own(cs, ns, bs)
    reads ns`next
  {
    && (forall i {:trigger cs[i].next} :: 0 <= i < |cs| - 1 ==> cs[i].next == cs[i + 1])
    && (cs != [] ==> cs[|cs| - 1].next == null)
  }

  /** The chunks cs hold the pieces ps. */
  ghost predicate Hold(cs: seq<Chain>, ps: seq<Piece>, ns: set<Chain>, bs: set<array<byte>>)
    requires Own(cs, ns, bs)
    reads ns`misalign, ns`off, bs
  {
    && |ps| == |cs|
    && forall i :: 0 <= i < |cs| ==> cs[i].Ok() && ps[i] == cs[i].AsPiece()
  }

  class EvBuffer {
    var first: Chain?
    var last: Chain?
    /** The chunk whose next field holds the last chunk with data; null stands for the field first. */
    var lwdPred: Chain?
    var totalLen: nat
    var counts: Counts
    var flags: Flags

    ghost var chains: seq<Chain>       // the chunks, in list order
    ghost var pieces: seq<Piece>       // what each of them holds
    ghost var lwd: nat                 // index of the designated chunk
    ghost var seenLen: nat             // length when the counts were last cleared
    ghost var nodes: set<Chain>
    ghost var bufs: set<array<byte>>

    ghost predicate Owned()
      reads this`chains, this`nodes, this`bufs
    {
      && (forall i :: 0 <= i < |chains| ==> chains[i] in nodes && chains[i].buffer in bufs)
      && (forall i, j :: 0 <= i < j < |chains| ==> chains[i] != chains[j] && chains[i].buffer != chains[j].buffer)
    }

    ghost predicate Linked()
      requires Owned()
      reads this`chains, this`nodes, this`bufs, this`first, nodes`next
    {
      && first == (if chains == [] then null else chains[0])
      && (forall i {:trigger chains[i].next} :: 0 <= i < |chains| - 1 ==> chains[i].next == chains[i + 1])
      && (chains != [] ==> chains[|chains| - 1].next == null)
    }

    ghost predicate Filled()
      requires Owned()
      reads this`chains, this`nodes, this`bufs, this`pieces, nodes`misalign, nodes`off, bufs
    {
      && |pieces| == |chains|
      && forall i :: 0 <= i < |chains| ==> chains[i].Ok() && pieces[i] == chains[i].AsPiece()
    }

    /** The list in memory is the list of chunks `chains`, and holds `pieces`. */
    ghost predicate Rep()
      reads this`chains, this`nodes, this`bufs, this`first, this`pieces, nodes, bufs
    {
      Owned() && Linked() && Filled()
    }

    ghost predicate Designated()
      reads this`chains, this`pieces, this`lwd, this`lwdPred
    {
      && |pieces| == |chains| && LastData(pieces, lwd)
      && lwdPred == (if lwd == 0 then null else chains[lwd - 1])
    }

    ghost predicate Sized()
      reads this`pieces, this`totalLen
    {
      totalLen == |Flat(pieces)| <= SIZE_MAX
    }

    /** The counts explain how the length moved since they were last cleared. */
    ghost predicate Balanced()
      reads this`totalLen, this`seenLen, this`counts
    {
      seenLen + counts.added == totalLen + counts.deleted
    }

    ghost predicate Tailed()
      reads this`chains, this`last
    {
      last == (if chains == [] then null else chains[|chains| - 1])
    }

    ghost predicate Core()
      reads this, nodes, bufs
    {
      Rep() && Designated() && Sized()
    }

    ghost predicate Valid()
      reads this, nodes, bufs
    {
      Core() && Tailed() && Balanced()
    }

    ghost function Contents(): seq<byte>
      reads this`pieces
    {
      Flat(pieces)
    }

    /** p is in chunk i. */
    ghost predicate PtrAt(p: Ptr, i: nat)
      reads this`chains, this`pieces
    {
      && i < |chains| == |pieces| && p.chain == chains[i]
      && p.posInChain <= |pieces[i].data|
      && p.pos == |Flat(pieces[..i])| + p.posInChain
    }

    ghost predicate PtrOk(p: Ptr)
      reads this`chains, this`pieces, this`totalLen
    {
      if p.chain == null then p.pos == totalLen else exists i: nat :: PtrAt(p, i)
    }

    /** Neither the flags nor the counts have moved. */
    twostate predicate Steady()
      reads this
    {
      flags == old(flags) && counts == old(counts) && seenLen == old(seenLen)
    }

    constructor ()
      ensures Valid() && Contents() == [] && chains == [] && nodes == {} && bufs == {} && totalLen == 0
      ensures flags == Flags(false, false, false, false) && counts == Counts(0, 0)
    {
      first, last, lwdPred, totalLen := null, null, null, 0;
      counts, flags := Counts(0, 0), Flags(false, false, false, false);
      chains, pieces, lwd, seenLen, nodes, bufs := [], [], 0, 0, {}, {};
    }

    // ----- callbacks -----

    /** Offers the counts to the callbacks, and clears them unless deferred callbacks still wait for them. */
    method RunCallbacks(runningDeferred: bool) returns (info: Option<CallbackInfo>)
      requires Balanced()
      modifies this`counts, this`seenLen
      ensures Balanced()
      ensures counts == if !runningDeferred && flags.hasCallbacks && flags.deferredCbs then old(counts) else Counts(0, 0)
      ensures info.Some? <==> flags.hasCallbacks && old(counts) != Counts(0, 0)
      ensures info.Some? ==>
        && info.value == CallbackInfo(old(seenLen), old(counts.added), old(counts.deleted))
        && info.value.origSize + info.value.nAdded == totalLen + info.value.nDeleted
    {
      if !flags.hasCallbacks {
        counts, seenLen := Counts(0, 0), totalLen;
        return None;
      }
      if counts.added == 0 && counts.deleted == 0 {
        return None;
      }
      info := Some(CallbackInfo(totalLen + counts.deleted - counts.added, counts.added, counts.deleted));
      if runningDeferred || !flags.deferredCbs {
        counts, seenLen := Counts(0, 0), totalLen;
      }
    }

    method InvokeCallbacks()
      requires Balanced()
      modifies this`counts, this`seenLen
      ensures Balanced() && counts == old(counts.Offered(flags))
      ensures counts == if flags.hasCallbacks && flags.deferredCbs then old(counts) else Counts(0, 0)
    {
      if !flags.hasCallbacks {
        counts, seenLen := Counts(0, 0), totalLen;
        return;
      }
      var _ := RunCallbacks(false);
    }

    // ----- the list of chunks -----

    /** What the representation says of one chunk. */
    lemma At(i: nat)
      requires Rep() && i < |chains|
      ensures |pieces| == |chains| && chains[i] in nodes && chains[i].buffer in bufs
      ensures chains[i].Ok() && pieces[i] == chains[i].AsPiece()
      ensures pieces[i].Ok() && |pieces[i].data| == chains[i].off && pieces[i].gap == chains[i].misalign
      ensures pieces[i].cap == chains[i].buffer.Length && 0 < pieces[i].cap <= MAX_CHAIN_DATA
      ensures chains[i].next == (if i + 1 < |chains| then chains[i + 1] else null)
    {
    }

    lemma Ends()
      requires Rep()
      ensures |pieces| == |chains|
      ensures first == (if chains == [] then null else chains[0])
    {
    }

    lemma Distinct(i: nat, j: nat)
      requires Rep() && i < |chains| && j < |chains|
      ensures chains[i] == chains[j] ==> i == j
    {
    }

    /** *last_with_datap */
    method LastWithData() returns (c: Chain?)
      requires Rep() && Designated()
      ensures c == (if chains == [] then null else chains[lwd])
    {
      c := if lwdPred == null then first else lwdPred.next;
    }

    method LinkCut(pred: Chain?, ghost k: nat)
      requires Owned() && Linked() && k <= |chains|
      requires pred == (if k == 0 then null else chains[k - 1])
      modifies this`first, this`chains, nodes`next
      ensures Owned() && Linked() && chains == old(chains)[..k]
    {
      chains := chains[..k];
      if pred == null {
        first := null;
      } else {
        pred.next := null;
      }
    }

    /** Cuts the list behind its first k chunks; pred is the chunk before the cut. */
    method CutAt(pred: Chain?, ghost k: nat)
      requires Rep() && k <= |chains|
      requires pred == (if k == 0 then null else chains[k - 1])
      modifies this`first, this`chains, this`pieces, nodes`next
      ensures Rep() && chains == old(chains)[..k] && pieces == old(pieces)[..k]
    {
      hide Linked, Link, Chain.AsPiece, Chain.Ok, Chain.Data;
      LinkCut(pred, k);
      pieces := pieces[..k];
    }

    method LinkAttach(pred: Chain?, c: Chain)
      requires Owned() && Linked()
      requires pred == (if chains == [] then null else chains[|chains| - 1])
      requires c !in nodes && c.buffer !in bufs && c.next == null
      modifies this`first, this`chains, this`nodes, this`bufs, nodes`next
      ensures Owned() && Linked() && chains == old(chains) + [c]
      ensures nodes == old(nodes) + {c} && bufs == old(bufs) + {c.buffer}
    {
      if pred == null {
        first := c;
      } else {
        pred.next := c;
      }
      chains, nodes, bufs := chains + [c], nodes + {c}, bufs + {c.buffer};
    }

    /** Links the chunk c behind pred, the end of the list. */
    method Attach(pred: Chain?, c: Chain)
      requires Rep()
      requires pred == (if chains == [] then null else chains[|chains| - 1])
      requires c !in nodes && c.buffer !in bufs && c.next == null && c.Ok()
      modifies this`first, this`chains, this`pieces, this`nodes, this`bufs, nodes`next
      ensures Rep() && chains == old(chains) + [c] && pieces == old(pieces) + [old(c.AsPiece())]
      ensures nodes == old(nodes) + {c} && bufs == old(bufs) + {c.buffer}
      ensures c.Ok() && c.AsPiece() == old(c.AsPiece())
    {
      hide Linked, Link, Chain.AsPiece, Chain.Ok, Chain.Data;
      LinkAttach(pred, c);
      pieces := pieces + [c.AsPiece()];
    }

    method LinkPush(c: Chain)
      requires Owned() && Linked()
      requires c !in nodes && c.buffer !in bufs
      modifies this`first, this`chains, this`nodes, this`bufs, c`next
      ensures Owned() && Linked() && chains == [c] + old(chains)
      ensures nodes == old(nodes) + {c} && bufs == old(bufs) + {c.buffer}
    {
      c.next := first;
      first := c;
      chains, nodes, bufs := [c] + chains, nodes + {c}, bufs + {c.buffer};
    }

    /** Makes c the first chunk, ahead of all others. */
    method Push(c: Chain)
      requires Rep()
      requires c !in nodes && c.buffer !in bufs && c.Ok()
      modifies this`first, this`chains, this`pieces, this`nodes, this`bufs, c`next
      ensures Rep() && chains == [c] + old(chains) && pieces == [old(c.AsPiece())] + old(pieces)
      ensures nodes == old(nodes) + {c} && bufs == old(bufs) + {c.buffer}
    {
      hide Linked, Link, Chain.AsPiece, Chain.Ok, Chain.Data;
      LinkPush(c);
      pieces := [c.AsPiece()] + pieces;
    }

    method LinkDrop(rest: Chain?, ghost k: nat)
      requires Owned() && Linked() && k <= |chains|
      requires rest == (if k == |chains| then null else chains[k])
      modifies this`first, this`chains
      ensures Owned() && Linked() && chains == old(chains)[k..]
    {
      first := rest;
      chains := chains[k..];
    }

    /** Forgets the first k chunks; rest is the chunk behind them. */
    method DropTo(rest: Chain?, ghost k: nat)
      requires Rep() && k <= |chains|
      requires rest == (if k == |chains| then null else chains[k])
      modifies this`first, this`chains, this`pieces
      ensures Rep() && chains == old(chains)[k..] && pieces == old(pieces)[k..]
    {
      hide Linked, Link, Chain.AsPiece, Chain.Ok, Chain.Data;
      LinkDrop(rest, k);
      pieces := pieces[k..];
    }

    /** Takes the first chunk c out of the list, and its memory out of the buffer's. */
    method PopFirst(c: Chain)
      requires Rep() && chains != [] && c == chains[0]
      modifies this`first, this`chains, this`pieces, this`nodes, this`bufs
      ensures Rep() && chains == old(chains)[1..] && pieces == old(pieces)[1..]
      ensures nodes == old(nodes) - {c} && bufs == old(bufs) - {c.buffer}
    {
      first := c.next;
      chains, pieces := chains[1..], pieces[1..];
      nodes, bufs := nodes - {c}, bufs - {c.buffer};
    }

    method LinkReplace(pred: Chain?, chain: Chain, tmp: Chain, ghost i: nat)
      requires Owned() && Linked() && i < |chains| && chain == chains[i]
      requires pred == (if i == 0 then null else chains[i - 1])
      requires tmp !in nodes && tmp.buffer !in bufs
      modifies this`first, this`chains, this`nodes, this`bufs, nodes`next, tmp`next
      ensures Owned() && Linked() && chains == old(chains)[i := tmp]
      ensures nodes == old(nodes) + {tmp} && bufs == old(bufs) + {tmp.buffer}
    {
      if pred == null {
        first := tmp;
      } else {
        pred.next := tmp;
      }
      tmp.next := chain.next;
      chains, nodes, bufs := chains[i := tmp], nodes + {tmp}, bufs + {tmp.buffer};
    }

    /** Puts tmp in the place of chunk i, whose predecessor is pred. */
    method Replace(pred: Chain?, chain: Chain, tmp: Chain, ghost i: nat)
      requires Rep() && i < |chains| && chain == chains[i]
      requires pred == (if i == 0 then null else chains[i - 1])
      requires tmp !in nodes && tmp.buffer !in bufs && tmp.Ok()
      modifies this`first, this`chains, this`pieces, this`nodes, this`bufs, nodes`next, tmp`next
      ensures Rep() && chains == old(chains)[i := tmp] && pieces == old(pieces)[i := old(tmp.AsPiece())]
      ensures nodes == old(nodes) + {tmp} && bufs == old(bufs) + {tmp.buffer}
    {
      hide Linked, Link, Chain.AsPiece, Chain.Ok, Chain.Data;
      LinkReplace(pred, chain, tmp, i);
      pieces := pieces[i := tmp.AsPiece()];
    }

    method LinkRun(pred: Chain?, head: Chain?, ghost cs: seq<Chain>, ghost ns: set<Chain>, ghost bs: set<array<byte>>)
      requires Owned() && Linked() && Own(cs, ns, bs) && Link(cs, ns, bs) && nodes !! ns && bufs !! bs
      requires head == (if cs == [] then null else cs[0])
      requires pred == (if chains == [] then null else chains[|chains| - 1])
      modifies this`first, this`chains, this`nodes, this`bufs, nodes`next
      ensures Owned() && Linked() && chains == old(chains) + cs
      ensures nodes == old(nodes) + ns && bufs == old(bufs) + bs
    {
      if pred == null {
        first := head;
      } else {
        pred.next := head;
      }
      chains, nodes, bufs := chains + cs, nodes + ns, bufs + bs;
    }

    lemma AsRun()
      requires Rep()
      ensures Own(chains, nodes, bufs) && Link(chains, nodes, bufs) && Hold(chains, pieces, nodes, bufs)
      ensures first == (if chains == [] then null else chains[0])
    {
    }

    lemma FilledByRun()
      requires Owned() && Own(chains, nodes, bufs) && Hold(chains, pieces, nodes, bufs)
      ensures Filled()
    {
    }

    static lemma HoldConcat(cs: seq<Chain>, ps: seq<Piece>, ns: set<Chain>, bs: set<array<byte>>,
                            cs': seq<Chain>, ps': seq<Piece>, ns': set<Chain>, bs': set<array<byte>>)
      requires Own(cs, ns, bs) && Hold(cs, ps, ns, bs) && Own(cs', ns', bs') && Hold(cs', ps', ns', bs')
      requires ns !! ns' && bs !! bs'
      ensures Own(cs + cs', ns + ns', bs + bs') && Hold(cs + cs', ps + ps', ns + ns', bs + bs')
    {
    }

    /** Links the list of chunks cs, which starts with head, behind pred, the end of this one. */
    method SpliceRun(pred: Chain?, head: Chain?, ghost cs: seq<Chain>, ghost ps: seq<Piece>,
                     ghost ns: set<Chain>, ghost bs: set<array<byte>>)
      requires Rep() && Own(cs, ns, bs) && Link(cs, ns, bs) && Hold(cs, ps, ns, bs) && nodes !! ns && bufs !! bs
      requires head == (if cs == [] then null else cs[0])
      requires pred == (if chains == [] then null else chains[|chains| - 1])
      modifies this`first, this`chains, this`pieces, this`nodes, this`bufs, nodes`next
      ensures Rep() && chains == old(chains) + cs && pieces == old(pieces) + ps
      ensures nodes == old(nodes) + ns && bufs == old(bufs) + bs
    {
      hide Owned, Linked, Filled, Own, Link, Hold, Chain.AsPiece, Chain.Ok, Chain.Data;
      AsRun();
      HoldConcat(chains, pieces, nodes, bufs, cs, ps, ns, bs);
      LinkRun(pred, head, cs, ns, bs);
      pieces := pieces + ps;
      FilledByRun();
    }

    /** Links the chunks of src behind pred, the end of the list. */
    method Splice(pred: Chain?, src: EvBuffer)
      requires this != src && Rep() && src.Rep() && nodes !! src.nodes && bufs !! src.bufs
      requires pred == (if chains == [] then null else chains[|chains| - 1])
      modifies this`first, this`chains, this`pieces, this`nodes, this`bufs, nodes`next
      ensures Rep() && chains == old(chains) + src.chains && pieces == old(pieces) + src.pieces
      ensures nodes == old(nodes) + src.nodes && bufs == old(bufs) + src.bufs
    {
      hide Rep, Own, Link, Hold;
      src.AsRun();
      SpliceRun(pred, src.first, src.chains, src.pieces, src.nodes, src.bufs);
    }

    method LinkSplit(previous: Chain, rest: Chain, ghost k: nat, ghost ns: set<Chain>, ghost bs: set<array<byte>>)
      requires Owned() && Linked() && 0 < k < |chains| && previous == chains[k - 1] && rest == chains[k]
      requires ns == (set c | c in chains[..k]) && bs == (set c | c in chains[..k] :: c.buffer)
      modifies this`first, this`chains, this`nodes, this`bufs, nodes`next
      ensures Owned() && Linked() && chains == old(chains)[k..]
      ensures nodes == old(nodes) - ns && bufs == old(bufs) - bs
      ensures Own(old(chains)[..k], ns, bs) && Link(old(chains)[..k], ns, bs)
    {
      previous.next := null;
      first := rest;
      chains, nodes, bufs := chains[k..], nodes - ns, bufs - bs;
    }

    static lemma HoldSplit(cs: seq<Chain>, ps: seq<Piece>, ns: set<Chain>, bs: set<array<byte>>, k: nat,
                           ns': set<Chain>, bs': set<array<byte>>)
      requires Own(cs, ns, bs) && Hold(cs, ps, ns, bs) && k <= |cs|
      requires ns' == (set c | c in cs[..k]) && bs' == (set c | c in cs[..k] :: c.buffer)
      ensures ns' <= ns && bs' <= bs
      ensures Own(cs[..k], ns', bs') && Hold(cs[..k], ps[..k], ns', bs')
      ensures Own(cs[k..], ns - ns', bs - bs') && Hold(cs[k..], ps[k..], ns - ns', bs - bs')
    {
    }

    /** Makes the first k chunks, up to previous, a list of their own. */
    method Split(previous: Chain, rest: Chain, ghost k: nat) returns (ghost ns: set<Chain>, ghost bs: set<array<byte>>)
      requires Rep() && 0 < k < |chains| && previous == chains[k - 1] && rest == chains[k]
      modifies this`first, this`chains, this`pieces, this`nodes, this`bufs, nodes`next
      ensures Rep() && chains == old(chains)[k..] && pieces == old(pieces)[k..]
      ensures ns <= old(nodes) && bs <= old(bufs) && nodes == old(nodes) - ns && bufs == old(bufs) - bs
      ensures var cs := old(chains)[..k];
        Own(cs, ns, bs) && Link(cs, ns, bs) && Hold(cs, old(pieces)[..k], ns, bs)
    {
      hide Owned, Linked, Filled, Own, Link, Hold, Chain.AsPiece, Chain.Ok, Chain.Data;
      ns, bs := (set c | c in chains[..k]), (set c | c in chains[..k] :: c.buffer);
      AsRun();
      HoldSplit(chains, pieces, nodes, bufs, k, ns, bs);
      LinkSplit(previous, rest, k, ns, bs);
      pieces := pieces[k..];
      FilledByRun();
    }

    method LinkSpliceFront(src: EvBuffer)
      requires this != src && Owned() && Linked() && src.Owned() && src.Linked() && src.Tailed()
      requires nodes !! src.nodes && bufs !! src.bufs && src.chains != []
      modifies this`first, this`chains, this`nodes, this`bufs, src.nodes`next
      ensures Owned() && Linked() && chains == src.chains + old(chains)
      ensures nodes == old(nodes) + src.nodes && bufs == old(bufs) + src.bufs
    {
      src.last.next := first;
      first := src.first;
      chains, nodes, bufs := src.chains + chains, nodes + src.nodes, bufs + src.bufs;
    }

    /** Links the chunks of src ahead of the list. */
    method SpliceFront(src: EvBuffer)
      requires this != src && Rep() && src.Rep() && src.Tailed() && nodes !! src.nodes && bufs !! src.bufs
      requires src.chains != []
      modifies this`first, this`chains, this`pieces, this`nodes, this`bufs, src.nodes`next
      ensures Rep() && chains == src.chains + old(chains) && pieces == src.pieces + old(pieces)
      ensures nodes == old(nodes) + src.nodes && bufs == old(bufs) + src.bufs
    {
      hide Linked, Link, Chain.AsPiece, Chain.Ok, Chain.Data;
      LinkSpliceFront(src);
      pieces := src.pieces + pieces;
    }

    // ----- one chunk -----

    method AppendAt(c: Chain, data: seq<byte>, ghost i: nat)
      requires Rep() && i < |chains| && c == chains[i]
      requires |data| <= pieces[i].cap - pieces[i].gap - |pieces[i].data|
      modifies this`pieces, c`off, c.buffer
      ensures Rep() && pieces == old(pieces)[i := old(pieces[i]).(data := old(pieces[i]).data + data)]
    {
      hide Linked, Link, Chain.Ok, Chain.AsPiece, Chain.Data;
      c.Append(data);
      pieces := pieces[i := c.AsPiece()];
    }

    method CommitAt(c: Chain, n: nat, ghost i: nat)
      requires Rep() && i < |chains| && c == chains[i] && pieces[i].Ok() && n <= pieces[i].Room()
      modifies this`pieces, c`off
      ensures Rep() && old(pieces)[i].Ok() && pieces[i].cap == c.buffer.Length == old(pieces)[i].cap
      ensures pieces == old(pieces)[i := old(pieces[i]).(data := old(pieces[i]).data + c.Spare(old(pieces[i]), n))]
    {
      hide Linked, Link, Chain.Ok, Chain.AsPiece, Chain.Data;
      c.CommitSpare(n);
      pieces := pieces[i := c.AsPiece()];
    }

    method FillFrontAt(c: Chain, data: seq<byte>, ghost i: nat)
      requires Rep() && i < |chains| && c == chains[i] && |data| <= pieces[i].gap
      modifies this`pieces, c`off, c`misalign, c.buffer
      ensures Rep()
      ensures pieces == old(pieces)[i := Piece(data + old(pieces[i]).data, old(pieces[i]).gap - |data|, old(pieces[i]).cap)]
    {
      hide Linked, Link, Chain.Ok, Chain.AsPiece, Chain.Data;
      c.FillFront(data);
      pieces := pieces[i := c.AsPiece()];
    }

    method AlignAt(c: Chain, ghost i: nat)
      requires Rep() && i < |chains| && c == chains[i]
      modifies this`pieces, c`misalign, c.buffer
      ensures Rep() && pieces == old(pieces)[i := old(pieces[i]).(gap := 0)]
    {
      hide Linked, Link, Chain.Ok, Chain.AsPiece, Chain.Data;
      c.Align();
      pieces := pieces[i := c.AsPiece()];
    }

    method ConsumeAt(c: Chain, n: nat, ghost i: nat)
      requires Rep() && i < |chains| && c == chains[i] && n <= |pieces[i].data|
      modifies this`pieces, c`off, c`misalign
      ensures Rep()
      ensures pieces == old(pieces)[i := old(pieces[i]).Less(n)]
    {
      hide Linked, Link, Chain.Ok, Chain.AsPiece, Chain.Data, Piece.Less;
      c.Consume(n);
      pieces := pieces[i := c.AsPiece()];
    }

    method SetGapAt(c: Chain, gap: nat, ghost i: nat)
      requires Rep() && i < |chains| && c == chains[i] && pieces[i].data == [] && gap <= pieces[i].cap
      modifies this`pieces, c`misalign
      ensures Rep() && pieces == old(pieces)[i := Piece([], gap, old(pieces[i]).cap)]
    {
      hide Linked, Link, Chain.Ok, Chain.AsPiece, Chain.Data;
      c.SetGap(gap);
      pieces := pieces[i := c.AsPiece()];
    }
  }
}
