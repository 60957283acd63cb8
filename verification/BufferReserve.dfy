/** Reserving room at the end of an evbuffer, and committing what was written there. */
module BufferReserve {
  import opened Machine
  import opened Pieces
  import opened Chains
  import opened EvBuffers
  import opened BufferEnds
  import opened BufferMoves
  import opened BufferSpace

  /** Some spare memory: len bytes of the chunk's allocation from position at on. */
  datatype IoVec = IoVec(chain: Chain, at: nat, len: nat)

  /** The vectors lie in consecutive chunks, from number j on, at the start of the spare room of each. */
  ghost predicate FitsFrom(buf: EvBuffer, vec: seq<IoVec>, j: nat)
    reads buf`chains, buf`pieces
  {
    && j + |vec| <= |buf.chains| == |buf.pieces|
    && forall i {:trigger vec[i]} :: 0 <= i < |vec| ==>
         var p := buf.pieces[j + i];
         p.Ok() && vec[i].chain == buf.chains[j + i] && vec[i].at == p.gap + |p.data| && vec[i].len <= p.Room()
  }

  /** What evbuffer_commit_space accepts. */
  ghost predicate Fits(buf: EvBuffer, vec: seq<IoVec>)
    reads buf`chains, buf`pieces, buf`lwd
  {
    || FitsFrom(buf, vec, SpaceStart(buf.pieces, buf.lwd))
    || (|vec| == 1 && buf.chains != [] && FitsFrom(buf, vec, |buf.chains| - 1))
  }

  /** The bytes that stand in the vectors. */
  ghost function Written(vec: seq<IoVec>): seq<byte>
    requires forall v :: v in vec ==> v.at + v.len <= v.chain.buffer.Length
    reads set v | v in vec :: v.chain.buffer
  {
    if vec == [] then []
    else Written(vec[..|vec| - 1]) + vec[|vec| - 1].chain.buffer[vec[|vec| - 1].at..vec[|vec| - 1].at + vec[|vec| - 1].len]
  }

  // ----- evbuffer_commit_space -----

  /** Commits one vector, in chunk j, behind which there are no bytes; pred is the chunk before it. */
  method CommitOne(buf: EvBuffer, pred: Chain?, v: IoVec, ghost j: nat)
    requires buf.Core() && buf.lwd <= j < |buf.chains| == |buf.pieces| && EmptyFrom(buf.pieces, j + 1)
    requires FitsFrom(buf, [v], j) && buf.totalLen + v.len <= SIZE_MAX
    requires pred == (if j == 0 then null else buf.chains[j - 1])
    modifies buf`pieces, buf`totalLen, buf`lwd, buf`lwdPred, v.chain`off
    ensures buf.Core() && buf.lwd <= j && EmptyFrom(buf.pieces, j + 1)
    ensures v.at + v.len <= v.chain.buffer.Length
    ensures buf.Contents() == old(buf.Contents()) + v.chain.buffer[v.at..v.at + v.len]
    ensures buf.totalLen == old(buf.totalLen) + v.len
    ensures |buf.pieces| == |old(buf.pieces)| && forall i :: j < i < |buf.pieces| ==> buf.pieces[i] == old(buf.pieces)[i]
  {
    hide EvBuffer.Rep, Flat;
    assert [v][0] == v;
    ghost var ps := buf.pieces;
    buf.At(j);
    buf.CommitAt(v.chain, v.len, j);
    FlatGrow(ps, j, buf.pieces[j], v.chain.Spare(ps[j], v.len));
    buf.totalLen := buf.totalLen + v.len;
    if v.len != 0 {
      buf.lwdPred := pred;
      buf.lwd := j;
    }
  }

  ghost function Total(vec: seq<IoVec>): nat {
    if vec == [] then 0 else Total(vec[..|vec| - 1]) + vec[|vec| - 1].len
  }

  /** Pass 1: are all vectors where the spare room is, and in bounds? */
  method CheckVectors(buf: EvBuffer, first: Chain?, vec: seq<IoVec>, ghost j: nat) returns (ok: bool)
    requires buf.Core() && j <= |buf.chains| && first == (if j < |buf.chains| then buf.chains[j] else null)
    ensures ok <==> FitsFrom(buf, vec, j)
  {
    hide EvBuffer.Rep, Flat;
    buf.Ends();
    var chain := first;
    var i := 0;
    while i < |vec|
      invariant i <= |vec| && j + i <= |buf.chains|
      invariant chain == (if j + i < |buf.chains| then buf.chains[j + i] else null)
      invariant FitsFrom(buf, vec[..i], j)
    {
      assert vec[..i + 1] == vec[..i] + [vec[i]];
      if chain == null {
        return false;
      }
      buf.At(j + i);
      if vec[i].chain != chain || vec[i].at != chain.misalign + chain.off || vec[i].len > chain.SpaceLen() {
        return false;
      }
      chain := chain.next;
      i := i + 1;
    }
    assert vec[..i] == vec;
    return true;
  }

  lemma InBounds(buf: EvBuffer, vec: seq<IoVec>, j: nat)
    requires buf.Rep() && FitsFrom(buf, vec, j)
    ensures forall v :: v in vec ==> v.chain in buf.nodes && v.chain.buffer in buf.bufs && v.at + v.len <= v.chain.buffer.Length
  {
    hide EvBuffer.Rep;
    forall i | 0 <= i < |vec|
      ensures vec[i].chain in buf.nodes && vec[i].chain.buffer in buf.bufs
      ensures vec[i].at + vec[i].len <= vec[i].chain.buffer.Length
    {
      buf.At(j + i);
    }
  }

  lemma {:induction false} TotalPrefix(vec: seq<IoVec>, i: nat)
    requires i <= |vec|
    ensures Total(vec[..i]) <= Total(vec)
  {
    if i < |vec| {
      TotalPrefix(vec[..|vec| - 1], i);
      assert vec[..|vec| - 1][..i] == vec[..i];
    } else {
      assert vec[..i] == vec;
    }
  }

  /** One more vector: its length. */
  lemma UnrollTotal(vec: seq<IoVec>, i: nat)
    requires i < |vec|
    ensures Total(vec[..i + 1]) == Total(vec[..i]) + vec[i].len <= Total(vec)
  {
    hide Total;
    var us := vec[..i + 1];
    assert us[..i] == vec[..i] && us[i] == vec[i];
    TotalLast(us, i);
    TotalPrefix(vec, i + 1);
  }

  /** Its bytes. */
  lemma UnrollWritten(vec: seq<IoVec>, i: nat)
    requires i < |vec| && forall v :: v in vec ==> v.at + v.len <= v.chain.buffer.Length
    ensures Written(vec[..i + 1]) == Written(vec[..i]) + vec[i].chain.buffer[vec[i].at..vec[i].at + vec[i].len]
  {
    hide Written;
    var us := vec[..i + 1];
    assert us[..i] == vec[..i] && us[i] == vec[i];
    WrittenLast(us, i);
  }

  lemma TotalLast(us: seq<IoVec>, i: nat)
    requires |us| == i + 1
    ensures Total(us) == Total(us[..i]) + us[i].len
  {
  }

  lemma WrittenLast(us: seq<IoVec>, i: nat)
    requires |us| == i + 1 && forall v :: v in us ==> v.at + v.len <= v.chain.buffer.Length
    ensures Written(us) == Written(us[..i]) + us[i].chain.buffer[us[i].at..us[i].at + us[i].len]
  {
  }

  /** The buffer held had before the first i vectors were committed. */
  ghost predicate Committed(buf: EvBuffer, vec: seq<IoVec>, i: nat, had: seq<byte>)
    requires i <= |vec| && forall v :: v in vec ==> v.at + v.len <= v.chain.buffer.Length
    reads buf`pieces, buf`totalLen, set v | v in vec :: v.chain.buffer
  {
    buf.Contents() == had + Written(vec[..i]) && buf.totalLen == |had| + Total(vec[..i])
  }

  method CommitNext(buf: EvBuffer, pred: Chain?, vec: seq<IoVec>, i: nat, ghost j: nat, ghost had: seq<byte>)
    returns (next: Chain?)
    requires buf.Core() && buf.lwd <= j + i < |buf.chains| == |buf.pieces| && EmptyFrom(buf.pieces, j + i + 1)
    requires pred == (if j + i == 0 then null else buf.chains[j + i - 1])
    requires i < |vec| && FitsFrom(buf, [vec[i]], j + i) && |had| + Total(vec) <= SIZE_MAX
    requires forall v :: v in vec ==> v.chain in buf.nodes && v.at + v.len <= v.chain.buffer.Length
    requires Committed(buf, vec, i, had)
    modifies buf`pieces, buf`totalLen, buf`lwd, buf`lwdPred, buf.nodes`off
    ensures buf.Core() && buf.lwd <= j + i && EmptyFrom(buf.pieces, j + i + 1)
    ensures |buf.pieces| == |old(buf.pieces)| && forall t :: j + i < t < |buf.pieces| ==> buf.pieces[t] == old(buf.pieces)[t]
    ensures Committed(buf, vec, i + 1, had)
    ensures next == (if j + i + 1 < |buf.chains| then buf.chains[j + i + 1] else null)
  {
    hide EvBuffer.Rep, Flat, LastData, Written, Total;
    var v := vec[i];
    UnrollTotal(vec, i);
    UnrollWritten(vec, i);
    Assoc(had, Written(vec[..i]), v.chain.buffer[v.at..v.at + v.len]);
    CommitOne(buf, pred, v, j + i);
    buf.At(j + i);
    assert [v][0] == v;
    next := v.chain.next;
  }

  /** Commits the vectors one after another. */
  method CommitVectors(buf: EvBuffer, pred0: Chain?, first: Chain?, vec: seq<IoVec>, ghost j: nat)
    requires buf.Core() && buf.lwd <= j <= |buf.chains| && first == (if j < |buf.chains| then buf.chains[j] else null)
    requires pred0 == (if j == 0 then null else buf.chains[j - 1])
    requires FitsFrom(buf, vec, j) && buf.totalLen + Total(vec) <= SIZE_MAX
    modifies buf`pieces, buf`totalLen, buf`lwd, buf`lwdPred, buf.nodes`off
    ensures buf.Core() && buf.totalLen == old(buf.totalLen) + Total(vec)
    ensures forall v :: v in vec ==> v.at + v.len <= v.chain.buffer.Length
    ensures buf.Contents() == old(buf.Contents()) + Written(vec)
  {
    hide EvBuffer.Rep, Flat, LastData, Written, Total;
    InBounds(buf, vec, j);
    buf.Ends();
    BehindIsEmpty(buf.pieces, buf.lwd);
    ghost var had := buf.Contents();
    NoneWritten(had);
    var pred, chain: Chain? := pred0, first;
    var i := 0;
    assert vec[..0] == [];
    hide Committed;
    while i < |vec|
      modifies buf`pieces, buf`totalLen, buf`lwd, buf`lwdPred, buf.nodes`off
      invariant i <= |vec| && buf.Core() && |buf.pieces| == |buf.chains|
      invariant buf.lwd <= j + i && EmptyFrom(buf.pieces, j + i + 1)
      invariant forall t :: j + i <= t < |buf.pieces| ==> buf.pieces[t] == old(buf.pieces)[t]
      invariant chain == (if j + i < |buf.chains| then buf.chains[j + i] else null)
      invariant pred == (if j + i == 0 then null else buf.chains[j + i - 1])
      invariant Committed(buf, vec, i, had)
    {
      var next := CommitNext(buf, pred, vec, i, j, had);
      pred, chain, i := chain, next, i + 1;
    }
    AllCommitted(buf, vec, i, had);
  }

  lemma AllCommitted(buf: EvBuffer, vec: seq<IoVec>, i: nat, had: seq<byte>)
    requires i == |vec| && forall v :: v in vec ==> v.at + v.len <= v.chain.buffer.Length
    requires Committed(buf, vec, i, had)
    ensures buf.Contents() == had + Written(vec) && buf.totalLen == |had| + Total(vec)
  {
    assert vec[..i] == vec;
  }

  lemma NoneWritten(had: seq<byte>)
    ensures Total([]) == 0 && had + Written([]) == had
  {
  }

  /** Commits one vector in the last chunk. */
  method CommitInLast(buf: EvBuffer, v: IoVec)
    requires buf.Core() && buf.Tailed() && buf.chains != [] && FitsFrom(buf, [v], |buf.chains| - 1)
    requires buf.totalLen + v.len <= SIZE_MAX
    modifies buf`pieces, buf`totalLen, buf`lwd, buf`lwdPred, v.chain`off
    ensures buf.Core() && buf.totalLen == old(buf.totalLen) + v.len
    ensures v.at + v.len <= v.chain.buffer.Length
    ensures buf.Contents() == old(buf.Contents()) + v.chain.buffer[v.at..v.at + v.len]
  {
    hide EvBuffer.Rep, Flat;
    assert [v][0] == v;
    ghost var ps, j := buf.pieces, |buf.chains| - 1;
    buf.At(j);
    buf.CommitAt(v.chain, v.len, j);
    FlatGrow(ps, j, buf.pieces[j], v.chain.Spare(ps[j], v.len));
    buf.totalLen := buf.totalLen + v.len;
    if v.len != 0 {
      var _ := AdvanceLastWithData(buf);
    }
  }

  /** The chunk v names, if it is the last one and v stands at the start of its spare room. */
  method IsLastSpace(buf: EvBuffer, v: IoVec) returns (here: bool)
    requires buf.Valid()
    ensures here && v.len <= v.chain.buffer.Length - v.at <==> buf.chains != [] && FitsFrom(buf, [v], |buf.chains| - 1)
    ensures here ==> buf.last != null && v.chain == buf.last && v.at <= v.chain.buffer.Length
  {
    hide EvBuffer.Rep, Flat;
    buf.Ends();
    if buf.last == null {
      return false;
    }
    buf.At(|buf.chains| - 1);
    assert [v][0] == v;
    here := v.chain == buf.last && v.at == buf.last.misalign + buf.last.off;
  }

  lemma OneWritten(v: IoVec, had: seq<byte>)
    requires v.at + v.len <= v.chain.buffer.Length
    ensures Total([v]) == v.len && Written([v]) == v.chain.buffer[v.at..v.at + v.len]
  {
    assert [v][..0] == [] && [v][0] == v;
  }

  /** A vector in the last chunk fits anywhere only if it fits there. */
  lemma LastOrNowhere(buf: EvBuffer, v: IoVec)
    requires buf.Rep() && buf.chains != [] && v.chain == buf.chains[|buf.chains| - 1] && Fits(buf, [v])
    ensures FitsFrom(buf, [v], |buf.chains| - 1)
  {
    hide EvBuffer.Rep;
    var ss := SpaceStart(buf.pieces, buf.lwd);
    if FitsFrom(buf, [v], ss) {
      assert [v][0] == v;
      buf.Distinct(ss, |buf.chains| - 1);
    }
  }

  /** The two ways of committing: a single vector in the last chunk, or vectors from the first space on. */
  method CommitEither(buf: EvBuffer, vec: seq<IoVec>) returns (ok: bool)
    requires buf.Valid() && vec != [] && (Fits(buf, vec) ==> buf.totalLen + Total(vec) <= SIZE_MAX)
    modifies buf`pieces, buf`totalLen, buf`lwd, buf`lwdPred, buf.nodes`off
    ensures buf.Core() && buf.Tailed() && (ok <==> old(Fits(buf, vec)))
    ensures ok ==> forall v :: v in vec ==> v.at + v.len <= v.chain.buffer.Length
    ensures ok ==> buf.Contents() == old(buf.Contents()) + Written(vec) && buf.totalLen == old(buf.totalLen) + Total(vec)
    ensures !ok ==> buf.Contents() == old(buf.Contents()) && buf.totalLen == old(buf.totalLen)
  {
    hide EvBuffer.Rep, LastData, Flat, Written, Total, FitsFrom;
    if |vec| == 1 {
      assert vec == [vec[0]];
      var here := IsLastSpace(buf, vec[0]);
      if here {
        if vec[0].len > vec[0].chain.buffer.Length - vec[0].at {
          NotFitting(buf, vec);
          return false;
        }
        InBounds(buf, vec, |buf.chains| - 1);
        OneWritten(vec[0], buf.Contents());
        CommitInLast(buf, vec[0]);
        return true;
      }
    }
    var pred, chain; ghost var j;
    pred, chain, j := FirstWithSpace(buf);
    var fits := CheckVectors(buf, chain, vec, j);
    if !fits {
      return false;
    }
    CommitVectors(buf, pred, chain, vec, j);
    return true;
  }

  lemma NotFitting(buf: EvBuffer, vec: seq<IoVec>)
    requires buf.Valid() && vec != [] && |vec| == 1 && buf.chains != []
    requires vec[0].chain == buf.last && !FitsFrom(buf, [vec[0]], |buf.chains| - 1)
    ensures !Fits(buf, vec)
  {
    assert vec == [vec[0]];
    if Fits(buf, vec) {
      LastOrNowhere(buf, vec[0]);
    }
  }

  /** Takes the bytes written to reserved room as the buffer's own; 0, or -1 if the vectors are not that room. */
  method CommitSpace(buf: EvBuffer, vec: seq<IoVec>) returns (r: int)
    requires buf.Valid() && (Fits(buf, vec) ==> buf.totalLen + Total(vec) <= SIZE_MAX)
    modifies buf, buf.nodes`off
    ensures buf.Valid() && buf.flags == old(buf.flags) && buf.nodes == old(buf.nodes) && buf.bufs == old(buf.bufs)
    ensures r == (if !old(buf.flags.freezeEnd) && (vec == [] || old(Fits(buf, vec))) then 0 else -1)
    ensures r == 0 ==> forall v :: v in vec ==> v.at + v.len <= v.chain.buffer.Length
    ensures buf.Contents() == old(buf.Contents()) + if r == 0 then Written(vec) else []
    ensures buf.counts == if r == 0 && vec != [] then old(buf.counts.Plus(Total(vec)).Offered(buf.flags)) else old(buf.counts)
  {
    assert vec == [] ==> Written(vec) == [];
    assert buf.Contents() + [] == buf.Contents();
    hide EvBuffer.Core, EvBuffer.Tailed, Flat, Fits, Total, Written;
    if buf.flags.freezeEnd {
      return -1;
    }
    if |vec| == 0 {
      return 0;
    }
    var ok := CommitSome(buf, vec);
    return if ok then 0 else -1;
  }

  method CommitSome(buf: EvBuffer, vec: seq<IoVec>) returns (ok: bool)
    requires buf.Valid() && vec != [] && (Fits(buf, vec) ==> buf.totalLen + Total(vec) <= SIZE_MAX)
    modifies buf, buf.nodes`off
    ensures buf.Valid() && buf.flags == old(buf.flags) && buf.nodes == old(buf.nodes) && buf.bufs == old(buf.bufs)
    ensures ok <==> old(Fits(buf, vec))
    ensures ok ==> forall v :: v in vec ==> v.at + v.len <= v.chain.buffer.Length
    ensures ok ==> buf.Contents() == old(buf.Contents()) + Written(vec)
    ensures !ok ==> buf.Contents() == old(buf.Contents())
    ensures buf.counts == if ok then old(buf.counts.Plus(Total(vec)).Offered(buf.flags)) else old(buf.counts)
  {
    hide EvBuffer.Core, EvBuffer.Tailed, Flat, Fits, Total, Written;
    ok := CommitEither(buf, vec);
    if ok {
      CountCommitted(buf, vec);
    }
  }

  /** Counts the bytes of vec, which are already there. */
  method CountCommitted(buf: EvBuffer, vec: seq<IoVec>)
    requires buf.Core() && buf.Tailed() && buf.seenLen + buf.counts.added + Total(vec) == buf.totalLen + buf.counts.deleted
    modifies buf`counts, buf`seenLen
    ensures buf.Valid() && buf.counts == old(buf.counts.Plus(Total(vec)).Offered(buf.flags))
  {
    hide EvBuffer.Rep, EvBuffer.Designated, EvBuffer.Tailed, Flat, Total;
    var added := AddedBytes(vec);
    buf.counts := buf.counts.Plus(added);
    buf.InvokeCallbacks();
  }

  /** The sum the two passes keep on the way. */
  method AddedBytes(vec: seq<IoVec>) returns (n: nat)
    ensures n == Total(vec)
  {
    n := 0;
    for i := 0 to |vec|
      invariant n == Total(vec[..i])
    {
      assert vec[..i + 1][..i] == vec[..i];
      n := n + vec[i].len;
    }
    assert vec[..|vec|] == vec;
  }

  // ----- evbuffer_reserve_space -----

  lemma {:induction false} RoomsFront(ps: seq<Piece>, a: nat, b: nat)
    requires AllOk(ps) && a < b <= |ps|
    ensures Rooms(ps[a..b]) == ps[a].Room() + Rooms(ps[a + 1..b])
  {
    assert Rooms([]) == 0;
    hide Rooms;
    RoomsGrow(ps, a, b - 1);
    if a + 1 < b {
      RoomsFront(ps, a, b - 1);
      RoomsGrow(ps, a + 1, b - 1);
    } else {
      assert ps[a..b - 1] == [] && ps[a + 1..b] == [];
    }
  }

  lemma RoomsNowhere(ps: seq<Piece>, a: nat)
    requires AllOk(ps) && a <= |ps|
    ensures Rooms(ps[a..a]) == 0
  {
    assert ps[a..a] == [];
  }

  /** Behind which chunk the room is enough, counted from the first chunk with space. */
  lemma RoomLimit(ps: seq<Piece>, w: nat, n: nat, datlen: nat) returns (m: nat)
    requires HasRooms(ps, w, n, datlen) && datlen > 0
    ensures SpaceStart(ps, w) <= m <= |ps| && m - SpaceStart(ps, w) <= n && Rooms(ps[SpaceStart(ps, w)..m]) >= datlen
  {
    var rs := RoomStart(ps, w);
    m :| rs <= m <= |ps| && m - rs <= n && Rooms(ps[rs..m]) >= datlen;
    RoomsNowhere(ps, rs);
    hide Rooms;
    if rs < SpaceStart(ps, w) {
      RoomsFront(ps, w, m);
    }
  }

  /** One more vector, over the first n bytes of the spare room of the next chunk. */
  method AddVector(buf: EvBuffer, chain: Chain, vec: seq<IoVec>, n: nat, ghost j: nat) returns (vec': seq<IoVec>)
    requires buf.Rep() && j + |vec| < |buf.chains| && chain == buf.chains[j + |vec|] && FitsFrom(buf, vec, j)
    requires buf.pieces[j + |vec|].Ok() && n <= buf.pieces[j + |vec|].Room()
    ensures FitsFrom(buf, vec', j) && |vec'| == |vec| + 1 && Total(vec') == Total(vec) + n
    ensures vec' == vec + [IoVec(chain, chain.misalign + chain.off, n)]
    ensures old(WholeRoom(vec)) && chain.Ok() && n == chain.SpaceLen() ==> WholeRoom(vec')
  {
    hide EvBuffer.Rep, FitsFrom, Total;
    buf.At(j + |vec|);
    var v := IoVec(chain, chain.misalign + chain.off, n);
    vec' := vec + [v];
    assert vec'[..|vec|] == vec;
    TotalLast(vec', |vec|);
    FitsMore(buf, vec, v, j);
  }

  lemma FitsMore(buf: EvBuffer, vec: seq<IoVec>, v: IoVec, j: nat)
    requires FitsFrom(buf, vec, j) && j + |vec| < |buf.chains|
    requires var p := buf.pieces[j + |vec|];
      p.Ok() && v.chain == buf.chains[j + |vec|] && v.at == p.gap + |p.data| && v.len <= p.Room()
    ensures FitsFrom(buf, vec + [v], j)
  {
  }

  /** Each vector takes all the spare room of its chunk. */
  ghost predicate WholeRoom(vec: seq<IoVec>)
    reads set v | v in vec :: v.chain
  {
    forall i :: 0 <= i < |vec| ==> vec[i].chain.Ok() && vec[i].len == vec[i].chain.SpaceLen()
  }

  lemma NothingTaken()
    ensures WholeRoom([]) && Total([]) == 0
  {
  }

  lemma WholeRoomMore(vec: seq<IoVec>, v: IoVec)
    requires WholeRoom(vec) && v.chain.Ok() && v.len == v.chain.SpaceLen()
    ensures WholeRoom(vec + [v])
  {
  }

  lemma WithoutLast(vec: seq<IoVec>, v: IoVec)
    ensures (vec + [v])[..|vec|] == vec
  {
  }

  /** Sets up vectors over the spare room until they offer howmuch bytes; at most nVecs, none longer than needed if exact. */
  method ReadSetupVecs(buf: EvBuffer, howmuch: int, nVecs: nat, exact: bool) returns (n: int, vec: seq<IoVec>)
    requires buf.Valid()
    requires howmuch > 0 ==> HasRooms(buf.pieces, buf.lwd, nVecs, howmuch)
    ensures howmuch < 0 ==> n == -1 && vec == []
    ensures howmuch >= 0 ==> n == |vec| <= nVecs && Fits(buf, vec) && Total(vec) >= howmuch
    ensures howmuch >= 0 && exact ==> Total(vec) == howmuch
    ensures !exact ==> WholeRoom(vec)
    ensures vec != [] ==> Total(vec[..|vec| - 1]) < howmuch
  {
    hide EvBuffer.Rep, EvBuffer.Tailed, LastData, Flat, HasRooms, FitsFrom, Rooms, WholeRoom, Total;
    vec := [];
    NothingTaken();
    if howmuch < 0 {
      return -1, vec;
    }
    var pred, chain; ghost var j;
    pred, chain, j := FirstWithSpace(buf);
    ghost var m := j;
    ghost var ps := buf.pieces;
    NoVectors(buf, j);
    AllPiecesOk(buf);
    if howmuch > 0 {
      m := RoomLimit(ps, buf.lwd, nVecs, howmuch);
    }
    vec := SetupFrom(buf, chain, howmuch, nVecs, exact, j, m);
    n := |vec|;
  }

  /** The vectors, from chunk number j on; those up to number m have the room. */
  method SetupFrom(buf: EvBuffer, first: Chain?, howmuch: nat, nVecs: nat, exact: bool, ghost j: nat, ghost m: nat)
    returns (vec: seq<IoVec>)
    requires buf.Rep() && AllOk(buf.pieces) && j <= m <= |buf.chains| == |buf.pieces| && m - j <= nVecs
    requires howmuch > 0 ==> Rooms(buf.pieces[j..m]) >= howmuch && first == if j < |buf.chains| then buf.chains[j] else null
    ensures |vec| <= nVecs && FitsFrom(buf, vec, j) && Total(vec) >= howmuch && (exact ==> Total(vec) == howmuch)
    ensures !exact ==> WholeRoom(vec)
    ensures vec != [] ==> Total(vec[..|vec| - 1]) < howmuch
  {
    hide EvBuffer.Rep, FitsFrom, Rooms, WholeRoom, Total;
    vec := [];
    NothingTaken();
    NoVectors(buf, j);
    var soFar, chain := 0, first;
    ghost var ps := buf.pieces;
    while |vec| < nVecs && soFar < howmuch
      invariant j + |vec| <= m && soFar == Total(vec) && FitsFrom(buf, vec, j)
      invariant soFar < howmuch ==>
        && soFar == Rooms(ps[j..j + |vec|])
        && chain == (if j + |vec| < |buf.chains| then buf.chains[j + |vec|] else null)
      invariant if exact then soFar <= howmuch else WholeRoom(vec)
      invariant vec != [] ==> Total(vec[..|vec| - 1]) < howmuch
      decreases nVecs - |vec|
    {
      assert j + |vec| < m;
      ghost var i := j + |vec|;
      buf.At(i);
      RoomsGrow(ps, j, i);
      var avail := chain.SpaceLen();
      if avail > howmuch - soFar && exact {
        avail := howmuch - soFar;
      }
      WithoutLast(vec, IoVec(chain, chain.misalign + chain.off, avail));
      vec := AddVector(buf, chain, vec, avail, j);
      soFar := soFar + avail;
      chain := chain.next;
    }
  }

  lemma NoVectors(buf: EvBuffer, j: nat)
    requires j <= |buf.chains| == |buf.pieces|
    ensures FitsFrom(buf, [], j) && Total([]) == 0 && Rooms(buf.pieces[j..j]) == 0
  {
  }

  /** A size_t made of an ssize_t. */
  function ToSize(n: int): nat
    requires SSIZE_MIN <= n <= SSIZE_MAX
  {
    if n < 0 then n + SIZE_MAX + 1 else n
  }

  /** A single reserved chunk that evbuffer_commit_space will not find again. */
  ghost predicate Stranded(ps: seq<Piece>, w: nat, size: int)
    requires SSIZE_MIN <= size <= SSIZE_MAX
  {
    TakesNext(ps, w, ToSize(size)) && w + 2 < |ps|
  }

  /** Offers room for size bytes in at most nVecs vectors; -1 if it cannot. */
  method ReserveSpace(buf: EvBuffer, size: int, nVecs: int) returns (n: int, vec: seq<IoVec>)
    requires buf.Valid() && SSIZE_MIN <= size <= SSIZE_MAX
    modifies buf, buf.nodes, buf.bufs
    ensures buf.Valid() && buf.Contents() == old(buf.Contents()) && buf.totalLen == old(buf.totalLen) && buf.Steady()
    ensures fresh(buf.nodes - old(buf.nodes)) && fresh(buf.bufs - old(buf.bufs))
    ensures old(buf.flags.freezeEnd) || nVecs < 1 || size < 0 ==> n == -1
    ensures !old(buf.flags.freezeEnd) && nVecs >= 1 && 0 <= size && size + MAX_TO_COPY_IN_EXPAND <= MAX_CHAIN_DATA ==> n >= 0
    ensures n >= 0 ==> n == |vec| <= nVecs && Total(vec) >= size
    ensures forall i :: 0 <= i < |vec| ==> vec[i].chain.Ok() && vec[i].len == vec[i].chain.SpaceLen()
    ensures n >= 0 ==> (Fits(buf, vec) <==> !(nVecs == 1 && Stranded(old(buf.pieces), old(buf.lwd), size)))
  {
    hide EvBuffer.Rep, EvBuffer.Designated, EvBuffer.Tailed, LastData, Flat, TakesNext, Fits;
    vec := [];
    n := -1;
    if buf.flags.freezeEnd {
      return;
    }
    if nVecs < 1 {
      return;
    }
    if nVecs == 1 {
      vec := ReserveOne(buf, ToSize(size));
      n := if vec == [] then -1 else 1;
    } else {
      var ok := ExpandFast(buf, ToSize(size), nVecs);
      if ok {
        n, vec := ReadSetupVecs(buf, size, nVecs, false);
      }
    }
  }

  /** One vector over the room of one chunk; none if the size is too large. */
  method ReserveOne(buf: EvBuffer, datlen: nat) returns (vec: seq<IoVec>)
    requires buf.Valid()
    modifies buf, buf.nodes, buf.bufs
    ensures buf.Valid() && buf.Contents() == old(buf.Contents()) && buf.totalLen == old(buf.totalLen) && buf.Steady()
    ensures fresh(buf.nodes - old(buf.nodes)) && fresh(buf.bufs - old(buf.bufs))
    ensures datlen + MAX_TO_COPY_IN_EXPAND <= MAX_CHAIN_DATA ==> vec != []
    ensures datlen > MAX_CHAIN_DATA ==> vec == []
    ensures vec != [] ==> |vec| == 1 && Total(vec) >= datlen && vec[0].chain.Ok() && vec[0].len == vec[0].chain.SpaceLen()
    ensures vec != [] ==>
      (Fits(buf, vec) <==> !(TakesNext(old(buf.pieces), old(buf.lwd), datlen) && old(buf.lwd) + 2 < old(|buf.pieces|)))
  {
    hide EvBuffer.Rep, EvBuffer.Designated, EvBuffer.Tailed, LastData, Flat, TakesNext, Fits;
    ghost var ps, w := buf.pieces, buf.lwd;
    vec := [];
    var chain; ghost var j;
    chain, j := ExpandSinglechain(buf, datlen);
    if chain == null {
      return;
    }
    buf.At(j);
    vec := [IoVec(chain, chain.misalign + chain.off, chain.SpaceLen())];
    OneWritten(vec[0], []);
    FitsWhere(buf, vec[0], j);
    if TakesNext(ps, w, datlen) {
      RoomBefore(ps, w, datlen);
    }
  }

  lemma RoomBefore(ps: seq<Piece>, w: nat, datlen: nat)
    requires TakesNext(ps, w, datlen)
    ensures SpaceStart(ps, w) == w && w + 1 < |ps|
  {
  }

  /** A vector over the room of chunk j fits just when j is where the space starts, or the last chunk. */
  lemma FitsWhere(buf: EvBuffer, v: IoVec, j: nat)
    requires buf.Rep() && j < |buf.chains| && v.chain == buf.chains[j]
    requires v.at == v.chain.misalign + v.chain.off && v.len == v.chain.SpaceLen()
    ensures Fits(buf, [v]) <==> j == SpaceStart(buf.pieces, buf.lwd) || j == |buf.chains| - 1
  {
    hide EvBuffer.Rep, SpaceStart;
    buf.At(j);
    assert [v][0] == v;
    var ss := SpaceStart(buf.pieces, buf.lwd);
    if ss < |buf.chains| {
      buf.Distinct(ss, j);
    }
    buf.Distinct(|buf.chains| - 1, j);
    assert FitsFrom(buf, [v], j);
  }

  /** What evbuffer_add does with a new buffer. */
  method OneChunk(data: seq<byte>) returns (buf: EvBuffer)
    requires |data| == 900
    ensures fresh(buf) && fresh(buf.nodes) && fresh(buf.bufs) && buf.Valid() && !buf.flags.freezeEnd && buf.totalLen == 900
    ensures buf.chains != [] && buf.pieces == [Piece(data, 0, 976)] && buf.lwd == 0
  {
    hide EvBuffer.Rep, EvBuffer.Designated, Flat;
    buf := new EvBuffer();
    var c := Chain.New(900);
    assert c.AsPiece() == Piece([], 0, 976);
    ChainInsert(buf, c);
    assert buf.pieces == [Piece([], 0, 976)];
    GrowTail(buf, c, data);
    assert [] + data == data;
  }

  /**
    Three chunks, the first almost full, as evbuffer_add and then evbuffer_expand_fast_ twice leave them: reserving 100 bytes
    in one vector gives room that cannot be committed.
    */
  method StrandedExample() returns (buf: EvBuffer, vec: seq<IoVec>, r: int)
    ensures buf.Valid() && |vec| == 1 && Total(vec) >= 100 && r == -1 && !buf.flags.freezeEnd
  {
    hide EvBuffer.Rep, EvBuffer.Designated, EvBuffer.Tailed, LastData, Flat, Fits, Chain.Data, Stranded;
    var data: seq<byte> := seq(900, _ => 1);
    buf := OneChunk(data);
    TwoSpareChunks(buf);
    AlmostFull(buf.pieces, data);
    var n: int;
    n, vec := ReserveSpace(buf, 100, 1);
    r := CommitSpace(buf, vec);
  }

  method TwoSpareChunks(buf: EvBuffer)
    requires buf.Valid() && buf.chains != []
    modifies buf`first, buf`last, buf`chains, buf`pieces, buf`nodes, buf`bufs, buf.nodes`next
    ensures buf.Valid() && buf.pieces == old(buf.pieces) + [Piece([], 0, 976)] + [Piece([], 0, 976)]
    ensures fresh(buf.nodes - old(buf.nodes)) && fresh(buf.bufs - old(buf.bufs))
  {
    hide EvBuffer.Rep, EvBuffer.Designated, EvBuffer.Tailed, Flat;
    var second := Chain.New(24);
    assert second.AsPiece() == Piece([], 0, 976);
    LinkEmpty(buf, second);
    var third := Chain.New(24);
    assert third.AsPiece() == Piece([], 0, 976);
    buf.Ends();
    LinkEmpty(buf, third);
  }

  lemma AlmostFull(ps: seq<Piece>, data: seq<byte>)
    requires |data| == 900 && ps == [Piece(data, 0, 976)] + [Piece([], 0, 976)] + [Piece([], 0, 976)]
    ensures Stranded(ps, 0, 100)
  {
  }
}
