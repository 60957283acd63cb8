/** What a list of chunks holds, as a value: its pieces and their flat meaning. */
module Pieces {

  import opened Machine

  /** One chunk: its bytes, the gap in front of them, and the size of its allocation. */
  datatype Piece = Piece(data: seq<byte>, gap: nat, cap: nat) {
    predicate Ok() {
      gap + |data| <= cap
    }

    function Room(): nat
      requires Ok()
    {
      cap - gap - |data|
    }

    /** Without the first n bytes. */
    function Less(n: nat): Piece
      requires n <= |data|
    {
      Piece(data[n..], gap + n, cap)
    }
  }

  /** The bytes of all pieces, one after another. */
  ghost function Flat(ps: seq<Piece>): seq<byte> {
    if ps == [] then [] else ps[0].data + Flat(ps[1..])
  }

  lemma Assoc<T>(a: seq<T>, b: seq<T>, c: seq<T>)
    ensures a + (b + c) == a + b + c
  {
  }

  lemma {:induction false} FlatConcat(a: seq<Piece>, b: seq<Piece>)
    ensures Flat(a + b) == Flat(a) + Flat(b)
  {
    if a == [] {
      assert a + b == b;
    } else {
      FlatConcat(a[1..], b);
      assert (a + b)[1..] == a[1..] + b;
      Assoc(a[0].data, Flat(a[1..]), Flat(b));
    }
  }

  lemma FlatOne(p: Piece)
    ensures Flat([p]) == p.data
  {
    assert Flat([p][1..]) == [];
  }

  lemma FlatSplit(a: seq<Piece>, i: nat)
    requires i <= |a|
    ensures Flat(a) == Flat(a[..i]) + Flat(a[i..])
  {
    assert a == a[..i] + a[i..];
    FlatConcat(a[..i], a[i..]);
  }

  lemma FlatAt(a: seq<Piece>, i: nat)
    requires i < |a|
    ensures Flat(a) == Flat(a[..i]) + a[i].data + Flat(a[i + 1..])
    ensures Flat(a[..i + 1]) == Flat(a[..i]) + a[i].data
    ensures |Flat(a)| == |Flat(a[..i])| + |a[i].data| + |Flat(a[i + 1..])|
  {
    FlatSplit(a, i);
    assert a[i..][1..] == a[i + 1..];
    Assoc(Flat(a[..i]), a[i].data, Flat(a[i + 1..]));
    assert a[..i + 1] == a[..i] + [a[i]];
    FlatConcat(a[..i], [a[i]]);
    FlatOne(a[i]);
  }

  lemma FlatUpdate(a: seq<Piece>, i: nat, p: Piece)
    requires i < |a|
    ensures Flat(a[i := p]) == Flat(a[..i]) + p.data + Flat(a[i + 1..])
  {
    var b := a[i := p];
    FlatAt(b, i);
    assert b[..i] == a[..i] && b[i + 1..] == a[i + 1..];
  }

  ghost predicate EmptyFrom(a: seq<Piece>, i: nat) {
    forall j :: i <= j < |a| ==> a[j].data == []
  }

  lemma {:induction false} FlatAllEmpty(a: seq<Piece>)
    requires EmptyFrom(a, 0)
    ensures Flat(a) == []
  {
    if a != [] {
      FlatAllEmpty(a[1..]);
    }
  }

  /** Dropping a tail of empty pieces loses nothing. */
  lemma FlatDropEmpty(a: seq<Piece>, i: nat)
    requires i <= |a| && EmptyFrom(a, i)
    ensures Flat(a) == Flat(a[..i])
  {
    FlatSplit(a, i);
    FlatAllEmpty(a[i..]);
  }

  /** New bytes at the end of the last piece that has any are new bytes at the end. */
  lemma FlatGrow(a: seq<Piece>, i: nat, p: Piece, data: seq<byte>)
    requires i < |a| && EmptyFrom(a, i + 1)
    requires p.data == a[i].data + data
    ensures Flat(a[i := p]) == Flat(a) + data
  {
    FlatUpdate(a, i, p);
    FlatAt(a, i);
    FlatAllEmpty(a[i + 1..]);
    Assoc(Flat(a[..i]), a[i].data, data);
  }

  /** New bytes at the front of the first piece are new bytes at the front. */
  lemma FlatGrowFront(a: seq<Piece>, p: Piece, data: seq<byte>)
    requires a != [] && p.data == data + a[0].data
    ensures Flat(a[0 := p]) == data + Flat(a)
  {
    assert a[0 := p][1..] == a[1..];
    Assoc(data, a[0].data, Flat(a[1..]));
  }

  /** Dropping k pieces and n bytes of the next drops that many bytes. */
  lemma FlatConsume(a: seq<Piece>, k: nat, n: nat, p: Piece)
    requires k < |a| && n <= |a[k].data| && p.data == a[k].data[n..]
    ensures |Flat(a[..k])| + n <= |Flat(a)|
    ensures Flat([p] + a[k + 1..]) == Flat(a)[|Flat(a[..k])| + n..]
  {
    FlatAt(a, k);
    var b := [p] + a[k + 1..];
    assert b[1..] == a[k + 1..];
    var front := Flat(a[..k]);
    Assoc(front, a[k].data, Flat(a[k + 1..]));
    assert (front + (a[k].data + Flat(a[k + 1..])))[|front| + n..] == a[k].data[n..] + Flat(a[k + 1..]);
  }

  lemma NotLast(a: seq<Piece>, i: nat)
    requires i < |a| && |Flat(a[..i + 1])| < |Flat(a)|
    ensures i + 1 < |a|
  {
    FlatSplit(a, i + 1);
  }

  /** The bytes of one piece, found in the flat sequence. */
  lemma FlatSlice(a: seq<Piece>, i: nat, from: nat, n: nat)
    requires i < |a| && from + n <= |a[i].data|
    ensures var at := |Flat(a[..i])| + from;
      at + n <= |Flat(a)| && Flat(a)[at..at + n] == a[i].data[from..from + n]
  {
    FlatAt(a, i);
  }

  /** w designates the last piece with data, or the first if none has any. */
  ghost predicate LastData(ps: seq<Piece>, w: nat) {
    && (if ps == [] then w == 0 else w < |ps|)
    && (w > 0 ==> ps[w].data != [])
    && EmptyFrom(ps, w + 1)
  }

  lemma LastDataPush(ps: seq<Piece>, w: nat, p: Piece)
    requires LastData(ps, w) && ps != [] && ps[0].data != []
    ensures LastData([p] + ps, w + 1)
  {
  }

  lemma LastDataAppend(ps: seq<Piece>, w: nat, p: Piece)
    requires LastData(ps, w) && (ps != [] ==> w == |ps| - 1 && ps[w].data != [])
    ensures LastData(ps + [p], if p.data != [] then |ps| else w)
  {
  }

  lemma LastDataUpdate(ps: seq<Piece>, w: nat, i: nat, p: Piece)
    requires LastData(ps, w) && i < |ps| && i <= w && (i == w > 0 ==> p.data != [])
    ensures LastData(ps[i := p], w)
  {
  }

  lemma LastDataDrop(ps: seq<Piece>, w: nat, k: nat, p: Piece)
    requires LastData(ps, w) && k <= w < |ps| && p.data != []
    ensures LastData([p] + ps[k + 1..], w - k)
  {
  }

  lemma LastDataBound(ps: seq<Piece>, w: nat)
    requires LastData(ps, w)
    ensures (if ps == [] then w == 0 else w < |ps|) && (w > 0 ==> ps[w].data != [])
  {
  }

  lemma LastDataHas(ps: seq<Piece>, w: nat)
    requires LastData(ps, w) && Flat(ps) != []
    ensures w < |ps| && ps[w].data != []
  {
    if ps[w].data == [] {
      FlatAllEmpty(ps);
    }
  }

  /** Fewer bytes than there are end before the last piece with data does. */
  lemma FlatEndsEarly(ps: seq<Piece>, w: nat, k: nat)
    requires LastData(ps, w) && k < |ps| && |Flat(ps[..k + 1])| < |Flat(ps)|
    ensures k < w
  {
    if k >= w {
      FlatDropEmpty(ps, k + 1);
    }
  }

  lemma LastDataConcat(a: seq<Piece>, b: seq<Piece>, w: nat)
    requires LastData(b, w) && b != [] && b[w].data != []
    ensures LastData(a + b, |a| + w)
  {
    assert (a + b)[|a| + w] == b[w];
    forall j | |a| + w + 1 <= j < |a + b| ensures (a + b)[j].data == [] {
      assert (a + b)[j] == b[j - |a|];
    }
  }

  lemma LastDataSuffix(ps: seq<Piece>, w: nat, k: nat)
    requires LastData(ps, w) && k <= w < |ps| && (k == w ==> ps[k].data != [])
    ensures LastData(ps[k..], w - k)
  {
  }

  /** Piece d is the last one with data, and it has some. */
  ghost predicate DataEnds(ps: seq<Piece>, d: nat) {
    d < |ps| && ps[d].data != [] && EmptyFrom(ps, d + 1)
  }

  lemma DataEndsTail(ps: seq<Piece>, w: nat)
    requires LastData(ps, w) && w > 0
    ensures DataEnds(ps, w) && DataEnds(ps[1..], w - 1)
  {
  }

  /** Pulling the first k pieces, and n bytes of the next, into the piece p keeps the last data last. */
  lemma LastDataPulled(ps: seq<Piece>, d: nat, k: nat, n: nat, p: Piece, q: Piece)
    requires DataEnds(ps, d) && k < |ps| && n < |ps[k].data| && q.data == ps[k].data[n..]
    ensures k <= d && LastData([p, q] + ps[k + 1..], d - k + 1)
  {
    assert k <= d;
    var r := [p, q] + ps[k + 1..];
    assert d == k || r[d - k + 1] == ps[d];
    forall j | d - k + 2 <= j < |r| ensures r[j].data == [] {
      assert r[j] == ps[j + k - 1];
    }
  }

  /** When the first piece has fewer bytes than there are, the last data is behind it. */
  lemma DataBehindFirst(ps: seq<Piece>, w: nat)
    requires LastData(ps, w) && ps != [] && |ps[0].data| < |Flat(ps)|
    ensures w > 0
  {
    if w == 0 {
      FlatAllEmpty(ps[1..]);
    }
  }

  /** The first piece is the front of the bytes. */
  lemma FlatFront(ps: seq<Piece>)
    requires ps != []
    ensures Flat(ps) == ps[0].data + Flat(ps[1..])
    ensures |ps[0].data| <= |Flat(ps)| && Flat(ps)[..|ps[0].data|] == ps[0].data
  {
  }

  lemma LastDataEmptyTail(ps: seq<Piece>, w: nat, p: Piece)
    requires LastData(ps, w) && ps != [] && p.data == []
    ensures LastData(ps + [p], w)
  {
  }

  lemma LastDataCut(ps: seq<Piece>, w: nat)
    requires LastData(ps, w) && ps != []
    ensures LastData(ps[..w + 1], w)
  {
  }

  /** The spare room behind the bytes of the pieces. */
  ghost function Rooms(ps: seq<Piece>): nat
    requires forall i :: 0 <= i < |ps| ==> ps[i].Ok()
  {
    if ps == [] then 0 else Rooms(ps[..|ps| - 1]) + ps[|ps| - 1].Room()
  }
}
