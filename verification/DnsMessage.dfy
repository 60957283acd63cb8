/** Messages: names and other bytes written one after another, with one label table. */
module DnsMessage {
  import opened Machine
  import opened DnsNameParse
  import opened DnsNameWrite

  /** Bytes that are no name, and then a name. */
  datatype Item = Item(filler: seq<byte>, name: seq<byte>)

  /** Where a name was written, and the place behind it that the writer returned. */
  datatype Mark = Mark(start: nat, end: nat)

  datatype Message = Message(ok: bool, out: seq<byte>, tab: seq<Entry>, marks: seq<Mark>)

  /** Writes items until a name is refused; what is told then is the message up to the last name before. */
  function Compose(out: seq<byte>, lim: nat, items: seq<Item>, tab: seq<Entry>): Message
    decreases |items|
  {
    if items == [] then Message(true, out, tab, [])
    else
      var start, name := out + items[0].filler, items[0].name;
      var w := Write(start, lim, name, tab, true);
      if |name| > MAX_NAME || !w.status.Done? then Message(false, out, tab, [])
      else
        var rest := Compose(w.out, lim, items[1..], w.tab);
        rest.(marks := [Mark(|start|, |w.out|)] + rest.marks)
  }

  lemma ComposeStep(out: seq<byte>, lim: nat, items: seq<Item>, tab: seq<Entry>)
    requires items != []
    ensures var w := Write(out + items[0].filler, lim, items[0].name, tab, true);
      var rest := Compose(w.out, lim, items[1..], w.tab);
      Compose(out, lim, items, tab) ==
        if |items[0].name| > MAX_NAME || !w.status.Done? then Message(false, out, tab, [])
        else rest.(marks := [Mark(|out + items[0].filler|, |w.out|)] + rest.marks)
  {
  }

  /** A name that stands in the message, and still will when the message has grown. */
  ghost predicate There(q: seq<byte>, mark: Mark, name: seq<byte>) {
    var back := ReadBack(q, mark.start, mark.start);
    && mark.start < |q|
    && back.Back? && back.text == Canonical(name) && (Proper(name) ==> back.end == mark.end)
  }

  lemma ThereLonger(p: seq<byte>, q: seq<byte>, mark: Mark, name: seq<byte>)
    requires There(p, mark, name) && Grown(p, q)
    ensures There(q, mark, name)
  {
    ReadBackLonger(p, q, mark.start, mark.start, mark.start);
  }

  lemma {:induction false} ComposeGrows(out: seq<byte>, lim: nat, items: seq<Item>, tab: seq<Entry>)
    ensures Grown(out, Compose(out, lim, items, tab).out) && Grown(tab, Compose(out, lim, items, tab).tab)
    decreases |items|
  {
    if items != [] {
      ComposeStep(out, lim, items, tab);
      var start := out + items[0].filler;
      var w := Write(start, lim, items[0].name, tab, true);
      WriteGrows(start, lim, items[0].name, tab, true);
      ComposeGrows(w.out, lim, items[1..], w.tab);
      hide Write, Compose;
      assert out == start[..|out|];
    }
  }

  /** The name was there as soon as it was written. */
  ghost predicate StoodAt(q: seq<byte>, mark: Mark, name: seq<byte>) {
    mark.end <= |q| && There(q[..mark.end], mark, name)
  }

  lemma StoodLonger(p: seq<byte>, q: seq<byte>, mark: Mark, name: seq<byte>)
    requires There(p, mark, name) && Grown(p, q) && mark.end == |p|
    ensures StoodAt(q, mark, name)
  {
    assert q[..mark.end] == p;
  }

  lemma StoodComesBack(q: seq<byte>, mark: Mark, name: seq<byte>)
    requires StoodAt(q, mark, name)
    ensures ComesBack(q, mark, name)
  {
    hide There, ComesBack;
    ThereLonger(q[..mark.end], q, mark, name);
    ThereComesBack(q, mark, name);
  }

  /** Every name of a message is there since it was written, and the table says the truth about the message. */
  lemma {:induction false} NamesThere(out: seq<byte>, lim: nat, items: seq<Item>, tab: seq<Entry>)
    requires TableOk(out, tab) && lim <= POINTER_REACH + 2
    ensures var m := Compose(out, lim, items, tab);
      && TableOk(m.out, m.tab) && |m.marks| <= |items| && (m.ok ==> |m.marks| == |items|)
      && forall i :: 0 <= i < |m.marks| ==> StoodAt(m.out, m.marks[i], items[i].name)
    decreases |items|
  {
    if items != [] {
      ComposeStep(out, lim, items, tab);
      var start, name := out + items[0].filler, items[0].name;
      var w := Write(start, lim, name, tab, true);
      var rest := Compose(w.out, lim, items[1..], w.tab);
      if |name| <= MAX_NAME && w.status.Done? {
        ComposeGrows(w.out, lim, items[1..], w.tab);
        hide Write, Compose, There, StoodAt, TableOk, Grown;
        NameThere(out, items[0].filler, lim, name, tab);
        NamesThere(w.out, lim, items[1..], w.tab);
        StoodLonger(w.out, rest.out, Mark(|start|, |w.out|), name);
      }
    }
  }

  lemma NameThere(out: seq<byte>, filler: seq<byte>, lim: nat, name: seq<byte>, tab: seq<Entry>)
    requires TableOk(out, tab) && lim <= POINTER_REACH + 2
    requires Write(out + filler, lim, name, tab, true).status.Done?
    ensures var w := Write(out + filler, lim, name, tab, true);
      TableOk(w.out, w.tab) && There(w.out, Mark(|out + filler|, |w.out|), name)
  {
    var start := out + filler;
    var w := Write(start, lim, name, tab, true);
    hide Write, Canonical, Proper;
    GrownBy(out, filler);
    WriteGrows(start, lim, name, tab, true);
    forall e | e in tab ensures Means(start, e) && e.pos < |start| {
      MeansLonger(out, start, e);
    }
    WriteReads(start, lim, name, tab, true, |start|);
    hide Means;
    forall e | e in w.tab ensures Means(w.out, e) {
      var i :| 0 <= i < |w.tab| && w.tab[i] == e;
      if i < |tab| {
        assert tab[i] == w.tab[i];
        MeansLonger(start, w.out, e);
      }
    }
  }

  /**
    Every name of a message, parsed at the place where it was written, comes back up to its first empty label, whole if it
    has none; parsing ends where the writer ended. The parser's limit on jumps is never met. The names before one that is
    refused come back as well.
    */
  predicate RoundTrips(m: Message, items: seq<Item>) {
    && |m.marks| <= |items| && (m.ok ==> |m.marks| == |items|)
    && forall i :: 0 <= i < |m.marks| ==> ComesBack(m.out, m.marks[i], items[i].name)
  }

  predicate ComesBack(q: seq<byte>, mark: Mark, name: seq<byte>) {
    var back := NameAt(q, mark.start, |q|);
    && back.Name? && Text(back.labels) == Canonical(name)
    && (Proper(name) ==> back.end == mark.end)
    && (Plain(name) ==> Text(back.labels) == name && back.end == mark.end)
  }

  /** Any names, written with one table that starts empty into a buffer that pointers reach all of, but for its last two bytes. */
  lemma NamesRoundTrip(out: seq<byte>, lim: nat, items: seq<Item>)
    requires lim <= POINTER_REACH + 2
    ensures RoundTrips(Compose(out, lim, items, []), items)
  {
    var m := Compose(out, lim, items, []);
    NamesThere(out, lim, items, []);
    hide Write, Compose, ComesBack, StoodAt;
    forall i | 0 <= i < |m.marks| ensures ComesBack(m.out, m.marks[i], items[i].name) {
      StoodComesBack(m.out, m.marks[i], items[i].name);
    }
  }

  lemma ThereComesBack(q: seq<byte>, mark: Mark, name: seq<byte>)
    requires There(q, mark, name)
    ensures ComesBack(q, mark, name)
  {
    hide Canonical, NameAt, Text, Plain, Proper, ReadBack;
    BackwardIsReadable(q, mark.start, mark.start, |q|);
    CanonicalExact(name);
    if Plain(name) {
      PlainIsProper(name);
    }
  }

  lemma TwoEmptyNames(lim: nat, filler: seq<byte>)
    requires |filler| == POINTER_REACH < lim - 2
    ensures Compose([], lim, [Item(filler, []), Item([], [])], []) ==
      Message(true, filler + [0] + Pointer(POINTER_REACH), [Entry([], POINTER_REACH)],
              [Mark(POINTER_REACH, POINTER_REACH + 1), Mark(POINTER_REACH + 1, POINTER_REACH + 3)])
  {
    var items := [Item(filler, []), Item([], [])];
    var out, tab := filler + [0], [Entry([], POINTER_REACH)];
    assert [] + filler == filler && out + [] == out && Label([]) == [0];
    assert Write(filler, lim, [], [], true) == Written(Done, out, tab);
    assert Write(out, lim, [], tab, true) == Written(Done, out + Pointer(POINTER_REACH), tab);
    hide Write, Pointer, Label;
    assert items[1..] == [items[1]] && items[1..][1..] == [];
    assert Compose(out + Pointer(POINTER_REACH), lim, [], tab).marks == [];
    assert Compose(out, lim, items[1..], tab).marks == [Mark(POINTER_REACH + 1, POINTER_REACH + 3)];
  }

  /** In any larger buffer, some message fails: two empty names behind 2^14 bytes, which start with another name. */
  lemma BeyondReach(lim: nat) returns (items: seq<Item>)
    requires lim > POINTER_REACH + 2
    ensures !RoundTrips(Compose([], lim, items, []), items)
  {
    var filler: seq<byte> := [1, 97] + seq(POINTER_REACH - 2, _ => 0);
    items := [Item(filler, []), Item([], [])];
    TwoEmptyNames(lim, filler);
    var q := filler + [0] + Pointer(POINTER_REACH);
    hide Compose, Pointer;
    PointerBeyond(filler + [0]);
    assert q[0] == filler[0] && q[1] == filler[1] && q[2] == filler[2];
    PointerAstray(q, POINTER_REACH + 1);
    assert Canonical([]) == [];
    assert items[1].name == [];
  }

  lemma PointerBeyond(p: seq<byte>)
    ensures var q := p + Pointer(POINTER_REACH); q[|p|] == 0xc0 && q[|p| + 1] == 0
  {
  }

  lemma PointerAstray(q: seq<byte>, j: nat)
    requires 3 < j && j + 2 == |q| && q[0] == 1 && q[1] == 97 && q[2] == 0 && q[j] == 0xc0 && q[j + 1] == 0
    ensures NameAt(q, j, |q|).Name? && Text(NameAt(q, j, |q|).labels) == [97]
  {
    var h := |q| - 1;
    assert NameAt(q, 2, h) == Name([], 3);
    assert NameAt(q, 0, h) == Name([[97]], 3) by {
      assert q[1..2] == [97];
    }
    assert NameAt(q, j, |q|) == Name([[97]], j + 2);
    TextMore([], [97]);
    assert [] + [[97]] == [[97]];
  }

  /** How large a buffer may be for all its names to come back. */
  lemma RoundTripExact(lim: nat)
    ensures (forall out: seq<byte>, items: seq<Item> :: RoundTrips(Compose(out, lim, items, []), items)) <==> lim <= POINTER_REACH + 2
  {
    hide RoundTrips, Compose;
    if lim <= POINTER_REACH + 2 {
      forall out: seq<byte>, items: seq<Item>
        ensures RoundTrips(Compose(out, lim, items, []), items)
      {
        NamesRoundTrip(out, lim, items);
      }
    } else {
      var items := BeyondReach(lim);
    }
  }

  // ----- the messages of the library -----

  const RESPONSE_SIZE: nat := 1500
  const HEADER_SIZE: nat := 12
  const SENT_SIZE: nat := 512

  /** The names of a response, behind its header. */
  function Response(header: seq<byte>, items: seq<Item>): Message {
    Compose(header, RESPONSE_SIZE, items, [])
  }

  /** Bit 1 of the third byte says that the response was cut. */
  function Truncated(q: seq<byte>): (r: seq<byte>)
    requires |q| >= HEADER_SIZE
    ensures |r| == |q|
  {
    q[2 := if q[2] / 2 % 2 == 0 then q[2] + 2 else q[2]]
  }

  /** The response was written to its end, or there was no room for something, or a name was refused. */
  predicate Ended(header: seq<byte>, items: seq<Item>, behind: seq<byte>, fitted: bool) {
    && |header| == HEADER_SIZE
    && if fitted then Response(header, items).ok else |Response(header, items).out + behind| >= SENT_SIZE
  }

  /**
    What is sent: all of the response, or its first 512 bytes if it is longer or if something did not fit. `behind` is what
    the buffer holds behind the last name that was written: the rest of the response if everything fitted. (Nothing is sent
    at all if the name of a question is refused.)
    */
  function Sent(header: seq<byte>, items: seq<Item>, behind: seq<byte>, fitted: bool): (sent: seq<byte>)
    requires Ended(header, items, behind, fitted)
    ensures |sent| <= SENT_SIZE
  {
    ComposeGrows(header, RESPONSE_SIZE, items, []);
    var q := Response(header, items).out + behind;
    if fitted && |q| <= SENT_SIZE then q else Truncated(q[..SENT_SIZE])
  }

  /** Every name that is sent whole comes back, also from a response that was cut or in which a later name was refused. */
  lemma ResponseRoundTrips(header: seq<byte>, items: seq<Item>, behind: seq<byte>, fitted: bool)
    requires Ended(header, items, behind, fitted)
    ensures var m, sent := Response(header, items), Sent(header, items, behind, fitted);
      && |m.marks| <= |items| && (m.ok ==> |m.marks| == |items|)
      && forall i :: 0 <= i < |m.marks| && m.marks[i].end <= |sent| ==> ComesBack(sent, m.marks[i], items[i].name)
    ensures var q, sent := Response(header, items).out + behind, Sent(header, items, behind, fitted);
      if fitted && |q| <= 512 then sent == q
      else
        && |sent| == 512 && |q| >= 512 && (forall k :: 0 <= k < 512 && k != 2 ==> sent[k] == q[k])
        && sent[2] / 2 % 2 == 1 && sent[2] == if q[2] / 2 % 2 == 1 then q[2] else q[2] + 2
  {
    SentIs(header, items, behind, fitted);
    var m, sent := Response(header, items), Sent(header, items, behind, fitted);
    var header' := if fitted && |m.out + behind| <= SENT_SIZE then header else Truncated(header);
    var m' := Response(header', items);
    SentIsWritten(header, items, behind, fitted, header');
    NamesThere(header', RESPONSE_SIZE, items, []);
    hide Compose, ComesBack, StoodAt, Response, Sent, Truncated;
    forall i | 0 <= i < |m.marks| && m.marks[i].end <= |sent| ensures ComesBack(sent, m.marks[i], items[i].name) {
      SentComesBack(m'.out, behind, sent, m'.marks[i], items[i].name);
    }
  }

  lemma SentIs(header: seq<byte>, items: seq<Item>, behind: seq<byte>, fitted: bool)
    requires Ended(header, items, behind, fitted)
    ensures var q, sent := Response(header, items).out + behind, Sent(header, items, behind, fitted);
      if fitted && |q| <= 512 then sent == q
      else
        && |sent| == 512 && |q| >= 512 && (forall k :: 0 <= k < 512 && k != 2 ==> sent[k] == q[k])
        && sent[2] / 2 % 2 == 1 && sent[2] == if q[2] / 2 % 2 == 1 then q[2] else q[2] + 2
  {
    hide Compose;
  }

  lemma SentComesBack(q: seq<byte>, behind: seq<byte>, sent: seq<byte>, mark: Mark, name: seq<byte>)
    requires StoodAt(q, mark, name) && Grown(sent, q + behind) && mark.end <= |sent|
    ensures ComesBack(sent, mark, name)
  {
    hide There, ComesBack;
    assert sent[..mark.end] == (q + behind)[..mark.end] == q[..mark.end];
    StoodComesBack(sent, mark, name);
  }

  /** Sent is the beginning of what would have been written had the header been right at once. */
  lemma SentIsWritten(header: seq<byte>, items: seq<Item>, behind: seq<byte>, fitted: bool, header': seq<byte>)
    requires Ended(header, items, behind, fitted)
    requires header' == if fitted && |Response(header, items).out + behind| <= SENT_SIZE then header else Truncated(header)
    ensures var m, m' := Response(header, items), Response(header', items);
      m'.ok == m.ok && m'.marks == m.marks && Grown(Sent(header, items, behind, fitted), m'.out + behind)
  {
    var m, m' := Response(header, items), Response(header', items);
    ComposeGrows(header, RESPONSE_SIZE, items, []);
    ComposeGrows(header', RESPONSE_SIZE, items, []);
    ComposeAlike(header, header', HEADER_SIZE, RESPONSE_SIZE, items, []);
    hide Compose, Truncated, Grown, Alike;
    if fitted && |m.out + behind| <= SENT_SIZE {
      GrownBy(m.out + behind, []);
    } else {
      TruncatedLater(header, m.out, m'.out, behind);
    }
  }

  lemma TruncatedLater(header: seq<byte>, p: seq<byte>, q: seq<byte>, behind: seq<byte>)
    requires |header| == HEADER_SIZE && Grown(header, p) && Grown(Truncated(header), q)
    requires Alike(HEADER_SIZE, p, q) && |p + behind| >= SENT_SIZE
    ensures Grown(Truncated((p + behind)[..SENT_SIZE]), q + behind)
  {
    var cut := (p + behind)[..SENT_SIZE];
    assert forall k :: 0 <= k < HEADER_SIZE ==> cut[k] == header[k] && q[k] == Truncated(header)[k];
    assert Truncated(cut) == (q + behind)[..SENT_SIZE];
  }

  /** Of the same length, and the same from byte n on. */
  ghost predicate Alike(n: nat, p: seq<byte>, q: seq<byte>) {
    |p| == |q| && forall k :: n <= k < |p| ==> p[k] == q[k]
  }

  lemma AlikeMore(n: nat, p: seq<byte>, q: seq<byte>, more: seq<byte>)
    requires Alike(n, p, q)
    ensures Alike(n, p + more, q + more)
  {
  }

  /** What is written does not depend on the bytes that are there already. */
  lemma {:induction false} WriteAlike(p: seq<byte>, q: seq<byte>, n: nat, lim: nat, name: seq<byte>, tab: seq<Entry>)
    requires Alike(n, p, q)
    ensures var v, w := Write(p, lim, name, tab, true), Write(q, lim, name, tab, true);
      v.status == w.status && v.tab == w.tab && Alike(n, v.out, w.out)
    decreases |name|
  {
    WriteStep(p, lim, name, tab, true);
    WriteStep(q, lim, name, tab, true);
    hide Write, Find, First, Remember, Pointer, Label, Alike;
    LengthAlike(n, p, q);
    if Find(tab, name) < |tab| {
      AlikeMore(n, p, q, Pointer(tab[Find(tab, name)].pos));
    } else if First(name) <= MAX_LABEL && |p| + First(name) + 1 <= lim {
      AlikeMore(n, p, q, Label(name));
      if First(name) < |name| {
        WriteAlike(p + Label(name), q + Label(name), n, lim, name[First(name) + 1..], Remember(tab, name, |p|));
      } else {
        AlikeMore(n, p + Label(name), q + Label(name), [0]);
      }
    }
  }

  lemma LengthAlike(n: nat, p: seq<byte>, q: seq<byte>)
    requires Alike(n, p, q)
    ensures |p| == |q|
  {
  }

  lemma {:induction false} ComposeAlike(p: seq<byte>, q: seq<byte>, n: nat, lim: nat, items: seq<Item>, tab: seq<Entry>)
    requires Alike(n, p, q)
    ensures var v, w := Compose(p, lim, items, tab), Compose(q, lim, items, tab);
      v.ok == w.ok && v.marks == w.marks && Alike(n, v.out, w.out)
    decreases |items|
  {
    if items != [] {
      ComposeStep(p, lim, items, tab);
      ComposeStep(q, lim, items, tab);
      var filler, name := items[0].filler, items[0].name;
      hide Compose, Write, Alike;
      AlikeMore(n, p, q, filler);
      WriteAlike(p + filler, q + filler, n, lim, name, tab);
      var v, w := Write(p + filler, lim, name, tab, true), Write(q + filler, lim, name, tab, true);
      LengthAlike(n, p + filler, q + filler);
      LengthAlike(n, v.out, w.out);
      if |name| <= MAX_NAME && v.status.Done? {
        ComposeAlike(v.out, w.out, n, lim, items[1..], v.tab);
      }
    }
  }

  const A: seq<byte> := [97]

  /** But the zero behind a name can be one byte more than there is: behind an empty name and 1485 other bytes, say. */
  lemma ResponseOverrun(header: seq<byte>, between: seq<byte>)
    requires |header| == HEADER_SIZE && |between| == 1485
    ensures var m := Response(header, [Item([], []), Item(between, A)]); m.ok && |m.out| == RESPONSE_SIZE + 1
  {
    var items := [Item([], []), Item(between, A)];
    var out, tab := header + [0], [Entry([], HEADER_SIZE)];
    assert header + [] == header && Label([]) == [0] && First(A) == 1;
    assert Write(header, RESPONSE_SIZE, [], [], true) == Written(Done, out, tab);
    var w := Write(out + between, RESPONSE_SIZE, A, tab, true);
    assert w == Written(Done, out + between + Label(A) + [0], tab + [Entry(A, |out + between|)]);
    hide Write, Label;
    assert items[1..] == [items[1]] && items[1..][1..] == [];
    assert Compose(w.out, RESPONSE_SIZE, [], w.tab) == Message(true, w.out, w.tab, []);
    assert Compose(out, RESPONSE_SIZE, items[1..], tab).out == w.out;
  }

  // ----- examples, and limits, as bytes -----

  const B: seq<byte> := [98]
  const AB: seq<byte> := [97, 46, 98]

  /** "a.b" and then "b" behind a header: two labels and a zero, and a pointer to the second label, at place 14. */
  lemma MessageExample(header: seq<byte>)
    requires |header| == HEADER_SIZE
    ensures Response(header, [Item([], AB), Item([], B)]).out == header + [1, 97, 1, 98, 0] + [0xc0, 14]
  {
    var out := header + [1, 97, 1, 98, 0];
    var tab := [Entry(AB, 12), Entry(B, 14)];
    FirstExample(header);
    var items := [Item([], AB), Item([], B)];
    assert header + [] == header && out + [] == out;
    assert Find(tab, B) == 1;
    assert Write(out, RESPONSE_SIZE, B, tab, true) == Written(Done, out + [0xc0, 14], tab);
    hide Write, Find;
    assert items[1..] == [items[1]] && items[1..][1..] == [];
    assert Compose(out + [0xc0, 14], RESPONSE_SIZE, [], tab).out == out + [0xc0, 14];
    assert Compose(out, RESPONSE_SIZE, items[1..], tab).out == out + [0xc0, 14];
  }

  lemma FirstExample(header: seq<byte>)
    requires |header| == HEADER_SIZE
    ensures Write(header, RESPONSE_SIZE, AB, [], true) ==
      Written(Done, header + [1, 97, 1, 98, 0], [Entry(AB, 12), Entry(B, 14)])
  {
    assert AB[1..] == [46, 98] && First(AB[1..]) == 0;
    assert First(AB) == 1 && AB[..1] == A && AB[2..] == B && First(B) == 1 && B[..1] == B;
    assert Label(AB) == [1, 97] && Label(B) == [1, 98];
    var out, tab := header + [1, 97], [Entry(AB, 12)];
    assert Find(tab, B) == 1;
    WriteStep(header, RESPONSE_SIZE, AB, [], true);
    WriteStep(out, RESPONSE_SIZE, B, tab, true);
    hide Write, First, Label;
    assert Write(out, RESPONSE_SIZE, B, tab, true) == Written(Done, out + [1, 98] + [0], tab + [Entry(B, 14)]);
    assert out + [1, 98] + [0] == header + [1, 97, 1, 98, 0];
  }

  /** The same read back: a name, and one that goes on at a pointer. */
  lemma ParseExample(q: seq<byte>)
    requires q == [1, 97, 1, 98, 0, 1, 97, 0xc0, 2]
    ensures NameAt(q, 0, 0) == Name([[97], [98]], 5) && NameAt(q, 5, 1) == Name([[97], [98]], 9) && Text([[97], [98]]) == AB
    ensures NameAt(q, 5, 0) == Bad
  {
    assert q[1..2] == [97] && q[3..4] == [98] && q[6..7] == [97];
    assert NameAt(q, 4, 0) == Name([], 5);
    assert NameAt(q, 2, 0) == Name([[98]], 5);
    assert NameAt(q, 7, 1) == Name([[98]], 9);
    TextMore([], [97]);
    TextMore([[97]], [98]);
    assert [] + [[97]] == [[97]] && [[97]] + [[98]] == [[97], [98]];
  }

  /** A label has up to 63 bytes; a larger length is read as the first byte of a pointer. */
  lemma LabelLimits(q: seq<byte>, hops: nat)
    requires |q| >= 65 && q[64] == 0
    ensures q[0] == 63 ==> NameAt(q, 0, hops) == Name([q[1..64]], 65)
    ensures q[0] == 64 && hops > 0 && q[1] < |q| ==> NameAt(q, 0, hops) == NameAt(q, q[1], hops - 1).EndingAt(2)
  {
    assert NameAt(q, 64, hops) == Name([], 65);
  }

  lemma {:induction false} NoDots(name: seq<byte>)
    requires DOT !in name
    ensures First(name) == |name|
  {
    if name != [] {
      NoDots(name[1..]);
    }
  }

  /** A label of 63 bytes is written, one of 64 is not; and a name of more than 255 bytes is not, whatever its labels. */
  lemma NameLimits(name: seq<byte>, out: seq<byte>, lim: nat)
    requires 46 !in name && |out| + |name| + 1 <= lim
    ensures |name| <= 63 ==> Write(out, lim, name, [], false).status == Done
    ensures |name| > 63 ==> Write(out, lim, name, [], false).status == LabelTooLong
    ensures forall long: seq<byte> :: |long| > 255 ==> !Compose(out, lim, [Item([], long)], []).ok
  {
    NoDots(name);
    WriteStep(out, lim, name, [], false);
  }

  /** Writing never fails for a name of at most 255 bytes, with labels of at most 63, if there is room for its length and two more. */
  lemma {:induction false} WriteSucceeds(out: seq<byte>, lim: nat, name: seq<byte>, tab: seq<Entry>, useTable: bool)
    requires ShortLabels(name) && |out| + |name| + 2 <= lim
    ensures Write(out, lim, name, tab, useTable).status.Done?
    decreases |name|
  {
    WriteStep(out, lim, name, tab, useTable);
    hide Write, Find, First, Remember, Label, Later;
    if !Stops(|out|, lim, name, tab, useTable) && First(name) < |name| {
      WriteMore(out, lim, name, tab, useTable);
      WriteSucceeds(out + Label(name), lim, name[First(name) + 1..], Later(tab, name, |out|, useTable), useTable);
    }
  }
}
