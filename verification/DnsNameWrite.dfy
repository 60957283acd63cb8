/** Writing domain names into a DNS message, with compression (section 4.1.4 of RFC 1035). */
module DnsNameWrite {
  import opened Machine
  import opened DnsNameParse

  const MAX_NAME: nat := 255
  const MAX_LABELS: nat := 128
  const POINTER_REACH: nat := 0x4000

  /** A name, as a string, that was written at a place of the message. */
  datatype Entry = Entry(v: seq<byte>, pos: nat)

  // ----- names as strings -----

  /** Length of the first label: the place of the first dot, or all. */
  function First(name: seq<byte>): (k: nat)
    ensures k <= |name| && (k < |name| ==> name[k] == DOT)
  {
    if name == [] || name[0] == DOT then 0 else 1 + First(name[1..])
  }

  /** strchr(name, '.'), as an index. */
  method FindDot(name: seq<byte>) returns (k: nat)
    ensures k == First(name)
  {
    k := 0;
    while k < |name| && name[k] != DOT
      invariant k <= |name| && First(name) == k + First(name[k..])
    {
      assert name[k..][1..] == name[k + 1..];
      k := k + 1;
    }
  }

  /** A text behind a first label. */
  function Dotted(lab: seq<byte>, rest: seq<byte>): seq<byte> {
    if rest == [] then lab else lab + [DOT] + rest
  }

  /** A name up to its first empty label, which would end it in a message. */
  function Canonical(name: seq<byte>): seq<byte>
    decreases |name|
  {
    var k := First(name);
    if k == 0 then []
    else if k == |name| then name
    else Dotted(name[..k], Canonical(name[k + 1..]))
  }

  /** Are all labels but the last nonempty? The name may end in one dot. */
  predicate Proper(name: seq<byte>)
    decreases |name|
  {
    var k := First(name);
    k < |name| ==> k > 0 && Proper(name[k + 1..])
  }

  /** Are all labels nonempty? */
  predicate Plain(name: seq<byte>)
    decreases |name|
  {
    var k := First(name);
    k > 0 && (k < |name| ==> Plain(name[k + 1..]))
  }

  /** Which names come back from a message as they were: the empty one, and those without empty labels. */
  lemma {:induction false} CanonicalExact(name: seq<byte>)
    ensures Canonical(name) == name <==> name == [] || Plain(name)
    ensures |Canonical(name)| <= |name|
    decreases |name|
  {
    var k := First(name);
    if 0 < k < |name| {
      var rest := name[k + 1..];
      CanonicalExact(rest);
      assert name == name[..k] + [DOT] + rest;
      if Canonical(name) == name {
        assert name[k + 1..] == Canonical(rest);
      }
    }
  }

  lemma {:induction false} FirstDotted(name: seq<byte>)
    ensures First(name + [DOT]) == First(name)
  {
    if name != [] && name[0] != DOT {
      assert (name + [DOT])[1..] == name[1..] + [DOT];
      FirstDotted(name[1..]);
    }
  }

  lemma {:induction false} CanonicalDotted(name: seq<byte>)
    ensures Canonical(name + [DOT]) == Canonical(name)
    decreases |name|
  {
    var k := First(name);
    FirstDotted(name);
    assert (name + [DOT])[..k] == name[..k];
    if k < |name| {
      assert (name + [DOT])[k + 1..] == name[k + 1..] + [DOT];
      CanonicalDotted(name[k + 1..]);
    } else {
      assert (name + [DOT])[k + 1..] == [];
      assert name[..k] == name;
    }
  }

  lemma {:induction false} PlainIsProper(name: seq<byte>)
    requires Plain(name)
    ensures Proper(name) && Proper(name + [DOT])
    decreases |name|
  {
    var k := First(name);
    FirstDotted(name);
    if k < |name| {
      assert (name + [DOT])[k + 1..] == name[k + 1..] + [DOT];
      PlainIsProper(name[k + 1..]);
    } else {
      assert (name + [DOT])[k + 1..] == [];
    }
  }

  /** A dot at the end is lost, and nothing else. */
  lemma TrailingDotLost(name: seq<byte>)
    requires Plain(name)
    ensures Proper(name + [DOT]) && Canonical(name + [DOT]) == name
  {
    PlainIsProper(name);
    CanonicalDotted(name);
    CanonicalExact(name);
  }

  // ----- the specification of the writer -----

  function Find(tab: seq<Entry>, name: seq<byte>): (k: nat)
    ensures k <= |tab| && (k < |tab| ==> tab[k].v == name)
    ensures forall i :: 0 <= i < k ==> tab[i].v != name
  {
    if tab == [] || tab[0].v == name then 0 else 1 + Find(tab[1..], name)
  }

  function Remember(tab: seq<Entry>, name: seq<byte>, pos: nat): seq<Entry> {
    if |tab| >= MAX_LABELS then tab else tab + [Entry(name, pos)]
  }

  /** The two bytes of ref | 0xc000, cut to 16 bits. */
  function Pointer(ref: nat): (bytes: seq<byte>)
    ensures |bytes| == 2
  {
    [0xc0 + ref % POINTER_REACH / 0x100, ref % 0x100]
  }

  datatype Status = Done | LabelTooLong | NoRoom

  datatype Written = Written(status: Status, out: seq<byte>, tab: seq<Entry>)

  /** The first label of a name, behind its length. */
  function Label(name: seq<byte>): (l: seq<byte>)
    requires First(name) <= MAX_LABEL
    ensures |l| == 1 + First(name)
  {
    [First(name)] + name[..First(name)]
  }

  /** What the writer makes of a message, at most lim bytes of which may be used for labels, and of its table. */
  function Write(out: seq<byte>, lim: nat, name: seq<byte>, tab: seq<Entry>, useTable: bool): Written
    decreases |name|
  {
    var hit := Find(tab, name);
    var k := First(name);
    if useTable && hit < |tab| then
      if |out| + 2 > lim then Written(NoRoom, out, tab) else Written(Done, out + Pointer(tab[hit].pos), tab)
    else if k > MAX_LABEL then Written(LabelTooLong, out, tab)
    else if |out| + k + 1 > lim then Written(NoRoom, out, tab)
    else
      var tab' := if useTable then Remember(tab, name, |out|) else tab;
      var out' := out + Label(name);
      if k < |name| then Write(out', lim, name[k + 1..], tab', useTable)
      else Written(Done, if k == 0 then out' else out' + [0], tab')
  }

  // ----- what was written reads back -----

  datatype Back = NoName | Back(text: seq<byte>, end: nat) {
    function After(lab: seq<byte>): Back {
      if NoName? then NoName else Back(Dotted(lab, text), end)
    }

    function EndingAt(e: nat): Back {
      if NoName? then NoName else Back(text, e)
    }
  }

  /** Reads the name at j, allowing only pointers to places before `bound`, and from there before that place, and so on. */
  function ReadBack(p: seq<byte>, j: nat, bound: nat): Back
    decreases bound, |p| - j
  {
    if j >= |p| then NoName
    else if p[j] == 0 then Back([], j + 1)
    else if p[j] > MAX_LABEL then
      if j + 1 >= |p| || Target(p[j], p[j + 1]) >= bound then NoName
      else ReadBack(p, Target(p[j], p[j + 1]), Target(p[j], p[j + 1])).EndingAt(j + 2)
    else if j + 1 + p[j] > |p| then NoName
    else ReadBack(p, j + 1 + p[j], bound).After(p[j + 1..j + 1 + p[j]])
  }

  /** Where pointers only go back, the jump limit of the parser is never met. */
  lemma {:induction false} BackwardIsReadable(p: seq<byte>, j: nat, bound: nat, hops: nat)
    requires ReadBack(p, j, bound).Back? && bound <= hops && bound <= |p|
    ensures var name, back := NameAt(p, j, hops), ReadBack(p, j, bound);
      name.Name? && Text(name.labels) == back.text && name.end == back.end
    decreases bound, |p| - j
  {
    hide Text, NameAt, Dotted;
    ReadStep(p, j, hops);
    if p[j] == 0 {
      TextNone();
    } else if p[j] > MAX_LABEL {
      var t := Target(p[j], p[j + 1]);
      BackwardIsReadable(p, t, t, hops - 1);
    } else {
      BackwardIsReadable(p, j + 1 + p[j], bound, hops);
      TextFront(p[j + 1..j + 1 + p[j]], NameAt(p, j + 1 + p[j], hops).labels) by {
        ReadBounds(p, j + 1 + p[j], hops);
      }
    }
  }

  predicate Filled(labels: seq<seq<byte>>) {
    forall i :: 0 <= i < |labels| ==> labels[i] != []
  }

  lemma {:induction false} TextFront(lab: seq<byte>, rest: seq<seq<byte>>)
    requires Filled(rest)
    ensures Text([lab] + rest) == Dotted(lab, Text(rest))
  {
    var n := |rest|;
    if n == 0 {
      assert [lab] + rest == [lab];
    } else {
      var less, end := rest[..n - 1], rest[n - 1];
      TextFront(lab, less);
      assert [lab] + rest == ([lab] + less) + [end];
      TextMore([lab] + less, end);
      TextMore(less, end);
      assert rest == less + [end];
      TextNonempty(less);
      DottedMore(lab, Text(less), end);
    }
  }

  lemma DottedMore(lab: seq<byte>, t: seq<byte>, end: seq<byte>)
    requires end != []
    ensures Dotted(lab, t) + [DOT] + end == Dotted(lab, if t == [] then end else t + [DOT] + end)
  {
  }

  lemma TextNonempty(labels: seq<seq<byte>>)
    requires Filled(labels)
    ensures Text(labels) == [] <==> labels == []
  {
    if labels != [] {
      var n := |labels| - 1;
      assert labels == labels[..n] + [labels[n]];
      TextMore(labels[..n], labels[n]);
    }
  }

  /** What reads back still does when the message grows behind it, or with a larger bound. */
  lemma {:induction false} ReadBackLonger(p: seq<byte>, q: seq<byte>, j: nat, bound: nat, bound': nat)
    requires ReadBack(p, j, bound).Back? && Grown(p, q) && bound <= bound'
    ensures ReadBack(q, j, bound') == ReadBack(p, j, bound)
    decreases bound, |p| - j
  {
    if p[j] > MAX_LABEL {
      var t := Target(p[j], p[j + 1]);
      ReadBackLonger(p, q, t, t, t);
    } else if p[j] != 0 {
      assert p[j + 1..j + 1 + p[j]] == q[j + 1..j + 1 + p[j]];
      ReadBackLonger(p, q, j + 1 + p[j], bound, bound');
    }
  }

  /** The table entry says the truth about the message. */
  predicate Means(p: seq<byte>, e: Entry) {
    && ReadBack(p, e.pos, e.pos).Back? && ReadBack(p, e.pos, e.pos).text == Canonical(e.v)
  }

  ghost predicate TableOk(p: seq<byte>, tab: seq<Entry>) {
    forall e :: e in tab ==> Means(p, e)
  }

  lemma MeansLonger(p: seq<byte>, q: seq<byte>, e: Entry)
    requires Means(p, e) && Grown(p, q)
    ensures Means(q, e)
  {
    ReadBackLonger(p, q, e.pos, e.pos, e.pos);
  }

  /** A written pointer refers to the place meant if and only if that place is within the reach of 14 bits. */
  lemma PointerReach(ref: nat)
    ensures Target(Pointer(ref)[0], Pointer(ref)[1]) == ref <==> ref < POINTER_REACH
    ensures Pointer(ref)[0] > MAX_LABEL
  {
    PointerTarget(ref % POINTER_REACH, ref / POINTER_REACH);
  }

  /** The bytes of pointers: 14 bits behind two set ones, the high ones first. */
  lemma PointerExample()
    ensures Pointer(14) == [0xc0, 14] && Pointer(0x102) == [0xc1, 0x02] && Pointer(0x3ffe) == [0xff, 0xfe]
    ensures Target(0xc0, 14) == 14 && Target(0xc1, 0x02) == 0x102 && Target(0xff, 0xfe) == 0x3ffe
  {
  }

  lemma PointerTarget(low: nat, high: nat)
    requires low < POINTER_REACH
    ensures var bytes := Pointer(low + POINTER_REACH * high);
      bytes[0] == 0xc0 + low / 0x100 && bytes[1] == low % 0x100 && Target(bytes[0], bytes[1]) == low
  {
    var ref := low + POINTER_REACH * high;
    PointerParts(ref, low, high);
    var upper, lower := TwoBytes(low);
    TargetOf(upper, lower);
  }

  lemma PointerParts(ref: nat, low: nat, high: nat)
    requires low < POINTER_REACH && ref == low + POINTER_REACH * high
    ensures Pointer(ref) == [0xc0 + low / 0x100, low % 0x100]
  {
    MoreOfReach(low, high);
    MoreOfByte(low, 64 * high);
  }

  lemma TwoBytes(low: nat) returns (upper: nat, lower: nat)
    requires low < POINTER_REACH
    ensures upper == low / 0x100 < 64 && lower == low % 0x100 < 0x100 && low == upper * 0x100 + lower
  {
    upper, lower := low / 0x100, low % 0x100;
  }

  lemma TargetOf(upper: nat, lower: nat)
    requires upper < 64 && lower < 0x100
    ensures Target(0xc0 + upper, lower) == upper * 0x100 + lower
  {
  }

  lemma MoreOfReach(x: nat, k: nat)
    ensures (x + POINTER_REACH * k) % POINTER_REACH == x % POINTER_REACH
  {
  }

  lemma MoreOfByte(x: nat, k: nat)
    ensures (x + 0x100 * k) % 0x100 == x % 0x100
  {
  }

  lemma PointerStands(out: seq<byte>, e: Entry, base: nat)
    requires Means(out, e) && e.pos < base && e.pos < POINTER_REACH
    ensures Stands(out + Pointer(e.pos), |out|, base, e.v)
  {
    var p := out + Pointer(e.pos);
    PointerReach(e.pos);
    assert p[|out|] == Pointer(e.pos)[0] && p[|out| + 1] == Pointer(e.pos)[1];
    ReadBackLonger(out, p, e.pos, e.pos, e.pos);
  }

  /** While a name is being written, the table is true of all names no longer than what is still to be written. */
  lemma LaterTrue(out: seq<byte>, out': seq<byte>, tab: seq<Entry>, name: seq<byte>, n: nat, base: nat)
    requires Grown(out, out') && n < |name|
    requires forall e :: e in tab && |e.v| <= |name| ==> Means(out, e) && e.pos < base
    ensures forall e :: e in Remember(tab, name, |out|) && |e.v| <= n ==> Means(out', e) && e.pos < base
  {
    forall e | e in Remember(tab, name, |out|) && |e.v| <= n ensures Means(out', e) && e.pos < base {
      MeansLonger(out, out', e);
    }
  }

  /** The first label of the name is at place j. */
  ghost predicate Labelled(q: seq<byte>, j: nat, name: seq<byte>) {
    var k := First(name);
    && k <= MAX_LABEL && j + 1 + k <= |q|
    && q[j] == k && q[j + 1..j + 1 + k] == name[..k]
  }

  /** One label, in front of what reads back already, or of the end. */
  lemma LabelReads(q: seq<byte>, j: nat, name: seq<byte>, base: nat)
    requires Labelled(q, j, name)
    requires var k := First(name);
      var r := ReadBack(q, j + 1 + k, base);
      k > 0 ==> if k < |name| then r.Back? && r.text == Canonical(name[k + 1..]) else r == Back([], |q|)
    ensures var k := First(name);
      var r := ReadBack(q, j, base);
      && r.Back? && r.text == Canonical(name)
      && r.end == if k == 0 then j + 1 else ReadBack(q, j + 1 + k, base).end
  {
    hide ReadBack, Canonical, First;
    LabelStep(q, j, base);
    CanonicalStep(name);
    if First(name) == |name| {
      assert name[..First(name)] == name;
    }
  }

  ghost predicate Grown<T>(a: seq<T>, b: seq<T>) {
    a <= b
  }

  lemma GrownBy<T>(a: seq<T>, b: seq<T>)
    ensures Grown(a, a + b) && (b == [] ==> a + b == a)
  {
  }

  lemma LabelThere(out: seq<byte>, name: seq<byte>, q: seq<byte>)
    requires First(name) <= MAX_LABEL && Grown(out + Label(name), q)
    ensures Labelled(q, |out|, name)
  {
    var out', k := out + Label(name), First(name);
    assert q[|out|] == out'[|out|];
    assert q[|out| + 1..|out| + 1 + k] == out'[|out| + 1..] == Label(name)[1..];
  }

  lemma LabelStep(q: seq<byte>, j: nat, base: nat)
    requires j < |q| && q[j] <= MAX_LABEL && j + 1 + q[j] <= |q|
    ensures ReadBack(q, j, base) ==
      if q[j] == 0 then Back([], j + 1) else ReadBack(q, j + 1 + q[j], base).After(q[j + 1..j + 1 + q[j]])
  {
  }

  lemma EndReads(q: seq<byte>, j: nat, base: nat)
    requires j < |q| && q[j] == 0
    ensures ReadBack(q, j, base) == Back([], j + 1)
  {
  }

  lemma CanonicalStep(name: seq<byte>)
    ensures var k := First(name);
      Canonical(name) == if k == 0 then [] else if k == |name| then name else Dotted(name[..k], Canonical(name[k + 1..]))
  {
    hide First, Dotted;
  }

  lemma ProperStep(name: seq<byte>)
    ensures Proper(name) <==> First(name) == |name| || (First(name) > 0 && Proper(name[First(name) + 1..]))
  {
  }

  lemma WriteStep(out: seq<byte>, lim: nat, name: seq<byte>, tab: seq<Entry>, useTable: bool)
    ensures var w, hit, k := Write(out, lim, name, tab, useTable), Find(tab, name), First(name);
      if useTable && hit < |tab| then
        w == if |out| + 2 > lim then Written(NoRoom, out, tab) else Written(Done, out + Pointer(tab[hit].pos), tab)
      else if k > MAX_LABEL || |out| + k + 1 > lim then
        w == Written(if k > MAX_LABEL then LabelTooLong else NoRoom, out, tab)
      else
        var tab' := if useTable then Remember(tab, name, |out|) else tab;
        var out' := out + Label(name);
        w == if k < |name| then Write(out', lim, name[k + 1..], tab', useTable)
             else Written(Done, if k == 0 then out' else out' + [0], tab')
  {
    hide First, Find, Label, Pointer, Remember;
  }

  lemma GrownTwice<T>(a: seq<T>, b: seq<T>, c: seq<T>)
    requires Grown(a + b, c)
    ensures Grown(a, c)
  {
    assert a == (a + b)[..|a|] == c[..|a|];
  }

  lemma RememberGrows(tab: seq<Entry>, name: seq<byte>, pos: nat, tab'': seq<Entry>)
    requires Grown(Remember(tab, name, pos), tab'')
    ensures Grown(tab, tab'')
  {
    if |tab| < MAX_LABELS {
      GrownTwice(tab, [Entry(name, pos)], tab'');
    }
  }

  /** Are all labels short enough? */
  predicate ShortLabels(name: seq<byte>)
    decreases |name|
  {
    First(name) <= MAX_LABEL && (First(name) < |name| ==> ShortLabels(name[First(name) + 1..]))
  }

  /** Does the table know neither the name nor what is left of it behind any of its labels? */
  predicate Unseen(name: seq<byte>, tab: seq<Entry>)
    decreases |name|
  {
    Find(tab, name) == |tab| && (First(name) < |name| ==> Unseen(name[First(name) + 1..], tab))
  }

  /** Does the name end in a label that is not empty? */
  predicate Open(name: seq<byte>) {
    name != [] && name[|name| - 1] != DOT
  }

  /** Is there room for the labels of the name, but not for the zero behind them? */
  predicate Full(size: nat, lim: nat, name: seq<byte>, tab: seq<Entry>, useTable: bool) {
    && Open(name) && size + |name| + 1 == lim
    && ShortLabels(name) && (useTable ==> Unseen(name, tab))
  }

  /** Is a pointer written, or nothing? */
  predicate Stops(size: nat, lim: nat, name: seq<byte>, tab: seq<Entry>, useTable: bool) {
    (useTable && Find(tab, name) < |tab|) || First(name) > MAX_LABEL || size + First(name) + 1 > lim
  }

  lemma StopsNotFull(size: nat, lim: nat, name: seq<byte>, tab: seq<Entry>, useTable: bool)
    requires Stops(size, lim, name, tab, useTable)
    ensures !Full(size, lim, name, tab, useTable)
  {
  }

  lemma LastFull(size: nat, lim: nat, name: seq<byte>, tab: seq<Entry>, useTable: bool)
    requires !Stops(size, lim, name, tab, useTable) && First(name) == |name|
    ensures Full(size, lim, name, tab, useTable) <==> name != [] && size + |name| + 1 == lim
  {
    hide Find;
    FirstIsAll(name);
  }

  lemma MoreFull(size: nat, lim: nat, name: seq<byte>, tab: seq<Entry>, useTable: bool, pos: nat)
    requires !Stops(size, lim, name, tab, useTable) && First(name) < |name|
    ensures var k := First(name);
      Full(size, lim, name, tab, useTable) <==> Full(size + k + 1, lim, name[k + 1..], Later(tab, name, pos, useTable), useTable)
  {
    hide *;
    GoesOn(size, lim, name, tab, useTable);
    FullRest(size, lim, name, tab, useTable, pos);
  }

  lemma GoesOn(size: nat, lim: nat, name: seq<byte>, tab: seq<Entry>, useTable: bool)
    requires !Stops(size, lim, name, tab, useTable)
    ensures First(name) <= MAX_LABEL && (useTable ==> Find(tab, name) == |tab|)
  {
    hide First, Find;
  }

  lemma FullRest(size: nat, lim: nat, name: seq<byte>, tab: seq<Entry>, useTable: bool, pos: nat)
    requires First(name) < |name| && First(name) <= MAX_LABEL && (useTable ==> Find(tab, name) == |tab|)
    ensures var k := First(name);
      Full(size, lim, name, tab, useTable) <==> Full(size + k + 1, lim, name[k + 1..], Later(tab, name, pos, useTable), useTable)
  {
    hide Find, First, Remember, Open, ShortLabels, Unseen;
    OpenRest(name, First(name));
    ShortRest(name);
    UnseenRest(name, tab);
    UnseenLater(name[First(name) + 1..], tab, name, pos);
  }

  lemma OpenRest(name: seq<byte>, k: nat)
    requires k < |name| && name[k] == DOT
    ensures Open(name) <==> Open(name[k + 1..])
  {
  }

  lemma ShortRest(name: seq<byte>)
    requires First(name) < |name|
    ensures ShortLabels(name) <==> First(name) <= MAX_LABEL && ShortLabels(name[First(name) + 1..])
  {
    hide First;
  }

  lemma UnseenRest(name: seq<byte>, tab: seq<Entry>)
    requires First(name) < |name|
    ensures Unseen(name, tab) <==> Find(tab, name) == |tab| && Unseen(name[First(name) + 1..], tab)
  {
    hide First, Find;
  }

  /** The table behind a first label. */
  function Later(tab: seq<Entry>, name: seq<byte>, pos: nat, useTable: bool): seq<Entry> {
    if useTable then Remember(tab, name, pos) else tab
  }

  lemma {:induction false} FirstIsAll(name: seq<byte>)
    requires First(name) == |name|
    ensures name != [] ==> name[|name| - 1] != DOT
  {
    if |name| > 1 {
      FirstIsAll(name[1..]);
    }
  }

  /** An entry for a longer name does not matter. */
  lemma {:induction false} UnseenLater(rest: seq<byte>, tab: seq<Entry>, name: seq<byte>, pos: nat)
    requires |rest| < |name|
    ensures Unseen(rest, Remember(tab, name, pos)) <==> Unseen(rest, tab)
    decreases |rest|
  {
    FindLater(rest, tab, name, pos);
    hide Find, Remember, First;
    if First(rest) < |rest| {
      UnseenLater(rest[First(rest) + 1..], tab, name, pos);
    }
  }

  lemma FindLater(rest: seq<byte>, tab: seq<Entry>, name: seq<byte>, pos: nat)
    requires |rest| < |name|
    ensures Find(Remember(tab, name, pos), rest) == |Remember(tab, name, pos)| <==> Find(tab, rest) == |tab|
  {
    var tab' := Remember(tab, name, pos);
    assert forall i :: 0 <= i < |tab| ==> tab'[i] == tab[i];
    var k := Find(tab', rest);
    hide Find, Remember;
    if Find(tab, rest) < |tab| {
      assert tab'[Find(tab, rest)].v == rest;
    }
  }

  lemma WriteStops(out: seq<byte>, lim: nat, name: seq<byte>, tab: seq<Entry>, useTable: bool)
    requires Stops(|out|, lim, name, tab, useTable)
    ensures var w := Write(out, lim, name, tab, useTable);
      Grown(out, w.out) && w.tab == tab && Grown(tab, tab) && (|out| <= lim ==> |w.out| <= lim)
  {
    hide Find, First, Label, Pointer, Remember, Grown;
    WriteStep(out, lim, name, tab, useTable);
    GrownBy(out, []);
    GrownBy(tab, []);
    if useTable && Find(tab, name) < |tab| {
      GrownBy(out, Pointer(tab[Find(tab, name)].pos));
    }
  }

  lemma WriteLast(out: seq<byte>, lim: nat, name: seq<byte>, tab: seq<Entry>, useTable: bool)
    requires !Stops(|out|, lim, name, tab, useTable) && First(name) == |name|
    ensures var w := Write(out, lim, name, tab, useTable);
      && |w.out| == |out| + |name| + 1 + (if name == [] then 0 else 1)
      && Grown(out + Label(name), w.out) && Grown(Later(tab, name, |out|, useTable), w.tab)
  {
    hide Find, First, Label, Pointer, Remember, Grown;
    WriteStep(out, lim, name, tab, useTable);
    GrownBy(out + Label(name), if name == [] then [] else [0]);
    GrownBy(Later(tab, name, |out|, useTable), []);
  }

  lemma WriteMore(out: seq<byte>, lim: nat, name: seq<byte>, tab: seq<Entry>, useTable: bool)
    requires !Stops(|out|, lim, name, tab, useTable) && First(name) < |name|
    ensures Write(out, lim, name, tab, useTable) ==
      Write(out + Label(name), lim, name[First(name) + 1..], Later(tab, name, |out|, useTable), useTable)
  {
    hide Find, First, Label, Pointer, Remember;
    WriteStep(out, lim, name, tab, useTable);
  }

  /** The writer stays within the room for labels, unless that ends exactly where the zero behind a name should be. */
  lemma {:induction false} WriteExceeds(out: seq<byte>, lim: nat, name: seq<byte>, tab: seq<Entry>, useTable: bool)
    requires |out| <= lim
    ensures |Write(out, lim, name, tab, useTable).out| > lim <==> Full(|out|, lim, name, tab, useTable)
    decreases |name|
  {
    hide Write, Full, Label, Later, First, Find;
    if Stops(|out|, lim, name, tab, useTable) {
      WriteStops(out, lim, name, tab, useTable);
      StopsNotFull(|out|, lim, name, tab, useTable);
    } else if First(name) == |name| {
      WriteLast(out, lim, name, tab, useTable);
      LastFull(|out|, lim, name, tab, useTable);
    } else {
      WriteMore(out, lim, name, tab, useTable);
      MoreFull(|out|, lim, name, tab, useTable, |out|);
      WriteExceeds(out + Label(name), lim, name[First(name) + 1..], Later(tab, name, |out|, useTable), useTable);
    }
  }

  /** Nothing that was written or remembered before is lost. */
  lemma {:induction false} WriteGrows(out: seq<byte>, lim: nat, name: seq<byte>, tab: seq<Entry>, useTable: bool)
    ensures var w := Write(out, lim, name, tab, useTable); Grown(out, w.out) && Grown(tab, w.tab)
    decreases |name|
  {
    hide Write, Find, First, Grown, Label, Remember, Later;
    var w := Write(out, lim, name, tab, useTable);
    if Stops(|out|, lim, name, tab, useTable) {
      WriteStops(out, lim, name, tab, useTable);
    } else {
      if First(name) == |name| {
        WriteLast(out, lim, name, tab, useTable);
      } else {
        WriteMore(out, lim, name, tab, useTable);
        WriteGrows(out + Label(name), lim, name[First(name) + 1..], Later(tab, name, |out|, useTable), useTable);
      }
      GrownTwice(out, Label(name), w.out);
      LaterGrows(tab, name, |out|, useTable, w.tab);
    }
  }

  lemma LaterGrows(tab: seq<Entry>, name: seq<byte>, pos: nat, useTable: bool, tab'': seq<Entry>)
    requires Grown(Later(tab, name, pos, useTable), tab'')
    ensures Grown(tab, tab'')
  {
    if useTable {
      RememberGrows(tab, name, pos, tab'');
    }
  }

  /** The writer uses at most one byte behind the room for labels; and that if and only if the name fills it exactly. */
  lemma WriteBounds(out: seq<byte>, lim: nat, name: seq<byte>, tab: seq<Entry>, useTable: bool)
    requires |out| <= lim
    ensures |out| <= |Write(out, lim, name, tab, useTable).out| <= lim + if Full(|out|, lim, name, tab, useTable) then 1 else 0
    ensures Full(|out|, lim, name, tab, useTable) ==> |Write(out, lim, name, tab, useTable).out| == lim + 1
  {
    hide Write, Full;
    OneMoreAtMost(out, lim, name, tab, useTable);
    WriteExceeds(out, lim, name, tab, useTable);
  }

  lemma {:induction false} OneMoreAtMost(out: seq<byte>, lim: nat, name: seq<byte>, tab: seq<Entry>, useTable: bool)
    requires |out| <= lim
    ensures |out| <= |Write(out, lim, name, tab, useTable).out| <= lim + 1
    decreases |name|
  {
    hide Write, Find, First, Label, Later, Grown;
    if Stops(|out|, lim, name, tab, useTable) {
      WriteStops(out, lim, name, tab, useTable);
      LongerGrown(out, Write(out, lim, name, tab, useTable).out);
    } else if First(name) == |name| {
      WriteLast(out, lim, name, tab, useTable);
    } else {
      WriteMore(out, lim, name, tab, useTable);
      OneMoreAtMost(out + Label(name), lim, name[First(name) + 1..], Later(tab, name, |out|, useTable), useTable);
    }
  }

  lemma LongerGrown<T>(a: seq<T>, b: seq<T>)
    requires Grown(a, b)
    ensures |a| <= |b|
  {
  }

  /** The name stands at place j of q, at its end, with pointers only to places before base. */
  ghost predicate Stands(q: seq<byte>, j: nat, base: nat, name: seq<byte>) {
    var r := ReadBack(q, j, base);
    r.Back? && r.text == Canonical(name) && (Proper(name) ==> r.end == |q|)
  }

  lemma LabelWritten(out: seq<byte>, q: seq<byte>, name: seq<byte>, base: nat)
    requires base <= |out| && First(name) <= MAX_LABEL && Grown(out + Label(name), q)
    requires var k := First(name);
      if k < |name| then Stands(q, |out + Label(name)|, base, name[k + 1..])
      else |q| == |out| + 1 + k + (if k == 0 then 0 else 1) && (k > 0 ==> q[|q| - 1] == 0)
    ensures Stands(q, |out|, base, name)
  {
    hide Grown, Canonical, ReadBack, First, Label, Proper, Labelled;
    LabelThere(out, name, q);
    if 0 < First(name) == |name| {
      EndReads(q, |q| - 1, base);
    }
    ProperStep(name);
    LabelReads(q, |out|, name, base);
  }

  /**
    What Write wrote reads back as the name, and every entry it added to the table is true of the message. Where there is
    room for a pointer, all entries are within its reach, if lim does not exceed that reach by more than a pointer.
    */
  lemma {:induction false} WriteReads(out: seq<byte>, lim: nat, name: seq<byte>, tab: seq<Entry>, useTable: bool, base: nat)
    requires base <= |out| && lim <= POINTER_REACH + 2
    requires useTable ==> forall e :: e in tab && |e.v| <= |name| ==> Means(out, e) && e.pos < base
    requires Write(out, lim, name, tab, useTable).status.Done?
    ensures var w := Write(out, lim, name, tab, useTable);
      Stands(w.out, |out|, base, name) && forall i :: |tab| <= i < |w.tab| ==> Means(w.out, w.tab[i])
    decreases |name|
  {
    WriteStep(out, lim, name, tab, useTable);
    hide Means, Write, Stands, Grown, Label, First, Remember;
    var hit, k := Find(tab, name), First(name);
    var tab' := if useTable then Remember(tab, name, |out|) else tab;
    if useTable && hit < |tab| {
      assert tab[hit] in tab;
      PointerStands(out, tab[hit], base);
    } else if k < |name| {
      if useTable {
        GrownBy(out, Label(name));
        LaterTrue(out, out + Label(name), tab, name, |name| - k - 1, base);
      }
      WriteReads(out + Label(name), lim, name[k + 1..], tab', useTable, base);
      WriteGrows(out + Label(name), lim, name[k + 1..], tab', useTable);
      var w := Write(out, lim, name, tab, useTable);
      LabelWritten(out, w.out, name, base);
      NewEntries(out, w.out, name, tab, tab', w.tab, base);
    } else {
      LastLabel(out, Write(out, lim, name, tab, useTable).out, name, tab, tab', base);
    }
  }

  lemma LastLabel(out: seq<byte>, q: seq<byte>, name: seq<byte>, tab: seq<Entry>, tab': seq<Entry>, base: nat)
    requires base <= |out| && First(name) == |name| <= MAX_LABEL
    requires q == if name == [] then out + Label(name) else out + Label(name) + [0]
    requires tab' == tab || tab' == Remember(tab, name, |out|)
    ensures Stands(q, |out|, base, name) && forall i :: |tab| <= i < |tab'| ==> Means(q, tab'[i])
  {
    hide Means, Stands, Grown, Label, First;
    GrownBy(out + Label(name), []);
    GrownBy(out + Label(name), [0]);
    GrownBy(tab', []);
    LabelWritten(out, q, name, base);
    NewEntries(out, q, name, tab, tab', tab', base);
  }

  lemma NewEntries(out: seq<byte>, q: seq<byte>, name: seq<byte>, tab: seq<Entry>, tab': seq<Entry>, tab'': seq<Entry>, base: nat)
    requires base <= |out| && Stands(q, |out|, base, name)
    requires tab' == tab || tab' == Remember(tab, name, |out|)
    requires Grown(tab', tab'')
    ensures forall i :: |tab| <= i < |tab'| ==> Means(q, tab''[i])
  {
    hide Means, Canonical, ReadBack;
    NewEntryTrue(out, q, name, base);
    if |tab| < |tab'| {
      assert tab''[|tab|] == tab'[|tab|];
    }
  }

  lemma NewEntryTrue(out: seq<byte>, q: seq<byte>, name: seq<byte>, base: nat)
    requires base <= |out| && Stands(q, |out|, base, name)
    ensures Means(q, Entry(name, |out|))
  {
    ReadBackLonger(q, q, |out|, base, |out|);
  }
}
