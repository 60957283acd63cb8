/** The tagged wire format, as values: integers packed by nibbles, tags of seven bits a byte, and the records made of them. */
module TagCodec {

  import opened Machine

  type nibble = n: int | 0 <= n < 16

  /** Something read, and how many bytes it took. */
  datatype Num = Num(value: nat, size: nat)

  // ----- integers -----

  function Pow16(k: nat): (p: nat)
    ensures p > 0
  {
    if k == 0 then 1 else 16 * Pow16(k - 1)
  }

  /** The hexadecimal digits, the least significant first. */
  function Digits(n: nat): seq<nibble> {
    if n == 0 then [] else [n % 16] + Digits(n / 16)
  }

  function ValueOf(ds: seq<nibble>): nat
    decreases |ds|
  {
    if ds == [] then 0 else ds[0] + 16 * ValueOf(ds[1..])
  }

  lemma {:induction false} DigitsAreTheNumber(n: nat)
    ensures ValueOf(Digits(n)) == n
  {
    if n != 0 {
      DigitsAreTheNumber(n / 16);
      assert Digits(n)[1..] == Digits(n / 16);
    }
  }

  lemma {:induction false} DigitsFew(n: nat, k: nat)
    ensures n < Pow16(k) <==> |Digits(n)| <= k
  {
    if n != 0 && k != 0 {
      DigitsFew(n / 16, k - 1);
    }
  }

  /** The nibbles of an encoded integer: how many digits follow the first one, and then the digits. */
  function NibbleOf(ds: seq<nibble>, j: nat): nibble {
    if j == 0 then (if |ds| > 1 then (|ds| - 1) % 16 else 0)
    else if j <= |ds| then ds[j - 1] else 0
  }

  function ByteOf(ds: seq<nibble>, i: nat): byte {
    16 * NibbleOf(ds, 2 * i) + NibbleOf(ds, 2 * i + 1)
  }

  /** An integer on the wire: its nibbles, two in a byte, the first one in the upper half. */
  function EncodedInt(n: u64): seq<byte> {
    var ds := Digits(n);
    seq(|ds| / 2 + 1, i requires 0 <= i => ByteOf(ds, i))
  }

  function NibbleAt(bs: seq<byte>, j: nat): nibble
    requires j / 2 < |bs|
  {
    if j % 2 == 0 then bs[j / 2] / 16 else bs[j / 2] % 16
  }

  /** What the digits from place k to place d amount to. */
  function ValueFrom(bs: seq<byte>, k: nat, d: nat): (v: nat)
    requires k <= d && d / 2 < |bs|
    ensures v < Pow16(d - k)
    decreases d - k
  {
    if k == d then 0 else NibbleAt(bs, k + 1) + 16 * ValueFrom(bs, k + 1, d)
  }

  /** What is read of an integer with at most this many digits. */
  function DecodedInt(bs: seq<byte>, maxNibbles: nat): Option<Num> {
    if bs == [] then None
    else
      var d := bs[0] / 16 + 1;
      if d > maxNibbles || d / 2 + 1 > |bs| then None else Some(Num(ValueFrom(bs, 0, d), d / 2 + 1))
  }

  lemma {:induction false} DigitsRead(bs: seq<byte>, ds: seq<nibble>, k: nat)
    requires k <= |ds| && |ds| / 2 < |bs|
    requires forall j :: 1 <= j <= |ds| ==> NibbleAt(bs, j) == ds[j - 1]
    ensures ValueFrom(bs, k, |ds|) == ValueOf(ds[k..])
    decreases |ds| - k
  {
    if k < |ds| {
      DigitsRead(bs, ds, k + 1);
      assert ds[k..][1..] == ds[k + 1..];
      assert NibbleAt(bs, k + 1) == ds[k];
    }
  }

  lemma Halves(a: nibble, b: nibble)
    ensures (16 * a + b) / 16 == a && (16 * a + b) % 16 == b
  {
  }

  lemma ByteNibbles(bs: seq<byte>, ds: seq<nibble>, j: nat)
    requires j / 2 < |bs| && bs[j / 2] == ByteOf(ds, j / 2)
    ensures NibbleAt(bs, j) == NibbleOf(ds, j)
  {
    var i := j / 2;
    Halves(NibbleOf(ds, 2 * i), NibbleOf(ds, 2 * i + 1));
    hide NibbleOf;
    if j % 2 == 0 {
      assert j == 2 * i;
    } else {
      assert j == 2 * i + 1;
    }
  }

  /** The bytes hold these digits, and how many there are. */
  ghost predicate Holds(bs: seq<byte>, ds: seq<nibble>) {
    |ds| / 2 < |bs| && forall j: nat :: j <= |ds| || j == 1 ==> NibbleAt(bs, j) == NibbleOf(ds, j)
  }

  lemma EncodedHolds(n: u64, rest: seq<byte>)
    ensures Holds(EncodedInt(n) + rest, Digits(n)) && |EncodedInt(n)| == |Digits(n)| / 2 + 1
  {
    var ds, bs := Digits(n), EncodedInt(n) + rest;
    hide NibbleOf, NibbleAt, ByteOf;
    forall j: nat | j <= |ds| || j == 1
      ensures NibbleAt(bs, j) == NibbleOf(ds, j)
    {
      assert j / 2 <= |ds| / 2;
      assert bs[j / 2] == EncodedInt(n)[j / 2] == ByteOf(ds, j / 2);
      ByteNibbles(bs, ds, j);
    }
  }

  lemma HoldsFirst(bs: seq<byte>, ds: seq<nibble>)
    requires Holds(bs, ds)
    ensures |ds| / 2 < |bs| && NibbleAt(bs, 0) == NibbleOf(ds, 0) && NibbleAt(bs, 1) == NibbleOf(ds, 1)
  {
  }

  lemma HoldsValue(bs: seq<byte>, ds: seq<nibble>, maxNibbles: nat)
    requires Holds(bs, ds) && |ds| <= maxNibbles <= 16 && maxNibbles > 0
    ensures DecodedInt(bs, maxNibbles) == Some(Num(ValueOf(ds), |ds| / 2 + 1))
  {
    hide NibbleOf, ValueFrom, ValueOf, Holds;
    HoldsFirst(bs, ds);
    if ds == [] {
      HoldsNothing(bs);
    } else {
      CountOf(ds);
      DigitsHeld(bs, ds);
      assert ds[0..] == ds;
    }
  }

  lemma CountOf(ds: seq<nibble>)
    requires 1 <= |ds| <= 16
    ensures NibbleOf(ds, 0) == |ds| - 1
  {
  }

  lemma DigitsHeld(bs: seq<byte>, ds: seq<nibble>)
    requires Holds(bs, ds) && ds != []
    ensures |ds| / 2 < |bs| && ValueFrom(bs, 0, |ds|) == ValueOf(ds[0..])
  {
    hide ValueFrom, ValueOf, NibbleAt;
    DigitsRead(bs, ds, 0);
  }

  lemma HoldsNothing(bs: seq<byte>)
    requires bs != [] && Holds(bs, [])
    ensures NibbleOf([], 0) == 0 && ValueFrom(bs, 0, 1) == ValueOf([])
  {
    assert NibbleAt(bs, 1) == NibbleOf([], 1);
    assert ValueFrom(bs, 1, 1) == 0;
  }

  /** An encoded integer is read back, and what follows it is not touched. */
  lemma IntRoundTrip(n: u64, rest: seq<byte>, maxNibbles: nat)
    requires 1 <= maxNibbles <= 16 && n < Pow16(maxNibbles)
    ensures DecodedInt(EncodedInt(n) + rest, maxNibbles) == Some(Num(n, |EncodedInt(n)|))
  {
    hide DecodedInt, EncodedInt, Holds, Digits, ValueOf, Pow16;
    DigitsFew(n, maxNibbles);
    DigitsAreTheNumber(n);
    EncodedHolds(n, rest);
    HoldsValue(EncodedInt(n) + rest, Digits(n), maxNibbles);
  }

  /** No encoding of the same integer that is accepted is shorter. */
  lemma EncodingIsShortest(bs: seq<byte>, maxNibbles: nat, n: u64, size: nat)
    requires DecodedInt(bs, maxNibbles) == Some(Num(n, size))
    ensures |EncodedInt(n)| <= size
  {
    DigitsFew(n, bs[0] / 16 + 1);
  }

  function Reversed<T>(s: seq<T>): (r: seq<T>)
    ensures |r| == |s|
  {
    if s == [] then [] else Reversed(s[1..]) + [s[0]]
  }

  /** An integer as the description of the format has it: the most significant digit first, and a zero if needed at the end. */
  function DocumentedInt(n: u64): seq<byte> {
    var ds := Reversed(Digits(n));
    seq(|ds| / 2 + 1, i requires 0 <= i => ByteOf(ds, i))
  }

  /** The code has the least significant digit first: the same for just those integers that read the same in both directions. */
  lemma DigitsAreLowFirst(n: u64)
    ensures EncodedInt(n) == DocumentedInt(n) <==> Reversed(Digits(n)) == Digits(n)
  {
    var ds := Digits(n);
    var back := Reversed(ds);
    if EncodedInt(n) == DocumentedInt(n) {
      hide NibbleAt, ByteOf, NibbleOf;
      forall k | 0 <= k < |ds| ensures ds[k] == back[k] {
        var bs, j := EncodedInt(n), k + 1;
        assert bs[j / 2] == DocumentedInt(n)[j / 2];
        ByteNibbles(bs, ds, j);
        ByteNibbles(bs, back, j);
        DigitNibble(ds, j);
        DigitNibble(back, j);
      }
    }
  }

  lemma DigitNibble(ds: seq<nibble>, j: nat)
    requires 1 <= j <= |ds|
    ensures NibbleOf(ds, j) == ds[j - 1]
  {
  }

  // ----- tags -----

  /** A tag on the wire: seven bits a byte, the low ones first, and the high bit set in all bytes but the last. */
  function EncodedTag(t: u32): seq<byte> {
    if t < 128 then [t] else [128 + t % 128] + EncodedTag(t / 128)
  }

  /** The seven bits in each byte of a tag, the low ones first. */
  function Groups(t: nat): (gs: seq<nat>)
    ensures |gs| > 0 && forall i :: 0 <= i < |gs| ==> gs[i] < 128
  {
    if t < 128 then [t] else [t % 128] + Groups(t / 128)
  }

  /** All that are in front of the last byte. */
  function Marked(gs: seq<nat>): seq<nat> {
    seq(|gs|, i requires 0 <= i < |gs| => gs[i] + 128)
  }

  /** Bytes of seven bits each, the high bit set in all but the last. */
  function SevenBits(gs: seq<nat>): seq<nat>
    requires gs != []
  {
    Marked(gs[..|gs| - 1]) + [gs[|gs| - 1]]
  }

  /** A tag as the description of the format has it: the seven bits of all bytes one after another are the tag. */
  function DocumentedTag(t: u32): seq<nat> {
    SevenBits(Reversed(Groups(t)))
  }

  lemma {:induction false} TagIsGroups(t: u32)
    ensures EncodedTag(t) == SevenBits(Groups(t))
    decreases t
  {
    if t >= 128 {
      TagIsGroups(t / 128);
      var gs := Groups(t / 128);
      assert ([t % 128] + gs)[..|gs|] == [t % 128] + gs[..|gs| - 1];
    }
  }

  lemma SevenBitsOnce(a: seq<nat>, b: seq<nat>)
    requires |a| == |b| > 0 && SevenBits(a) == SevenBits(b)
    ensures a == b
  {
    var n := |a| - 1;
    forall i | 0 <= i <= n ensures a[i] == b[i] {
      assert SevenBits(a)[i] == SevenBits(b)[i];
    }
  }

  /** The code has the low bits first: that is what is documented for just those tags that read the same in both directions. */
  lemma TagsAreLowFirst(t: u32)
    ensures EncodedTag(t) == DocumentedTag(t) <==> Reversed(Groups(t)) == Groups(t)
  {
    TagIsGroups(t);
    hide SevenBits;
    if EncodedTag(t) == DocumentedTag(t) {
      SevenBitsOnce(Groups(t), Reversed(Groups(t)));
    }
  }

  /** The example of the description. */
  lemma TagExample()
    ensures EncodedTag(0x66) == DocumentedTag(0x66) == [0x66]
    ensures EncodedTag(0x166) == [0xe6, 0x02] && DocumentedTag(0x166) == [0x82, 0x66]
  {
    assert Groups(2) == [2];
    assert Groups(0x166) == [0x66, 2];
    assert EncodedTag(2) == [2];
    assert Reversed([2]) == [2];
    assert Reversed([0x66, 2]) == [2, 0x66];
    assert Reversed([0x66]) == [0x66];
  }

  /** What is read of a tag, of which i bytes have been read already. */
  function DecodedTag(bs: seq<byte>, i: nat): Option<Num>
    decreases |bs|
  {
    if bs == [] || i > 4 || (i == 4 && bs[0] % 128 > 15) then None
    else if bs[0] < 128 then Some(Num(bs[0], 1))
    else
      var more := DecodedTag(bs[1..], i + 1);
      if more.None? then None else Some(Num(bs[0] % 128 + 128 * more.value.value, more.value.size + 1))
  }

  /** What the tag can be at most, from its byte i on. */
  function TagLimit(i: nat): nat {
    if i == 0 then TWO_32 else if i == 1 then 0x200_0000 else if i == 2 then 0x4_0000
    else if i == 3 then 0x800 else if i == 4 then 16 else 0
  }

  lemma {:induction false} DecodedTagFits(bs: seq<byte>, i: nat)
    ensures var t := DecodedTag(bs, i); t.Some? ==> t.value.value < TagLimit(i) && 1 <= t.value.size <= |bs| && t.value.size + i <= 5
    decreases |bs|
  {
    if bs != [] && i <= 4 {
      DecodedTagFits(bs[1..], i + 1);
    }
  }

  /** An encoded tag is read back, and what follows it is not touched. */
  lemma {:induction false} TagRoundTrip(t: u32, rest: seq<byte>, i: nat)
    requires t < TagLimit(i)
    ensures DecodedTag(EncodedTag(t) + rest, i) == Some(Num(t, |EncodedTag(t)|))
    decreases t
  {
    var bs := EncodedTag(t) + rest;
    if t < 128 {
      assert bs[0] == t;
    } else {
      TagRoundTrip(t / 128, rest, i + 1);
      assert bs[1..] == EncodedTag(t / 128) + rest;
    }
  }

  // ----- records -----

  datatype Record =
    | Data(tag: u32, payload: seq<byte>)
    | Int(tag: u32, n: u32)
    | Int64(tag: u32, wide: u64)
    | Time(tag: u32, sec: u32, usec: u32)
  {
    function Payload(): seq<byte> {
      match this
      case Data(_, payload) => payload
      case Int(_, n) => EncodedInt(n)
      case Int64(_, n) => EncodedInt(n)
      case Time(_, sec, usec) => EncodedInt(sec) + EncodedInt(usec)
    }

    /** Its length can be written. */
    predicate Fits() {
      |Payload()| < TWO_32
    }

    /** Its length is one that an int can hold. */
    predicate Ok() {
      |Payload()| <= INT_MAX
    }

    function Encoded(): seq<byte>
      requires Fits()
    {
      EncodedTag(tag) + EncodedInt(|Payload()|) + Payload()
    }

    function Shape(): Shape {
      match this
      case Data(_, _) => ADatum
      case Int(_, _) => AnInt(tag)
      case Int64(_, _) => AnInt64(tag)
      case Time(_, _, _) => ATime(tag)
    }
  }

  /** What a reader asks for: any datum, or a number or a time with a given tag. */
  datatype Shape = ADatum | AnInt(need: u32) | AnInt64(need: u32) | ATime(need: u32)

  /** What came of reading, and the bytes that are left. Failing uses up bytes, too. */
  datatype Outcome<T> = Got(value: T, rest: seq<byte>) | Failed(rest: seq<byte>)

  datatype Header = Header(tag: u32, len: u32)

  function ReadTag(bs: seq<byte>): Outcome<u32> {
    DecodedTagFits(bs, 0);
    var t := DecodedTag(bs, 0);
    if t.None? then Failed(bs) else Got(t.value.value, bs[t.value.size..])
  }

  /** A record of each kind on the wire, as bytes. */
  lemma RecordExamples()
    ensures Data(0x66, [7, 8, 9]).Encoded() == [0x66, 0x03, 7, 8, 9]
    ensures Int(0x166, 0x345).Encoded() == [0xe6, 0x02, 0x02, 0x25, 0x43]
    ensures Int64(5, 0).Encoded() == [0x05, 0x01, 0x00]
    ensures Time(5, 0x12, 0x345).Encoded() == [0x05, 0x04, 0x12, 0x10, 0x25, 0x43]
  {
    IntExamples();
    assert EncodedTag(2) == [2];
  }

  lemma IntExamples()
    ensures EncodedInt(0) == [0x00] && EncodedInt(1) == [0x01] && EncodedInt(2) == [0x02] && EncodedInt(3) == [0x03]
    ensures EncodedInt(4) == [0x04] && EncodedInt(0x12) == [0x12, 0x10] && EncodedInt(0x345) == [0x25, 0x43]
  {
    SmallInts();
    assert Digits(1) == [1] && Digits(3) == [3];
    assert Digits(0x12) == [2, 1];
    assert Digits(0x34) == [4, 3];
    assert Digits(0x345) == [5, 4, 3];
    hide Digits, EncodedInt;
    EncodedAs(0x12, [2, 1], [0x12, 0x10]);
    EncodedAs(0x345, [5, 4, 3], [0x25, 0x43]);
  }

  lemma SmallInts()
    ensures EncodedInt(0) == [0x00] && EncodedInt(1) == [0x01] && EncodedInt(2) == [0x02] && EncodedInt(3) == [0x03]
    ensures EncodedInt(4) == [0x04]
  {
    OneDigit(1);
    OneDigit(2);
    OneDigit(3);
    OneDigit(4);
    EncodedAs(0, [], [0]);
  }

  lemma OneDigit(n: u64)
    requires 0 < n < 16
    ensures EncodedInt(n) == [n]
  {
    assert Digits(n) == [n];
    EncodedAs(n, [n], [n]);
  }

  lemma EncodedAs(n: u64, ds: seq<nibble>, bytes: seq<byte>)
    requires Digits(n) == ds && |bytes| == |ds| / 2 + 1 && forall i :: 0 <= i < |bytes| ==> bytes[i] == ByteOf(ds, i)
    ensures EncodedInt(n) == bytes
  {
  }

  lemma Pow16Small()
    ensures Pow16(8) == TWO_32 && Pow16(16) == TWO_64
  {
    assert Pow16(4) == 0x1_0000;
    assert Pow16(8) == TWO_32;
    assert Pow16(12) == 0x1_0000_0000_0000;
  }

  lemma {:induction false} Pow16Mono(a: nat, b: nat)
    requires a <= b
    ensures Pow16(a) <= Pow16(b)
  {
    if a < b {
      Pow16Mono(a, b - 1);
    }
  }

  /** Nothing that is read is too large for the integer it is read into. */
  lemma DecodedIntFits(bs: seq<byte>, maxNibbles: nat)
    ensures var n := DecodedInt(bs, maxNibbles); n.Some? ==> n.value.value < Pow16(maxNibbles) && 1 <= n.value.size <= |bs|
  {
    hide Pow16;
    if bs != [] && bs[0] / 16 + 1 <= maxNibbles {
      Pow16Mono(bs[0] / 16 + 1, maxNibbles);
    }
  }

  function ReadInt(bs: seq<byte>): Outcome<u32> {
    DecodedIntFits(bs, 8);
    Pow16Small();
    var n := DecodedInt(bs, 8);
    if n.None? then Failed(bs) else Got(n.value.value, bs[n.value.size..])
  }

  function ReadHeader(bs: seq<byte>): Outcome<Header> {
    match ReadTag(bs)
    case Failed(rest) => Failed(rest)
    case Got(tag, rest) =>
      match ReadInt(rest)
      case Failed(rest') => Failed(rest')
      case Got(len, rest') => if |rest'| < len then Failed(rest') else Got(Header(tag, len), rest')
  }

  /** A length as an int. */
  function AsInt(len: u32): int {
    if len <= INT_MAX then len else len - TWO_32
  }

  /** Draining as many bytes as an int says, which is all of them if it is negative. */
  function Drained(bs: seq<byte>, len: int): seq<byte> {
    if 0 <= len <= |bs| then bs[len..] else []
  }

  /** Reading a datum; a length that is no int is refused. */
  function ReadData(bs: seq<byte>): Outcome<Record> {
    match ReadHeader(bs)
    case Failed(rest) => Failed(rest)
    case Got(h, rest) =>
      if h.len > INT_MAX || h.len > |rest| then Failed(rest) else Got(Data(h.tag, rest[..h.len]), rest[h.len..])
  }

  /** Reading a number. It is not looked for in the payload alone, but must not be longer. */
  function ReadNumber(bs: seq<byte>, need: u32, maxNibbles: nat): Outcome<nat> {
    match ReadTag(bs)
    case Failed(rest) => Failed(rest)
    case Got(tag, rest) =>
      if tag != need then Failed(rest) else
      match ReadInt(rest)
      case Failed(rest') => Failed(rest')
      case Got(len, rest') =>
        if |rest'| < len then Failed(rest') else
        var n := DecodedInt(rest', maxNibbles);
        if n.None? || n.value.size > len then Failed(rest'[len..]) else Got(n.value.value, rest'[len..])
  }

  /** The two numbers of a time, and the bytes they take. */
  function DecodedTime(bs: seq<byte>): Option<(u32, u32, nat)> {
    DecodedIntFits(bs, 8);
    Pow16Small();
    var sec := DecodedInt(bs, 8);
    if sec.None? then None else
    DecodedIntFits(bs[sec.value.size..], 8);
    var usec := DecodedInt(bs[sec.value.size..], 8);
    if usec.None? then None else Some((sec.value.value, usec.value.value, sec.value.size + usec.value.size))
  }

  /** Reading a time. Here the payload is drained whatever is wrong with it. */
  function ReadTime(bs: seq<byte>, need: u32): Outcome<Record> {
    match ReadHeader(bs)
    case Failed(rest) => Failed(rest)
    case Got(h, rest) =>
      var len := AsInt(h.len);
      var time := DecodedTime(rest);
      if len == -1 then Failed(rest)
      else if h.tag != need || time.None? || time.value.2 > len then Failed(Drained(rest, len))
      else Got(Time(need, time.value.0, time.value.1), Drained(rest, len))
  }

  lemma NumberFits(bs: seq<byte>, need: u32, maxNibbles: nat)
    ensures var n := ReadNumber(bs, need, maxNibbles); n.Got? ==> n.value < Pow16(maxNibbles)
  {
    forall rest: seq<byte>
      ensures var n := DecodedInt(rest, maxNibbles); n.Some? ==> n.value.value < Pow16(maxNibbles)
    {
      DecodedIntFits(rest, maxNibbles);
    }
  }

  function Read(shape: Shape, bs: seq<byte>): Outcome<Record> {
    match shape
    case ADatum => ReadData(bs)
    case AnInt(need) =>
      NumberFits(bs, need, 8);
      Pow16Small();
      var n := ReadNumber(bs, need, 8);
      if n.Got? then Got(Int(need, n.value), n.rest) else Failed(n.rest)
    case AnInt64(need) =>
      NumberFits(bs, need, 16);
      Pow16Small();
      var n := ReadNumber(bs, need, 16);
      if n.Got? then Got(Int64(need, n.value), n.rest) else Failed(n.rest)
    case ATime(need) => ReadTime(bs, need)
  }

  // ----- what was written is read back -----

  lemma TagRead(t: u32, rest: seq<byte>)
    ensures ReadTag(EncodedTag(t) + rest) == Got(t, rest)
  {
    TagRoundTrip(t, rest, 0);
    assert (EncodedTag(t) + rest)[|EncodedTag(t)|..] == rest;
  }

  lemma IntRead(n: u32, rest: seq<byte>)
    ensures ReadInt(EncodedInt(n) + rest) == Got(n, rest)
  {
    hide EncodedInt, Pow16, DecodedInt;
    Pow16Small();
    IntRoundTrip(n, rest, 8);
    assert (EncodedInt(n) + rest)[|EncodedInt(n)|..] == rest;
  }

  lemma HeaderRead(r: Record, rest: seq<byte>)
    requires r.Fits()
    ensures ReadHeader(r.Encoded() + rest) == Got(Header(r.tag, |r.Payload()|), r.Payload() + rest)
  {
    hide EncodedInt, EncodedTag, ReadTag, ReadInt, Record.Payload;
    var len := EncodedInt(|r.Payload()|);
    assert r.Encoded() + rest == EncodedTag(r.tag) + (len + (r.Payload() + rest));
    TagRead(r.tag, len + (r.Payload() + rest));
    IntRead(|r.Payload()|, r.Payload() + rest);
  }

  lemma NumberRead(r: Record, n: u64, rest: seq<byte>, maxNibbles: nat)
    requires r.Ok() && r.Payload() == EncodedInt(n) && 1 <= maxNibbles <= 16 && n < Pow16(maxNibbles)
    ensures ReadNumber(r.Encoded() + rest, r.tag, maxNibbles) == Got(n, rest)
  {
    hide EncodedInt, EncodedTag, ReadTag, ReadInt, Record.Payload, DecodedInt, Pow16;
    var len := EncodedInt(|r.Payload()|);
    assert r.Encoded() + rest == EncodedTag(r.tag) + (len + (r.Payload() + rest));
    TagRead(r.tag, len + (r.Payload() + rest));
    IntRead(|r.Payload()|, r.Payload() + rest);
    IntRoundTrip(n, rest, maxNibbles);
    assert (r.Payload() + rest)[|r.Payload()|..] == rest;
  }

  lemma TimeDecoded(sec: u32, usec: u32, rest: seq<byte>)
    ensures DecodedTime(EncodedInt(sec) + EncodedInt(usec) + rest) == Some((sec, usec, |EncodedInt(sec)| + |EncodedInt(usec)|))
  {
    hide EncodedInt, DecodedInt, Pow16;
    Pow16Small();
    var bs := EncodedInt(sec) + EncodedInt(usec) + rest;
    assert bs == EncodedInt(sec) + (EncodedInt(usec) + rest);
    IntRoundTrip(sec, EncodedInt(usec) + rest, 8);
    assert bs[|EncodedInt(sec)|..] == EncodedInt(usec) + rest;
    IntRoundTrip(usec, rest, 8);
  }

  /** One record is read back as it was written, whatever follows it. */
  lemma RecordRoundTrip(r: Record, rest: seq<byte>)
    requires r.Ok()
    ensures Read(r.Shape(), r.Encoded() + rest) == Got(r, rest)
  {
    hide EncodedInt, Pow16, ReadHeader, ReadNumber, DecodedTime, Record.Encoded;
    Pow16Small();
    HeaderRead(r, rest);
    assert (r.Payload() + rest)[|r.Payload()|..] == rest && (r.Payload() + rest)[..|r.Payload()|] == r.Payload();
    match r
    case Data(_, _) =>
    case Int(_, n) => NumberRead(r, n, rest, 8);
    case Int64(_, n) => NumberRead(r, n, rest, 16);
    case Time(_, sec, usec) =>
      TimeDecoded(sec, usec, rest);
      assert r.Payload() + rest == EncodedInt(sec) + EncodedInt(usec) + rest;
  }

  predicate AllOk(rs: seq<Record>) {
    forall i :: 0 <= i < |rs| ==> rs[i].Ok()
  }

  function Stream(rs: seq<Record>): seq<byte>
    requires AllOk(rs)
    decreases |rs|
  {
    if rs == [] then [] else rs[0].Encoded() + Stream(rs[1..])
  }

  function Shapes(rs: seq<Record>): seq<Shape>
    decreases |rs|
  {
    if rs == [] then [] else [rs[0].Shape()] + Shapes(rs[1..])
  }

  /** Reading records one after another, until one cannot be read. */
  function ReadAll(shapes: seq<Shape>, bs: seq<byte>): Outcome<seq<Record>>
    decreases |shapes|
  {
    if shapes == [] then Got([], bs) else
    match Read(shapes[0], bs)
    case Failed(rest) => Failed(rest)
    case Got(r, rest) =>
      match ReadAll(shapes[1..], rest)
      case Failed(rest') => Failed(rest')
      case Got(rs, rest') => Got([r] + rs, rest')
  }

  /** A stream of records is read back as it was written, and nothing is left over. */
  lemma {:induction false} StreamRoundTrip(rs: seq<Record>, rest: seq<byte>)
    requires AllOk(rs)
    ensures ReadAll(Shapes(rs), Stream(rs) + rest) == Got(rs, rest)
    decreases |rs|
  {
    hide Read, Record.Encoded, Record.Shape, Record.Payload;
    if rs == [] {
      assert Stream(rs) + rest == rest;
    } else {
      RecordRoundTrip(rs[0], Stream(rs[1..]) + rest);
      StreamRoundTrip(rs[1..], rest);
      assert Stream(rs) + rest == rs[0].Encoded() + (Stream(rs[1..]) + rest);
      assert Shapes(rs)[1..] == Shapes(rs[1..]);
      assert [rs[0]] + rs[1..] == rs;
    }
  }

  // ----- looking ahead -----

  /** The length of the record that comes next, with its header. */
  function Peeked(bs: seq<byte>): Option<u32> {
    DecodedTagFits(bs, 0);
    var t := DecodedTag(bs, 0);
    if t.None? then None else
    var n := DecodedInt(bs[t.value.size..], 8);
    if n.None? then None else Some((n.value.value + n.value.size + t.value.size) % TWO_32)
  }

  /** Passing over the record that comes next. */
  function Consumed(bs: seq<byte>): Outcome<()> {
    match ReadHeader(bs)
    case Failed(rest) => Failed(rest)
    case Got(h, rest) => if AsInt(h.len) == -1 then Failed(rest) else Got((), Drained(rest, AsInt(h.len)))
  }

  /** How many bytes the header takes that comes next. */
  function HeaderSize(bs: seq<byte>): int
    requires ReadHeader(bs).Got?
  {
    |bs| - |ReadHeader(bs).rest|
  }

  lemma HeaderParts(bs: seq<byte>)
    requires ReadHeader(bs).Got?
    ensures var t := DecodedTag(bs, 0);
      && t.Some? && t.value.size <= |bs| && t.value.size <= 5 && DecodedInt(bs[t.value.size..], 8).Some?
      && DecodedInt(bs[t.value.size..], 8).value.value == ReadHeader(bs).value.len
      && DecodedInt(bs[t.value.size..], 8).value.size == HeaderSize(bs) - t.value.size
    ensures HeaderSize(bs) <= 10 && HeaderSize(bs) + ReadHeader(bs).value.len <= |bs|
  {
    hide DecodedTag, Pow16, ValueFrom;
    DecodedTagFits(bs, 0);
    var rest := bs[DecodedTag(bs, 0).value.size..];
    DecodedIntFits(rest, 8);
  }

  lemma PeekedIsHeader(bs: seq<byte>)
    requires ReadHeader(bs).Got?
    ensures Peeked(bs) == Some((HeaderSize(bs) + ReadHeader(bs).value.len) % TWO_32)
    ensures 0 <= HeaderSize(bs) <= 10 && HeaderSize(bs) + ReadHeader(bs).value.len <= |bs|
  {
    HeaderParts(bs);
    hide DecodedTag, DecodedInt, ReadHeader;
  }

  /**
    What can be passed over is as long as was said before, if and only if its payload is one that an int can hold, or
    is the last thing there is, and the length and the header together do not wrap around.
    */
  lemma PeekedIsConsumed(bs: seq<byte>)
    requires Consumed(bs).Got?
    ensures Peeked(bs).Some?
    ensures var len := ReadHeader(bs).value.len;
      Peeked(bs).value == |bs| - |Consumed(bs).rest| <==>
        len <= INT_MAX || (|bs| == HeaderSize(bs) + len && |bs| < TWO_32)
  {
    hide Peeked, ReadHeader;
    PeekedIsHeader(bs);
    var total := HeaderSize(bs) + ReadHeader(bs).value.len;
    Wrapped(total);
    if AsInt(ReadHeader(bs).value.len) < 0 {
      assert Consumed(bs).rest == [];
    }
  }

  lemma Wrapped(total: nat)
    requires total < 2 * TWO_32
    ensures total % TWO_32 == if total < TWO_32 then total else total - TWO_32
  {
  }

  /** Passing over a record that was written takes all of it, and looking ahead tells how much that is. */
  lemma RecordPassedOver(r: Record, rest: seq<byte>)
    requires r.Ok()
    ensures Consumed(r.Encoded() + rest) == Got((), rest)
    ensures Peeked(r.Encoded() + rest) == Some(|r.Encoded()|)
  {
    hide Peeked, ReadHeader, Record.Encoded;
    HeaderRead(r, rest);
    assert (r.Payload() + rest)[|r.Payload()|..] == rest;
    PeekedIsConsumed(r.Encoded() + rest);
  }
}
