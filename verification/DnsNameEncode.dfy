/** The writer of names, in place in the message buffer, and whole messages of names with one shared label table. */
module DnsNameEncode {
  import opened Machine
  import opened DnsNameParse
  import opened DnsNameWrite

  /** Which names stand where in the message. */
  class LabelTable {
    const labels: array<Entry>
    var nLabels: nat

    ghost predicate Valid()
      reads this
    {
      labels.Length == MAX_LABELS && nLabels <= MAX_LABELS
    }

    ghost function Contents(): (c: seq<Entry>)
      requires Valid()
      reads this, labels
    {
      labels[..nLabels]
    }

    constructor ()
      ensures Valid() && fresh(labels) && Contents() == []
    {
      labels := new Entry[MAX_LABELS](_ => Entry([], 0));
      nLabels := 0;
    }

    /** The place of the name, or -1. */
    method GetPos(name: seq<byte>) returns (pos: int)
      requires Valid()
      ensures var k := Find(Contents(), name);
        pos == if k < |Contents()| then Contents()[k].pos else -1
    {
      for i := 0 to nLabels
        invariant Find(Contents(), name) == i + Find(Contents()[i..], name)
      {
        if name == labels[i].v {
          return labels[i].pos;
        }
        assert Contents()[i..][1..] == Contents()[i + 1..];
      }
      return -1;
    }

    /** Adds an entry; a full table stays as it is, with result -1. */
    method Add(name: seq<byte>, pos: nat) returns (r: int)
      requires Valid()
      modifies this, labels
      ensures Valid() && Contents() == Remember(old(Contents()), name, pos)
      ensures r == if old(|Contents()|) == MAX_LABELS then -1 else 0
      ensures Contents() == if old(|Contents()|) < 128 then old(Contents()) + [Entry(name, pos)] else old(Contents())
    {
      if nLabels == MAX_LABELS {
        return -1;
      }
      labels[nLabels] := Entry(name, pos);
      nLabels := nLabels + 1;
      return 0;
    }
  }

  ghost function Remembered(table: LabelTable?): seq<Entry>
    requires table != null ==> table.Valid()
    reads table, if table == null then {} else {table.labels}
  {
    if table == null then [] else table.Contents()
  }

  function Code(w: Written): int {
    match w.status
    case Done => |w.out|
    case LabelTooLong => -1
    case NoRoom => -2
  }

  /** The two bytes of a pointer, if there is room for them. */
  method AppendPointer(buf: array<byte>, bufLen: nat, j: nat, ref: nat, ghost was: seq<byte>, ghost out: seq<byte>)
    returns (r: int)
    requires Holds(buf, was, out) && j == |out| <= bufLen <= buf.Length
    modifies buf
    ensures r == (if j + 2 > bufLen then -2 else j + 2)
    ensures Holds(buf, was, if r < 0 then out else out + Pointer(ref))
  {
    if j + 2 > bufLen {
      return -2;
    }
    r := PutBytes(buf, j, Pointer(ref), was, out);
  }

  /** The closing zero, unless the name ended in an empty label. */
  method PutEnd(buf: array<byte>, j: nat, name: seq<byte>, ghost was: seq<byte>, ghost out: seq<byte>) returns (r: nat)
    requires First(name) == |name| <= MAX_LABEL && NUL !in name
    requires Holds(buf, was, out + Label(name)) && j == |out + Label(name)|
    requires j + (if name == [] then 0 else 1) <= buf.Length
    modifies buf
    ensures ghost var q := if name == [] then out + Label(name) else out + Label(name) + [0];
      r == |q| && Holds(buf, was, q)
  {
    ghost var q := out + Label(name);
    assert q[j - 1] == Label(name)[|name|];
    assert buf[..j][j - 1] == buf[j - 1];
    r := j;
    if buf[j - 1] != 0 {
      r := PutBytes(buf, j, [0], was, q);
    }
  }

  /**
   * Writes the name at place j of the buffer, of which bufLen bytes may be used for labels; returns the place behind it, or
   * -1 for a label that is too long, or -2 for too little room. The name is a C string. The closing zero is written without a
   * look at bufLen, so the buffer must have one byte more if the name fills its room exactly.
   */
  method DnsnameToLabels(buf: array<byte>, bufLen: nat, j0: nat, name: seq<byte>, table: LabelTable?) returns (r: int)
    requires j0 <= bufLen <= buf.Length && NUL !in name
    requires table != null ==> table.Valid()
    requires bufLen == buf.Length ==> !Full(j0, bufLen, name, Remembered(table), table != null)
    modifies buf, table, if table == null then {} else {table.labels}
    ensures table != null ==> table.Valid()
    ensures |name| > MAX_NAME ==> r == -2 && buf[..] == old(buf[..]) && Remembered(table) == old(Remembered(table))
    ensures |name| <= MAX_NAME ==>
      var w := Write(old(buf[..j0]), bufLen, name, old(Remembered(table)), table != null);
      r == Code(w) && Remembered(table) == w.tab && Holds(buf, old(buf[..]), w.out)
  {
    hide Holds, Write, First, Find, Label, Pointer, Remember, Remembered, LabelTable.Valid, LabelTable.Contents, Full;
    if |name| > MAX_NAME {
      return -2;
    }
    ghost var was, out, tab := buf[..], buf[..j0], Remembered(table);
    ghost var w := Write(out, bufLen, name, tab, table != null);
    assert Holds(buf, was, out) by { HoldsPrefix(buf, j0); }
    WriteBounds(out, bufLen, name, tab, table != null);
    var j: nat, at: nat := j0, 0;
    assert name[0..] == name;
    while true
      invariant j == |out| <= bufLen && at <= |name| && (table != null ==> table.Valid())
      invariant w == Write(out, bufLen, name[at..], tab, table != null)
      invariant Holds(buf, was, out) && Remembered(table) == tab
      decreases |name| - at
    {
      var rest := name[at..];
      WriteStep(out, bufLen, rest, tab, table != null);
      var ref := Lookup(table, rest);
      if ref >= 0 {
        r := AppendPointer(buf, bufLen, j, ref, was, out);
        return;
      }
      var n := FindDot(rest);
      if n > MAX_LABEL {
        return -1;
      }
      if j + n + 1 > bufLen {
        return -2;
      }
      Enter(table, rest, j);
      tab := Remembered(table);
      j := PutBytes(buf, j, Label(rest), was, out);
      if n == |rest| {
        r := PutEnd(buf, j, rest, was, out);
        return;
      }
      out := out + Label(rest);
      assert rest[n + 1..] == name[at + n + 1..];
      at := at + n + 1;
    }
  }

  /** The place of the name in the table, if there is one. */
  method Lookup(table: LabelTable?, name: seq<byte>) returns (ref: int)
    requires table != null ==> table.Valid()
    ensures var tab := Remembered(table);
      var k := Find(tab, name);
      ref == if table != null && k < |tab| then tab[k].pos else -1
  {
    ref := -1;
    if table != null {
      ref := table.GetPos(name);
    }
  }

  method Enter(table: LabelTable?, name: seq<byte>, pos: nat)
    requires table != null ==> table.Valid()
    modifies table, if table == null then {} else {table.labels}
    ensures table != null ==> table.Valid()
    ensures Remembered(table) == if table != null then Remember(old(Remembered(table)), name, pos) else old(Remembered(table))
  {
    if table != null {
      var _ := table.Add(name, pos);
    }
  }
}
