/** Reading a domain name out of a DNS message (section 4.1.4 of RFC 1035). */
module DnsNameParse {
  import opened Machine

  const DOT: byte := 46
  const NUL: byte := 0
  const MAX_LABEL: nat := 63

  /** What stands at a place of a message: no name, or the labels of one and the place behind it. */
  datatype Read = Bad | Name(labels: seq<seq<byte>>, end: nat) {
    function After(lab: seq<byte>): Read {
      if Bad? then Bad else Name([lab] + labels, end)
    }

    function EndingAt(e: nat): Read {
      if Bad? then Bad else Name(labels, e)
    }
  }

  /** The place a two-byte pointer refers to. */
  function Target(high: byte, low: byte): nat {
    (high % 64) * 256 + low
  }

  /** The name that starts at place j of message p, if it takes at most `hops` jumps to read. */
  function NameAt(p: seq<byte>, j: nat, hops: nat): Read
    decreases hops, |p| - j
  {
    if j >= |p| then Bad
    else if p[j] == 0 then Name([], j + 1)
    else if p[j] > MAX_LABEL then
      if j + 1 >= |p| || Target(p[j], p[j + 1]) >= |p| || hops == 0 then Bad
      else NameAt(p, Target(p[j], p[j + 1]), hops - 1).EndingAt(j + 2)
    else if j + 1 + p[j] > |p| then Bad
    else NameAt(p, j + 1 + p[j], hops).After(p[j + 1..j + 1 + p[j]])
  }

  /** The labels with dots between them. */
  function Text(labels: seq<seq<byte>>): (t: seq<byte>) {
    if labels == [] then []
    else if |labels| == 1 then labels[0]
    else Text(labels[..|labels| - 1]) + [DOT] + labels[|labels| - 1]
  }

  lemma TextMore(done: seq<seq<byte>>, lab: seq<byte>)
    ensures Text(done + [lab]) == if done == [] then lab else Text(done) + [DOT] + lab
  {
    assert (done + [lab])[..|done|] == done;
  }

  lemma {:induction false} TextGrows(done: seq<seq<byte>>, rest: seq<seq<byte>>)
    ensures |Text(done)| <= |Text(done + rest)|
    decreases |rest|
  {
    TextNone();
    hide Text;
    if rest == [] {
      assert done + rest == done;
    } else {
      TextMore(done, rest[0]);
      TextGrows(done + [rest[0]], rest[1..]);
      assert done + [rest[0]] + rest[1..] == done + rest;
    }
  }

  /** A name that is read has labels of 1 to 63 bytes, and ends within the message. */
  lemma {:induction false} ReadBounds(p: seq<byte>, j: nat, hops: nat)
    requires NameAt(p, j, hops).Name?
    ensures j < NameAt(p, j, hops).end <= |p|
    ensures forall l :: l in NameAt(p, j, hops).labels ==> 0 < |l| <= MAX_LABEL
    decreases hops, |p| - j
  {
    if p[j] > MAX_LABEL {
      ReadBounds(p, Target(p[j], p[j + 1]), hops - 1);
    } else if p[j] != 0 {
      ReadBounds(p, j + 1 + p[j], hops);
    }
  }

  /** More jumps allowed never change what was read. */
  lemma {:induction false} MoreHops(p: seq<byte>, j: nat, h: nat, more: nat)
    requires h <= more && NameAt(p, j, h).Name?
    ensures NameAt(p, j, more) == NameAt(p, j, h)
    decreases h, |p| - j
  {
    if p[j] > MAX_LABEL {
      MoreHops(p, Target(p[j], p[j + 1]), h - 1, more - 1);
    } else if p[j] != 0 {
      MoreHops(p, j + 1 + p[j], h, more);
    }
  }

  /** Reading at j takes exactly h jumps. */
  ghost predicate Needs(p: seq<byte>, j: nat, h: nat) {
    NameAt(p, j, h).Name? && (h > 0 ==> NameAt(p, j, h - 1).Bad?)
  }

  lemma NeedsOnce(p: seq<byte>, j: nat, h: nat, k: nat)
    requires Needs(p, j, h) && Needs(p, j, k)
    ensures h == k
  {
    if h < k {
      MoreHops(p, j, h, k - 1);
    } else if k < h {
      MoreHops(p, j, k, h - 1);
    }
  }

  lemma {:induction false} LeastHops(p: seq<byte>, j: nat, h: nat) returns (k: nat)
    requires NameAt(p, j, h).Name?
    ensures k <= h && Needs(p, j, k)
  {
    if h == 0 || NameAt(p, j, h - 1).Bad? {
      k := h;
    } else {
      k := LeastHops(p, j, h - 1);
    }
  }

  /** The places of the pointers on the way: as many as there are jumps, as no two can be the same. */
  lemma {:induction false} Jumps(p: seq<byte>, j: nat, h: nat) returns (at: set<nat>)
    requires Needs(p, j, h)
    ensures |at| == h
    ensures forall x :: x in at ==> x < |p| && exists k: nat :: 0 < k <= h && Needs(p, x, k)
    decreases h, |p| - j
  {
    if p[j] == 0 {
      at := {};
    } else if p[j] > MAX_LABEL {
      var rest := Jumps(p, Target(p[j], p[j + 1]), h - 1);
      if j in rest {
        var k: nat :| 0 < k <= h - 1 && Needs(p, j, k);
        NeedsOnce(p, j, h, k);
      }
      at := {j} + rest;
    } else {
      at := Jumps(p, j + 1 + p[j], h);
    }
  }

  lemma {:induction false} SetBelow(s: set<nat>, n: nat)
    requires forall x :: x in s ==> x < n
    ensures |s| <= n
  {
    if n == 0 {
      assert s == {};
    } else {
      SetBelow(s - {n - 1}, n - 1);
    }
  }

  /** Allowing as many jumps as the message has bytes never rejects a name: more jumps than that is a loop. */
  lemma LoopLimitExact(p: seq<byte>, j: nat, h: nat)
    requires NameAt(p, j, h).Name?
    ensures NameAt(p, j, |p|) == NameAt(p, j, h)
  {
    var k := LeastHops(p, j, h);
    var at := Jumps(p, j, k);
    SetBelow(at, |p|);
    MoreHops(p, j, k, |p|);
    MoreHops(p, j, k, h);
  }

  /** What is read in all, when `done` was read before place j, and a jump from before place e was made, if any. */
  ghost function Resume(done: seq<seq<byte>>, rest: Read, e: int): Read {
    if rest.Bad? then Bad else Name(done + rest.labels, if e < 0 then rest.end else e)
  }

  lemma ReadStep(p: seq<byte>, j: nat, hops: nat)
    ensures NameAt(p, j, hops) ==
      if j >= |p| then Bad
      else if p[j] == 0 then Name([], j + 1)
      else if p[j] > MAX_LABEL then
        if j + 1 >= |p| || Target(p[j], p[j + 1]) >= |p| || hops == 0 then Bad
        else NameAt(p, Target(p[j], p[j + 1]), hops - 1).EndingAt(j + 2)
      else if j + 1 + p[j] > |p| then Bad
      else NameAt(p, j + 1 + p[j], hops).After(p[j + 1..j + 1 + p[j]])
  {
  }

  /** Parses the name at idx of the packet into nameOut; 0 or -1, and the place behind the name. */
  method NameParse(packet: array<byte>, length: nat, idx: nat, nameOut: array<byte>, nameOutLen: nat)
    returns (r: int, idx': nat)
    requires length <= packet.Length && nameOutLen <= nameOut.Length && packet != nameOut
    modifies nameOut
    ensures nameOut[nameOutLen..] == old(nameOut[nameOutLen..])
    ensures var name := NameAt(packet[..length], idx, length);
      if name.Name? && |Text(name.labels)| < nameOutLen then
        var n := |Text(name.labels)|;
        && r == 0 && idx' == name.end
        && nameOut[..n] == Text(name.labels) && nameOut[n] == NUL
        && nameOut[n + 1..] == old(nameOut[n + 1..])
      else
        r == -1 && idx' == idx
  {
    hide Text, NameAt, Holds, Resume, Target;
    ghost var was, p, name := nameOut[..], packet[..length], NameAt(packet[..length], idx, length);
    ghost var done: seq<seq<byte>> := [];
    HoldsPrefix(nameOut, 0);
    TextNone();
    ResumeNone(name);
    var nameEnd: int, j: nat, ptrCount: nat, cp: nat := -1, idx, 0, 0;
    while true
      invariant ptrCount <= length && packet[..length] == p
      invariant name == Resume(done, NameAt(p, j, length - ptrCount), nameEnd)
      invariant cp == |Text(done)| && (cp == 0 <==> done == []) && (cp == 0 || cp < nameOutLen)
      invariant Holds(nameOut, was, Text(done))
      decreases length - ptrCount, length - j
    {
      ReadStep(p, j, length - ptrCount);
      Resumed(done, NameAt(p, j, length - ptrCount), nameEnd);
      TailHolds(nameOut, was, Text(done), nameOutLen);
      if j >= length {
        return -1, idx;
      }
      var labelLen: nat := packet[j];
      assert p[j] == labelLen;
      j := j + 1;
      if labelLen == 0 {
        break;
      }
      if labelLen > MAX_LABEL {
        if j >= length {
          return -1, idx;
        }
        var low := packet[j];
        assert p[j] == low;
        j := j + 1;
        ghost var end, behind := nameEnd, j;
        if nameEnd < 0 {
          nameEnd := j;
        }
        j := Target(labelLen, low);
        if j >= length {
          return -1, idx;
        }
        ptrCount := ptrCount + 1;
        if ptrCount > length {
          return -1, idx;
        }
        JumpResumed(done, NameAt(p, j, length - ptrCount), end, behind);
      } else {
        NameLonger(p, done, j, labelLen, length - ptrCount, nameEnd);
        var ok;
        ok, cp := PutLabel(packet, length, j, labelLen, nameOut, nameOutLen, cp, was, p, done);
        if !ok {
          return -1, idx;
        }
        done := done + [p[j..j + labelLen]];
        j := j + labelLen;
      }
    }
    if cp >= nameOutLen {
      return -1, idx;
    }
    var _ := PutBytes(nameOut, cp, [NUL], was, Text(done));
    EndHolds(nameOut, was, Text(done));
    return 0, if nameEnd < 0 then j else nameEnd;
  }

  lemma ResumeNone(r: Read)
    ensures Resume([], r, -1) == r
  {
    if r.Name? {
      assert [] + r.labels == r.labels;
    }
  }

  lemma Resumed(done: seq<seq<byte>>, r: Read, e: int)
    ensures Resume(done, r, e).Bad? <==> r.Bad?
    ensures r.Name? && r.labels == [] ==> Resume(done, r, e) == Name(done, if e < 0 then r.end else e)
  {
    assert done + [] == done;
  }

  /** Behind the first jump it does not matter where reading ends. */
  lemma JumpResumed(done: seq<seq<byte>>, r: Read, e: int, j: nat)
    ensures Resume(done, r.EndingAt(j), e) == Resume(done, r, if e < 0 then j else e)
  {
  }

  lemma TextNone()
    ensures Text([]) == []
  {
  }

  /** One label more is read; if the name is read at all, then it is at least as long as what is read so far. */
  lemma NameLonger(p: seq<byte>, done: seq<seq<byte>>, j: nat, n: nat, hops: nat, e: int)
    requires 0 < n <= MAX_LABEL && j <= |p|
    ensures var name := Resume(done, if j + n > |p| then Bad else NameAt(p, j + n, hops).After(p[j..j + n]), e);
      && (j + n <= |p| ==> name == Resume(done + [p[j..j + n]], NameAt(p, j + n, hops), e))
      && (name.Name? ==> |Text(name.labels)| >= |Text(done)| + (if done == [] then 0 else 1) + n)
  {
    TextNone();
    hide Text;
    if j + n <= |p| {
      var lab, rest := p[j..j + n], NameAt(p, j + n, hops);
      TextMore(done, lab);
      if rest.Name? {
        assert done + ([lab] + rest.labels) == done + [lab] + rest.labels;
        TextGrows(done + [lab], rest.labels);
      }
    }
  }

  /** Writes one label behind what is written, with a dot in between; not ok if there is no room, or no such label. */
  method PutLabel(packet: array<byte>, length: nat, j: nat, labelLen: nat, nameOut: array<byte>, nameOutLen: nat, cp: nat,
                  ghost was: seq<byte>, ghost p: seq<byte>, ghost done: seq<seq<byte>>)
    returns (ok: bool, cp': nat)
    requires length <= packet.Length && nameOutLen <= nameOut.Length && packet != nameOut && j <= length && 0 < labelLen
    requires cp == |Text(done)| && (cp == 0 <==> done == []) && (cp == 0 || cp < nameOutLen)
    requires packet[..length] == p && Holds(nameOut, was, Text(done))
    modifies nameOut
    ensures nameOutLen <= |was| == nameOut.Length && nameOut[nameOutLen..] == was[nameOutLen..]
    ensures ok <==> j + labelLen <= length && cp + (if cp == 0 then 0 else 1) + labelLen < nameOutLen
    ensures ok ==> cp' == cp + (if cp == 0 then 0 else 1) + labelLen == |Text(done + [p[j..j + labelLen]])|
    ensures ok ==> Holds(nameOut, was, Text(done + [p[j..j + labelLen]]))
  {
    hide Text, Holds;
    ghost var out := Text(done);
    cp' := cp;
    TailHolds(nameOut, was, out, nameOutLen);
    if cp' != 0 {
      if cp' + 1 >= nameOutLen {
        return false, cp';
      }
      cp' := PutBytes(nameOut, cp', [DOT], was, out);
      out := out + [DOT];
      TailHolds(nameOut, was, out, nameOutLen);
    }
    if cp' + labelLen >= nameOutLen {
      return false, cp';
    }
    if j + labelLen > length {
      return false, cp';
    }
    SamePart(packet[..], p, length, j, labelLen);
    TextMore(done, p[j..j + labelLen]);
    LabelBehind(out, done, p[j..j + labelLen]);
    cp' := PutBytes(nameOut, cp', packet[j..j + labelLen], was, out);
    TailHolds(nameOut, was, out + p[j..j + labelLen], nameOutLen);
    ok := true;
  }

  lemma LabelBehind(out: seq<byte>, done: seq<seq<byte>>, lab: seq<byte>)
    requires out == if done == [] then Text(done) else Text(done) + [DOT]
    ensures out + lab == Text(done + [lab])
  {
    TextNone();
    TextMore(done, lab);
    assert done == [] ==> [] + lab == lab;
  }

  lemma SamePart(all: seq<byte>, p: seq<byte>, length: nat, j: nat, n: nat)
    requires length <= |all| && all[..length] == p && j + n <= length
    ensures all[j..j + n] == p[j..j + n]
  {
  }

  // ----- writing into a buffer, from the front -----

  /** The buffer, which held `was`, now starts with `out`, and is otherwise as before. */
  ghost predicate Holds(buf: array<byte>, was: seq<byte>, out: seq<byte>)
    reads buf
  {
    && |out| <= buf.Length == |was|
    && buf[..|out|] == out && buf[|out|..] == was[|out|..]
  }

  /** Writes some bytes behind those that are there. */
  method PutBytes(buf: array<byte>, j: nat, data: seq<byte>, ghost was: seq<byte>, ghost out: seq<byte>) returns (j': nat)
    requires Holds(buf, was, out) && j == |out| && j + |data| <= buf.Length
    modifies buf
    ensures j' == j + |data| && Holds(buf, was, out + data)
  {
    forall k | j <= k < j + |data| {
      buf[k] := data[k - j];
    }
    j' := j + |data|;
    assert buf[..j] == out;
    forall i | 0 <= i < |data| ensures buf[j..j'][i] == data[i] {
      assert buf[j..j'][i] == buf[j + i];
    }
    assert buf[..j'] == buf[..j] + buf[j..j'];
  }

  /** What is behind is as it was. */
  lemma TailHolds(buf: array<byte>, was: seq<byte>, out: seq<byte>, k: nat)
    requires Holds(buf, was, out)
    ensures |was| == buf.Length && (|out| <= k <= buf.Length ==> buf[k..] == was[k..])
  {
    if |out| <= k <= buf.Length {
      assert buf[k..] == buf[|out|..][k - |out|..] && was[k..] == was[|out|..][k - |out|..];
    }
  }

  lemma EndHolds(buf: array<byte>, was: seq<byte>, out: seq<byte>)
    requires Holds(buf, was, out + [NUL])
    ensures var n := |out|;
      n < buf.Length == |was| && buf[..n] == out && buf[n] == NUL && buf[n + 1..] == was[n + 1..]
  {
    var n := |out|;
    assert buf[..n] == buf[..n + 1][..n];
    assert buf[..n + 1][n] == (out + [NUL])[n];
  }

  lemma HoldsPrefix(buf: array<byte>, j: nat)
    requires j <= buf.Length
    ensures Holds(buf, buf[..], buf[..j])
  {
  }
}
