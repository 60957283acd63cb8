/** The table by which the epoll backend turns one coalesced change of an fd into one call of epoll_ctl. */
module EpollTable {

  /** A set of kinds of events: EV_READ, EV_WRITE and EV_CLOSED; to epoll, EPOLLIN, EPOLLOUT and EPOLLRDHUP. */
  datatype Kinds = Kinds(read: bool, write: bool, close: bool) {
    function Plus(k: Kinds): Kinds {
      Kinds(read || k.read, write || k.write, close || k.close)
    }

    function Minus(k: Kinds): Kinds {
      Kinds(read && !k.read, write && !k.write, close && !k.close)
    }

    predicate Within(k: Kinds) {
      Minus(k) == NONE
    }

    predicate Apart(k: Kinds) {
      Minus(k) == this
    }
  }

  const NONE := Kinds(false, false, false)
  const R := Kinds(true, false, false)
  const W := Kinds(false, true, false)
  const C := Kinds(false, false, true)
  const RW := Kinds(true, true, false)
  const RC := Kinds(true, false, true)
  const WC := Kinds(false, true, true)
  const RWC := Kinds(true, true, true)

  /** What to ask epoll_ctl for; X (op 255) for changes that cannot be. */
  datatype Operation = N | Add(events: Kinds) | Mod(events: Kinds) | Del(events: Kinds) | X

  /** The two low bits of a change field: nothing, add, delete, or both, which cannot be. */
  type Bits = b: nat | b < 4

  const NO_CHANGE: Bits := 0
  const CHANGE_ADD: Bits := 1
  const CHANGE_DEL: Bits := 2

  /** What is to be changed on one fd, since `was` was installed. */
  datatype Change = Change(fd: nat, was: Kinds, read: Bits, write: Bits, close: Bits) {
    function Added(): Kinds {
      Kinds(read == CHANGE_ADD, write == CHANGE_ADD, close == CHANGE_ADD)
    }

    function Deleted(): Kinds {
      Kinds(read == CHANGE_DEL, write == CHANGE_DEL, close == CHANGE_DEL)
    }

    /** No field asks for both. */
    predicate Possible() {
      read < 3 && write < 3 && close < 3
    }

    /** What is to be installed. */
    function Result(): Kinds {
      was.Minus(Deleted()).Plus(Added())
    }
  }

  function Bit(b: bool): nat {
    if b then 1 else 0
  }

  function OldIndex(c: Change): (i: nat)
    ensures i < 8
  {
    Bit(c.was.read) + 2 * Bit(c.was.write) + 4 * Bit(c.was.close)
  }

  /** EPOLL_OP_TABLE_INDEX; the fields are bits 0-1, 2-3, 4-5, and the old events bits 6, 7 and 8. */
  function TableIndex(c: Change): (i: nat)
    ensures i < 512
  {
    c.close + 4 * c.read + 16 * c.write + 64 * Bit(c.was.read) + 128 * Bit(c.was.write) + 256 * Bit(c.was.close)
  }

  // The table, 16 entries at a time: for each set of old events, one row for each change of EV_WRITE.

  function OldNone(w: Bits): (row: seq<Operation>)
    ensures |row| == 16
  {
    match w
    case 0 => [N, Add(C), Del(C), X, Add(R), Add(RC), Add(R), X, Del(R), Add(C), Del(RC), X, X, X, X, X]
    case 1 => [Add(W), Add(WC), Add(W), X, Add(RW), Add(RWC), Add(RW), X, Add(W), Add(WC), Add(W), X, X, X, X, X]
    case 2 => [Del(W), Add(C), Del(WC), X, Add(R), Add(RC), Add(R), X, Del(RW), Add(C), Del(RWC), X, X, X, X, X]
    case _ => [X, X, X, X, X, X, X, X, X, X, X, X, X, X, X, X]
  }

  function OldRead(w: Bits): (row: seq<Operation>)
    ensures |row| == 16
  {
    match w
    case 0 => [N, Mod(RC), Mod(R), X, Mod(R), Mod(RC), Mod(R), X, Del(R), Mod(C), Del(RC), X, X, X, X, X]
    case 1 => [Mod(RW), Mod(RWC), Mod(RW), X, Mod(RW), Mod(RWC), Mod(RW), X, Mod(W), Mod(WC), Mod(W), X, X, X, X, X]
    case 2 => [Mod(R), Mod(RC), Mod(R), X, Mod(R), Mod(RC), Mod(R), X, Del(RW), Mod(C), Del(RWC), X, X, X, X, X]
    case _ => [X, X, X, X, X, X, X, X, X, X, X, X, X, X, X, X]
  }

  function OldWrite(w: Bits): (row: seq<Operation>)
    ensures |row| == 16
  {
    match w
    case 0 => [N, Mod(WC), Mod(W), X, Mod(RW), Mod(RWC), Mod(RW), X, Mod(W), Mod(WC), Mod(W), X, X, X, X, X]
    case 1 => [Mod(W), Mod(WC), Mod(W), X, Mod(RW), Mod(RWC), Mod(RW), X, Mod(W), Mod(WC), Mod(W), X, X, X, X, X]
    case 2 => [Del(W), Mod(C), Del(WC), X, Mod(R), Mod(RC), Mod(R), X, Del(RW), Mod(C), Del(RWC), X, X, X, X, X]
    case _ => [X, X, X, X, X, X, X, X, X, X, X, X, X, X, X, X]
  }

  function OldReadWrite(w: Bits): (row: seq<Operation>)
    ensures |row| == 16
  {
    match w
    case 0 => [N, Mod(RWC), Mod(RW), X, Mod(RW), Mod(RWC), Mod(RW), X, Mod(W), Mod(WC), Mod(W), X, X, X, X, X]
    case 1 => [Mod(RW), Mod(RWC), Mod(RW), X, Mod(RW), Mod(RWC), Mod(RW), X, Mod(W), Mod(WC), Mod(W), X, X, X, X, X]
    case 2 => [Mod(R), Mod(RC), Mod(R), X, Mod(R), Mod(RC), Mod(R), X, Del(RW), Mod(C), Del(RWC), X, X, X, X, X]
    case _ => [X, X, X, X, X, X, X, X, X, X, X, X, X, X, X, X]
  }

  function OldClose(w: Bits): (row: seq<Operation>)
    ensures |row| == 16
  {
    match w
    case 0 => [N, Mod(C), Del(C), X, Mod(RC), Mod(RC), Mod(R), X, Mod(C), Mod(C), Del(RC), X, X, X, X, X]
    case 1 => [Mod(WC), Mod(WC), Mod(W), X, Mod(RWC), Mod(RWC), Mod(RW), X, Mod(WC), Mod(WC), Mod(W), X, X, X, X, X]
    case 2 => [Mod(C), Mod(C), Del(WC), X, Mod(RC), Mod(RC), Mod(R), X, Mod(C), Mod(C), Del(RWC), X, X, X, X, X]
    case _ => [X, X, X, X, X, X, X, X, X, X, X, X, X, X, X, X]
  }

  function OldReadClose(w: Bits): (row: seq<Operation>)
    ensures |row| == 16
  {
    match w
    case 0 => [N, Mod(RC), Mod(R), X, Mod(RC), Mod(RC), Mod(R), X, Mod(C), Mod(C), Del(RC), X, X, X, X, X]
    case 1 => [Mod(RWC), Mod(RWC), Mod(RW), X, Mod(RWC), Mod(RWC), Mod(RW), X, Mod(WC), Mod(WC), Mod(W), X, X, X, X, X]
    case 2 => [Mod(RC), Mod(RC), Mod(R), X, Mod(RC), Mod(RC), Mod(R), X, Mod(C), Mod(C), Del(RWC), X, X, X, X, X]
    case _ => [X, X, X, X, X, X, X, X, X, X, X, X, X, X, X, X]
  }

  function OldWriteClose(w: Bits): (row: seq<Operation>)
    ensures |row| == 16
  {
    match w
    case 0 => [N, Mod(WC), Mod(W), X, Mod(RWC), Mod(RWC), Mod(RW), X, Mod(WC), Mod(WC), Mod(W), X, X, X, X, X]
    case 1 => [Mod(WC), Mod(WC), Mod(W), X, Mod(RWC), Mod(RWC), Mod(RW), X, Mod(WC), Mod(WC), Mod(W), X, X, X, X, X]
    case 2 => [Mod(C), Mod(C), Del(WC), X, Mod(RC), Mod(RC), Mod(R), X, Mod(C), Mod(C), Del(RWC), X, X, X, X, X]
    case _ => [X, X, X, X, X, X, X, X, X, X, X, X, X, X, X, X]
  }

  function OldAll(w: Bits): (row: seq<Operation>)
    ensures |row| == 16
  {
    match w
    case 0 => [N, Mod(RWC), Mod(RW), X, Mod(RWC), Mod(RWC), Mod(RW), X, Mod(WC), Mod(WC), Mod(W), X, X, X, X, X]
    case 1 => [Mod(RWC), Mod(RWC), Mod(RW), X, Mod(RWC), Mod(RWC), Mod(RW), X, Mod(WC), Mod(WC), Mod(W), X, X, X, X, X]
    case 2 => [Mod(RC), Mod(RC), Mod(R), X, Mod(RC), Mod(RC), Mod(R), X, Mod(C), Mod(C), Del(RWC), X, X, X, X, X]
    case _ => [X, X, X, X, X, X, X, X, X, X, X, X, X, X, X, X]
  }

  function Row(i: nat): (row: seq<Operation>)
    requires i < 32
    ensures |row| == 16
  {
    var w := i % 4;
    match i / 4
    case 0 => OldNone(w)
    case 1 => OldRead(w)
    case 2 => OldWrite(w)
    case 3 => OldReadWrite(w)
    case 4 => OldClose(w)
    case 5 => OldReadClose(w)
    case 6 => OldWriteClose(w)
    case _ => OldAll(w)
  }

  function Table(i: nat): Operation
    requires i < 512
  {
    Row(i / 16)[i % 16]
  }

  /** The rule from which the table was made. */
  function Rule(c: Change): Operation {
    var left := c.was.Minus(c.Deleted());
    if !c.Possible() then X
    else if c.Added() != NONE then if c.was == NONE then Add(c.Added()) else Mod(left.Plus(c.Added()))
    else if c.Deleted() == NONE then N
    else if left == NONE then Del(c.Deleted())
    else Mod(left)
  }

  lemma OldNoneIsRule(c: Change)
    requires c.was == NONE
    ensures OldNone(c.write)[c.close + 4 * c.read] == Rule(c)
  {
  }

  lemma OldReadIsRule(c: Change)
    requires c.was == R
    ensures OldRead(c.write)[c.close + 4 * c.read] == Rule(c)
  {
  }

  lemma OldWriteIsRule(c: Change)
    requires c.was == W
    ensures OldWrite(c.write)[c.close + 4 * c.read] == Rule(c)
  {
  }

  lemma OldReadWriteIsRule(c: Change)
    requires c.was == RW
    ensures OldReadWrite(c.write)[c.close + 4 * c.read] == Rule(c)
  {
  }

  lemma OldCloseIsRule(c: Change)
    requires c.was == C
    ensures OldClose(c.write)[c.close + 4 * c.read] == Rule(c)
  {
  }

  lemma OldReadCloseIsRule(c: Change)
    requires c.was == RC
    ensures OldReadClose(c.write)[c.close + 4 * c.read] == Rule(c)
  {
  }

  lemma OldWriteCloseIsRule(c: Change)
    requires c.was == WC
    ensures OldWriteClose(c.write)[c.close + 4 * c.read] == Rule(c)
  {
  }

  lemma OldAllIsRule(c: Change)
    requires c.was == RWC
    ensures OldAll(c.write)[c.close + 4 * c.read] == Rule(c)
  {
  }

  lemma EntryIsInRow(c: Change)
    ensures Table(TableIndex(c)) == Row(c.write + 4 * OldIndex(c))[c.close + 4 * c.read]
  {
    hide Row;
    assert TableIndex(c) == 16 * (c.write + 4 * OldIndex(c)) + (c.close + 4 * c.read);
  }

  /** Every one of the 512 entries is what the rule says. */
  lemma TableIsRule(c: Change)
    ensures Table(TableIndex(c)) == Rule(c)
  {
    hide Rule, OldNone, OldRead, OldWrite, OldReadWrite, OldClose, OldReadClose, OldWriteClose, OldAll;
    EntryIsInRow(c);
    hide Table, TableIndex;
    match OldIndex(c)
    case 0 => OldNoneIsRule(c);
    case 1 => OldReadIsRule(c);
    case 2 => OldWriteIsRule(c);
    case 3 => OldReadWriteIsRule(c);
    case 4 => OldCloseIsRule(c);
    case 5 => OldReadCloseIsRule(c);
    case 6 => OldWriteCloseIsRule(c);
    case _ => OldAllIsRule(c);
  }
}
