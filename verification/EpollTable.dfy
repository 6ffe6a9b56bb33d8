/** The epoll operation a change stands for: the table and the rule that generated it. */
module EpollTable {
  /** A set of the event kinds EV_READ, EV_WRITE and EV_CLOSED. */
  datatype Kinds = Kinds(read: bool, write: bool, close: bool)

  const NO_KINDS := Kinds(false, false, false)

  const EV_READ: nat := 2
  const EV_WRITE: nat := 4
  const EV_CLOSED: nat := 0x80
  const CHANGE_ADD: nat := 1
  const CHANGE_DEL: nat := 2

  /** The bits of a set of kinds. */
  function Mask(k: Kinds): nat {
    (if k.read then EV_READ else 0) + (if k.write then EV_WRITE else 0) + if k.close then EV_CLOSED else 0
  }

  /** The changes wanted on a descriptor since its kinds were old; each is 0, CHANGE_ADD or CHANGE_DEL. */
  datatype Change = Change(fd: nat, old_: Kinds, read: nat, write: nat, close: nat)

  /** What is asked of epoll; XXX marks a change that is both an addition and a deletion. */
  datatype Operation = Nothing | XXX | Add(events: nat) | Mod(events: nat) | Del(events: nat)

  // EPOLLIN, EPOLLOUT and EPOLLRDHUP, and their unions.
  const IN: nat := 1
  const OUT: nat := 4
  const IN_OUT: nat := 5
  const HUP: nat := 0x2000
  const IN_HUP: nat := 0x2001
  const OUT_HUP: nat := 0x2004
  const ALL: nat := 0x2005

  /** The bits that epoll has for a set of kinds: 0, 2 and 13. */
  function Events(k: Kinds): (e: nat)
    ensures e <= 0x2005 && (e % 2 == 1 <==> k.read) && (e / 4 % 2 == 1 <==> k.write) && (e / 0x2000 == 1 <==> k.close)
  {
    (if k.read then IN else 0) + (if k.write then OUT else 0) + if k.close then HUP else 0
  }

  /** Sixteen rows of four. */
  predicate Rows(t: seq<seq<Operation>>) {
    |t| == 16 && forall k {:trigger t[k]} :: 0 <= k < 16 ==> |t[k]| == 4
  }

  /** epoll_op_table, in rows of four. */
  function OldNone(): (t: seq<seq<Operation>>)
    ensures Rows(t)
  {
    [
      [Nothing, Add(HUP), Del(HUP), XXX],
      [Add(IN), Add(IN_HUP), Add(IN), XXX],
      [Del(IN), Add(HUP), Del(IN_HUP), XXX],
      [XXX, XXX, XXX, XXX],
      [Add(OUT), Add(OUT_HUP), Add(OUT), XXX],
      [Add(IN_OUT), Add(ALL), Add(IN_OUT), XXX],
      [Add(OUT), Add(OUT_HUP), Add(OUT), XXX],
      [XXX, XXX, XXX, XXX],
      [Del(OUT), Add(HUP), Del(OUT_HUP), XXX],
      [Add(IN), Add(IN_HUP), Add(IN), XXX],
      [Del(IN_OUT), Add(HUP), Del(ALL), XXX],
      [XXX, XXX, XXX, XXX],
      [XXX, XXX, XXX, XXX],
      [XXX, XXX, XXX, XXX],
      [XXX, XXX, XXX, XXX],
      [XXX, XXX, XXX, XXX]
    ]
  }

  function OldRead(): (t: seq<seq<Operation>>)
    ensures Rows(t)
  {
    [
      [Nothing, Mod(IN_HUP), Mod(IN), XXX],
      [Mod(IN), Mod(IN_HUP), Mod(IN), XXX],
      [Del(IN), Mod(HUP), Del(IN_HUP), XXX],
      [XXX, XXX, XXX, XXX],
      [Mod(IN_OUT), Mod(ALL), Mod(IN_OUT), XXX],
      [Mod(IN_OUT), Mod(ALL), Mod(IN_OUT), XXX],
      [Mod(OUT), Mod(OUT_HUP), Mod(OUT), XXX],
      [XXX, XXX, XXX, XXX],
      [Mod(IN), Mod(IN_HUP), Mod(IN), XXX],
      [Mod(IN), Mod(IN_HUP), Mod(IN), XXX],
      [Del(IN_OUT), Mod(HUP), Del(ALL), XXX],
      [XXX, XXX, XXX, XXX],
      [XXX, XXX, XXX, XXX],
      [XXX, XXX, XXX, XXX],
      [XXX, XXX, XXX, XXX],
      [XXX, XXX, XXX, XXX]
    ]
  }

  function OldWrite(): (t: seq<seq<Operation>>)
    ensures Rows(t)
  {
    [
      [Nothing, Mod(OUT_HUP), Mod(OUT), XXX],
      [Mod(IN_OUT), Mod(ALL), Mod(IN_OUT), XXX],
      [Mod(OUT), Mod(OUT_HUP), Mod(OUT), XXX],
      [XXX, XXX, XXX, XXX],
      [Mod(OUT), Mod(OUT_HUP), Mod(OUT), XXX],
      [Mod(IN_OUT), Mod(ALL), Mod(IN_OUT), XXX],
      [Mod(OUT), Mod(OUT_HUP), Mod(OUT), XXX],
      [XXX, XXX, XXX, XXX],
      [Del(OUT), Mod(HUP), Del(OUT_HUP), XXX],
      [Mod(IN), Mod(IN_HUP), Mod(IN), XXX],
      [Del(IN_OUT), Mod(HUP), Del(ALL), XXX],
      [XXX, XXX, XXX, XXX],
      [XXX, XXX, XXX, XXX],
      [XXX, XXX, XXX, XXX],
      [XXX, XXX, XXX, XXX],
      [XXX, XXX, XXX, XXX]
    ]
  }

  function OldReadWrite(): (t: seq<seq<Operation>>)
    ensures Rows(t)
  {
    [
      [Nothing, Mod(ALL), Mod(IN_OUT), XXX],
      [Mod(IN_OUT), Mod(ALL), Mod(IN_OUT), XXX],
      [Mod(OUT), Mod(OUT_HUP), Mod(OUT), XXX],
      [XXX, XXX, XXX, XXX],
      [Mod(IN_OUT), Mod(ALL), Mod(IN_OUT), XXX],
      [Mod(IN_OUT), Mod(ALL), Mod(IN_OUT), XXX],
      [Mod(OUT), Mod(OUT_HUP), Mod(OUT), XXX],
      [XXX, XXX, XXX, XXX],
      [Mod(IN), Mod(IN_HUP), Mod(IN), XXX],
      [Mod(IN), Mod(IN_HUP), Mod(IN), XXX],
      [Del(IN_OUT), Mod(HUP), Del(ALL), XXX],
      [XXX, XXX, XXX, XXX],
      [XXX, XXX, XXX, XXX],
      [XXX, XXX, XXX, XXX],
      [XXX, XXX, XXX, XXX],
      [XXX, XXX, XXX, XXX]
    ]
  }

  function OldClosed(): (t: seq<seq<Operation>>)
    ensures Rows(t)
  {
    [
      [Nothing, Mod(HUP), Del(HUP), XXX],
      [Mod(IN_HUP), Mod(IN_HUP), Mod(IN), XXX],
      [Mod(HUP), Mod(HUP), Del(IN_HUP), XXX],
      [XXX, XXX, XXX, XXX],
      [Mod(OUT_HUP), Mod(OUT_HUP), Mod(OUT), XXX],
      [Mod(ALL), Mod(ALL), Mod(IN_OUT), XXX],
      [Mod(OUT_HUP), Mod(OUT_HUP), Mod(OUT), XXX],
      [XXX, XXX, XXX, XXX],
      [Mod(HUP), Mod(HUP), Del(OUT_HUP), XXX],
      [Mod(IN_HUP), Mod(IN_HUP), Mod(IN), XXX],
      [Mod(HUP), Mod(HUP), Del(ALL), XXX],
      [XXX, XXX, XXX, XXX],
      [XXX, XXX, XXX, XXX],
      [XXX, XXX, XXX, XXX],
      [XXX, XXX, XXX, XXX],
      [XXX, XXX, XXX, XXX]
    ]
  }

  function OldClosedRead(): (t: seq<seq<Operation>>)
    ensures Rows(t)
  {
    [
      [Nothing, Mod(IN_HUP), Mod(IN), XXX],
      [Mod(IN_HUP), Mod(IN_HUP), Mod(IN), XXX],
      [Mod(HUP), Mod(HUP), Del(IN_HUP), XXX],
      [XXX, XXX, XXX, XXX],
      [Mod(ALL), Mod(ALL), Mod(IN_OUT), XXX],
      [Mod(ALL), Mod(ALL), Mod(IN_OUT), XXX],
      [Mod(OUT_HUP), Mod(OUT_HUP), Mod(OUT), XXX],
      [XXX, XXX, XXX, XXX],
      [Mod(IN_HUP), Mod(IN_HUP), Mod(IN), XXX],
      [Mod(IN_HUP), Mod(IN_HUP), Mod(IN), XXX],
      [Mod(HUP), Mod(HUP), Del(ALL), XXX],
      [XXX, XXX, XXX, XXX],
      [XXX, XXX, XXX, XXX],
      [XXX, XXX, XXX, XXX],
      [XXX, XXX, XXX, XXX],
      [XXX, XXX, XXX, XXX]
    ]
  }

  function OldClosedWrite(): (t: seq<seq<Operation>>)
    ensures Rows(t)
  {
    [
      [Nothing, Mod(OUT_HUP), Mod(OUT), XXX],
      [Mod(ALL), Mod(ALL), Mod(IN_OUT), XXX],
      [Mod(OUT_HUP), Mod(OUT_HUP), Mod(OUT), XXX],
      [XXX, XXX, XXX, XXX],
      [Mod(OUT_HUP), Mod(OUT_HUP), Mod(OUT), XXX],
      [Mod(ALL), Mod(ALL), Mod(IN_OUT), XXX],
      [Mod(OUT_HUP), Mod(OUT_HUP), Mod(OUT), XXX],
      [XXX, XXX, XXX, XXX],
      [Mod(HUP), Mod(HUP), Del(OUT_HUP), XXX],
      [Mod(IN_HUP), Mod(IN_HUP), Mod(IN), XXX],
      [Mod(HUP), Mod(HUP), Del(ALL), XXX],
      [XXX, XXX, XXX, XXX],
      [XXX, XXX, XXX, XXX],
      [XXX, XXX, XXX, XXX],
      [XXX, XXX, XXX, XXX],
      [XXX, XXX, XXX, XXX]
    ]
  }

  function OldAll(): (t: seq<seq<Operation>>)
    ensures Rows(t)
  {
    [
      [Nothing, Mod(ALL), Mod(IN_OUT), XXX],
      [Mod(ALL), Mod(ALL), Mod(IN_OUT), XXX],
      [Mod(OUT_HUP), Mod(OUT_HUP), Mod(OUT), XXX],
      [XXX, XXX, XXX, XXX],
      [Mod(ALL), Mod(ALL), Mod(IN_OUT), XXX],
      [Mod(ALL), Mod(ALL), Mod(IN_OUT), XXX],
      [Mod(OUT_HUP), Mod(OUT_HUP), Mod(OUT), XXX],
      [XXX, XXX, XXX, XXX],
      [Mod(IN_HUP), Mod(IN_HUP), Mod(IN), XXX],
      [Mod(IN_HUP), Mod(IN_HUP), Mod(IN), XXX],
      [Mod(HUP), Mod(HUP), Del(ALL), XXX],
      [XXX, XXX, XXX, XXX],
      [XXX, XXX, XXX, XXX],
      [XXX, XXX, XXX, XXX],
      [XXX, XXX, XXX, XXX],
      [XXX, XXX, XXX, XXX]
    ]
  }

  function TableBlock(o: nat): (t: seq<seq<Operation>>)
    requires o < 8
    ensures Rows(t)
  {
    if o == 0 then OldNone() else if o == 1 then OldRead() else if o == 2 then OldWrite() else if o == 3 then OldReadWrite()
    else if o == 4 then OldClosed() else if o == 5 then OldClosedRead() else if o == 6 then OldClosedWrite() else OldAll()
  }

  /** Entry i of epoll_op_table. */
  function EpollOpTable(i: nat): Operation
    requires i < 512
  {
    TableBlock(i / 64)[i / 4 % 16][i % 4]
  }

  /** EPOLL_OP_TABLE_INDEX */
  function TableIndex(ch: Change): (i: nat)
    requires ch.read < 4 && ch.write < 4 && ch.close < 4
    ensures i < 512
  {
    // old_events & (EV_READ|EV_WRITE) goes to bits 6 and 7, old_events & EV_CLOSED to bit 8.
    ch.close + ch.read * 4 + ch.write * 16 + Mask(ch.old_.(close := false)) * 32 + Mask(Kinds(false, false, ch.old_.close)) * 2
  }

  /** What a change wants of one kind: whether it is there afterwards. */
  function After(change: nat, was: bool): bool {
    change == CHANGE_ADD || (change != CHANGE_DEL && was)
  }

  /** The kinds that a change leaves. */
  function Kept(ch: Change): Kinds {
    Kinds(After(ch.read, ch.old_.read), After(ch.write, ch.old_.write), After(ch.close, ch.old_.close))
  }

  /** The rule the table was generated from. */
  function Rule(ch: Change): Operation {
    if ch.read == 3 || ch.write == 3 || ch.close == 3 then XXX
    else if ch.read == CHANGE_ADD || ch.write == CHANGE_ADD || ch.close == CHANGE_ADD then
      if ch.old_ != NO_KINDS then Mod(Events(Kept(ch))) else Add(Events(Kept(ch)))
    else if ch.read == 0 && ch.write == 0 && ch.close == 0 then Nothing
    else
      var left := Kinds(ch.read == 0 && ch.old_.read, ch.write == 0 && ch.old_.write, ch.close == 0 && ch.old_.close);
      if left != NO_KINDS then Mod(Events(left))
      else Del(Events(Kinds(ch.read == CHANGE_DEL, ch.write == CHANGE_DEL, ch.close == CHANGE_DEL)))
  }

  lemma RuleNone(ch: Change)
    requires ch.close < 4 && ch.read < 4 && ch.write < 4 && ch.old_ == Kinds(false, false, false)
    ensures |OldNone()[ch.read + 4 * ch.write]| == 4 && OldNone()[ch.read + 4 * ch.write][ch.close] == Rule(ch)
  {
  }

  lemma RuleRead(ch: Change)
    requires ch.close < 4 && ch.read < 4 && ch.write < 4 && ch.old_ == Kinds(true, false, false)
    ensures |OldRead()[ch.read + 4 * ch.write]| == 4 && OldRead()[ch.read + 4 * ch.write][ch.close] == Rule(ch)
  {
  }

  lemma RuleWrite(ch: Change)
    requires ch.close < 4 && ch.read < 4 && ch.write < 4 && ch.old_ == Kinds(false, true, false)
    ensures |OldWrite()[ch.read + 4 * ch.write]| == 4 && OldWrite()[ch.read + 4 * ch.write][ch.close] == Rule(ch)
  {
  }

  lemma RuleReadWrite(ch: Change)
    requires ch.close < 4 && ch.read < 4 && ch.write < 4 && ch.old_ == Kinds(true, true, false)
    ensures |OldReadWrite()[ch.read + 4 * ch.write]| == 4 && OldReadWrite()[ch.read + 4 * ch.write][ch.close] == Rule(ch)
  {
  }

  lemma RuleClosed(ch: Change)
    requires ch.close < 4 && ch.read < 4 && ch.write < 4 && ch.old_ == Kinds(false, false, true)
    ensures |OldClosed()[ch.read + 4 * ch.write]| == 4 && OldClosed()[ch.read + 4 * ch.write][ch.close] == Rule(ch)
  {
  }

  lemma RuleClosedRead(ch: Change)
    requires ch.close < 4 && ch.read < 4 && ch.write < 4 && ch.old_ == Kinds(true, false, true)
    ensures |OldClosedRead()[ch.read + 4 * ch.write]| == 4 && OldClosedRead()[ch.read + 4 * ch.write][ch.close] == Rule(ch)
  {
  }

  lemma RuleClosedWrite(ch: Change)
    requires ch.close < 4 && ch.read < 4 && ch.write < 4 && ch.old_ == Kinds(false, true, true)
    ensures |OldClosedWrite()[ch.read + 4 * ch.write]| == 4 && OldClosedWrite()[ch.read + 4 * ch.write][ch.close] == Rule(ch)
  {
  }

  lemma RuleAll(ch: Change)
    requires ch.close < 4 && ch.read < 4 && ch.write < 4 && ch.old_ == Kinds(true, true, true)
    ensures |OldAll()[ch.read + 4 * ch.write]| == 4 && OldAll()[ch.read + 4 * ch.write][ch.close] == Rule(ch)
  {
  }

  lemma IndexParts(ch: Change)
    requires ch.read < 4 && ch.write < 4 && ch.close < 4
    ensures var i := TableIndex(ch);
            && i % 4 == ch.close && i / 4 % 16 == ch.read + 4 * ch.write
            && i / 64 == (if ch.old_.read then 1 else 0) + (if ch.old_.write then 2 else 0) + if ch.old_.close then 4 else 0
  {
  }

  lemma Blocks()
    ensures TableBlock(0) == OldNone() && TableBlock(1) == OldRead() && TableBlock(2) == OldWrite()
    ensures TableBlock(3) == OldReadWrite() && TableBlock(4) == OldClosed() && TableBlock(5) == OldClosedRead()
    ensures TableBlock(6) == OldClosedWrite() && TableBlock(7) == OldAll()
  {
    hide OldNone, OldRead, OldWrite, OldReadWrite, OldClosed, OldClosedRead, OldClosedWrite, OldAll;
  }

  /** Every entry of the table is what the rule says. */
  lemma TableRule(ch: Change)
    requires ch.read < 4 && ch.write < 4 && ch.close < 4
    ensures EpollOpTable(TableIndex(ch)) == Rule(ch)
  {
    hide TableIndex, Rule, TableBlock;
    hide OldNone, OldRead, OldWrite, OldReadWrite, OldClosed, OldClosedRead, OldClosedWrite, OldAll;
    IndexParts(ch);
    Blocks();
    var o := ch.old_;
    if !o.close {
      if !o.write {
        if !o.read { RuleNone(ch); } else { RuleRead(ch); }
      } else {
        if !o.read { RuleWrite(ch); } else { RuleReadWrite(ch); }
      }
    } else {
      if !o.write {
        if !o.read { RuleClosed(ch); } else { RuleClosedRead(ch); }
      } else {
        if !o.read { RuleClosedWrite(ch); } else { RuleAll(ch); }
      }
    }
  }
}
