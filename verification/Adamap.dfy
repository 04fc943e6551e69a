/** The loss records of OmniDMA: what the receiver notes about missing packets, and how they
    move from the active bitmap through the linked list to the lookup table. */
module Adamap {

  /** Stands for the packets `startSeq + 1 .. startSeq + reprLength`; a set bit means received,
      packets behind the bitmap are lost. */
  datatype Adamap = Adamap(id: nat, startSeq: int, reprLength: int, bitmap: seq<bool>) {

    function End(): int { startSeq + reprLength }

    predicate Lost(s: int) {
      startSeq < s <= End() && (s - startSeq - 1 < |bitmap| ==> !bitmap[s - startSeq - 1])
    }

    /** All bits within the represented length are set (`assertBitmapFull`). */
    predicate BitmapFull() {
      forall i | 0 <= i < |bitmap| && i < reprLength :: bitmap[i]
    }

    /** No packet is lost any more (`assertLLNodeFinish`). */
    predicate Finished() { BitmapFull() && reprLength <= |bitmap| }

    lemma FinishedIsLossless()
      requires reprLength > 0
      ensures Finished() <==> forall s :: !Lost(s)
    {
      if !Finished() {
        if reprLength > |bitmap| {
          assert Lost(End());
        } else {
          var i :| 0 <= i < |bitmap| && i < reprLength && !bitmap[i];
          assert Lost(startSeq + 1 + i);
        }
      }
      if s :| Lost(s) {
        if reprLength <= |bitmap| { assert !bitmap[s - startSeq - 1]; }
      }
    }

    /** The part covered by the bitmap ... */
    function First(): Adamap { this.(reprLength := if |bitmap| < reprLength then |bitmap| else reprLength) }

    /** ... and the rest of the run, with a cleared bitmap. */
    function Rest(): Adamap {
      Adamap(id, startSeq + |bitmap|, reprLength - |bitmap|, Zeros(|bitmap|))
    }

    function Fill(s: int): Adamap
      requires 0 <= s - startSeq - 1 < |bitmap|
    {
      this.(bitmap := bitmap[s - startSeq - 1 := true])
    }
  }

  function Zeros(n: nat): seq<bool> { seq(n, _ => false) }

  /** Splitting loses no packet and invents none. */
  lemma SplitKeeps(a: Adamap, s: int)
    requires a.reprLength > |a.bitmap|
    ensures a.Lost(s) <==> a.First().Lost(s) || a.Rest().Lost(s)
  {
  }

  // ---- sequences of records --------------------------------------------------------------

  ghost predicate LostIn(segs: seq<Adamap>, s: int) { exists i :: 0 <= i < |segs| && segs[i].Lost(s) }

  /** Non-empty records of `size` bits in ascending disjoint ranges from number 1 up to `bound`. */
  ghost predicate Ascending(segs: seq<Adamap>, size: nat, bound: int) {
    && (forall i | 0 <= i < |segs| :: |segs[i].bitmap| == size && segs[i].startSeq >= 0 && segs[i].reprLength > 0 && segs[i].End() <= bound)
    && (forall i, j | 0 <= i < j < |segs| :: segs[i].End() <= segs[j].startSeq)
  }

  lemma LostConcat(a: seq<Adamap>, b: seq<Adamap>, s: int)
    ensures LostIn(a + b, s) <==> LostIn(a, s) || LostIn(b, s)
  {
    if LostIn(a + b, s) {
      var i :| 0 <= i < |a + b| && (a + b)[i].Lost(s);
      if i < |a| { assert a[i].Lost(s); } else { assert b[i - |a|].Lost(s); }
    }
    if i :| 0 <= i < |a| && a[i].Lost(s) { assert (a + b)[i].Lost(s); }
    if i :| 0 <= i < |b| && b[i].Lost(s) { assert (a + b)[|a| + i].Lost(s); }
  }

  lemma LostOne(a: Adamap, s: int)
    ensures LostIn([a], s) <==> a.Lost(s)
  {
    if a.Lost(s) { assert [a][0].Lost(s); }
  }

  /** Ranges of at least one packet, one behind the other. */
  ghost predicate InSequence(list: seq<Adamap>) {
    && (forall i | 0 <= i < |list| :: list[i].startSeq < list[i].End())
    && (forall i, j | 0 <= i < j < |list| :: list[i].End() <= list[j].startSeq)
  }

  lemma NextInSequence(list: seq<Adamap>, i: nat)
    requires InSequence(list) && i < |list|
    ensures list[0].startSeq <= list[i].startSeq < list[i].End() && (i + 1 < |list| ==> list[i].End() <= list[i + 1].startSeq)
  {
    assert i > 0 ==> list[0].startSeq < list[0].End() <= list[i].startSeq;
  }

  ghost predicate SameLosses(a: seq<Adamap>, b: seq<Adamap>) { forall x :: LostIn(a, x) <==> LostIn(b, x) }

  lemma SameSelf(a: seq<Adamap>)
    ensures SameLosses(a, a)
  {
  }

  lemma SameTrans(a: seq<Adamap>, b: seq<Adamap>, c: seq<Adamap>)
    requires SameLosses(a, b) && SameLosses(b, c)
    ensures SameLosses(a, c)
  {
  }

  ghost predicate Before(a: seq<Adamap>, b: seq<Adamap>) {
    forall i, j | 0 <= i < |a| && 0 <= j < |b| :: a[i].End() <= b[j].startSeq
  }

  lemma AscendingConcat(a: seq<Adamap>, b: seq<Adamap>, size: nat, bound: int)
    ensures Ascending(a + b, size, bound) <==> Ascending(a, size, bound) && Ascending(b, size, bound) && Before(a, b)
  {
    var c := a + b;
    if Ascending(c, size, bound) {
      assert forall i | 0 <= i < |a| :: c[i] == a[i];
      assert forall j | 0 <= j < |b| :: c[|a| + j] == b[j];
    }
    if Ascending(a, size, bound) && Ascending(b, size, bound) && Before(a, b) {
      forall i, j | 0 <= i < j < |c| ensures c[i].End() <= c[j].startSeq {
        if i < |a| <= j { assert c[i] == a[i] && c[j] == b[j - |a|]; }
      }
    }
  }

  lemma Disjoint(segs: seq<Adamap>, size: nat, bound: int, i: nat, j: nat, s: int)
    requires Ascending(segs, size, bound) && i < |segs| && j < |segs| && i != j && segs[j].startSeq < s <= segs[j].End()
    ensures !segs[i].Lost(s)
  {
  }

  /** Setting the bit of a lost packet removes just this packet. */
  lemma FillAt(segs: seq<Adamap>, size: nat, bound: int, k: nat, s: int)
    requires Ascending(segs, size, bound) && k < |segs| && segs[k].Lost(s) && s - segs[k].startSeq <= size
    ensures Ascending(segs[k := segs[k].Fill(s)], size, bound)
    ensures forall x :: LostIn(segs[k := segs[k].Fill(s)], x) <==> LostIn(segs, x) && x != s
  {
    forall x ensures LostIn(segs[k := segs[k].Fill(s)], x) <==> LostIn(segs, x) && x != s {
      FillOne(segs, size, bound, k, s, x);
    }
  }

  lemma FillOne(segs: seq<Adamap>, size: nat, bound: int, k: nat, s: int, x: int)
    requires Ascending(segs, size, bound) && k < |segs| && segs[k].Lost(s) && s - segs[k].startSeq <= size
    ensures LostIn(segs[k := segs[k].Fill(s)], x) <==> LostIn(segs, x) && x != s
  {
    var after := segs[k := segs[k].Fill(s)];
    if i :| 0 <= i < |after| && after[i].Lost(x) {
      assert segs[i].Lost(x);
      if i != k { Disjoint(segs, size, bound, i, k, s); }
    }
    if LostIn(segs, x) && x != s {
      var i :| 0 <= i < |segs| && segs[i].Lost(x);
      assert after[i].Lost(x);
    }
  }

  /** Splitting a record in place keeps the lost packets. */
  lemma SplitAt(a: seq<Adamap>, node: Adamap, b: seq<Adamap>, size: nat, bound: int)
    requires Ascending(a + [node] + b, size, bound) && node.reprLength > size > 0
    ensures Ascending(a + [node.First()] + [node.Rest()] + b, size, bound)
    ensures forall x :: LostIn(a + [node.First()] + [node.Rest()] + b, x) <==> LostIn(a + [node] + b, x)
  {
    var first, rest := node.First(), node.Rest();
    hide Ascending;
    AscendingConcat(a + [node], b, size, bound);
    AscendingConcat(a, [node], size, bound);
    AscendingPieces(node, size, bound);
    Positive(node, size, bound);
    AscendingConcat(a, [first], size, bound);
    AscendingConcat(a + [first], [rest], size, bound);
    AscendingConcat(a + [first] + [rest], b, size, bound);
    BeforeAppend(a, [node], b);
    BeforeAppend(a, [first], b);
    BeforeAppend(a + [first], [rest], b);
    forall x ensures LostIn(a + [first] + [rest] + b, x) <==> LostIn(a + [node] + b, x) {
      hide LostIn;
      LostConcat(a + [node], b, x);
      LostConcat(a, [node], x);
      LostConcat(a + [first] + [rest], b, x);
      LostConcat(a + [first], [rest], x);
      LostConcat(a, [first], x);
      LostOne(node, x);
      LostOne(first, x);
      LostOne(rest, x);
      SplitKeeps(node, x);
    }
  }

  lemma BeforeAppend(a: seq<Adamap>, b: seq<Adamap>, c: seq<Adamap>)
    ensures Before(a + b, c) <==> Before(a, c) && Before(b, c)
  {
    if Before(a + b, c) {
      assert forall i | 0 <= i < |a| :: (a + b)[i] == a[i];
      assert forall i | 0 <= i < |b| :: (a + b)[|a| + i] == b[i];
    }
  }

  lemma AscendingPieces(node: Adamap, size: nat, bound: int)
    requires Ascending([node], size, bound) && node.reprLength > size > 0
    ensures Ascending([node.First()], size, bound) && Ascending([node.Rest()], size, bound)
    ensures forall a: seq<Adamap> :: Before(a, [node]) ==> Before(a, [node.First()]) && Before(a + [node.First()], [node.Rest()])
    ensures forall b: seq<Adamap> :: Before([node], b) ==> Before([node.First()], b) && Before([node.Rest()], b)
  {
    assert [node][0] == node;
    forall a: seq<Adamap> | Before(a, [node]) ensures Before(a, [node.First()]) && Before(a + [node.First()], [node.Rest()]) {
      assert forall i | 0 <= i < |a| :: a[i].End() <= [node][0].startSeq;
    }
    forall b: seq<Adamap> | Before([node], b) ensures Before([node.First()], b) && Before([node.Rest()], b) {
      assert forall j | 0 <= j < |b| :: [node][0].End() <= b[j].startSeq;
    }
  }

  /** Dropping a record without lost packets keeps the lost packets. */
  lemma DropAt(a: seq<Adamap>, node: Adamap, b: seq<Adamap>, size: nat, bound: int)
    requires Ascending(a + [node] + b, size, bound) && node.Finished()
    ensures Ascending(a + b, size, bound)
    ensures forall x :: LostIn(a + b, x) <==> LostIn(a + [node] + b, x)
  {
    hide Ascending;
    AscendingConcat(a + [node], b, size, bound);
    AscendingConcat(a, [node], size, bound);
    AscendingConcat(a, b, size, bound);
    BeforeAppend(a, [node], b);
    assert node.reprLength > 0 by { Positive(node, size, bound); }
    node.FinishedIsLossless();
    forall x ensures LostIn(a + b, x) <==> LostIn(a + [node] + b, x) {
      hide LostIn;
      LostConcat(a + [node], b, x);
      LostConcat(a, [node], x);
      LostOne(node, x);
      LostConcat(a, b, x);
    }
  }

  lemma Positive(node: Adamap, size: nat, bound: int)
    requires Ascending([node], size, bound)
    ensures node.reprLength > 0 && |node.bitmap| == size
  {
    assert [node][0] == node;
  }

  // ---- accounting for every packet --------------------------------------------------------

  /** All records in order of their ranges, and the active bitmap behind them. */
  datatype View = View(segs: seq<Adamap>, startSeq: int, bitmap: seq<bool>) {

    ghost predicate Bit(s: int) { 0 <= s - startSeq - 1 < |bitmap| && bitmap[s - startSeq - 1] }

    /** An unset bit before a set one. */
    ghost predicate Gap(s: int) { startSeq < s && !Bit(s) && exists t :: s < t && Bit(t) }

    ghost predicate Missing(s: int) { LostIn(segs, s) || Gap(s) }

    ghost predicate Empty() { forall i | 0 <= i < |bitmap| :: !bitmap[i] }

    /** `top` is the highest number received in order: the last set bit, or the start. */
    ghost predicate Top(top: int) {
      && startSeq <= top && (top > startSeq ==> Bit(top))
      && forall s | s > top :: !Bit(s)
    }

    ghost predicate Wf(size: nat) { size > 0 && |bitmap| == size && startSeq >= 0 && Ascending(segs, size, startSeq - 1) }

    /** From packet 1 up to `top`, every packet is either recorded or noted as missing, and never both. */
    ghost predicate Accounted(recorded: set<int>, top: int) {
      && Top(top)
      && (forall s | 0 < s <= top :: s in recorded <==> !Missing(s))
      && (forall s | s > top :: s !in recorded && !Missing(s))
    }

    /** The same from packet 0, the first one of a transfer. */
    ghost predicate FullyAccounted(recorded: set<int>, top: int) {
      Accounted(recorded, top) && forall s | 0 <= s <= top :: s in recorded <==> !Missing(s)
    }

    /** What is missing; packet 0 never is. */
    lemma MissingIs(size: nat, recorded: set<int>, top: int)
      requires Wf(size) && Accounted(recorded, top)
      ensures Noted(recorded, top)
    {
      assert forall s :: Gap(s) ==> s > startSeq >= 0;
      assert forall s :: LostIn(segs, s) ==> s > 0;
    }

    ghost predicate Noted(recorded: set<int>, top: int) {
      && 0 <= startSeq <= top && (forall s :: Missing(s) <==> 0 < s <= top && s !in recorded)
      && forall s | s > top :: s !in recorded
    }

    /** `that` has the same packets missing, but for `s` unless it came in vain, and besides those between the bounds. */
    ghost predicate Changes(that: View, s: int, vain: bool, from: int, to: int) {
      && (that.Missing(s) <==> Missing(s) && vain)
      && (forall x | x != s :: that.Missing(x) <==> Missing(x) || from < x < to)
    }

    /** `that` has the packets missing that are missing here, but for packet `s` if it counts and those that it skips. */
    lemma StaysMissing(that: View, recorded: set<int>, top: int, s: int, skips: bool, vain: bool, counts: bool)
      requires Noted(recorded, top) && (Missing(s) ==> (vain <==> !counts)) && s >= 0
      requires that.Noted(if s == 0 || counts then recorded + {s} else recorded, if skips && s > top then s else top)
      requires if skips then counts <==> s > startSeq else counts ==> Missing(s)
      ensures Changes(that, s, vain, top, if skips then s else top)
    {
      hide Missing;
    }

    /** So the account is right from packet 0 on iff this packet has come. */
    lemma FullIff(size: nat, recorded: set<int>, top: int)
      requires Wf(size) && Accounted(recorded, top)
      ensures FullyAccounted(recorded, top) <==> 0 in recorded
    {
      MissingIs(size, recorded, top);
    }

    lemma AddZero(size: nat, recorded: set<int>, top: int)
      requires Wf(size) && Accounted(recorded, top)
      ensures Accounted(recorded + {0}, top)
    {
    }

    lemma RangesBelow(size: nat, s: int)
      requires Wf(size) && LostIn(segs, s)
      ensures s < startSeq
    {
    }

    lemma LostBelow(size: nat, s: int)
      requires Wf(size) && LostIn(segs, s)
      ensures s < startSeq
    {
    }

    /** Going back to the beginning forgets packets that have been recorded. */
    lemma Rewind(size: nat, recorded: set<int>, top: int, t: int)
      requires Wf(size) && Accounted(recorded, top) && Empty() && startSeq > 0
      ensures !this.(startSeq := 0).Accounted(recorded + {0}, t)
    {
      assert top == startSeq && !Gap(startSeq);
      if LostIn(segs, startSeq) { RangesBelow(size, startSeq); }
      assert startSeq in recorded;
      var v := this.(startSeq := 0);
      assert !v.Bit(t);
    }

    /** The next packet in order with nothing missing in the window. */
    lemma Advance(size: nat, recorded: set<int>, top: int)
      requires Wf(size) && Accounted(recorded, top) && Empty()
      ensures var v := this.(startSeq := startSeq + 1);
              v.Wf(size) && v.Accounted(recorded + {startSeq + 1}, startSeq + 1) && top == startSeq
    {
    }

    /** A packet inside the window. */
    lemma Mark(size: nat, recorded: set<int>, top: int, seq_: int)
      requires Wf(size) && Accounted(recorded, top) && startSeq < seq_ <= startSeq + size
      ensures var v := this.(bitmap := bitmap[seq_ - startSeq - 1 := true]);
              v.Wf(size) && v.Accounted(recorded + {seq_}, if seq_ > top then seq_ else top)
    {
      var v := this.(bitmap := bitmap[seq_ - startSeq - 1 := true]);
      var top' := if seq_ > top then seq_ else top;
      assert forall s :: v.Bit(s) <==> Bit(s) || s == seq_;
      forall s | s > startSeq ensures v.Gap(s) <==> s < top' && !v.Bit(s) {
        if s < top' { assert v.Bit(top'); }
      }
      forall s | s > startSeq ensures Gap(s) <==> s < top && !Bit(s) {
        if s < top { assert Bit(top); }
      }
      forall s ensures LostIn(segs, s) ==> s < startSeq {
        if LostIn(segs, s) { RangesBelow(size, s); }
      }
    }

    /** A packet beyond the window closes it. */
    lemma Close(size: nat, recorded: set<int>, top: int, seq_: int, id: nat)
      requires Wf(size) && Accounted(recorded, top) && seq_ > startSeq + size
      ensures var v := View(segs + [Adamap(id, startSeq, seq_ - startSeq - 1, bitmap)], seq_, Zeros(size));
              v.Wf(size) && v.Accounted(recorded + {seq_}, seq_) && top < seq_
    {
      var a := Adamap(id, startSeq, seq_ - startSeq - 1, bitmap);
      var v := View(segs + [a], seq_, Zeros(size));
      assert forall s :: !v.Bit(s) && !v.Gap(s);
      assert top < seq_ by { if top > startSeq { assert Bit(top); } }
      forall s ensures v.Missing(s) <==> LostIn(segs, s) || a.Lost(s) {
        LostConcat(segs, [a], s);
        LostOne(a, s);
      }
      forall s ensures LostIn(segs, s) ==> s < startSeq {
        if LostIn(segs, s) { RangesBelow(size, s); }
      }
      forall s | startSeq < s <= top ensures Missing(s) <==> !Bit(s) {
        if s < top { assert Bit(top); }
      }
      forall s | startSeq < s ensures a.Lost(s) <==> s < seq_ && !Bit(s) {
      }
      forall s | 0 < s <= seq_ ensures s in recorded + {seq_} <==> !v.Missing(s) {
        if s <= startSeq {
          assert !Gap(s);
        }
      }
    }

    /** Only one packet less is missing. */
    lemma Recovered(that: View, recorded: set<int>, top: int, seq_: int)
      requires Accounted(recorded, top) && that.startSeq == startSeq && that.bitmap == bitmap
      requires LostIn(segs, seq_) && forall x :: LostIn(that.segs, x) <==> LostIn(segs, x) && x != seq_
      requires seq_ <= startSeq
      ensures that.Accounted(recorded + {seq_}, top)
    {
      SameActive(that, top);
      hide Bit;
      hide Gap;
      hide LostIn;
      assert forall s :: that.Missing(s) <==> Missing(s) && s != seq_;
    }

    lemma SameActive(that: View, top: int)
      requires Top(top) && that.startSeq == startSeq && that.bitmap == bitmap
      ensures that.Top(top) && forall s :: that.Gap(s) <==> Gap(s)
      ensures forall s :: Gap(s) ==> s > startSeq
    {
      assert forall t :: that.Bit(t) <==> Bit(t);
    }

    lemma Moved(that: View, recorded: set<int>, top: int)
      requires Accounted(recorded, top) && that.startSeq == startSeq && that.bitmap == bitmap
      requires forall x :: LostIn(that.segs, x) <==> LostIn(segs, x)
      ensures that.Accounted(recorded, top)
    {
      SameActive(that, top);
      hide Bit;
      hide Gap;
      hide LostIn;
      assert forall s :: that.Missing(s) <==> Missing(s);
    }
  }

  // ---- the receiver -----------------------------------------------------------------------

  /** An entry of the lookup table. */
  datatype Entry = Entry(tableIndex: nat, adamap: Adamap)

  ghost function Adamaps(table: seq<Entry>): seq<Adamap> {
    seq(|table|, i requires 0 <= i < |table| => table[i].adamap)
  }

  lemma AdamapsAppend(table: seq<Entry>, e: Entry)
    ensures Adamaps(table + [e]) == Adamaps(table) + [e.adamap]
  {
  }

  /** Entries have different numbers below the next one, and nothing behind their bitmaps. */
  ghost predicate Numbered(table: seq<Entry>, next: nat, size: nat) {
    && (forall i | 0 <= i < |table| :: table[i].tableIndex < next && table[i].adamap.reprLength <= size)
    && (forall i, j | 0 <= i < j < |table| :: table[i].tableIndex != table[j].tableIndex)
  }

  // ---- what a packet of the first round does to the record that holds it ------------------------------

  /** `a` is `head` without the loss of packet `s`. */
  ghost predicate BitSet(a: Adamap, head: Adamap, s: int) {
    && a.id == head.id && a.startSeq == head.startSeq && a.reprLength == head.reprLength && |a.bitmap| == |head.bitmap|
    && forall x :: a.Lost(x) <==> head.Lost(x) && x != s
  }

  ghost predicate LaterHole(head: Adamap, s: int, size: nat) { exists x :: s < x <= head.startSeq + size && head.Lost(x) }

  ghost predicate EarlierHole(head: Adamap, s: int) { exists x :: x < s && head.Lost(x) }

  /** `a` is what the bitmap of `head` covers, without the loss of packet `s`. */
  ghost predicate BitmapPart(a: Adamap, head: Adamap, s: int, size: nat) {
    && a.id == head.id && a.startSeq == head.startSeq && a.reprLength == (if head.reprLength > size then size else head.reprLength)
    && forall x :: a.Lost(x) <==> head.Lost(x) && x != s && x <= head.startSeq + size
  }

  /** `a` is the run behind the bitmap of `head`, all lost. */
  ghost predicate RunPart(a: Adamap, head: Adamap, size: nat) {
    && a.id == head.id && a.startSeq == head.startSeq + size && a.End() == head.End()
    && forall x :: a.Lost(x) <==> a.startSeq < x <= a.End()
  }

  /** The packet was in the bitmap of the head. While a later packet of the bitmap is lost the head stays, without this loss;
      otherwise the part of the bitmap goes, to the table if an earlier packet of it is lost, and only the run stays. */
  ghost predicate HoleDone(head: Adamap, tail: seq<Adamap>, s: int, size: nat, r: Outcome, list: seq<Adamap>, added: seq<Entry>) {
    if LaterHole(head, s, size) then
      r == Code(-14) && added == [] && |list| == |tail| + 1 && list[1..] == tail && BitSet(list[0], head, s)
    else
      && (if head.reprLength <= size then r == Code(-16) && list == tail
          else r == Code(-17) && |list| == |tail| + 1 && list[1..] == tail && RunPart(list[0], head, size))
      && if EarlierHole(head, s) then |added| == 1 && BitmapPart(added[0].adamap, head, s, size) else added == []
  }

  /** `a` has `size` packets from behind number `from`, and their losses. */
  ghost predicate PartFrom(a: Adamap, head: Adamap, from: int, size: nat) {
    && a.id == head.id && a.startSeq == from && a.reprLength == size
    && forall x :: a.Lost(x) <==> head.Lost(x) && from < x <= from + size
  }

  /** Where the `i`-th part of a record begins. */
  ghost function PartStart(head: Adamap, parts: seq<Entry>, i: int): int
    requires 0 <= i <= |parts|
  {
    if i == 0 then head.startSeq else parts[i - 1].adamap.End()
  }

  /** `head` cut into parts of `size` packets, up to the start of `rest`. */
  ghost predicate Cut(head: Adamap, parts: seq<Entry>, rest: Adamap, size: nat) {
    && (forall i | 0 <= i < |parts| :: PartFrom(parts[i].adamap, head, PartStart(head, parts, i), size))
    && rest.startSeq == PartStart(head, parts, |parts|)
    && rest.id == head.id && rest.End() == head.End()
  }

  /** The packet was in the run: the parts up to it go to the table, and the rest stays without its loss. */
  ghost predicate RunDone(head: Adamap, tail: seq<Adamap>, s: int, size: nat, r: Outcome, list: seq<Adamap>, added: seq<Entry>) {
    && r == Code(-18) && |list| == |tail| + 1 && list[1..] == tail && added != [] && Cut(head, added, list[0], size)
    && list[0].startSeq < s <= list[0].startSeq + size
    && forall x :: list[0].Lost(x) <==> head.Lost(x) && x > list[0].startSeq && x != s
  }

  ghost predicate HeadDone(head: Adamap, tail: seq<Adamap>, s: int, size: nat, r: Outcome, list: seq<Adamap>, added: seq<Entry>) {
    if s <= head.startSeq + size then HoleDone(head, tail, s, size, r, list, added) else RunDone(head, tail, s, size, r, list, added)
  }

  /** What is left of `head` behind its first parts of `size` packets. */
  ghost predicate TailOf(a: Adamap, head: Adamap, size: nat) {
    && size > 0 && a.id == head.id && a.End() == head.End() && a.startSeq >= head.startSeq && (a.startSeq - head.startSeq) % size == 0
    && forall x :: a.Lost(x) <==> head.Lost(x) && x > a.startSeq
  }

  /** One of the parts of `size` packets of `head`, of which the last may be shorter. */
  ghost predicate PartOf(a: Adamap, head: Adamap, size: nat) {
    && size > 0 && a.id == head.id && a.startSeq >= head.startSeq && (a.startSeq - head.startSeq) % size == 0
    && 0 < a.reprLength <= size && (a.reprLength == size || a.End() == head.End())
    && forall x :: a.Lost(x) <==> head.Lost(x) && a.startSeq < x <= a.End()
  }

  ghost predicate SomePart(a: Adamap, list: seq<Adamap>, size: nat) {
    exists j :: 0 <= j < |list| && PartOf(a, list[j], size)
  }

  /** The entries from the `n`-th on are parts of records of the list, ... */
  ghost predicate Parts(table: seq<Entry>, n: nat, list: seq<Adamap>, size: nat) {
    forall i | n <= i < |table| :: SomePart(table[i].adamap, list, size)
  }

  /** ... and end between `lo` and `hi`. */
  ghost predicate Within(table: seq<Entry>, n: nat, lo: int, hi: int) {
    forall i | n <= i < |table| :: lo < table[i].adamap.End() <= hi
  }

  lemma OneMorePart(table: seq<Entry>, e: Entry, n: nat, head: Adamap, size: nat)
    requires n <= |table| && Parts(table, n, [head], size) && PartOf(e.adamap, head, size)
    ensures Parts(table + [e], n, [head], size)
  {
    hide PartOf;
    assert PartOf(e.adamap, [head][0], size);
    hide SomePart;
  }

  lemma NoParts(table: seq<Entry>, list: seq<Adamap>, size: nat, lo: int, hi: int)
    ensures Parts(table, |table|, list, size) && Within(table, |table|, lo, hi)
  {
  }

  lemma MoreParts(before: seq<Entry>, now: seq<Entry>, n: nat, list: seq<Adamap>, i: nat, size: nat)
    requires n <= |before| && before <= now && i < |list|
    requires Parts(before, n, list[..i], size) && Parts(now, |before|, [list[i]], size)
    ensures Parts(now, n, list[..i + 1], size)
  {
    hide PartOf;
    forall k | n <= k < |now| ensures SomePart(now[k].adamap, list[..i + 1], size) {
      if k < |before| {
        assert SomePart(before[k].adamap, list[..i], size);
        var j :| 0 <= j < i && PartOf(before[k].adamap, list[..i][j], size);
        assert PartOf(now[k].adamap, list[..i + 1][j], size);
      } else {
        assert SomePart(now[k].adamap, [list[i]], size);
        assert PartOf(now[k].adamap, list[..i + 1][i], size);
      }
    }
  }

  lemma MoreWithin(before: seq<Entry>, now: seq<Entry>, n: nat, lo: int, hi: int, lo': int, hi': int, top: int)
    requires n <= |before| && before <= now && Within(before, n, lo, hi) && Within(now, |before|, lo', hi')
    requires lo <= lo' && hi <= top && hi' <= top
    ensures Within(now, n, lo, top)
  {
  }

  lemma TailSelf(head: Adamap, size: nat)
    requires size > 0
    ensures TailOf(head, head, size)
  {
  }

  lemma NextPart(d: Adamap, head: Adamap, size: nat)
    requires size > 0 && |d.bitmap| == size && d.reprLength > size && TailOf(d, head, size)
    ensures TailOf(d.Rest(), head, size) && PartOf(d.First(), head, size)
  {
    PartsLose(d, size);
    hide Adamap.Lost;
    hide Adamap.First;
    hide Adamap.Rest;
    NextMultiple(d.startSeq - head.startSeq, size);
  }

  lemma NextMultiple(x: int, size: nat)
    requires size > 0 && x % size == 0
    ensures (x + size) % size == 0
  {
    NoRemainder(size, 1, size, size / size, size % size);
    SumOfMultiples(x, size, size);
  }

  lemma SumOfMultiples(x: int, y: int, size: nat)
    requires size > 0 && x % size == 0 && y % size == 0
    ensures (x + y) % size == 0
  {
    var a, b, n := x / size, y / size, x + y;
    assert n == (a + b) * size;
    NoRemainder(n, a + b, size, n / size, n % size);
  }

  lemma NoRemainder(n: int, a: int, size: nat, q: int, rest: int)
    requires n == a * size == q * size + rest && 0 <= rest < size
    ensures rest == 0
  {
    assert (a - q) * size == rest;
    Beyond(a - q, size);
  }

  lemma Beyond(c: int, size: nat)
    ensures c >= 1 ==> c * size >= size
    ensures c <= -1 ==> c * size <= 0 - size
  {
  }

  lemma LastPart(d: Adamap, head: Adamap, size: nat)
    requires 0 < d.reprLength <= size && TailOf(d, head, size)
    ensures PartOf(d, head, size)
  {
  }

  lemma PartOfTail(a: Adamap, d: Adamap, head: Adamap, size: nat)
    requires size > 0 && TailOf(d, head, size)
    ensures TailOf(a, d, size) ==> TailOf(a, head, size)
    ensures PartOf(a, d, size) ==> PartOf(a, head, size)
  {
    hide Adamap.Lost;
    if (a.startSeq - d.startSeq) % size == 0 { SumOfMultiples(a.startSeq - d.startSeq, d.startSeq - head.startSeq, size); }
  }

  /** The nodes before the `k`-th have gone to the table, where they have the entries from the `n`-th up to the `m`-th. */
  ghost predicate NodeDone(list0: seq<Adamap>, n: nat, k: nat, m: nat, s: int, size: nat, r: Outcome, list: seq<Adamap>, table: seq<Entry>)
    requires k < |list0| && n <= m <= |table|
  {
    && (k == 0 ==> m == n) && Parts(table[..m], n, list0[..k], size) && Within(table[..m], n, list0[0].startSeq, list0[k].startSeq)
    && HeadDone(list0[k], list0[k + 1..], s, size, r, list, table[m..])
  }

  ghost predicate SomeNodeDone(list0: seq<Adamap>, n: nat, k: nat, s: int, size: nat, r: Outcome, list: seq<Adamap>, table: seq<Entry>)
    requires k < |list0|
  {
    exists m: nat :: n <= m <= |table| && NodeDone(list0, n, k, m, s, size, r, list, table)
  }

  /** All that a packet of the first round does: to the node that holds it, if it has not come before; nothing if there is
      no such node. */
  ghost predicate FirstRoundDone(list0: seq<Adamap>, table0: seq<Entry>, s: int, size: nat, r: Outcome, list: seq<Adamap>, table: seq<Entry>) {
    && (forall k: nat | k < |list0| && list0[k].startSeq < s <= list0[k].End() && list0[k].Lost(s) ::
          SomeNodeDone(list0, |table0|, k, s, size, r, list, table))
    && ((forall k | 0 <= k < |list0| :: !(list0[k].startSeq < s <= list0[k].End())) ==>
          list == list0 && table == table0 && r == if list0 == [] || s > list0[0].startSeq then Code(-11) else Code(-12))
  }

  ghost predicate CameFrom(table0: seq<Entry>, e: Entry, s: int) {
    exists o :: o in table0 && o.tableIndex == e.tableIndex && BitSet(e.adamap, o.adamap, s)
  }

  ghost predicate HasNumber(table: seq<Entry>, index: int) { exists e :: e in table && e.tableIndex == index }

  ghost predicate OtherLoss(a: Adamap, s: int) { exists x :: x != s && a.Lost(x) }

  lemma NothingDone(list: seq<Adamap>, table: seq<Entry>, s: int, size: nat)
    requires forall k | 0 <= k < |list| :: !(list[k].startSeq < s <= list[k].End())
    ensures FirstRoundDone(list, table, s, size, if list == [] || s > list[0].startSeq then Code(-11) else Code(-12), list, table)
  {
    hide NodeDone;
    hide Adamap.Lost;
  }

  lemma NodeIsDone(list0: seq<Adamap>, table0: seq<Entry>, k: nat, m: nat, s: int, size: nat, r: Outcome, list: seq<Adamap>, table: seq<Entry>)
    requires forall i, j | 0 <= i < j < |list0| :: list0[i].End() <= list0[j].startSeq
    requires k < |list0| && list0[k].startSeq < s <= list0[k].End() && |table0| <= m <= |table|
    requires (k == 0 ==> m == |table0|) && Parts(table[..m], |table0|, list0[..k], size)
    requires Within(table[..m], |table0|, list0[0].startSeq, list0[k].startSeq)
    requires r != AssertFailed ==> HeadDone(list0[k], list0[k + 1..], s, size, r, list, table[m..])
    requires r == AssertFailed <==> !list0[k].Lost(s)
    ensures FirstRoundDone(list0, table0, s, size, r, list, table)
  {
    hide HeadDone;
    if list0[k].Lost(s) { assert NodeDone(list0, |table0|, k, m, s, size, r, list, table); }
    hide NodeDone;
    hide Adamap.Lost;
  }

  /** What a packet of a later round does to the entry it is addressed to: its loss goes, and the entry with the last one. */
  ghost predicate LaterRoundDone(table0: seq<Entry>, index: int, s: int, table: seq<Entry>) {
    && (forall e | e in table && e.tableIndex == index :: CameFrom(table0, e, s))
    && (forall o | o in table0 && o.tableIndex == index :: HasNumber(table, index) <==> OtherLoss(o.adamap, s))
    && (forall e | e in table && e.tableIndex != index :: e in table0) && (forall o | o in table0 && o.tableIndex != index :: o in table)
  }

  /** Filling a hole, in terms of the functions of the program. */
  lemma FilledHole(head: Adamap, s: int, size: nat)
    requires |head.bitmap| == size && head.reprLength > 0 && head.startSeq < s <= head.startSeq + size && head.Lost(s)
    ensures var d := head.Fill(s);
            && BitSet(d, head, s) && BitmapPart(d.First(), head, s, size)
            && (head.reprLength > size ==> RunPart(d.Rest(), head, size))
            && (d.BitmapFull() <==> !LaterHole(head, s, size) && !EarlierHole(head, s))
            && (ReceiverAdamap.LastHole(d, s - head.startSeq - 1) <==> !LaterHole(head, s, size))
  {
    var d := head.Fill(s);
    forall x ensures d.Lost(x) <==> head.Lost(x) && x != s {
    }
    if !ReceiverAdamap.LastHole(d, s - head.startSeq - 1) {
      var i :| s - head.startSeq - 1 < i < |d.bitmap| && 0 <= i < d.reprLength && !d.bitmap[i];
      assert head.Lost(head.startSeq + 1 + i);
    }
    if x :| s < x <= head.startSeq + size && head.Lost(x) { assert !d.bitmap[x - head.startSeq - 1]; }
    if x :| x < s && head.Lost(x) { assert !d.bitmap[x - head.startSeq - 1]; }
    if !d.BitmapFull() {
      var i :| 0 <= i < |d.bitmap| && i < d.reprLength && !d.bitmap[i];
      assert head.Lost(head.startSeq + 1 + i);
    }
  }

  lemma HoleLater(head: Adamap, tail: seq<Adamap>, s: int, size: nat, list: seq<Adamap>)
    requires |head.bitmap| == size && head.reprLength > 0 && head.startSeq < s <= head.startSeq + size && head.Lost(s)
    requires !ReceiverAdamap.LastHole(head.Fill(s), s - head.startSeq - 1)
    requires list != [] && list[0] == head.Fill(s) && list[1..] == tail
    ensures HoleDone(head, tail, s, size, Code(-14), list, [])
  {
    FilledHole(head, s, size);
    hide Adamap.Lost;
    hide ReceiverAdamap.LastHole;
    hide BitSet;
    hide LaterHole;
  }

  lemma HoleLast(head: Adamap, tail: seq<Adamap>, s: int, size: nat, r: Outcome, list: seq<Adamap>, added: seq<Entry>, index: nat)
    requires |head.bitmap| == size && head.reprLength > 0 && head.startSeq < s <= head.startSeq + size && head.Lost(s)
    requires var d := head.Fill(s);
             && ReceiverAdamap.LastHole(d, s - head.startSeq - 1)
             && (if d.reprLength <= size then r == Code(-16) && list == tail else r == Code(-17) && list == [d.Rest()] + tail)
             && added == if d.BitmapFull() then [] else [Entry(index, d.First())]
    ensures HoleDone(head, tail, s, size, r, list, added)
  {
    FilledHole(head, s, size);
    if head.reprLength > size { assert list[1..] == tail; }
    hide Adamap.Lost;
    hide Adamap.BitmapFull;
    hide Adamap.First;
    hide Adamap.Rest;
    hide ReceiverAdamap.LastHole;
    hide BitSet;
    hide BitmapPart;
    hide RunPart;
    hide LaterHole;
    hide EarlierHole;
  }

  /** Both parts of a record, in terms of its losses. */
  lemma PartsLose(d: Adamap, size: nat)
    requires size > 0 && |d.bitmap| == size && d.reprLength > size
    ensures d.First().id == d.id && d.First().startSeq == d.startSeq && d.First().reprLength == size
    ensures d.Rest().id == d.id && d.Rest().startSeq == d.startSeq + size && d.Rest().End() == d.End()
    ensures forall x :: d.First().Lost(x) <==> d.Lost(x) && x <= d.startSeq + size
    ensures forall x :: d.Rest().Lost(x) <==> d.Lost(x) && x > d.startSeq + size
    ensures forall x :: d.Lost(x) ==> d.startSeq < x
  {
  }

  lemma CutStep(head: Adamap, parts: seq<Entry>, d: Adamap, size: nat, e: Entry)
    requires size > 0 && |d.bitmap| == size && d.reprLength > size && e.adamap == d.First()
    requires Cut(head, parts, d, size) && forall x :: d.Lost(x) <==> head.Lost(x) && x > d.startSeq
    ensures Cut(head, parts + [e], d.Rest(), size)
    ensures forall x :: d.Rest().Lost(x) <==> head.Lost(x) && x > d.Rest().startSeq
  {
    PartsLose(d, size);
    hide Adamap.Lost;
    hide Adamap.First;
    hide Adamap.Rest;
    assert PartFrom(e.adamap, head, d.startSeq, size);
    hide PartFrom;
    var more := parts + [e];
    forall i | 0 <= i < |more| ensures PartFrom(more[i].adamap, head, PartStart(head, more, i), size) {
      if i < |parts| {
        assert PartFrom(parts[i].adamap, head, PartStart(head, parts, i), size);
        assert more[i] == parts[i] && (i > 0 ==> more[i - 1] == parts[i - 1]);
      } else {
        assert PartStart(head, more, i) == PartStart(head, parts, i) == d.startSeq;
      }
    }
  }

  lemma NoCut(head: Adamap, size: nat)
    ensures Cut(head, [], head, size)
  {
  }

  /** A record with a loss behind its bitmap: the rest of it begins with a loss. */
  lemma RunGoesOn(d: Adamap, s: int, size: nat)
    requires size > 0 && |d.bitmap| == size && d.Lost(s) && s > d.startSeq + size
    ensures d.reprLength > size && d.Rest().Lost(s) && !d.Rest().BitmapFull() && |d.Rest().bitmap| == size
    ensures d.First().Finished() <==> d.BitmapFull()
  {
    assert !d.Rest().bitmap[0];
  }

  lemma RunFilled(head: Adamap, tail: seq<Adamap>, parts: seq<Entry>, d: Adamap, s: int, size: nat)
    requires |d.bitmap| == size && d.startSeq < s <= d.startSeq + size && d.Lost(s) && parts != [] && Cut(head, parts, d, size)
    requires forall x :: d.Lost(x) <==> head.Lost(x) && x > d.startSeq
    ensures RunDone(head, tail, s, size, Code(-18), [d.Fill(s)] + tail, parts)
  {
    var list := [d.Fill(s)] + tail;
    assert list[1..] == tail;
    hide Cut;
    hide Adamap.Lost;
    BitFilled(d, s);
    CutSame(head, parts, d, d.Fill(s), size);
  }

  lemma BitFilled(d: Adamap, s: int)
    requires d.startSeq < s <= d.startSeq + |d.bitmap|
    ensures forall x :: d.Fill(s).Lost(x) <==> d.Lost(x) && x != s
  {
  }

  lemma CutSame(head: Adamap, parts: seq<Entry>, d: Adamap, d': Adamap, size: nat)
    requires Cut(head, parts, d, size) && d'.id == d.id && d'.startSeq == d.startSeq && d'.End() == d.End()
    ensures Cut(head, parts, d', size)
  {
    hide PartFrom;
  }

  /** Result of recording a packet: the code of the program, or a failed assertion. */
  datatype Outcome = Code(value: int) | AssertFailed

  class ReceiverAdamap {
    const size: nat
    var bitmap: seq<bool>
    var startSeq: int
    var adamapId: nat
    /** The linked list of finished bitmaps. */
    var finished: seq<Adamap>
    var table: seq<Entry>
    var currTableIndex: nat
    var getLastPacket: bool
    var isFinished: bool
    /** The packets that have come, those among them that made a difference to the records, and the highest of these. */
    ghost var arrived: set<int>
    ghost var recorded: set<int>
    ghost var top: int
    /** The highest start so far, and whether a packet of the first round has come for the run behind a full bitmap. */
    ghost var floor: int
    ghost var fallen: bool

    /** The start has not been moved back, or has come forward again. */
    ghost predicate InStep()
      reads this`startSeq, this`floor
    {
      startSeq == floor
    }

    /** The records with the window at the highest start, which is empty as long as the start is behind. */
    ghost function V(): View
      reads this`table, this`finished, this`startSeq, this`bitmap, this`floor
    {
      View(Adamaps(table) + finished, floor, if InStep() then bitmap else Zeros(size))
    }

    /** The same with the window where it is. */
    ghost function Now(): View
      reads this`table, this`finished, this`startSeq, this`bitmap
    {
      View(Adamaps(table) + finished, startSeq, bitmap)
    }

    ghost predicate TableOk()
      reads this`table, this`currTableIndex
    {
      Numbered(table, currTableIndex, size)
    }

    ghost predicate Valid()
      reads this`table, this`finished, this`startSeq, this`bitmap, this`floor, this`currTableIndex
    {
      V().Wf(size) && TableOk() && 0 <= startSeq <= floor && |bitmap| == size
    }

    /** Every packet from 1 on is recorded or missing, only packets that have come are recorded, and packet 0 is as soon
        as it has come; and there is no entry without losses unless a packet has come for the run behind a full bitmap. */
    ghost predicate Kept()
      reads this`table, this`finished, this`startSeq, this`bitmap, this`floor, this`arrived, this`recorded, this`top, this`fallen
    {
      V().Accounted(recorded, top) && Genuine() && (Stuck() ==> fallen)
    }

    /** Some entry of the table has no losses. */
    ghost predicate Stuck()
      reads this`table
    {
      exists e :: e in table && e.adamap.Finished()
    }

    /** The same, with the start where it belongs. */
    ghost predicate Account()
      reads this`table, this`finished, this`startSeq, this`bitmap, this`floor, this`arrived, this`recorded, this`top, this`fallen
    {
      InStep() && Kept()
    }

    ghost predicate Genuine()
      reads this`arrived, this`recorded
    {
      (forall s | s in recorded :: s in arrived) && (0 in arrived ==> 0 in recorded)
    }

    constructor (bitmapSize: nat)
      requires 0 < bitmapSize <= 256
      ensures Valid() && Account() && size == bitmapSize
      ensures startSeq == 0 && bitmap == Zeros(size) && finished == [] && table == [] && adamapId == 0
      ensures !getLastPacket && !isFinished
      ensures arrived == {} && recorded == {} && top == 0 && floor == 0 && !fallen
    {
      size := bitmapSize;
      bitmap := Zeros(bitmapSize);
      startSeq, adamapId, finished, table, currTableIndex := 0, 0, [], [], 0;
      getLastPacket, isFinished := false, false;
      arrived, recorded, top, floor, fallen := {}, {}, 0, 0, false;
    }

    predicate IsCurrentBitmapEmpty()
      reads this`bitmap
    {
      forall i | 0 <= i < |bitmap| :: !bitmap[i]
    }

    /** Packet 0 comes after others, while nothing is noted in the window. */
    ghost predicate Rewinds(seq_: int)
      reads this`bitmap, this`startSeq
    {
      seq_ == 0 < startSeq && IsCurrentBitmapEmpty()
    }

    /** The packet is the next one, or packet 0, and nothing is noted in the window. */
    predicate Advances(seq_: int)
      reads this`bitmap, this`startSeq
    {
      IsCurrentBitmapEmpty() && (seq_ == startSeq + 1 || seq_ == 0)
    }

    /** The next packet moves the start, one inside the window sets its bit, one beyond closes the window; others are ignored. */
    twostate predicate NormalStep(seq_: int, r: Outcome)
      reads this`startSeq, this`bitmap, this`finished, this`adamapId
    {
      if old(Advances(seq_)) then
        r == Code(-1) && startSeq == seq_ && bitmap == old(bitmap) && finished == old(finished) && adamapId == old(adamapId)
      else if seq_ <= old(startSeq) then
        r == Code(-7) && startSeq == old(startSeq) && bitmap == old(bitmap) && finished == old(finished) && adamapId == old(adamapId)
      else if seq_ <= old(startSeq) + |old(bitmap)| then
        && r == Code(-5) && startSeq == old(startSeq) && bitmap == old(bitmap)[seq_ - startSeq - 1 := true]
        && finished == old(finished) && adamapId == old(adamapId)
      else
        && r == Code(-6) && startSeq == seq_ && bitmap == Zeros(|old(bitmap)|) && adamapId == old(adamapId) + 1
        && finished == old(finished) + [Adamap(old(adamapId), old(startSeq), seq_ - old(startSeq) - 1, old(bitmap))]
    }

    /** A window that is closed while the start is behind would overlap the records. */
    ghost predicate Overlaps(seq_: int)
      reads this`startSeq, this`bitmap, this`floor
    {
      !InStep() && seq_ > startSeq + |bitmap| && !Advances(seq_)
    }

    lemma BeforeNormal()
      requires Valid() && V().Accounted(recorded, top)
      ensures floor <= top && V().startSeq == floor && V().segs == Adamaps(table) + finished
      ensures IsCurrentBitmapEmpty() ==> bitmap == Zeros(size) && V().Empty()
    {
    }

    /** The start moves to the next packet, or back to packet 0. */
    method MoveStart(seq_: int)
      requires Valid() && V().Accounted(recorded, top) && Advances(seq_)
      modifies this`startSeq, this`floor
      ensures startSeq == seq_ && floor == if seq_ > old(floor) then seq_ else old(floor)
      ensures old(InStep()) && old(Rewinds(seq_)) ==> forall t :: !Now().Accounted(recorded + {0}, t)
      ensures Valid() && V().Accounted(if old(InStep()) && seq_ > old(startSeq) then recorded + {seq_} else recorded,
                                       if old(InStep()) && seq_ > top then seq_ else top)
    {
      ghost var v := V();
      BeforeNormal();
      if InStep() { v.Advance(size, recorded, top); }
      hide View.Accounted;
      hide View.Wf;
      hide View.Empty;
      hide Numbered;
      if InStep() && seq_ == 0 < startSeq {
        forall t ensures !v.(startSeq := 0).Accounted(recorded + {0}, t) { v.Rewind(size, recorded, top, t); }
      }
      startSeq := seq_;
      floor := if startSeq > floor then startSeq else floor;
    }

    /** A packet inside the window. */
    method SetBit(seq_: int)
      requires Valid() && V().Accounted(recorded, top) && startSeq < seq_ <= startSeq + |bitmap|
      modifies this`bitmap
      ensures bitmap == old(bitmap)[seq_ - startSeq - 1 := true] && Valid()
      ensures V().Accounted(if InStep() then recorded + {seq_} else recorded, if InStep() && seq_ > top then seq_ else top)
    {
      ghost var v := V();
      BeforeNormal();
      if InStep() { v.Mark(size, recorded, top, seq_); }
      hide View.Accounted;
      hide View.Wf;
      hide Numbered;
      bitmap := bitmap[seq_ - startSeq - 1 := true];
    }

    /** A packet beyond the window. */
    method CloseWindow(seq_: int)
      requires Valid() && V().Accounted(recorded, top) && seq_ > startSeq + |bitmap|
      modifies this`startSeq, this`bitmap, this`finished, this`adamapId, this`floor
      ensures startSeq == seq_ && bitmap == Zeros(|old(bitmap)|) && adamapId == old(adamapId) + 1
      ensures floor == if seq_ > old(floor) then seq_ else old(floor)
      ensures finished == old(finished) + [Adamap(old(adamapId), old(startSeq), seq_ - old(startSeq) - 1, old(bitmap))]
      ensures old(InStep()) ==> Valid() && V().Accounted(recorded + {seq_}, seq_) && seq_ > top
    {
      ghost var v := V();
      BeforeNormal();
      assert |bitmap| == size;
      if InStep() { v.Close(size, recorded, top, seq_, adamapId); }
      hide View.Accounted;
      hide View.Wf;
      hide Numbered;
      hide Adamaps;
      hide Zeros;
      hide View.Empty;
      finished := finished + [Adamap(adamapId, startSeq, seq_ - startSeq - 1, bitmap)];
      assert Adamaps(table) + finished == v.segs + [Adamap(adamapId, startSeq, seq_ - startSeq - 1, bitmap)];
      startSeq := seq_;
      floor := if startSeq > floor then startSeq else floor;
      bitmap := Zeros(|bitmap|);
      adamapId := adamapId + 1;
    }

    /** A packet on the normal path. The start is moved back, and what is noted is no account any more, exactly when packet
        0 comes, again or for the first time, after others while nothing is noted in the window. The records still are
        one, and it is kept as long as the start is behind, where packets make no difference, until no window is closed. */
    method RecordNormal(seq_: int) returns (r: Outcome)
      requires Valid() && seq_ >= 0 && V().Accounted(recorded, top)
      modifies this`startSeq, this`bitmap, this`finished, this`adamapId, this`floor
      ensures NormalStep(seq_, r) && r in {Code(-1), Code(-5), Code(-6), Code(-7)}
      ensures floor == if startSeq > old(floor) then startSeq else old(floor)
      ensures old(InStep()) && old(Rewinds(seq_)) ==> forall t :: !Now().Accounted(recorded + {0}, t)
      ensures !old(Overlaps(seq_)) ==> Valid()
      ensures !old(Overlaps(seq_)) ==>
                V().Accounted(if old(InStep()) && seq_ > old(startSeq) then recorded + {seq_} else recorded,
                              if old(InStep()) && seq_ > top then seq_ else top)
    {
      BeforeNormal();
      assert |bitmap| == size && startSeq <= floor;
      hide Valid;
      hide V;
      hide Now;
      hide View.Accounted;
      hide IsCurrentBitmapEmpty;
      if IsCurrentBitmapEmpty() && (seq_ == startSeq + 1 || seq_ == 0) {
        MoveStart(seq_);
        return Code(-1);
      }
      if seq_ <= startSeq {
        return Code(-7);
      }
      var offset := seq_ - startSeq - 1;
      if offset < |bitmap| {
        SetBit(seq_);
        return Code(-5);
      }
      CloseWindow(seq_);
      return Code(-6);
    }

    /** What every step behind the window keeps: the active bitmap and, packet by packet, what is missing. */
    twostate predicate SameMissing()
      reads this
    {
      && Valid() && startSeq == old(startSeq) && bitmap == old(bitmap)
      && SameLosses(old(V().segs), V().segs)
    }

    /** Of the entries behind the first `n`, some has no losses. */
    ghost predicate AddsLossless(n: nat)
      reads this`table
    {
      exists k :: n <= k < |table| && table[k].adamap.Finished()
    }

    /** Append to the lookup table a record that was the head of the list (or a part of it). */
    method PushTable(a: Adamap)
      requires a.reprLength <= size && TableOk()
      modifies this`table, this`currTableIndex
      ensures TableOk() && table == old(table) + [Entry(old(currTableIndex), a)]
      ensures Adamaps(table) == old(Adamaps(table)) + [a]
      ensures forall n: nat | n <= old(|table|) :: AddsLossless(n) <==> old(AddsLossless(n)) || a.Finished()
    {
      AdamapsAppend(table, Entry(currTableIndex, a));
      ghost var k := |table|;
      table := table + [Entry(currTableIndex, a)];
      currTableIndex := currTableIndex + 1;
      assert table[k].adamap == a && forall i | 0 <= i < k :: table[i] == old(table)[i];
    }

    /** Cut the bitmap part off a record, skipping parts without losses. */
    method SplitAdamap(node: Adamap, ghost a: seq<Adamap>, ghost b: seq<Adamap>, ghost bound: int)
      returns (ok: bool, firstPart: Adamap, rest: Adamap)
      requires size > 0 && Ascending(a + [node] + b, size, bound)
      ensures ok ==> firstPart.reprLength == size && !firstPart.Finished() && Ascending(a + [firstPart] + [rest] + b, size, bound)
      ensures ok ==> forall x :: LostIn(a + [firstPart] + [rest] + b, x) <==> LostIn(a + [node] + b, x)
      ensures ok ==> 0 < rest.reprLength < node.reprLength
      ensures !ok ==> rest.reprLength <= size && Ascending(a + [rest] + b, size, bound)
      ensures !ok ==> forall x :: LostIn(a + [rest] + b, x) <==> LostIn(a + [node] + b, x)
      ensures !node.Finished() ==> !rest.Finished()
      ensures rest.End() == node.End() && rest.startSeq >= node.startSeq && rest.reprLength > 0
      ensures ok ==> node.startSeq <= firstPart.startSeq && firstPart.End() <= node.End()
      ensures TailOf(rest, node, size) && (ok ==> PartOf(firstPart, node, size))
    {
      TailSelf(node, size);
      hide TailOf;
      hide PartOf;
      AscendingMember(a, node, b, size, bound);
      rest := node;
      firstPart := node;
      while rest.reprLength > size
        invariant Ascending(a + [rest] + b, size, bound) && rest.reprLength <= node.reprLength && rest.End() == node.End()
        invariant rest.startSeq >= node.startSeq && rest.reprLength > 0 && TailOf(rest, node, size)
        invariant !node.Finished() ==> !rest.Finished()
        invariant forall x :: LostIn(a + [rest] + b, x) <==> LostIn(a + [node] + b, x)
        decreases rest.reprLength
      {
        SplitAt(a, rest, b, size, bound);
        AscendingMember(a, rest, b, size, bound);
        NextPart(rest, node, size);
        AscendingMember(a + [rest.First()], rest.Rest(), b, size, bound);
        firstPart, rest := rest.First(), rest.Rest();
        assert !rest.bitmap[0];
        if !firstPart.BitmapFull() {
          return true, firstPart, rest;
        }
        assert a + [firstPart] + [rest] + b == a + [firstPart] + ([rest] + b);
        DropAt(a, firstPart, [rest] + b, size, bound);
        assert a + ([rest] + b) == a + [rest] + b;
      }
      ok := false;
    }

    /** Move the head of the list to the table, in bitmap-sized parts, and erase it. */
    method PutLinkedListHeadToTable() returns (newTableNodeCnt: nat)
      requires Valid() && finished != []
      modifies this`table, this`currTableIndex, this`finished
      ensures SameMissing() && finished == old(finished)[1..]
      ensures |table| == old(|table|) + newTableNodeCnt && old(table) <= table
      ensures old(finished)[0].Finished() <==> newTableNodeCnt == 0
      ensures !AddsLossless(old(|table|)) && Within(table, old(|table|), old(finished[0].startSeq), old(finished[0].End()))
      ensures Parts(table, old(|table|), [old(finished)[0]], size)
    {
      hide Ascending;
      hide LostIn;
      hide Adamaps;
      AscendingMember(Adamaps(table), finished[0], finished[1..], size, floor - 1) by {
        assert Adamaps(table) + finished == Adamaps(table) + [finished[0]] + finished[1..];
      }
      ghost var lost0 := V().segs;
      ghost var bound, b := floor - 1, finished[1..];
      newTableNodeCnt := 0;
      var node := finished[0];
      ghost var head := node;
      TailSelf(head, size);
      NoParts(table, [head], size, head.startSeq, head.End());
      hide TailOf;
      hide PartOf;
      hide Parts;
      assert Adamaps(table) + finished == Adamaps(table) + [node] + b;
      if node.Finished() {
        DropAt(Adamaps(table), node, b, size, bound);
      } else {
        var transformFinish := false;
        while !transformFinish
          invariant TableOk() && startSeq == old(startSeq) && bitmap == old(bitmap) && finished == old(finished)
          invariant var segs := if transformFinish then Adamaps(table) + b else Adamaps(table) + [node] + b;
                    Ascending(segs, size, bound) && forall x :: LostIn(segs, x) <==> LostIn(lost0, x)
          invariant |table| == old(|table|) + newTableNodeCnt && old(table) <= table
          invariant transformFinish ==> newTableNodeCnt > 0
          invariant !node.Finished() && !AddsLossless(old(|table|))
          invariant node.End() == old(finished[0].End()) && Within(table, old(|table|), head.startSeq, node.End())
          invariant transformFinish || old(finished[0].startSeq) <= node.startSeq < node.End()
          invariant TailOf(node, head, size) && Parts(table, old(|table|), [head], size)
          decreases !transformFinish, node.reprLength
        {
          var split, firstPart, rest := SplitAdamap(node, Adamaps(table), b, bound);
          PartOfTail(rest, node, head, size);
          PartOfTail(firstPart, node, head, size);
          node := rest;
          if !split { LastPart(node, head, size); }
          OneMorePart(table, Entry(currTableIndex, if split then firstPart else node), old(|table|), head, size);
          if split {
            PushTable(firstPart);
          } else {
            PushTable(node);
            transformFinish := true;
          }
          newTableNodeCnt := newTableNodeCnt + 1;
        }
      }
      finished := finished[1..];
    }

    /** Position of the list node whose range holds the packet; -1 or -2 when there is none. */
    method FindSequenceInHeadBitmaps(seq_: int) returns (k: int)
      requires Valid()
      ensures k == -1 || k == -2 || 0 <= k < |finished|
      ensures k >= 0 ==> finished[k].startSeq < seq_ <= finished[k].End()
      ensures k < 0 ==> forall i | 0 <= i < |finished| :: !(finished[i].startSeq < seq_ <= finished[i].End())
      ensures k == -2 <==> finished != [] && seq_ <= finished[0].startSeq
    {
      if finished == [] {
        return -1;
      }
      AscendingConcat(Adamaps(table), finished, size, floor - 1);
      if seq_ <= finished[0].startSeq {
        return -2;
      }
      k := 0;
      while k < |finished|
        invariant 0 <= k <= |finished|
        invariant forall i | 0 <= i < k :: !(finished[i].startSeq < seq_ <= finished[i].End())
      {
        if finished[k].startSeq < seq_ <= finished[k].End() {
          return k;
        }
        k := k + 1;
      }
      return -1;
    }

    lemma ListAscends()
      requires Valid()
      ensures forall i, j | 0 <= i < j < |finished| :: finished[i].End() <= finished[j].startSeq
      ensures forall i | 0 <= i < |finished| :: finished[i].startSeq < finished[i].End() && |finished[i].bitmap| == size
    {
      AscendingConcat(Adamaps(table), finished, size, floor - 1);
    }

    lemma NoneLossless(n: nat)
      requires !AddsLossless(n)
      ensures forall k | n <= k < |table| :: !table[k].adamap.Finished()
    {
    }

    lemma StillNone(n: nat, before: seq<Entry>)
      requires n <= |before| && before <= table && forall k | n <= k < |before| :: !before[k].adamap.Finished()
      ensures AddsLossless(n) <==> AddsLossless(|before|)
    {
    }

    /** The first `n` nodes go to the table: they have timed out, or a packet for the next one has come. */
    method PutHeadsToTable(n: nat)
      requires Valid() && n <= |finished|
      modifies this`table, this`currTableIndex, this`finished
      ensures SameMissing() && finished == old(finished)[n..] && old(table) <= table && !AddsLossless(old(|table|))
      ensures n == 0 ==> table == old(table)
      ensures n < |old(finished)| ==> Within(table, old(|table|), old(finished)[0].startSeq, old(finished)[n].startSeq)
      ensures Parts(table, old(|table|), old(finished)[..n], size)
    {
      ghost var list, segs0 := finished, V().segs;
      assert InSequence(list) by { ListAscends(); }
      NoParts(table, list[..0], size, 0, 0);
      if n < |list| { NoParts(table, [], size, list[0].startSeq, list[0].startSeq); }
      NothingAdded();
      hide InSequence;
      hide Valid;
      hide V;
      hide SameLosses;
      hide AddsLossless;
      hide Parts;
      hide Within;
      SameSelf(segs0);
      var i := 0;
      while i < n
        invariant 0 <= i <= n && Valid() && startSeq == old(startSeq) && bitmap == old(bitmap) && SameLosses(segs0, V().segs)
        invariant finished == list[i..] && old(table) <= table && (i == 0 ==> table == old(table))
        invariant !AddsLossless(old(|table|)) && (n < |list| ==> Within(table, old(|table|), list[0].startSeq, list[i].startSeq))
        invariant Parts(table, old(|table|), list[..i], size)
      {
        PutNext(list, segs0, old(|table|), i);
        i := i + 1;
      }
    }

    /** The next node of the list goes to the table. */
    method PutNext(ghost list: seq<Adamap>, ghost segs0: seq<Adamap>, ghost n: nat, ghost i: nat)
      requires Valid() && i < |list| && finished == list[i..] && n <= |table|
      requires !AddsLossless(n) && SameLosses(segs0, V().segs) && Parts(table, n, list[..i], size)
      requires InSequence(list)
      modifies this`table, this`currTableIndex, this`finished
      ensures Valid() && startSeq == old(startSeq) && bitmap == old(bitmap) && SameLosses(segs0, V().segs)
      ensures finished == list[i + 1..] && old(table) <= table && !AddsLossless(n) && Parts(table, n, list[..i + 1], size)
      ensures i + 1 < |list| && Within(old(table), n, list[0].startSeq, list[i].startSeq) ==>
                Within(table, n, list[0].startSeq, list[i + 1].startSeq)
    {
      NextInSequence(list, i);
      hide InSequence;
      hide Adamap.End;
      hide Valid;
      hide V;
      hide SameLosses;
      hide AddsLossless;
      hide Parts;
      hide Within;
      ghost var before, segs := table, V().segs;
      NoneLossless(n);
      assert finished[0] == list[i] && finished[1..] == list[i + 1..];
      var cnt := PutLinkedListHeadToTable();
      SameTrans(segs0, segs, V().segs);
      StillNone(n, before);
      MoreParts(before, table, n, list, i, size);
      if i + 1 < |list| && Within(before, n, list[0].startSeq, list[i].startSeq) {
        MoreWithin(before, table, n, list[0].startSeq, list[i].startSeq, list[i].startSeq, list[i].End(), list[i + 1].startSeq);
      }
    }

    lemma SameStuck(before: seq<Entry>)
      requires before <= table
      ensures Stuck() <==> (exists e :: e in before && e.adamap.Finished()) || AddsLossless(|before|)
    {
      if AddsLossless(|before|) {
        var k :| |before| <= k < |table| && table[k].adamap.Finished();
        assert table[k] in table;
      }
      if e :| e in table && e.adamap.Finished() {
        var k :| 0 <= k < |table| && table[k] == e;
        assert k < |before| ==> before[k] == e;
      }
      if e :| e in before && e.adamap.Finished() {
        var k :| 0 <= k < |before| && before[k] == e;
        assert table[k] == e;
      }
    }

    /** A timeout of list nodes keeps the account, and adds no entry without losses. */
    method ListTimeoutKeeps(n: nat)
      requires Valid() && Account() && n <= |finished|
      modifies this`table, this`currTableIndex, this`finished
      ensures Valid() && Account() && finished == old(finished)[n..] && old(table) <= table
      ensures Parts(table, old(|table|), old(finished)[..n], size) && !AddsLossless(old(|table|))
      ensures Stuck() <==> old(Stuck())
    {
      ghost var v := V();
      hide Valid;
      hide View.Accounted;
      hide AddsLossless;
      hide Parts;
      hide Within;
      PutHeadsToTable(n);
      SameStuck(old(table));
      v.Moved(V(), recorded, top);
    }

    /** All unset bits behind position `pos` are outside the represented length. */
    static predicate LastHole(a: Adamap, pos: int) {
      forall i | pos < i < |a.bitmap| && 0 <= i < a.reprLength :: a.bitmap[i]
    }

    /** Only packet `s` is not missing any more. */
    twostate predicate OneLess(s: int)
      reads this
    {
      && Valid() && startSeq == old(startSeq) && bitmap == old(bitmap)
      && old(LostIn(V().segs, s))
      && forall x :: LostIn(V().segs, x) <==> old(LostIn(V().segs, x)) && x != s
    }

    ghost predicate InListRange(s: int)
      reads this`finished
    {
      exists i :: 0 <= i < |finished| && finished[i].startSeq < s <= finished[i].End()
    }

    /** Some node of the list has the packet in the run behind its bitmap. */
    ghost predicate InListRun(s: int)
      reads this`finished
    {
      exists i :: 0 <= i < |finished| && finished[i].startSeq + size < s <= finished[i].End()
    }

    /** The run in question lies behind a bitmap without an unset bit. */
    ghost predicate BehindFull(s: int)
      reads this`finished
    {
      exists i :: 0 <= i < |finished| && finished[i].startSeq + size < s <= finished[i].End() && finished[i].BitmapFull()
    }

    /** A packet of the first retransmission round. Nodes of the list before the one that holds the packet
        move to the table, of the node itself the part up to the packet may. Recovers exactly this packet; ignores it
        when no list node holds it; fails when it is newer than the window start or has been recovered before. */
    method RecordFirstRetrans(seq_: int) returns (r: Outcome)
      requires Valid()
      modifies this`table, this`currTableIndex, this`finished
      ensures r == AssertFailed <==> seq_ > old(startSeq) || (old(InListRange(seq_)) && !old(LostIn(finished, seq_)))
      ensures r in {Code(-11), Code(-12)} <==> seq_ <= old(startSeq) && !old(InListRange(seq_))
      ensures r in {AssertFailed, Code(-11), Code(-12)} ==> SameMissing()
      ensures r !in {AssertFailed, Code(-11), Code(-12)} ==> r in {Code(-14), Code(-16), Code(-17), Code(-18)} && OneLess(seq_)
      ensures r == Code(-18) <==> seq_ <= old(startSeq) && old(InListRun(seq_))
      ensures r == Code(-18) ==> |table| > old(|table|) && finished != []
      ensures old(table) <= table
      ensures AddsLossless(old(|table|)) <==> seq_ <= old(startSeq) && old(BehindFull(seq_))
      ensures seq_ <= startSeq ==> FirstRoundDone(old(finished), old(table), seq_, size, r, finished, table)
    {
      hide FirstRoundDone;
      if seq_ > startSeq {
        return AssertFailed;
      }
      var k := FindSequenceInHeadBitmaps(seq_);
      if k < 0 {
        NothingDone(finished, table, seq_, size);
        return Code(k - 10);
      }
      ListMember(k, seq_);
      hide BehindFull;
      hide InListRun;
      hide InListRange;
      hide LostIn;
      hide AddsLossless;
      r := RecoverFrom(k, seq_);
    }

    /** The `k`-th node holds the packet. */
    method RecoverFrom(k: nat, seq_: int) returns (r: Outcome)
      requires Valid() && k < |finished| && finished[k].startSeq < seq_ <= finished[k].End()
      modifies this`table, this`currTableIndex, this`finished
      ensures r == AssertFailed <==> !old(finished[k].Lost(seq_))
      ensures if r == AssertFailed then SameMissing() else OneLess(seq_) && r in {Code(-14), Code(-16), Code(-17), Code(-18)}
      ensures r == Code(-18) <==> seq_ > old(finished[k].startSeq) + size
      ensures r == Code(-18) ==> |table| > old(|table|) && finished != []
      ensures old(table) <= table
      ensures AddsLossless(old(|table|)) <==> seq_ > old(finished[k].startSeq) + size && old(finished[k].BitmapFull())
      ensures FirstRoundDone(old(finished), old(table), seq_, size, r, finished, table)
    {
      ListAscends();
      hide FirstRoundDone;
      hide HeadDone;
      hide LostIn;
      hide Ascending;
      hide Numbered;
      hide Adamaps;
      hide Adamap.Lost;
      hide Adamap.Finished;
      hide Adamap.BitmapFull;
      hide Parts;
      hide Within;
      hide AddsLossless;
      hide View.Wf;
      ghost var node, n := finished[k], |table|;
      PutHeadsToTable(k);
      NoneLossless(n);
      assert finished[0] == node && finished[1..] == old(finished)[k + 1..];
      ghost var table1, m := table, |table|;
      r := FillHead(seq_);
      assert table[..m] == table1;
      StillNone(n, table1);
      NodeIsDone(old(finished), old(table), k, m, seq_, size, r, finished, table);
    }

    /** The packet is in the range of the head. */
    method FillHead(seq_: int) returns (r: Outcome)
      requires Valid() && finished != [] && finished[0].startSeq < seq_ <= finished[0].End() && |finished[0].bitmap| == size
      modifies this`table, this`currTableIndex, this`finished
      ensures r == AssertFailed <==> !old(finished[0].Lost(seq_))
      ensures if r == AssertFailed then SameMissing() else OneLess(seq_) && r in {Code(-14), Code(-16), Code(-17), Code(-18)}
      ensures r == Code(-18) <==> seq_ > old(finished[0].startSeq) + size
      ensures r == Code(-18) ==> |table| > old(|table|) && finished != []
      ensures old(table) <= table
      ensures AddsLossless(old(|table|)) <==> seq_ > old(finished[0].startSeq) + size && old(finished[0].BitmapFull())
      ensures r != AssertFailed ==> HeadDone(old(finished)[0], old(finished)[1..], seq_, size, r, finished, table[|old(table)|..])
    {
      hide HoleDone;
      hide RunDone;
      NothingAdded();
      hide AddsLossless;
      hide Ascending;
      hide LostIn;
      hide Adamaps;
      hide Numbered;
      var desired := finished[0];
      if seq_ - desired.startSeq <= |desired.bitmap| {
        if desired.bitmap[seq_ - desired.startSeq - 1] {
          return AssertFailed;
        }
        r := FillHole(seq_);
      } else {
        r := FillRun(seq_);
      }
    }

    /** The node found is the only one that can have lost the packet. */
    lemma ListMember(k: nat, s: int)
      requires Valid() && k < |finished| && finished[k].startSeq < s <= finished[k].End()
      ensures LostIn(finished, s) <==> finished[k].Lost(s)
      ensures |finished[k].bitmap| == size && InListRange(s)
      ensures InListRun(s) <==> s > finished[k].startSeq + size
      ensures BehindFull(s) <==> s > finished[k].startSeq + size && finished[k].BitmapFull()
    {
      AscendingConcat(Adamaps(table), finished, size, floor - 1);
      forall i: nat | i < |finished| && i != k ensures !finished[i].Lost(s) {
        Disjoint(finished, size, floor - 1, i, k, s);
      }
    }

    /** The packet is in the bitmap of the first node. */
    method FillHole(seq_: int) returns (r: Outcome)
      requires Valid() && finished != [] && 0 < seq_ - finished[0].startSeq <= |finished[0].bitmap| && finished[0].Lost(seq_)
      modifies this`table, this`currTableIndex, this`finished
      ensures OneLess(seq_) && r in {Code(-14), Code(-16), Code(-17)} && old(table) <= table && !AddsLossless(old(|table|))
      ensures HoleDone(old(finished)[0], old(finished)[1..], seq_, size, r, finished, table[|old(table)|..])
    {
      hide Ascending;
      hide LostIn;
      hide Adamaps;
      hide Numbered;
      ghost var a, b, bound := Adamaps(table), finished[1..], floor - 1;
      assert a + finished == a + [finished[0]] + b;
      AscendingMember(a, finished[0], b, size, bound);
      FillNode(a, finished[0], b, size, bound, seq_);
      hide HoleDone;
      hide AddsLossless;
      NothingAdded();
      var desired := finished[0].Fill(seq_);
      ghost var head := finished[0];
      finished := finished[0 := desired];
      assert a + finished == a + [desired] + b;
      hide Adamap.Lost;
      hide Adamap.First;
      hide Adamap.Rest;
      hide Adamap.Fill;
      hide Adamap.BitmapFull;
      hide LastHole;
      if !LastHole(desired, seq_ - desired.startSeq - 1) {
        HoleLater(head, b, seq_, size, finished);
        return Code(-14);
      }
      ghost var n, index := |table|, currTableIndex;
      r := SlideHead();
      HoleLast(head, b, seq_, size, r, finished, table[n..], index);
    }

    /** The bitmap part of the head goes to the table unless it has no losses; the rest, if any, stays. */
    method SlideHead() returns (r: Outcome)
      requires Valid() && finished != []
      modifies this`table, this`currTableIndex, this`finished
      ensures SameMissing() && r in {Code(-16), Code(-17)} && old(table) <= table && !AddsLossless(old(|table|))
      ensures var d, b := old(finished)[0], old(finished)[1..];
              && (if d.reprLength <= size then r == Code(-16) && finished == b else r == Code(-17) && finished == [d.Rest()] + b)
              && table[|old(table)|..] == if d.BitmapFull() then [] else [Entry(old(currTableIndex), d.First())]
    {
      hide Ascending;
      hide LostIn;
      hide Adamaps;
      hide Numbered;
      hide AddsLossless;
      NothingAdded();
      var desired := finished[0];
      ghost var a, b := Adamaps(table), finished[1..];
      assert a + finished == a + [desired] + b;
      AscendingMember(a, desired, b, size, floor - 1);
      SlideKeeps(a, desired, b, size, floor - 1);
      SlidIs(a, desired, b, size);
      hide Slid;
      if !desired.BitmapFull() {
        PushTable(desired.First());
      }
      if desired.reprLength <= |desired.bitmap| {
        finished := finished[1..];
        return Code(-16);
      }
      finished := finished[0 := desired.Rest()];
      assert finished == [desired.Rest()] + b;
      return Code(-17);
    }

    lemma NothingAdded()
      ensures !AddsLossless(|table|)
    {
    }

    /** The parts of `head` before `d` have gone to the table, where it had `n` entries before; `lost` are all records then. */
    ghost predicate Cutting(d: Adamap, head: Adamap, b: seq<Adamap>, n: nat, s: int, lost: seq<Adamap>)
      reads this`table, this`currTableIndex, this`floor
    {
      && TableOk() && size > 0 && Ascending(Adamaps(table) + [d] + b, size, floor - 1) && n <= |table|
      && (forall x :: LostIn(Adamaps(table) + [d] + b, x) <==> LostIn(lost, x))
      && |d.bitmap| == size && d.Lost(s)
      && Cut(head, table[n..], d, size) && (forall x :: d.Lost(x) <==> head.Lost(x) && x > d.startSeq)
      && if |table| == n then d == head && !AddsLossless(n)
         else !d.BitmapFull() && (AddsLossless(n) <==> head.BitmapFull())
    }

    /** Cut a part off a record with a loss behind its bitmap, and put it in the table. */
    method CutPart(d: Adamap, ghost head: Adamap, ghost b: seq<Adamap>, ghost n: nat, ghost s: int, ghost lost: seq<Adamap>)
      requires Cutting(d, head, b, n, s, lost) && s > d.startSeq + size
      modifies this`table, this`currTableIndex
      ensures old(table) <= table && |table| == |old(table)| + 1
      ensures Cutting(d.Rest(), head, b, n, s, lost) && d.Rest().startSeq == d.startSeq + size && |d.Rest().bitmap| == |d.bitmap|
    {
      hide Ascending;
      hide LostIn;
      hide Adamaps;
      hide AddsLossless;
      hide Numbered;
      hide Cut;
      hide Adamap.Lost;
      hide Adamap.BitmapFull;
      hide Adamap.Finished;
      hide Adamap.First;
      hide Adamap.Rest;
      RunGoesOn(d, s, size);
      PartsLose(d, size);
      SplitAt(Adamaps(table), d, b, size, floor - 1);
      CutStep(head, table[n..], d, size, Entry(currTableIndex, d.First()));
      ghost var before := table;
      PushTable(d.First());
      assert table[n..] == before[n..] + [table[|before|]];
    }

    lemma StartCutting(s: int)
      requires Valid() && finished != [] && finished[0].startSeq + size < s <= finished[0].End()
      ensures |finished[0].bitmap| == size && Cutting(finished[0], finished[0], finished[1..], |table|, s, V().segs)
    {
      var b, head := finished[1..], finished[0];
      assert Adamaps(table) + finished == Adamaps(table) + [head] + b;
      AscendingMember(Adamaps(table), head, b, size, floor - 1);
      NoCut(head, size);
      hide Cut;
    }

    /** Cut parts off the head, up to the one with the packet, and put them in the table. */
    method CutHead(seq_: int) returns (desired: Adamap)
      requires Valid() && finished != [] && finished[0].startSeq + size < seq_ <= finished[0].End()
      modifies this`table, this`currTableIndex
      ensures old(table) <= table && |table| > |old(table)|
      ensures Cutting(desired, finished[0], finished[1..], |old(table)|, seq_, old(V()).segs)
      ensures desired.startSeq < seq_ <= desired.startSeq + size
    {
      StartCutting(seq_);
      assert |bitmap| == size;
      hide Cutting;
      hide Valid;
      hide V;
      ghost var head, b, n, lost := finished[0], finished[1..], |table|, V().segs;
      desired := finished[0];
      var offset := seq_ - desired.startSeq - 1;
      while offset >= |bitmap|
        invariant Cutting(desired, head, b, n, seq_, lost) && old(table) <= table
        invariant 0 <= offset == seq_ - desired.startSeq - 1 && |desired.bitmap| == size && (offset >= size || |table| > n)
      {
        CutPart(desired, head, b, n, seq_, lost);
        desired := desired.Rest();
        offset := offset - |desired.bitmap|;
      }
    }

    /** The packet is in the run behind the bitmap of the first node. */
    method FillRun(seq_: int) returns (r: Outcome)
      requires Valid() && finished != [] && |finished[0].bitmap| < seq_ - finished[0].startSeq && seq_ <= finished[0].End()
      modifies this`table, this`currTableIndex, this`finished
      ensures OneLess(seq_) && r == Code(-18)
      ensures old(table) <= table && |table| > old(|table|) && finished != []
      ensures AddsLossless(old(|table|)) <==> old(finished[0].BitmapFull())
      ensures RunDone(old(finished)[0], old(finished)[1..], seq_, size, r, finished, table[|old(table)|..])
    {
      hide AddsLossless;
      hide Numbered;
      hide Cut;
      ListAscends();
      hide Ascending;
      hide LostIn;
      hide Adamaps;
      hide Adamap.Lost;
      hide Adamap.BitmapFull;
      var desired := CutHead(seq_);
      ghost var b := finished[1..];
      FillNode(Adamaps(table), desired, b, size, floor - 1, seq_);
      RunFilled(finished[0], b, table[|old(table)|..], desired, seq_, size);
      finished := finished[0 := desired.Fill(seq_)];
      assert finished == [desired.Fill(seq_)] + b;
      assert Adamaps(table) + finished == Adamaps(table) + [desired.Fill(seq_)] + b;
      hide RunDone;
      return Code(-18);
    }

    /** Packet `s`, if it was missing behind the window, is not any more; nothing else changes. */
    twostate predicate Without(s: int)
      reads this
    {
      && Valid() && startSeq == old(startSeq) && bitmap == old(bitmap)
      && forall x :: LostIn(V().segs, x) <==> old(LostIn(V().segs, x)) && x != s
    }

    ghost predicate InTable(index: int)
      reads this`table
    {
      exists i :: 0 <= i < |table| && table[i].tableIndex == index
    }

    /** The entry with this number, if there is one, has the packet in its range. */
    ghost predicate InEntryRange(index: int, s: int)
      reads this`table
    {
      exists i :: 0 <= i < |table| && table[i].tableIndex == index && table[i].adamap.startSeq < s <= table[i].adamap.End()
    }

    /** Some entry has no losses and is not the one with this number and the packet in its range. */
    ghost predicate StuckBut(index: int, s: int)
      reads this`table
    {
      exists e :: e in table && e.adamap.Finished() && !(e.tableIndex == index && e.adamap.startSeq < s <= e.adamap.End())
    }

    /** A packet of a later retransmission round, addressed to an entry of the table. */
    method RecordHighRetrans(seq_: int, tableIndex: int) returns (r: Outcome)
      requires Valid()
      modifies this`table
      ensures r == Code(-100) <==> !old(InTable(tableIndex))
      ensures r == AssertFailed <==> old(InTable(tableIndex)) && !old(InEntryRange(tableIndex, seq_))
      ensures r in {AssertFailed, Code(-100)} ==> table == old(table)
      ensures forall e | e in old(table) && e.tableIndex != tableIndex :: e in table
      ensures r !in {AssertFailed, Code(-100)} ==> r == Code(-20) && Without(seq_) && seq_ < floor
      ensures Stuck() <==> old(StuckBut(tableIndex, seq_))
      ensures r == Code(-20) ==> LaterRoundDone(old(table), tableIndex, seq_, table)
    {
      hide LaterRoundDone;
      var k := FindEntry(tableIndex, seq_);
      if k == |table| {
        return Code(-100);
      }
      if !(table[k].adamap.startSeq < seq_ <= table[k].adamap.End()) {
        return AssertFailed;
      }
      FillEntry(k, seq_);
      return Code(-20);
    }

    /** Position of the entry with this number, or the length of the table. */
    method FindEntry(tableIndex: int, ghost s: int) returns (k: nat)
      requires TableOk()
      ensures k <= |table| && (k == |table| <==> !InTable(tableIndex))
      ensures k < |table| ==> table[k].tableIndex == tableIndex
      ensures k < |table| ==> (InEntryRange(tableIndex, s) <==> table[k].adamap.startSeq < s <= table[k].adamap.End())
    {
      k := 0;
      while k < |table| && table[k].tableIndex != tableIndex
        invariant 0 <= k <= |table| && forall i | 0 <= i < k :: table[i].tableIndex != tableIndex
      {
        k := k + 1;
      }
    }

    /** Set the bit of a packet in an entry, and drop the entry if it has no losses any more. */
    method FillEntry(k: nat, seq_: int)
      requires Valid() && k < |table| && table[k].adamap.startSeq < seq_ <= table[k].adamap.End()
      modifies this`table
      ensures Without(seq_) && seq_ < floor
      ensures forall e | e in old(table) && e.tableIndex != old(table)[k].tableIndex :: e in table
      ensures forall e | e in table && e.adamap.Finished() :: e in old(table) && e.tableIndex != old(table)[k].tableIndex
      ensures LaterRoundDone(old(table), old(table)[k].tableIndex, seq_, table)
    {
      hide LostIn;
      hide Ascending;
      hide Adamaps;
      hide Numbered;
      hide Adamap.Finished;
      hide LaterRoundDone;
      hide Refilled;
      EntryBelow(k);
      RefilledLater(table, k, seq_, currTableIndex, size);
      FilledEntry(k, seq_);
      RefilledEntries(table, k, seq_, currTableIndex, size);
      RefilledIs(table, k, seq_);
      ghost var now := Refilled(table, k, seq_);
      var filled := table[k].adamap.Fill(seq_);
      table := table[k := Entry(table[k].tableIndex, filled)];
      if filled.Finished() {
        table := table[..k] + table[k + 1..];
      }
      assert table == now;
    }

    lemma EntryBelow(k: nat)
      requires Valid() && k < |table|
      ensures var a := table[k].adamap; |a.bitmap| == size && a.reprLength <= size && a.End() < floor
    {
      assert V().segs[k] == table[k].adamap;
    }

    /** The table with the bit set, as far as the records go. */
    lemma FilledEntry(k: nat, s: int)
      requires Valid() && k < |table| && 0 < s - table[k].adamap.startSeq <= |table[k].adamap.bitmap| && s <= table[k].adamap.End()
      ensures Numbered(Refilled(table, k, s), currTableIndex, size)
      ensures Ascending(Adamaps(Refilled(table, k, s)) + finished, size, floor - 1)
      ensures forall x :: LostIn(Adamaps(Refilled(table, k, s)) + finished, x) <==> LostIn(Adamaps(table) + finished, x) && x != s
    {
      EntryBelow(k);
      var amap := table[k].adamap;
      var filled := amap.Fill(s);
      var a, b, bound := Adamaps(table[..k]), Adamaps(table[k + 1..]) + finished, floor - 1;
      TableSplit(table, k, finished);
      FillBit(a, amap, b, size, bound, s);
      if filled.Finished() { DropAt(a, filled, b, size, bound); }
      OneEntry(table, k, Entry(table[k].tableIndex, filled), currTableIndex, size, finished);
      hide Ascending;
      hide LostIn;
      hide Numbered;
      hide Adamaps;
      hide Adamap.Finished;
    }

    /** The packet recovers a loss of a table entry or a list node. */
    ghost predicate Recovers(seq_: int, retransTier: nat, tableIndex: int)
      reads this`table, this`finished, this`startSeq, this`bitmap, this`floor
    {
      if retransTier == 1 then seq_ <= startSeq && InListRange(seq_) && LostIn(finished, seq_)
      else InEntryRange(tableIndex, seq_) && LostIn(V().segs, seq_)
    }

    /** A packet that is missing has come in vain: it is too old for the normal path or the start is behind, no list node holds it (or it is too
        new for the list), or its entry is unknown or does not hold it. */
    ghost predicate InVain(seq_: int, retransTier: nat, tableIndex: int)
      reads this`table, this`finished, this`startSeq, this`floor
    {
      if retransTier == 0 then seq_ <= startSeq || !InStep()
      else if retransTier == 1 then seq_ > startSeq || !InListRange(seq_)
      else !InEntryRange(tableIndex, seq_)
    }

    /** A packet in the range of a list node is missing iff it is lost in the list. */
    lemma ListDecides(s: int)
      requires Valid() && InListRange(s)
      ensures V().Missing(s) <==> LostIn(finished, s)
      ensures s < floor
    {
      var segs, n := V().segs, |table|;
      var k: nat :| k < |finished| && finished[k].startSeq < s <= finished[k].End();
      assert segs[n + k] == finished[k];
      assert segs[n + k].End() <= floor - 1;
      forall i: nat | i < |segs| && i != n + k ensures !segs[i].Lost(s) {
        Disjoint(segs, size, floor - 1, i, n + k, s);
      }
      if LostIn(segs, s) { assert finished[k].Lost(s); }
      if LostIn(finished, s) {
        var i: nat :| i < |finished| && finished[i].Lost(s);
        assert segs[n + i].Lost(s);
      }
    }

    /** A packet in the range of an entry is missing iff it is lost. */
    lemma EntryDecides(index: int, s: int)
      requires Valid() && InEntryRange(index, s)
      ensures V().Missing(s) <==> LostIn(V().segs, s)
    {
      var k: nat :| k < |table| && table[k].adamap.startSeq < s <= table[k].adamap.End();
      assert V().segs[k] == table[k].adamap;
      assert V().segs[k].End() <= floor - 1;
    }

    ghost predicate MovesBack(seq_: int, retransTier: nat)
      reads this`bitmap, this`startSeq
    {
      retransTier == 0 && Rewinds(seq_)
    }

    ghost predicate Counts(seq_: int, retransTier: nat, tableIndex: int)
      reads this`table, this`finished, this`startSeq, this`bitmap, this`floor
    {
      if retransTier == 0 then InStep() && seq_ > startSeq else Recovers(seq_, retransTier, tableIndex)
    }

    /** A missing packet either counts or comes in vain. */
    lemma InVainIff(seq_: int, retransTier: nat, tableIndex: int)
      requires Valid() && V().Missing(seq_)
      ensures InVain(seq_, retransTier, tableIndex) <==> !Counts(seq_, retransTier, tableIndex)
    {
      hide Valid;
      hide View.Missing;
      if retransTier == 1 && InListRange(seq_) { ListDecides(seq_); }
      if retransTier > 1 && InEntryRange(tableIndex, seq_) { EntryDecides(tableIndex, seq_); }
    }

    lemma Beforehand(seq_: int, retransTier: nat, tableIndex: int)
      requires Valid() && V().Accounted(recorded, top)
      ensures V().Noted(recorded, top)
      ensures V().Missing(seq_) ==> (InVain(seq_, retransTier, tableIndex) <==> !Counts(seq_, retransTier, tableIndex))
      ensures retransTier > 0 && Counts(seq_, retransTier, tableIndex) ==> V().Missing(seq_)
    {
      if retransTier == 1 && Recovers(seq_, 1, tableIndex) { ListDecides(seq_); }
      V().MissingIs(size, recorded, top);
      if V().Missing(seq_) { InVainIff(seq_, retransTier, tableIndex); }
    }

    lemma BeforeSettling(seq_: int, retransTier: nat, tableIndex: int)
      requires Kept()
      ensures V().Accounted(recorded, top) && Genuine()
      ensures var noted, settled := NowRecorded(seq_, retransTier, tableIndex), Settled(seq_, retransTier, tableIndex);
              && settled == (if seq_ == 0 then noted + {0} else noted)
              && (settled == recorded + {seq_} || (settled == recorded && seq_ != 0))
              && (MovesBack(seq_, retransTier) ==> settled == recorded + {0})
      ensures retransTier == 0 && InStep() ==> (Counts(seq_, retransTier, tableIndex) <==> seq_ > V().startSeq)
      ensures retransTier == 0 && !InStep() ==> !Counts(seq_, retransTier, tableIndex)
      ensures Settled(seq_, retransTier, tableIndex) == if seq_ == 0 || Counts(seq_, retransTier, tableIndex) then recorded + {seq_} else recorded
      ensures NewTop(seq_, retransTier) == if retransTier == 0 && InStep() && seq_ > top then seq_ else top
    {
    }

    lemma Afterwards(before: set<int>, seq_: int)
      requires Valid() && V().Accounted(before, top)
      requires recorded == if seq_ == 0 then before + {0} else before
      ensures V().Accounted(recorded, top) && V().Noted(recorded, top)
    {
      V().AddZero(size, before, top);
      V().MissingIs(size, recorded, top);
    }

    /** A packet of a retransmission round: a recovered packet is recorded, others change nothing. */
    method RecordRetrans(seq_: int, retransTier: nat, tableIndex: int) returns (r: Outcome)
      requires Valid() && V().Accounted(recorded, top) && retransTier > 0
      modifies this`table, this`currTableIndex, this`finished
      ensures Valid() && V().Accounted(old(NowRecorded(seq_, retransTier, tableIndex)), top)
      ensures retransTier == 1 && seq_ <= startSeq && old(InListRun(seq_)) ==> |table| > old(|table|) && finished != []
      ensures forall e | e in old(table) && (retransTier == 1 || e.tableIndex != tableIndex) :: e in table
      ensures Stuck() <==> old(WillStick(seq_, retransTier, tableIndex))
      ensures retransTier == 1 && seq_ <= startSeq ==> FirstRoundDone(old(finished), old(table), seq_, size, r, finished, table)
      ensures retransTier > 1 ==> finished == old(finished)
      ensures retransTier > 1 && old(InEntryRange(tableIndex, seq_)) ==> LaterRoundDone(old(table), tableIndex, seq_, table)
      ensures retransTier > 1 && !old(InEntryRange(tableIndex, seq_)) ==> table == old(table)
      ensures r == Code(-100) <==> retransTier > 1 && !old(InTable(tableIndex))
      ensures r == AssertFailed <==>
                if retransTier == 1 then seq_ > startSeq || (old(InListRange(seq_)) && !old(LostIn(finished, seq_)))
                else old(InTable(tableIndex)) && !old(InEntryRange(tableIndex, seq_))
      ensures bitmap == old(bitmap) && startSeq == old(startSeq) && Effects(seq_, retransTier, tableIndex, r)
    {
      ghost var v := V();
      hide Ascending;
      hide LostIn;
      hide Adamaps;
      hide View.Accounted;
      hide AddsLossless;
      hide FirstRoundDone;
      hide LaterRoundDone;
      if retransTier == 1 {
        r := RecordFirstRetrans(seq_);
        SameStuck(old(table));
      } else {
        r := RecordHighRetrans(seq_, tableIndex);
      }
      if old(Recovers(seq_, retransTier, tableIndex)) {
        v.LostBelow(size, seq_);
        v.Recovered(V(), recorded, top, seq_);
      } else {
        v.Moved(V(), recorded, top);
      }
    }

    /** The new highest number, if the packet is on the normal path. */
    ghost function NewTop(seq_: int, retransTier: nat): int
      reads this`top, this`startSeq, this`floor
    {
      if retransTier == 0 && InStep() && seq_ > top then seq_ else top
    }

    ghost function NowRecorded(seq_: int, retransTier: nat, tableIndex: int): set<int>
      reads this`recorded, this`table, this`finished, this`startSeq, this`bitmap, this`floor
    {
      if Counts(seq_, retransTier, tableIndex) then recorded + {seq_} else recorded
    }

    /** A packet of the first round comes for the run behind a full bitmap. */
    ghost predicate Falls(seq_: int, retransTier: nat)
      reads this`finished, this`startSeq
    {
      retransTier == 1 && seq_ <= startSeq && BehindFull(seq_)
    }

    /** The packet leaves some entry without losses: one it makes, or one that it does not address. */
    ghost predicate WillStick(seq_: int, retransTier: nat, tableIndex: int)
      reads this`table, this`finished, this`startSeq
    {
      if retransTier <= 1 then Stuck() || Falls(seq_, retransTier) else StuckBut(tableIndex, seq_)
    }

    /** What happens to window, list and table; an entry can only go when a packet is addressed to it, and one without losses
        comes exactly from a packet for the run behind a full bitmap. */
    twostate predicate Effects(seq_: int, retransTier: nat, tableIndex: int, r: Outcome)
      reads this`startSeq, this`bitmap, this`finished, this`adamapId, this`table
    {
      && (Stuck() <==> old(WillStick(seq_, retransTier, tableIndex)))
      && (retransTier == 1 && seq_ <= old(startSeq) ==> FirstRoundDone(old(finished), old(table), seq_, size, r, finished, table))
      && (retransTier > 1 ==> finished == old(finished))
      && (retransTier > 1 && old(InEntryRange(tableIndex, seq_)) ==> LaterRoundDone(old(table), tableIndex, seq_, table))
      && (retransTier > 1 && !old(InEntryRange(tableIndex, seq_)) ==> table == old(table))
      && (retransTier == 0 ==> NormalStep(seq_, r) && table == old(table))
      && (retransTier > 0 ==> bitmap == old(bitmap) && startSeq == old(startSeq))
      && (retransTier == 1 && seq_ <= old(startSeq) && old(InListRun(seq_)) ==> |table| > |old(table)| && finished != [])
      && (forall e | e in old(table) && (retransTier <= 1 || e.tableIndex != tableIndex) :: e in table)
      && (r == Code(-100) <==> retransTier > 1 && !old(InTable(tableIndex)))
      && (r == AssertFailed <==> old(Fails(seq_, retransTier, tableIndex)))
    }

    /** An assertion of the program fails on the packet. */
    ghost predicate Fails(seq_: int, retransTier: nat, tableIndex: int)
      reads this`table, this`finished, this`startSeq
    {
      if retransTier == 0 then false
      else if retransTier == 1 then seq_ > startSeq || (InListRange(seq_) && !LostIn(finished, seq_))
      else InTable(tableIndex) && !InEntryRange(tableIndex, seq_)
    }

    ghost function Settled(seq_: int, retransTier: nat, tableIndex: int): set<int>
      reads this`recorded, this`table, this`finished, this`startSeq, this`bitmap, this`floor
    {
      if seq_ == 0 || Counts(seq_, retransTier, tableIndex) then recorded + {seq_} else recorded
    }

    ghost predicate ClosesBehind(seq_: int, retransTier: nat)
      reads this`startSeq, this`bitmap, this`floor
    {
      retransTier == 0 && Overlaps(seq_)
    }

    /** A packet on the normal path, in the terms of all rounds. */
    method NormalRound(seq_: int, tableIndex: int) returns (r: Outcome)
      requires Valid() && seq_ >= 0 && V().Accounted(recorded, top)
      modifies this`startSeq, this`bitmap, this`finished, this`adamapId, this`floor
      ensures old(InStep() && MovesBack(seq_, 0)) ==> forall t :: !Now().Accounted(recorded + {0}, t)
      ensures !old(ClosesBehind(seq_, 0)) ==>
                Valid() && V().Accounted(old(NowRecorded(seq_, 0, tableIndex)), old(NewTop(seq_, 0)))
      ensures floor == if startSeq > old(floor) then startSeq else old(floor)
      ensures Effects(seq_, 0, tableIndex, r) && (Stuck() ==> old(WillStick(seq_, 0, tableIndex)))
    {
      BeforeNormal();
      hide Valid;
      hide V;
      hide Now;
      hide Rewinds;
      hide Overlaps;
      hide View.Accounted;
      hide NormalStep;
      hide InTable;
      hide Stuck;
      r := RecordNormal(seq_);
    }

    /** The work on the records, by round. */
    method Dispatch(seq_: int, retransTier: nat, tableIndex: int) returns (r: Outcome)
      requires Valid() && seq_ >= 0 && V().Accounted(recorded, top)
      modifies this`startSeq, this`bitmap, this`finished, this`adamapId, this`floor, this`table, this`currTableIndex
      ensures old(InStep() && MovesBack(seq_, retransTier)) ==> forall t :: !Now().Accounted(recorded + {0}, t)
      ensures !old(ClosesBehind(seq_, retransTier)) ==>
                Valid() && V().Accounted(old(NowRecorded(seq_, retransTier, tableIndex)), old(NewTop(seq_, retransTier)))
      ensures floor == if startSeq > old(floor) then startSeq else old(floor)
      ensures Effects(seq_, retransTier, tableIndex, r) && (Stuck() ==> old(WillStick(seq_, retransTier, tableIndex)))
    {
      assert startSeq <= floor;
      hide Valid;
      hide V;
      hide Now;
      hide View.Accounted;
      hide NowRecorded;
      hide Overlaps;
      hide Rewinds;
      hide Effects;
      hide WillStick;
      hide Stuck;
      if retransTier == 0 {
        r := NormalRound(seq_, tableIndex);
      } else {
        r := RecordRetrans(seq_, retransTier, tableIndex);
      }
    }

    /** Bookkeeping of the proof only. */
    ghost method NoteArrival(seq_: int, newTop: int, settled: set<int>, falls: bool)
      requires Genuine() && (settled == recorded + {seq_} || (settled == recorded && seq_ != 0))
      requires Stuck() ==> fallen || falls
      modifies this`arrived, this`recorded, this`top, this`fallen
      ensures arrived == old(arrived) + {seq_} && recorded == settled && top == newTop && fallen == (old(fallen) || falls)
      ensures V().Accounted(recorded, top) ==> Kept()
    {
      arrived, recorded, top, fallen := arrived + {seq_}, settled, newTop, fallen || falls;
    }

    lemma SticksIff(seq_: int, retransTier: nat, tableIndex: int)
      requires Kept()
      ensures WillStick(seq_, retransTier, tableIndex) ==> fallen || Falls(seq_, retransTier)
    {
    }

    /** Record a packet of any round. Whatever order, repetitions and rounds packets come in, the account is kept, unless
        packet 0 moves the start back; then that of the records is, unless a window is closed before the start has come
        forward again. A missing packet that comes stays missing iff it comes in vain; of the others exactly those skipped
        by a new highest one become missing. */
    method Record(seq_: int, retransTier: nat, tableIndex: int) returns (r: Outcome)
      requires Valid() && Kept() && seq_ >= 0
      modifies this
      ensures arrived == old(arrived) + {seq_} && getLastPacket == old(getLastPacket) && isFinished == old(isFinished)
      ensures old(InStep() && MovesBack(seq_, retransTier)) ==> forall t :: !Now().Accounted(recorded, t)
      ensures !old(ClosesBehind(seq_, retransTier)) ==> Valid() && Kept()
      ensures floor == if startSeq > old(floor) then startSeq else old(floor)
      ensures recorded == old(Settled(seq_, retransTier, tableIndex)) && top == old(NewTop(seq_, retransTier))
      ensures fallen == old(fallen || Falls(seq_, retransTier))
      ensures !old(ClosesBehind(seq_, retransTier)) ==>
                old(V()).Changes(V(), seq_, old(InVain(seq_, retransTier, tableIndex)),
                                 old(top), if retransTier == 0 && old(InStep()) then seq_ else old(top))
      ensures Effects(seq_, retransTier, tableIndex, r)
    {
      hide *;
      ghost var v, counts := V(), Counts(seq_, retransTier, tableIndex);
      ghost var inStep, overlaps, vain := InStep(), ClosesBehind(seq_, retransTier), InVain(seq_, retransTier, tableIndex);
      ghost var noted, settled := NowRecorded(seq_, retransTier, tableIndex), Settled(seq_, retransTier, tableIndex);
      ghost var newTop, falls := NewTop(seq_, retransTier), Falls(seq_, retransTier);
      SticksIff(seq_, retransTier, tableIndex);
      BeforeSettling(seq_, retransTier, tableIndex);
      Beforehand(seq_, retransTier, tableIndex);
      r := Dispatch(seq_, retransTier, tableIndex);
      NoteArrival(seq_, newTop, settled, falls);
      if !overlaps {
        Afterwards(noted, seq_);
        v.StaysMissing(V(), old(recorded), old(top), seq_, retransTier == 0 && inStep, vain, counts);
      }
    }

    // ---- completion ----

    /** The test for the end of the transfer; an entry leaves the table as soon as it is finished. */
    predicate IsFinishConditionSatisfied()
      reads this`getLastPacket, this`finished, this`table
    {
      getLastPacket && finished == [] && table == []
    }

    /** A data packet arrives, perhaps marked as the last one. The end is noted unless the packet is dropped for an unknown
        entry; a failed assertion ends the program. */
    method ReceiveUdp(seq_: int, retransTier: nat, tableIndex: int, last: bool) returns (r: Outcome)
      requires Valid() && Kept() && seq_ >= 0
      modifies this
      ensures arrived == old(arrived) + {seq_}
      ensures getLastPacket == (old(getLastPacket) || last)
      ensures !old(ClosesBehind(seq_, retransTier)) ==> Valid() && Kept()
      ensures floor == if startSeq > old(floor) then startSeq else old(floor)
      ensures recorded == old(Settled(seq_, retransTier, tableIndex)) && top == old(NewTop(seq_, retransTier))
      ensures fallen == old(fallen || Falls(seq_, retransTier))
      ensures Effects(seq_, retransTier, tableIndex, r)
      ensures isFinished == (old(isFinished) || (r != AssertFailed && !(retransTier > 1 && r == Code(-100)) && IsFinishConditionSatisfied()))
    {
      hide Valid;
      hide Kept;
      hide Effects;
      hide ClosesBehind;
      hide Settled;
      hide NewTop;
      hide Falls;
      r := Record(seq_, retransTier, tableIndex);
      // noted before recording in the program, which does not look at it
      if last {
        getLastPacket := true;
      }
      if r == AssertFailed || (retransTier > 1 && r == Code(-100)) {
        return;
      }
      isFinished := isFinished || IsFinishConditionSatisfied();
    }

    /** A packet on the normal path that does not move the start back. */
    method ReceiveNormal(seq_: int, last: bool) returns (r: Outcome)
      requires Valid() && Account() && seq_ >= 0 && !Rewinds(seq_)
      modifies this
      ensures Valid() && Account() && arrived == old(arrived) + {seq_}
      ensures NormalStep(seq_, r) && table == old(table)
      ensures recorded == if seq_ == 0 || seq_ > old(startSeq) then old(recorded) + {seq_} else old(recorded)
      ensures top == if seq_ > old(top) then seq_ else old(top)
      ensures getLastPacket == (old(getLastPacket) || last)
      ensures isFinished == (old(isFinished) || IsFinishConditionSatisfied())
    {
      hide Valid;
      hide Kept;
      r := ReceiveUdp(seq_, 0, 0, last);
    }

    /** What is missing: packets from 1 to the highest that have not been recorded. */
    lemma MissingNow()
      requires Valid() && Account()
      ensures forall s :: V().Missing(s) <==> 0 < s <= top && s !in recorded
    {
      V().MissingIs(size, recorded, top);
    }

    /** From packet 0 on the account is right iff this packet has come: nothing ever notes that it is missing. */
    lemma PacketZeroUnnoticed()
      requires Valid() && Account()
      ensures V().FullyAccounted(recorded, top) <==> 0 in arrived
      ensures !V().Missing(0)
    {
      V().FullIff(size, recorded, top);
      V().MissingIs(size, recorded, top);
    }

    /** No unset bit of the window comes before a set one. */
    ghost predicate NoGap()
      reads this`bitmap
    {
      forall i, j | 0 <= i < j < |bitmap| :: bitmap[j] ==> bitmap[i]
    }

    ghost predicate Complete()
      reads this`recorded, this`top
    {
      forall s | 0 <= s <= top :: s in recorded
    }

    /** When the test passes, every packet up to the highest has come iff packet 0 has and there is no gap in the window:
        the test looks at neither. */
    lemma FinishMeansComplete()
      requires Valid() && Account() && IsFinishConditionSatisfied()
      ensures Complete() <==> 0 in arrived && NoGap()
    {
      V().MissingIs(size, recorded, top);
      NothingLost();
      hide LostIn;
      hide View.Wf;
      hide View.Accounted;
      hide View.Bit;
      if i, j :| 0 <= i < j < |bitmap| && bitmap[j] && !bitmap[i] { GapMissing(i, j); }
      if s :| 0 < s <= top && s !in recorded { MissingGap(s); }
    }

    lemma NothingLost()
      requires finished == [] && table == []
      ensures forall s :: !LostIn(V().segs, s)
    {
    }

    lemma GapMissing(i: nat, j: nat)
      requires InStep() && i < j < |bitmap| && bitmap[j] && !bitmap[i]
      ensures V().Missing(startSeq + 1 + i)
    {
      assert V().Bit(startSeq + 1 + j);
      assert V().Gap(startSeq + 1 + i);
    }

    lemma MissingGap(s: int)
      requires InStep() && V().Missing(s) && !LostIn(V().segs, s)
      ensures !NoGap()
    {
      var t :| s < t && V().Bit(t);
      assert bitmap[t - startSeq - 1] && !bitmap[s - startSeq - 1];
    }

    /** The other way round, with every packet recorded and the last one seen, only nodes and entries without losses can
        keep the test from passing. */
    lemma CompleteMeansFinish()
      requires Valid() && Account() && getLastPacket && Complete()
      ensures IsFinishConditionSatisfied() <==> forall a | a in V().segs :: !a.Finished()
      ensures finished == [] ==> (IsFinishConditionSatisfied() <==> !Stuck())
    {
      var v := V();
      v.MissingIs(size, recorded, top);
      forall a | a in v.segs ensures a.Finished() {
        var i :| 0 <= i < |v.segs| && v.segs[i] == a;
        forall s ensures !a.Lost(s) {
          if a.Lost(s) { assert LostIn(v.segs, s) && v.Missing(s); }
        }
        a.FinishedIsLossless();
      }
      if v.segs != [] { assert v.segs[0] in v.segs; }
      assert v.segs == [] <==> finished == [] && table == [];
      if finished == [] && table != [] {
        assert v.segs[0] == table[0].adamap && table[0] in table;
      }
    }

    /** Once the list has timed out the nodes are gone; then the test passes iff no entry without losses was there, and so
        whenever no packet of the first round has come for the run behind a full bitmap. */
    method TimeOut()
      requires Valid() && Account() && getLastPacket && Complete()
      modifies this`table, this`currTableIndex, this`finished
      ensures Valid() && Account() && Complete() && finished == []
      ensures IsFinishConditionSatisfied() <==> !old(Stuck())
      ensures !fallen ==> IsFinishConditionSatisfied()
    {
      hide Valid;
      assert Stuck() ==> fallen;
      ghost var n := |finished|;
      ListTimeoutKeeps(|finished|);
      CompleteMeansFinish();
    }

    // ---- after the start has been moved back ----

    lemma EmptyWindow()
      requires Valid() && IsCurrentBitmapEmpty()
      ensures V() == View(Adamaps(table) + finished, floor, Zeros(size))
    {
      assert bitmap == Zeros(size);
    }

    lemma NextForward()
      requires Valid() && Kept() && IsCurrentBitmapEmpty() && startSeq < floor
      ensures Advances(startSeq + 1) && !ClosesBehind(startSeq + 1, 0) && startSeq >= 0
      ensures Settled(startSeq + 1, 0, 0) == recorded && NewTop(startSeq + 1, 0) == top && !Falls(startSeq + 1, 0)
    {
    }

    /** The packets up to the highest start come once more, in order: the account is again what it was. */
    method ComeForward(n: nat)
      requires Valid() && Kept() && IsCurrentBitmapEmpty() && startSeq + n == floor
      modifies this
      ensures Valid() && Account() && V() == old(V()) && recorded == old(recorded) && top == old(top) && startSeq == old(floor)
    {
      EmptyWindow();
      for i := 0 to n
        invariant Valid() && Kept() && IsCurrentBitmapEmpty() && startSeq == old(startSeq) + i && floor == old(floor)
        invariant table == old(table) && finished == old(finished) && recorded == old(recorded) && top == old(top)
      {
        NextForward();
        hide Valid;
        hide Kept;
        hide Advances;
        hide ClosesBehind;
        hide Settled;
        hide NewTop;
        hide Falls;
        hide WillStick;
        var r := ReceiveUdp(startSeq + 1, 0, 0, false);
      }
      EmptyWindow();
    }

    /** So packet 0 moving the start back does no harm if all packets up to the old start follow in order. */
    method MoveBackAndForth()
      requires Valid() && Account() && Rewinds(0)
      modifies this
      ensures Valid() && Account() && V() == old(V()) && recorded == old(recorded) + {0} && top == old(top)
    {
      var n := startSeq;
      EmptyWindow();
      assert !ClosesBehind(0, 0) && Advances(0) && NewTop(0, 0) == top && Settled(0, 0, 0) == recorded + {0};
      hide Valid;
      hide Kept;
      hide ClosesBehind;
      hide Settled;
      hide NewTop;
      hide Falls;
      hide WillStick;
      var r := ReceiveUdp(0, 0, 0, false);
      EmptyWindow();
      ComeForward(n);
    }
  }

  /** An entry without losses stays: for a record without losses the sender queues nothing, and without a packet for it an
      entry does not go. */
  lemma NothingToResend(a: Adamap)
    requires a.Finished() && a.reprLength > 0
    ensures Losses(a, a.End()) == []
  {
    a.FinishedIsLossless();
    if Losses(a, a.End()) != [] {
      LossesAreLost(a, a.End(), Losses(a, a.End())[0]);
    }
  }

  // ---- runs --------------------------------------------------------------------------------

  /** Packet 0 is lost and packet 1 is the last: the end is reported without packet 0. */
  method FinishWithoutPacket0(size: nat) returns (receiver: ReceiverAdamap)
    requires 0 < size <= 256
    ensures receiver.Valid() && receiver.Account() && receiver.isFinished && receiver.NoGap()
    ensures receiver.arrived == {1} && !receiver.V().Missing(0) && !receiver.Complete()
  {
    hide ReceiverAdamap.Valid;
    hide ReceiverAdamap.Kept;
    hide FirstRoundDone;
    hide LaterRoundDone;
    hide View.Missing;
    receiver := new ReceiverAdamap(size);
    var r := receiver.ReceiveNormal(1, true);
    receiver.PacketZeroUnnoticed();
    assert 0 !in receiver.recorded;
  }

  /** Packets 0, 1 and 3 come and 3 is the last: the end is reported without packet 2. */
  method FinishWithoutPacket2(size: nat) returns (receiver: ReceiverAdamap)
    requires 2 <= size <= 256
    ensures receiver.Valid() && receiver.Account() && receiver.isFinished
    ensures receiver.arrived == {0, 1, 3} && receiver.V().Missing(2) && !receiver.Complete()
  {
    hide ReceiverAdamap.Valid;
    hide ReceiverAdamap.Kept;
    hide FirstRoundDone;
    hide LaterRoundDone;
    hide View.Missing;
    receiver := new ReceiverAdamap(size);
    var r := receiver.ReceiveNormal(0, false);
    r := receiver.ReceiveNormal(1, false);
    r := receiver.ReceiveNormal(3, true);
    receiver.MissingNow();
  }

  /** Packet 2 is skipped, and comes on the normal path after all: it has arrived and stays missing. */
  method ArriveInVain(size: nat) returns (receiver: ReceiverAdamap)
    requires 0 < size <= 256
    ensures receiver.Valid() && receiver.Account() && 2 in receiver.arrived && receiver.V().Missing(2)
  {
    hide ReceiverAdamap.Valid;
    hide ReceiverAdamap.Kept;
    hide FirstRoundDone;
    hide LaterRoundDone;
    hide View.Missing;
    receiver := new ReceiverAdamap(size);
    var r := receiver.ReceiveNormal(1, false);
    r := receiver.ReceiveNormal(size + 2, false);
    r := receiver.ReceiveNormal(2, false);
    receiver.MissingNow();
  }

  /** Packet 3 is skipped, and all bits of the record before it are set. */
  method SkipPacket3() returns (receiver: ReceiverAdamap)
    ensures fresh(receiver) && receiver.Valid() && receiver.Account() && receiver.size == 2 && receiver.startSeq == 4
    ensures receiver.finished == [Adamap(0, 0, 3, [true, true])] && receiver.table == []
    ensures receiver.recorded == {0, 1, 2, 4} && receiver.top == 4 && receiver.getLastPacket && !receiver.isFinished
  {
    hide ReceiverAdamap.Valid;
    hide ReceiverAdamap.Kept;
    hide FirstRoundDone;
    hide LaterRoundDone;
    receiver := new ReceiverAdamap(2);
    var r := receiver.ReceiveNormal(0, false);
    assert receiver.bitmap == [false, false];
    r := receiver.ReceiveNormal(2, false);
    assert receiver.bitmap == [false, true] && !receiver.IsCurrentBitmapEmpty() by { assert receiver.bitmap[1]; }
    r := receiver.ReceiveNormal(1, false);
    assert receiver.bitmap == [true, true];
    r := receiver.ReceiveNormal(4, true);
  }

  /** All packets from 0 to 4 are recorded and the last one has been seen, but an entry without losses is left in the
      table, and the end is not reported. */
  method NeverFinish() returns (receiver: ReceiverAdamap)
    ensures receiver.Valid() && receiver.Account() && receiver.top == 4 && receiver.Complete() && receiver.getLastPacket
    ensures receiver.finished == [] && receiver.table != [] && !receiver.IsFinishConditionSatisfied() && !receiver.isFinished
    ensures receiver.fallen && receiver.Stuck()
  {
    hide ReceiverAdamap.Valid;
    hide ReceiverAdamap.Kept;
    hide FirstRoundDone;
    hide LaterRoundDone;
    receiver := SkipPacket3();
    assert receiver.finished[0].Lost(3) && receiver.finished[0].End() == 3;
    assert receiver.InListRun(3) && receiver.Settled(3, 1, 0) == {0, 1, 2, 3, 4} && receiver.NewTop(3, 1) == 4;
    hide ReceiverAdamap.Settled;
    hide ReceiverAdamap.NewTop;
    var r := receiver.ReceiveUdp(3, 1, 0, false);
    receiver.ListTimeoutKeeps(|receiver.finished|);
    receiver.CompleteMeansFinish();
  }

  /** Packets 0, 1 and 2 come, and packet 0 again. */
  method MoveBack() returns (receiver: ReceiverAdamap)
    ensures fresh(receiver) && receiver.Valid() && receiver.Kept() && receiver.startSeq == 0 && receiver.floor == 2
    ensures receiver.arrived == receiver.recorded == {0, 1, 2} && receiver.bitmap == [false] && receiver.finished == []
  {
    hide ReceiverAdamap.Valid;
    hide ReceiverAdamap.Kept;
    hide FirstRoundDone;
    hide LaterRoundDone;
    receiver := new ReceiverAdamap(1);
    var r := receiver.ReceiveNormal(0, false);
    r := receiver.ReceiveNormal(1, false);
    r := receiver.ReceiveNormal(2, false);
    r := receiver.ReceiveUdp(0, 0, 0, false);
  }

  /** Packets 0, 1 and 3 come and 3 is the last; packet 2 has been lost. */
  method LosePacket2() returns (receiver: ReceiverAdamap)
    ensures fresh(receiver) && receiver.Valid() && receiver.Account() && receiver.size == 1 && receiver.startSeq == 3
    ensures receiver.finished == [Adamap(0, 1, 1, [false])] && receiver.table == [] && receiver.getLastPacket
    ensures receiver.arrived == receiver.recorded == {0, 1, 3} && receiver.top == 3
  {
    hide ReceiverAdamap.Valid;
    hide ReceiverAdamap.Kept;
    receiver := new ReceiverAdamap(1);
    var r := receiver.ReceiveNormal(0, false);
    r := receiver.ReceiveNormal(1, false);
    assert receiver.bitmap == [false];
    r := receiver.ReceiveNormal(3, true);
  }

  /** It comes in the first round after all: the record goes, and the end is noted at once. */
  method FinishOnReceipt() returns (receiver: ReceiverAdamap)
    ensures receiver.Valid() && receiver.Account() && receiver.isFinished && receiver.finished == [] && receiver.table == []
    ensures receiver.arrived == {0, 1, 2, 3} && receiver.Complete()
  {
    hide ReceiverAdamap.Valid;
    hide ReceiverAdamap.Kept;
    hide FirstRoundDone;
    hide LaterRoundDone;
    receiver := LosePacket2();
    ghost var head := receiver.finished[0];
    assert head.Lost(2) && head.End() == 2;
    assert receiver.Settled(2, 1, 0) == {0, 1, 2, 3} && receiver.NewTop(2, 1) == 3;
    hide ReceiverAdamap.Settled;
    hide ReceiverAdamap.NewTop;
    var r := receiver.ReceiveUdp(2, 1, 0, false);
    OnlyHole(head, r, receiver.finished, receiver.table);
  }

  lemma OnlyHole(head: Adamap, r: Outcome, list: seq<Adamap>, table: seq<Entry>)
    requires head == Adamap(0, 1, 1, [false]) && FirstRoundDone([head], [], 2, 1, r, list, table)
    ensures r == Code(-16) && list == [] && table == []
  {
    var list0 := [head];
    assert list0[0].Lost(2) && list0[0].End() == 2;
    assert SomeNodeDone(list0, 0, 0, 2, 1, r, list, table);
    var m: nat :| m <= |table| && NodeDone(list0, 0, 0, m, 2, 1, r, list, table);
    assert head.Lost(2) && !LaterHole(head, 2, 1) && !EarlierHole(head, 2);
  }

  /** Packet 0 has moved the start back; packet 2 comes again and closes the window, and packet 1, which has been recorded,
      is noted as lost. */
  method LoseAgain() returns (receiver: ReceiverAdamap)
    ensures receiver.arrived == receiver.recorded == {0, 1, 2} && LostIn(receiver.finished, 1)
  {
    hide ReceiverAdamap.Valid;
    hide ReceiverAdamap.Kept;
    hide FirstRoundDone;
    hide LaterRoundDone;
    receiver := MoveBack();
    var r := receiver.ReceiveUdp(2, 0, 0, false);
    assert receiver.finished[0].Lost(1);
  }

  /** The records after the bitmap part of `d` has gone ahead, or away if it has no losses. */
  function Slid(a: seq<Adamap>, d: Adamap, b: seq<Adamap>, size: nat): seq<Adamap> {
    (if d.BitmapFull() then a else a + [d.First()]) + ((if d.reprLength > size then [d.Rest()] else []) + b)
  }

  lemma SlidIs(a: seq<Adamap>, d: Adamap, b: seq<Adamap>, size: nat)
    ensures Slid(a, d, b, size) ==
              (if d.BitmapFull() then a else a + [d.First()]) + if d.reprLength > size then [d.Rest()] + b else b
  {
  }

  lemma SlideKeeps(a: seq<Adamap>, d: Adamap, b: seq<Adamap>, size: nat, bound: int)
    requires size > 0 && Ascending(a + [d] + b, size, bound) && |d.bitmap| == size
    ensures Ascending(Slid(a, d, b, size), size, bound)
    ensures forall x :: LostIn(Slid(a, d, b, size), x) <==> LostIn(a + [d] + b, x)
  {
    hide Ascending;
    hide LostIn;
    if d.reprLength > size {
      SplitAt(a, d, b, size, bound);
      assert a + [d.First()] + [d.Rest()] + b == a + [d.First()] + ([d.Rest()] + b);
      assert a + [d.Rest()] + b == a + ([d.Rest()] + b);
      if d.BitmapFull() { DropAt(a, d.First(), [d.Rest()] + b, size, bound); }
    } else {
      assert [] + b == b && d.First() == d;
      if d.BitmapFull() { DropAt(a, d, b, size, bound); }
    }
  }

  /** Changing or dropping one entry keeps those with other numbers. */
  lemma OthersStay(table: seq<Entry>, k: nat, e: Entry)
    requires k < |table|
    ensures forall o | o in table && o.tableIndex != table[k].tableIndex :: o in table[k := e]
    ensures forall o | o in table && o.tableIndex != table[k].tableIndex :: o in table[..k] + table[k + 1..]
  {
    forall o | o in table && o.tableIndex != table[k].tableIndex ensures o in table[k := e] && o in table[..k] + table[k + 1..] {
      var i :| 0 <= i < |table| && table[i] == o;
      assert table[k := e][i] == o;
      if i < k { assert table[..k][i] == o; } else { assert table[k + 1..][i - k - 1] == o; }
    }
  }

  /** The table after the bit of a packet of its `k`-th entry has been set; an entry without losses goes. */
  ghost function Refilled(table: seq<Entry>, k: nat, s: int): seq<Entry>
    requires k < |table| && 0 < s - table[k].adamap.startSeq <= |table[k].adamap.bitmap|
  {
    var filled := table[k].adamap.Fill(s);
    if filled.Finished() then table[..k] + table[k + 1..] else table[k := Entry(table[k].tableIndex, filled)]
  }

  lemma RefilledIs(table: seq<Entry>, k: nat, s: int)
    requires k < |table| && 0 < s - table[k].adamap.startSeq <= |table[k].adamap.bitmap|
    ensures var filled := table[k].adamap.Fill(s);
            var noted := table[k := Entry(table[k].tableIndex, filled)];
            Refilled(table, k, s) == if filled.Finished() then noted[..k] + noted[k + 1..] else noted
  {
  }

  lemma RefilledEntries(table: seq<Entry>, k: nat, s: int, next: nat, size: nat)
    requires Numbered(table, next, size) && k < |table| && 0 < s - table[k].adamap.startSeq <= |table[k].adamap.bitmap|
    ensures forall o | o in table && o.tableIndex != table[k].tableIndex :: o in Refilled(table, k, s)
    ensures forall o | o in Refilled(table, k, s) && o.adamap.Finished() :: o in table && o.tableIndex != table[k].tableIndex
  {
    RefilledMembers(table, k, s, next, size);
    hide Refilled;
    hide Adamap.Finished;
  }

  lemma RefilledLater(table: seq<Entry>, k: nat, s: int, next: nat, size: nat)
    requires Numbered(table, next, size) && k < |table| && 0 < s - table[k].adamap.startSeq <= |table[k].adamap.bitmap|
    requires |table[k].adamap.bitmap| == size && table[k].adamap.reprLength > 0
    ensures LaterRoundDone(table, table[k].tableIndex, s, Refilled(table, k, s))
  {
    var o, now := table[k], Refilled(table, k, s);
    var e := Entry(o.tableIndex, o.adamap.Fill(s));
    assert BitSet(e.adamap, o.adamap, s) by { assert forall x :: e.adamap.Lost(x) <==> o.adamap.Lost(x) && x != s; }
    assert e.adamap.Finished() <==> !OtherLoss(o.adamap, s) by { e.adamap.FinishedIsLossless(); }
    RefilledMembers(table, k, s, next, size);
    hide Refilled;
    hide BitSet;
    hide Adamap.Finished;
    hide OtherLoss;
    assert o in table;
    forall o' | o' in table && o'.tableIndex == o.tableIndex ensures o' == o {
      var i :| 0 <= i < |table| && table[i] == o';
    }
    if !e.adamap.Finished() { assert e in now; }
  }

  lemma ChangedMembers(table: seq<Entry>, k: nat, e: Entry)
    requires k < |table| && e.tableIndex == table[k].tableIndex
    requires forall i | 0 <= i < |table| && i != k :: table[i].tableIndex != e.tableIndex
    ensures forall o :: o in table[k := e] <==> (o in table && o.tableIndex != e.tableIndex) || o == e
  {
    OthersStay(table, k, e);
    forall o | o in table[k := e] ensures o == e || (o in table && o.tableIndex != e.tableIndex) {
      var i :| 0 <= i < |table| && table[k := e][i] == o;
      assert i != k ==> table[i] == o;
    }
    assert table[k := e][k] == e;
  }

  lemma DroppedMembers(table: seq<Entry>, k: nat)
    requires k < |table| && forall i | 0 <= i < |table| && i != k :: table[i].tableIndex != table[k].tableIndex
    ensures forall o :: o in table[..k] + table[k + 1..] <==> o in table && o.tableIndex != table[k].tableIndex
  {
    OthersStay(table, k, table[k]);
    forall o | o in table[..k] + table[k + 1..] ensures o in table && o.tableIndex != table[k].tableIndex {
      var i :| 0 <= i < |table| - 1 && (table[..k] + table[k + 1..])[i] == o;
      assert o == if i < k then table[i] else table[i + 1];
    }
  }

  lemma RefilledMembers(table: seq<Entry>, k: nat, s: int, next: nat, size: nat)
    requires Numbered(table, next, size) && k < |table| && 0 < s - table[k].adamap.startSeq <= |table[k].adamap.bitmap|
    ensures var e := Entry(table[k].tableIndex, table[k].adamap.Fill(s));
            forall o :: o in Refilled(table, k, s) <==> (o in table && o.tableIndex != e.tableIndex) || (o == e && !e.adamap.Finished())
  {
    hide Adamap.Finished;
    var e := Entry(table[k].tableIndex, table[k].adamap.Fill(s));
    if e.adamap.Finished() { DroppedMembers(table, k); } else { ChangedMembers(table, k, e); }
  }

  lemma OneEntry(table: seq<Entry>, k: nat, e: Entry, next: nat, size: nat, finished: seq<Adamap>)
    requires Numbered(table, next, size) && k < |table|
    requires e.tableIndex == table[k].tableIndex && e.adamap.reprLength == table[k].adamap.reprLength
    ensures Numbered(table[k := e], next, size) && Numbered(table[..k] + table[k + 1..], next, size)
    ensures Adamaps(table[k := e]) + finished == Adamaps(table[..k]) + [e.adamap] + (Adamaps(table[k + 1..]) + finished)
    ensures Adamaps(table[..k] + table[k + 1..]) + finished == Adamaps(table[..k]) + (Adamaps(table[k + 1..]) + finished)
  {
  }

  lemma TableSplit(table: seq<Entry>, k: nat, finished: seq<Adamap>)
    requires k < |table|
    ensures Adamaps(table) + finished == Adamaps(table[..k]) + [table[k].adamap] + (Adamaps(table[k + 1..]) + finished)
  {
  }

  /** Setting a bit, lost or not. */
  lemma FillBit(a: seq<Adamap>, node: Adamap, b: seq<Adamap>, size: nat, bound: int, s: int)
    requires Ascending(a + [node] + b, size, bound) && node.startSeq < s <= node.End() && node.reprLength <= size == |node.bitmap|
    ensures Ascending(a + [node.Fill(s)] + b, size, bound)
    ensures forall x :: LostIn(a + [node.Fill(s)] + b, x) <==> LostIn(a + [node] + b, x) && x != s
  {
    if node.Lost(s) {
      FillNode(a, node, b, size, bound, s);
    } else {
      assert node.Fill(s) == node;
      var segs := a + [node] + b;
      assert segs[|a|] == node;
      forall i | 0 <= i < |segs| ensures !segs[i].Lost(s) {
        if i != |a| { Disjoint(segs, size, bound, i, |a|, s); }
      }
    }
  }

  lemma FillNode(a: seq<Adamap>, node: Adamap, b: seq<Adamap>, size: nat, bound: int, s: int)
    requires Ascending(a + [node] + b, size, bound) && node.Lost(s) && s - node.startSeq <= size
    ensures |node.bitmap| == size && Ascending(a + [node.Fill(s)] + b, size, bound)
    ensures LostIn(a + [node] + b, s)
    ensures forall x :: LostIn(a + [node.Fill(s)] + b, x) <==> LostIn(a + [node] + b, x) && x != s
  {
    var segs := a + [node] + b;
    assert segs[|a|] == node;
    FillAt(segs, size, bound, |a|, s);
    assert segs[|a| := node.Fill(s)] == a + [node.Fill(s)] + b;
  }

  lemma AscendingMember(a: seq<Adamap>, node: Adamap, b: seq<Adamap>, size: nat, bound: int)
    requires Ascending(a + [node] + b, size, bound)
    ensures |node.bitmap| == size && 0 < node.reprLength && node.End() <= bound
  {
    assert (a + [node] + b)[|a|] == node;
  }

  // ---- wire format and sender ---------------------------------------------------------------

  /** The number with the given binary digits, least significant first. */
  function Word(bits: seq<bool>): nat {
    if bits == [] then 0 else (if bits[0] then 1 else 0) + 2 * Word(bits[1..])
  }

  function Pow2(n: nat): nat { if n == 0 then 1 else 2 * Pow2(n - 1) }

  predicate WordBit(w: nat, k: nat) {
    if k == 0 then w % 2 == 1 else WordBit(w / 2, k - 1)
  }

  lemma WordParts(bits: seq<bool>)
    requires bits != []
    ensures (Word(bits) % 2 == 1 <==> bits[0]) && Word(bits) / 2 == Word(bits[1..])
  {
  }

  lemma {:induction false} WordBits(bits: seq<bool>, k: nat)
    ensures WordBit(Word(bits), k) <==> k < |bits| && bits[k]
    decreases k
  {
    if bits == [] {
      ZeroBits(k);
    } else {
      WordParts(bits);
      hide Word;
      if k > 0 { WordBits(bits[1..], k - 1); }
    }
  }

  lemma {:induction false} ZeroBits(k: nat)
    ensures !WordBit(0, k)
  {
    if k > 0 { ZeroBits(k - 1); }
  }

  lemma {:induction false} WordAppend(bits: seq<bool>, b: bool)
    ensures Word(bits + [b]) == Word(bits) + if b then Pow2(|bits|) else 0
  {
    if bits != [] {
      assert (bits + [b])[1..] == bits[1..] + [b];
      WordAppend(bits[1..], b);
    }
  }

  function Min(a: int, b: int): int { if a < b then a else b }

  /** The 64 bits of the bitmap that go into word `q`, as far as `n` bits reach. */
  function Chunk(bitmap: seq<bool>, q: nat, n: nat): seq<bool>
    requires n <= |bitmap|
  {
    bitmap[Min(64 * q, n)..Min(64 * q + 64, n)]
  }

  lemma NextChunk(bitmap: seq<bool>, i: nat)
    requires i < |bitmap| && i < 256
    ensures |Chunk(bitmap, i / 64, i)| == i % 64
    ensures Chunk(bitmap, i / 64, i + 1) == Chunk(bitmap, i / 64, i) + [bitmap[i]]
    ensures forall q: nat | q != i / 64 :: Chunk(bitmap, q, i + 1) == Chunk(bitmap, q, i)
  {
  }

  /** Four 64-bit words. Setting a bit that is still clear is modelled as adding its value. */
  method BitmapToWireWords(bitmap: seq<bool>) returns (words: seq<nat>)
    ensures |words| == 4
    ensures forall q | 0 <= q < 4 :: words[q] == Word(Chunk(bitmap, q, Min(|bitmap|, 256)))
  {
    words := [0, 0, 0, 0];
    var len := if |bitmap| > 256 then 256 else |bitmap|;
    for i := 0 to len
      invariant |words| == 4 && forall q | 0 <= q < 4 :: words[q] == Word(Chunk(bitmap, q, i))
    {
      var j := i / 64;
      NextChunk(bitmap, i);
      WordAppend(Chunk(bitmap, j, i), bitmap[i]);
      hide Chunk;
      hide Word;
      hide Pow2;
      if bitmap[i] {
        words := words[j := words[j] + Pow2(i % 64)];
      }
    }
  }

  method WireWordsToBitmap(words: seq<nat>, size: nat) returns (bitmap: seq<bool>)
    requires |words| == 4
    ensures |bitmap| == Min(size, 256)
    ensures forall k | 0 <= k < |bitmap| :: bitmap[k] <==> WordBit(words[k / 64], k % 64)
  {
    var n := if size > 256 then 256 else size;
    bitmap := Zeros(n);
    for i := 0 to n
      invariant |bitmap| == n && forall k | 0 <= k < i :: bitmap[k] <==> WordBit(words[k / 64], k % 64)
    {
      bitmap := bitmap[i := WordBit(words[i / 64], i % 64)];
    }
  }

  /** A bitmap of up to 256 bits survives the header when both ends agree on its size. */
  method Transmit(bitmap: seq<bool>) returns (arrived: seq<bool>)
    requires |bitmap| <= 256
    ensures arrived == bitmap
  {
    var words := BitmapToWireWords(bitmap);
    arrived := WireWordsToBitmap(words, |bitmap|);
    forall k | 0 <= k < |bitmap| ensures arrived[k] == bitmap[k] {
      WordBits(Chunk(bitmap, k / 64, |bitmap|), k % 64);
    }
  }

  datatype LossSeqEntry = LossSeqEntry(id: nat, lossSeq: int, omniType: nat, tableIndex: int)

  /** The lost packets of a record in ascending order, up to `last`. */
  ghost function Losses(a: Adamap, last: int): seq<int>
    decreases last - a.startSeq
  {
    if last <= a.startSeq then []
    else Losses(a, last - 1) + if a.Lost(last) then [last] else []
  }

  lemma {:induction false} LossesAreLost(a: Adamap, last: int, s: int)
    ensures s in Losses(a, last) <==> a.Lost(s) && s <= last
    decreases last - a.startSeq
  {
    if last > a.startSeq {
      LossesAreLost(a, last - 1, s);
    }
  }

  lemma {:induction false} LossesAscend(a: Adamap, last: int)
    ensures forall i, j | 0 <= i < j < |Losses(a, last)| :: Losses(a, last)[i] < Losses(a, last)[j]
    decreases last - a.startSeq
  {
    if last > a.startSeq {
      LossesAscend(a, last - 1);
      var before := Losses(a, last - 1);
      forall i | 0 <= i < |before| ensures before[i] < last {
        LossesAreLost(a, last - 1, before[i]);
      }
    }
  }

  function Entries(a: Adamap, losses: seq<int>, omniType: nat, tableIndex: int): seq<LossSeqEntry> {
    seq(|losses|, i requires 0 <= i < |losses| => LossSeqEntry(a.id, losses[i], omniType, tableIndex))
  }

  /** Behind `before` the queue has every lost packet of the record, once each and in ascending order, with the number of the
      record and the round and table entry it is for. */
  ghost predicate Queued(before: seq<LossSeqEntry>, queue: seq<LossSeqEntry>, a: Adamap, omniType: nat, tableIndex: int) {
    && before <= queue
    && (forall i | |before| <= i < |queue| ::
          queue[i].id == a.id && a.Lost(queue[i].lossSeq) && queue[i].omniType == omniType && queue[i].tableIndex == tableIndex)
    && (forall i, j | |before| <= i < j < |queue| :: queue[i].lossSeq < queue[j].lossSeq)
    && (forall x | a.Lost(x) :: exists i :: |before| <= i < |queue| && queue[i].lossSeq == x)
  }

  lemma EntriesQueued(before: seq<LossSeqEntry>, a: Adamap, omniType: nat, tableIndex: int)
    ensures Queued(before, before + Entries(a, Losses(a, a.End()), omniType, tableIndex), a, omniType, tableIndex)
  {
    var losses := Losses(a, a.End());
    var queue, n := before + Entries(a, losses, omniType, tableIndex), |before|;
    LossesAscend(a, a.End());
    forall x ensures x in losses <==> a.Lost(x) { LossesAreLost(a, a.End(), x); }
    hide Adamap.Lost;
    hide Losses;
    assert forall i | n <= i < |queue| :: queue[i] == LossSeqEntry(a.id, losses[i - n], omniType, tableIndex) && losses[i - n] in losses;
    forall x | a.Lost(x) ensures exists i :: n <= i < |queue| && queue[i].lossSeq == x {
      var k :| 0 <= k < |losses| && losses[k] == x;
      assert queue[n + k].lossSeq == x;
    }
  }

  class SenderAdamap {
    var adamapQueue: seq<Adamap>
    var lossSeqQueue: seq<LossSeqEntry>

    /** Queue every lost packet of the record, once and in ascending order, behind what is queued already. */
    method Enqueue(adamap: Adamap, omniType: nat, tableIndex: int)
      requires adamap.startSeq >= 0 && adamap.End() < 0xffff_ffff
      modifies this
      ensures adamapQueue == old(adamapQueue) + [adamap]
      ensures lossSeqQueue == old(lossSeqQueue) + Entries(adamap, Losses(adamap, adamap.End()), omniType, tableIndex)
      ensures Queued(old(lossSeqQueue), lossSeqQueue, adamap, omniType, tableIndex)
    {
      adamapQueue := adamapQueue + [adamap];
      var seq_ := adamap.startSeq + 1;
      while seq_ <= adamap.End()
        invariant adamap.startSeq < seq_ && (seq_ <= adamap.End() + 1 || adamap.reprLength < 0)
        invariant lossSeqQueue == old(lossSeqQueue) + Entries(adamap, Losses(adamap, seq_ - 1), omniType, tableIndex)
        invariant adamapQueue == old(adamapQueue) + [adamap]
      {
        var isLost := true;
        if seq_ - adamap.startSeq <= |adamap.bitmap| {
          var bitmapIndex := seq_ - adamap.startSeq - 1;
          if adamap.bitmap[bitmapIndex] {
            isLost := false;
          }
        }
        if isLost {
          lossSeqQueue := lossSeqQueue + [LossSeqEntry(adamap.id, seq_, omniType, tableIndex)];
        }
        EntriesStep(adamap, seq_, omniType, tableIndex);
        seq_ := seq_ + 1;
      }
      NoMoreLosses(adamap, seq_ - 1);
      EntriesQueued(old(lossSeqQueue), adamap, omniType, tableIndex);
    }

    /** The next packet to retransmit with the number, round and table entry of its record; 0 and the values given if there
        is none. */
    method GetRetransSeq(id0: nat, omniType0: nat, tableIndex0: int, update: bool)
      returns (lostSeq: int, id: nat, omniType: nat, tableIndex: int)
      modifies this`lossSeqQueue
      ensures old(lossSeqQueue) == [] ==> lostSeq == 0 && id == id0 && omniType == omniType0 && tableIndex == tableIndex0
      ensures old(lossSeqQueue) != [] ==> LossSeqEntry(id, lostSeq, omniType, tableIndex) == old(lossSeqQueue)[0]
      ensures lossSeqQueue == if old(lossSeqQueue) != [] && update then old(lossSeqQueue)[1..] else old(lossSeqQueue)
    {
      if lossSeqQueue == [] {
        return 0, id0, omniType0, tableIndex0;
      }
      var entry := lossSeqQueue[0];
      id, omniType, tableIndex := entry.id, entry.omniType, entry.tableIndex;
      lostSeq := entry.lossSeq;
      if update {
        lossSeqQueue := lossSeqQueue[1..];
      }
    }
  }

  lemma EntriesStep(a: Adamap, s: int, omniType: nat, tableIndex: int)
    requires a.startSeq < s
    ensures Entries(a, Losses(a, s), omniType, tableIndex) ==
              Entries(a, Losses(a, s - 1), omniType, tableIndex) +
              if a.Lost(s) then [LossSeqEntry(a.id, s, omniType, tableIndex)] else []
  {
  }

  lemma NoMoreLosses(a: Adamap, last: int)
    requires last >= a.startSeq && last >= a.End()
    ensures Losses(a, last) == Losses(a, a.End())
    decreases last - a.startSeq
  {
    if last > a.End() && last > a.startSeq {
      NoMoreLosses(a, last - 1);
    }
  }
}
