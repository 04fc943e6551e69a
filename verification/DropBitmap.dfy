/** Greedy encoding of dropped sequence numbers as bitmaps with an extended run. */
module DropBitmap {

  /** Stands for the drops `start + 1 + pos` with `bitmap[pos] == 0`, and for the run of all numbers
      behind the bitmap up to `start + length`. */
  datatype Record = Record(start: int, length: int, bitmap: seq<int>)

  ghost predicate In(r: Record, x: int) {
    || (0 <= x - r.start - 1 < |r.bitmap| && r.bitmap[x - r.start - 1] == 0)
    || r.start + |r.bitmap| < x <= r.start + r.length
  }

  ghost predicate InAny(rs: seq<Record>, x: int) { exists i :: 0 <= i < |rs| && In(rs[i], x) }

  /** Records with bitmaps of width `w` that stand for exactly the numbers of `drops`. */
  ghost predicate Encodes(rs: seq<Record>, w: nat, drops: seq<int>) {
    && (forall i | 0 <= i < |rs| :: |rs[i].bitmap| == w)
    && (forall x :: InAny(rs, x) <==> x in drops)
  }

  ghost predicate StrictlyIncreasing(s: seq<int>) { forall i, j | 0 <= i < j < |s| :: s[i] < s[j] }

  /** The run begins behind the bitmap, whose entries are 0 for a drop and 1 otherwise. */
  ghost predicate Binary(r: Record) {
    r.length >= |r.bitmap| && forall pos | 0 <= pos < |r.bitmap| :: r.bitmap[pos] == 0 || r.bitmap[pos] == 1
  }

  ghost predicate AllBinary(rs: seq<Record>) { forall i | 0 <= i < |rs| :: Binary(rs[i]) }

  function Ones(w: nat): seq<int> { seq(w, _ => 1) }

  // ---- greedy stays ahead --------------------------------------------------------------

  /** A record whose first number is a drop and whose run cannot be extended. */
  ghost predicate Maximal(r: Record, drops: seq<int>) {
    r.start + 1 in drops && r.length >= |r.bitmap| && r.start + r.length + 1 !in drops
  }

  /** Maximal records, each beginning behind the end of the previous one. */
  ghost predicate Greedy(rs: seq<Record>, w: nat, drops: seq<int>) {
    && (forall i | 0 <= i < |rs| :: |rs[i].bitmap| == w && Maximal(rs[i], drops))
    && (forall i, j | 0 <= i < j < |rs| :: rs[i].start + rs[i].length < rs[j].start + 1)
  }

  /** No record of another encoding can hold the first numbers of two greedy records. */
  lemma OneEach(r: Record, s: Record, other: Record, w: nat, drops: seq<int>)
    requires Maximal(r, drops) && |r.bitmap| == w && |other.bitmap| == w
    requires r.start + r.length < s.start + 1
    requires forall x | In(other, x) :: x in drops
    requires In(other, r.start + 1)
    ensures !In(other, s.start + 1)
  {
  }

  lemma {:induction false} DistinctBelow(s: seq<int>, n: nat)
    requires forall i | 0 <= i < |s| :: 0 <= s[i] < n
    requires forall i, j | 0 <= i < j < |s| :: s[i] != s[j]
    ensures |s| <= n
    decreases n
  {
    if s != [] {
      assert 0 <= s[0] < n;
      if k :| 0 <= k < |s| && s[k] == n - 1 {
        DistinctBelow(s[..k] + s[k + 1..], n - 1);
      } else {
        DistinctBelow(s, n - 1);
      }
    }
  }

  /** Positions in `other` of records that hold the first numbers of the greedy records. */
  lemma {:induction false} Assign(rs: seq<Record>, other: seq<Record>, w: nat, drops: seq<int>, k: nat) returns (f: seq<int>)
    requires Greedy(rs, w, drops) && Encodes(other, w, drops) && k <= |rs|
    ensures |f| == k
    ensures forall i | 0 <= i < k :: 0 <= f[i] < |other| && In(other[f[i]], rs[i].start + 1)
  {
    if k == 0 {
      f := [];
    } else {
      f := Assign(rs, other, w, drops, k - 1);
      assert InAny(other, rs[k - 1].start + 1);
      var j :| 0 <= j < |other| && In(other[j], rs[k - 1].start + 1);
      f := f + [j];
    }
  }

  /** Greedy records are as few as possible. */
  lemma GreedyIsMinimal(rs: seq<Record>, other: seq<Record>, w: nat, drops: seq<int>)
    requires Greedy(rs, w, drops) && Encodes(other, w, drops)
    ensures |rs| <= |other|
  {
    var f := Assign(rs, other, w, drops, |rs|);
    forall i, j | 0 <= i < j < |f| ensures f[i] != f[j] {
      forall x | In(other[f[i]], x) ensures x in drops {
        assert InAny(other, x);
      }
      OneEach(rs[i], rs[j], other[f[i]], w, drops);
    }
    DistinctBelow(f, |other|);
  }

  // ---- the encoder ---------------------------------------------------------------------

  /** The finished records and the current one stand for the first `i` drops. */
  ghost predicate EncodesSoFar(done: seq<Record>, cur: Record, w: nat, drops: seq<int>, i: nat)
    requires i <= |drops|
  {
    && |cur.bitmap| == w <= cur.length
    && (forall k | 0 <= k < |done| :: |done[k].bitmap| == w)
    && (forall x :: InAny(done, x) || In(cur, x) <==> x in drops[..i])
  }

  ghost predicate GreedySoFar(done: seq<Record>, cur: Record, w: nat, drops: seq<int>, i: nat)
    requires 0 < i <= |drops|
  {
    && Greedy(done, w, drops) && |cur.bitmap| == w <= cur.length
    && (forall k | 0 <= k < |done| :: done[k].start + done[k].length < cur.start + 1)
    && cur.start + 1 in drops && cur.start + 1 <= drops[i - 1] <= cur.start + cur.length
    && (cur.length > w ==> drops[i - 1] == cur.start + cur.length)
  }

  /** Clearing the bit of a drop inside the bitmap. */
  lemma ClearBit(done: seq<Record>, cur: Record, w: nat, drops: seq<int>, i: nat, pos: int)
    requires i < |drops| && EncodesSoFar(done, cur, w, drops, i) && pos == drops[i] - cur.start - 1 && 0 <= pos < w
    ensures EncodesSoFar(done, cur.(bitmap := cur.bitmap[pos := 0]), w, drops, i + 1)
  {
    var cur' := cur.(bitmap := cur.bitmap[pos := 0]);
    assert drops[..i + 1] == drops[..i] + [drops[i]];
    assert forall x :: In(cur', x) <==> In(cur, x) || x == drops[i];
  }

  /** Extending the run by `n` consecutive drops. */
  lemma ExtendRun(done: seq<Record>, cur: Record, w: nat, drops: seq<int>, i: nat, n: nat)
    requires i + n <= |drops| && EncodesSoFar(done, cur, w, drops, i)
    requires forall m | i <= m < i + n :: drops[m] == cur.start + cur.length + 1 + m - i
    ensures EncodesSoFar(done, cur.(length := cur.length + n), w, drops, i + n)
  {
    var cur' := cur.(length := cur.length + n);
    var first := cur.start + cur.length + 1;
    forall x ensures InAny(done, x) || In(cur', x) <==> x in drops[..i + n] {
      RunMembers(drops, i, n, first, x);
      assert In(cur', x) <==> In(cur, x) || first <= x < first + n;
    }
  }

  lemma RunMembers(drops: seq<int>, i: nat, n: nat, first: int, x: int)
    requires i + n <= |drops| && forall m | i <= m < i + n :: drops[m] == first + m - i
    ensures x in drops[..i + n] <==> x in drops[..i] || first <= x < first + n
  {
    assert drops[..i + n] == drops[..i] + drops[i..i + n];
    if first <= x < first + n { assert drops[i + (x - first)] == x; }
  }

  /** Starting over with a record for one drop. */
  lemma StartRecord(done: seq<Record>, cur: Record, w: nat, drops: seq<int>, i: nat)
    requires i < |drops| && EncodesSoFar(done, cur, w, drops, i) && w > 0
    ensures EncodesSoFar(done + [cur], Record(drops[i] - 1, w, Ones(w)[0 := 0]), w, drops, i + 1)
  {
    var cur' := Record(drops[i] - 1, w, Ones(w)[0 := 0]);
    assert drops[..i + 1] == drops[..i] + [drops[i]];
    forall x ensures InAny(done + [cur], x) <==> InAny(done, x) || In(cur, x) {
      InAppend(done, cur, x);
    }
    assert forall x :: In(cur', x) <==> x == drops[i];
  }

  lemma CloseRecord(done: seq<Record>, cur: Record, w: nat, drops: seq<int>, i: nat)
    requires 0 < i < |drops| && GreedySoFar(done, cur, w, drops, i) && StrictlyIncreasing(drops) && w > 0
    requires drops[i] - cur.start - 1 >= w && drops[i] - cur.start - 1 != cur.length
    ensures GreedySoFar(done + [cur], Record(drops[i] - 1, w, Ones(w)[0 := 0]), w, drops, i + 1)
  {
  }

  lemma InAppend(done: seq<Record>, cur: Record, x: int)
    ensures InAny(done + [cur], x) <==> InAny(done, x) || In(cur, x)
  {
    if In(cur, x) { assert In((done + [cur])[|done|], x); }
    if k :| 0 <= k < |done| && In(done[k], x) { assert In((done + [cur])[k], x); }
  }

  lemma FinishedEncodes(done: seq<Record>, cur: Record, w: nat, drops: seq<int>)
    requires EncodesSoFar(done, cur, w, drops, |drops|)
    ensures Encodes(done + [cur], w, drops)
  {
    hide In;
    hide InAny;
    assert drops[..|drops|] == drops;
    forall x ensures InAny(done + [cur], x) <==> InAny(done, x) || In(cur, x) {
      InAppend(done, cur, x);
    }
  }

  lemma FinishedGreedy(done: seq<Record>, cur: Record, w: nat, drops: seq<int>)
    requires drops != [] && GreedySoFar(done, cur, w, drops, |drops|) && StrictlyIncreasing(drops)
    ensures Greedy(done + [cur], w, drops)
  {
  }

  /** The loop state before drop `i`, once there is a current record. */
  ghost predicate State(done: seq<Record>, cur: Record, w: nat, drops: seq<int>, i: nat)
    requires i <= |drops|
  {
    && EncodesSoFar(done, cur, w, drops, i)
    && (i == 0 ==> drops != [] && done == [] && cur == Record(drops[0] - 1, w, Ones(w)))
    && (i > 0 && StrictlyIncreasing(drops) ==> GreedySoFar(done, cur, w, drops, i))
  }

  lemma First(w: nat, drops: seq<int>)
    requires drops != []
    ensures State([], Record(drops[0] - 1, w, Ones(w)), w, drops, 0)
  {
  }

  lemma Clear(done: seq<Record>, cur: Record, w: nat, drops: seq<int>, i: nat, pos: int)
    requires i < |drops| && State(done, cur, w, drops, i) && pos == drops[i] - cur.start - 1 && 0 <= pos < w
    ensures State(done, cur.(bitmap := cur.bitmap[pos := 0]), w, drops, i + 1)
  {
    ClearBit(done, cur, w, drops, i, pos);
  }

  lemma Extend(done: seq<Record>, cur: Record, w: nat, drops: seq<int>, i: nat, n: nat)
    requires 0 < n && i + n <= |drops| && State(done, cur, w, drops, i) && w > 0
    requires forall m | i <= m < i + n :: drops[m] == cur.start + cur.length + 1 + m - i
    ensures State(done, cur.(length := cur.length + n), w, drops, i + n)
  {
    ExtendRun(done, cur, w, drops, i, n);
    assert drops[i] == cur.start + cur.length + 1 && drops[i + n - 1] == cur.start + cur.length + n;
  }

  lemma Close(done: seq<Record>, cur: Record, w: nat, drops: seq<int>, i: nat)
    requires i < |drops| && State(done, cur, w, drops, i) && w > 0
    requires var pos := drops[i] - cur.start - 1; !(0 <= pos < w) && pos != cur.length
    ensures State(done + [cur], Record(drops[i] - 1, w, Ones(w)[0 := 0]), w, drops, i + 1)
  {
    StartRecord(done, cur, w, drops, i);
    if StrictlyIncreasing(drops) {
      assert drops[i - 1] < drops[i];
      CloseRecord(done, cur, w, drops, i);
    }
  }

  lemma Nothing(w: nat, drops: seq<int>)
    requires drops == []
    ensures Encodes([], w, drops) && Greedy([], w, drops)
  {
  }

  /** The records stand for exactly the listed drops; without duplicates in the ascending list
      each run is as long as it can be, and there are as few of them as any records of that width need. */
  method BuildBitmaps(drops: seq<int>, w: nat) returns (bitmaps: seq<Record>)
    requires w > 0
    ensures Encodes(bitmaps, w, drops) && AllBinary(bitmaps)
    ensures StrictlyIncreasing(drops) ==> Greedy(bitmaps, w, drops)
    ensures StrictlyIncreasing(drops) ==> forall other | Encodes(other, w, drops) :: |bitmaps| <= |other|
  {
    hide Encodes;
    hide State;
    hide Greedy;
    hide Binary;
    bitmaps := [];
    var currentStartIdx, currentBitmap, bitmapLength := 0, Ones(w), w;
    assert Binary(Record(currentStartIdx, bitmapLength, currentBitmap)) by { OnesBinary(0, w); }
    var started := false;
    var i := 0;
    while i < |drops|
      invariant 0 <= i <= |drops| && (started <==> i > 0) && |currentBitmap| == w
      invariant !started ==> bitmaps == []
      invariant AllBinary(bitmaps) && Binary(Record(currentStartIdx, bitmapLength, currentBitmap))
      invariant started ==> State(bitmaps, Record(currentStartIdx, bitmapLength, currentBitmap), w, drops, i)
    {
      var pktIdx := drops[i];
      if !started {
        currentStartIdx := pktIdx - 1;
        currentBitmap := Ones(w);
        bitmapLength := w;
        started := true;
        First(w, drops);
        OnesBinary(currentStartIdx, w);
      }
      var pos := pktIdx - currentStartIdx - 1;
      ghost var cur := Record(currentStartIdx, bitmapLength, currentBitmap);
      if 0 <= pos < w {
        Clear(bitmaps, cur, w, drops, i, pos);
        StaysBinary(cur, pos, 0);
        currentBitmap := currentBitmap[pos := 0];
      } else if pos == bitmapLength {
        var extendCount := 0;
        while i + extendCount < |drops| && drops[i + extendCount] == pktIdx + extendCount
          invariant 0 <= extendCount <= |drops| - i
          invariant forall m | i <= m < i + extendCount :: drops[m] == pktIdx + m - i
          invariant extendCount == 0 ==> drops[i] == pktIdx
          decreases |drops| - i - extendCount
        {
          extendCount := extendCount + 1;
        }
        Extend(bitmaps, cur, w, drops, i, extendCount);
        StaysBinary(cur, 0, extendCount);
        i := i + extendCount - 1;
        bitmapLength := bitmapLength + extendCount;
      } else {
        Close(bitmaps, cur, w, drops, i);
        bitmaps := bitmaps + [Record(currentStartIdx, bitmapLength, currentBitmap)];
        currentStartIdx := pktIdx - 1;
        bitmapLength := w;
        currentBitmap := Ones(w)[0 := 0];
        OnesBinary(currentStartIdx, w);
        StaysBinary(Record(currentStartIdx, w, Ones(w)), 0, 0);
      }
      i := i + 1;
    }
    if started {
      Done(bitmaps, Record(currentStartIdx, bitmapLength, currentBitmap), w, drops);
      bitmaps := bitmaps + [Record(currentStartIdx, bitmapLength, currentBitmap)];
      if StrictlyIncreasing(drops) {
        forall other | Encodes(other, w, drops) ensures |bitmaps| <= |other| {
          GreedyIsMinimal(bitmaps, other, w, drops);
        }
      }
    } else {
      Nothing(w, drops);
    }
  }

  lemma OnesBinary(start: int, w: nat)
    ensures Binary(Record(start, w, Ones(w)))
  {
  }

  lemma StaysBinary(r: Record, pos: nat, n: nat)
    requires Binary(r) && pos < |r.bitmap|
    ensures Binary(r.(bitmap := r.bitmap[pos := 0])) && Binary(r.(length := r.length + n))
  {
  }

  lemma Done(done: seq<Record>, cur: Record, w: nat, drops: seq<int>)
    requires drops != [] && State(done, cur, w, drops, |drops|)
    ensures Encodes(done + [cur], w, drops)
    ensures StrictlyIncreasing(drops) ==> Greedy(done + [cur], w, drops)
  {
    FinishedEncodes(done, cur, w, drops);
    if StrictlyIncreasing(drops) { FinishedGreedy(done, cur, w, drops); }
  }
}
