/** The heavy-load binner: `calculateHeavyLoadPerMinute` picks, zone by
    zone, the index records whose magnitude difference exceeds a fixed
    threshold, and tallies them into five buckets of about ten records
    each (ten records being taken as about one minute).

    Bucket of the record at position `i`: slot `Math.round(i / 10) - 1`.
    That slot lies in 0..4 only for `5 <= i < 55`; the page writes outside
    its five counters for every other position. Here such events are
    dropped: they are filtered out but never counted. */
module HeavyLoad {
  import opened Types

  /** A difference strictly above this value is a heavy-load event. */
  const HeavyLoadThreshold: real := 100.0

  /** Number of counters per zone (the chart's five x-axis labels). */
  const BucketCount: nat := 5

  /** A heavy-load event: the record's position and its difference. */
  datatype HeavyLoad = HeavyLoad(index: nat, value: real)

  /** The three five-slot counter series. */
  datatype HeavyLoadPerMinute = HeavyLoadPerMinute(headHeavyLoad: seq<int>, leftHeavyLoad: seq<int>, rightHeavyLoad: seq<int>)

  predicate IsHeavy(data: IndexData, zone: Zone)
  {
    Diff(data, zone) > HeavyLoadThreshold
  }

  /** The events the page pushes for one zone while scanning the records
      in order, one per record whose difference exceeds the threshold. */
  function HeavyLoads(indexData: seq<IndexData>, zone: Zone): (events: seq<HeavyLoad>)
    ensures |events| <= |indexData|
    ensures |events| == HeavyCount(indexData, zone, 0, |indexData|)
  {
    if indexData == [] then []
    else
      var n := |indexData| - 1;
      HeavyCountSnoc(indexData[..n], indexData[n], zone, 0, |indexData|);
      HeavyCountSnoc(indexData[..n], indexData[n], zone, 0, n);
      assert indexData[..n] + [indexData[n]] == indexData;
      HeavyLoads(indexData[..n], zone)
        + (if IsHeavy(indexData[n], zone) then [HeavyLoad(n, Diff(indexData[n], zone))] else [])
  }

  /** `Math.round(x)`: the nearest integer, halves rounded up. */
  function MathRound(x: real): (r: int)
    ensures r as real - 0.5 <= x < r as real + 0.5
  {
    (x + 0.5).Floor
  }

  /** `Math.round(index / 10)` for a record position, in integers. */
  function RoundedTenth(index: nat): (i: nat)
    ensures i == MathRound(index as real / 10.0)
  {
    var q, r := (index + 5) / 10, (index + 5) % 10;
    assert index as real / 10.0 + 0.5 == q as real + r as real / 10.0;
    q
  }

  /** The counter slot the page increments for an event at `index`. It is
      one of the five slots exactly for positions 5 to 54, and slot `b`
      collects the positions `10 * b + 5` to `10 * b + 14`. */
  function Slot(index: nat): (slot: int)
    ensures 0 <= slot < BucketCount <==> 5 <= index < 55
    ensures slot >= 0 ==> 10 * slot + 5 <= index < 10 * slot + 15
  {
    RoundedTenth(index) - 1
  }

  /** Number of events that land in counter slot `slot`. */
  function CountInSlot(events: seq<HeavyLoad>, slot: int): nat
  {
    if events == [] then 0
    else
      var n := |events| - 1;
      CountInSlot(events[..n], slot) + (if Slot(events[n].index) == slot then 1 else 0)
  }

  /** The five counters after every event has been counted once. */
  function Tally(events: seq<HeavyLoad>): (counts: seq<int>)
    ensures |counts| == BucketCount
    ensures forall b :: 0 <= b < BucketCount ==> counts[b] >= 0
  {
    seq(BucketCount, b => CountInSlot(events, b))
  }

  /** Counting one more event raises exactly its own slot by one and leaves
      the other four unchanged; an event outside the five slots changes
      nothing. */
  lemma TallySnoc(events: seq<HeavyLoad>, e: HeavyLoad)
    ensures var slot := Slot(e.index);
      Tally(events + [e]) ==
        if 0 <= slot < BucketCount then Tally(events)[slot := Tally(events)[slot] + 1] else Tally(events)
  {
  }

  /** The three per-zone event lists are built in one scan of the records,
      then each is counted into its own zero-initialised five-slot array. */
  method CalculateHeavyLoadPerMinute(indexData: seq<IndexData>) returns (r: HeavyLoadPerMinute)
    ensures r.headHeavyLoad == Tally(HeavyLoads(indexData, Head))
    ensures r.leftHeavyLoad == Tally(HeavyLoads(indexData, Left))
    ensures r.rightHeavyLoad == Tally(HeavyLoads(indexData, Right))
  {
    var headArray, leftArray, rightArray := CollectHeavyLoads(indexData);
    var headArr := new int[BucketCount] [0, 0, 0, 0, 0];
    var leftArr := new int[BucketCount] [0, 0, 0, 0, 0];
    var rightArr := new int[BucketCount] [0, 0, 0, 0, 0];
    CountHeavyLoads(headArray, headArr);
    assert headArr[..] == Tally(headArray);
    CountHeavyLoads(leftArray, leftArr);
    assert leftArr[..] == Tally(leftArray);
    CountHeavyLoads(rightArray, rightArr);
    assert rightArr[..] == Tally(rightArray);
    r := HeavyLoadPerMinute(headArr[..], leftArr[..], rightArr[..]);
  }

  /** The page's first pass: one scan of the records, in order, pushing an
      event onto a zone's list for each record whose difference for that
      zone exceeds the threshold. */
  method CollectHeavyLoads(indexData: seq<IndexData>)
    returns (headArray: seq<HeavyLoad>, leftArray: seq<HeavyLoad>, rightArray: seq<HeavyLoad>)
    ensures headArray == HeavyLoads(indexData, Head)
    ensures leftArray == HeavyLoads(indexData, Left)
    ensures rightArray == HeavyLoads(indexData, Right)
  {
    headArray, leftArray, rightArray := [], [], [];
    var index := 0;
    while index < |indexData|
      invariant 0 <= index <= |indexData|
      invariant headArray == HeavyLoads(indexData[..index], Head)
      invariant leftArray == HeavyLoads(indexData[..index], Left)
      invariant rightArray == HeavyLoads(indexData[..index], Right)
    {
      var data := indexData[index];
      assert indexData[..index + 1][..index] == indexData[..index];
      if data.diffHead > HeavyLoadThreshold {
        headArray := headArray + [HeavyLoad(index, data.diffHead)];
      }
      if data.diffLeft > HeavyLoadThreshold {
        leftArray := leftArray + [HeavyLoad(index, data.diffLeft)];
      }
      if data.diffRight > HeavyLoadThreshold {
        rightArray := rightArray + [HeavyLoad(index, data.diffRight)];
      }
      index := index + 1;
    }
    assert indexData[..index] == indexData;
  }

  /** One of the page's three counting passes: for each event, in order,
      the counter of its slot goes up by one; events outside the five
      slots are skipped. */
  method CountHeavyLoads(events: seq<HeavyLoad>, counts: array<int>)
    requires counts.Length == BucketCount
    modifies counts
    ensures forall b :: 0 <= b < BucketCount ==> counts[b] == old(counts[b]) + Tally(events)[b]
  {
    var j := 0;
    while j < |events|
      invariant 0 <= j <= |events|
      invariant forall b :: 0 <= b < BucketCount ==> counts[b] == old(counts[b]) + Tally(events[..j])[b]
    {
      var i := RoundedTenth(events[j].index);
      TallySnoc(events[..j], events[j]);
      assert events[..j + 1] == events[..j] + [events[j]];
      if 1 <= i <= BucketCount {
        counts[i - 1] := counts[i - 1] + 1;
      }
      j := j + 1;
    }
    assert events[..j] == events;
  }

  /** The events of a zone are exactly the records above the threshold,
      each carrying its own position and difference, in increasing
      position order (so at most one per record). */
  lemma {:induction false} HeavyLoadsExact(indexData: seq<IndexData>, zone: Zone)
    ensures var events := HeavyLoads(indexData, zone);
      && (forall e :: e in events <==>
            e.index < |indexData| && IsHeavy(indexData[e.index], zone) && e.value == Diff(indexData[e.index], zone))
      && (forall a, b :: 0 <= a < b < |events| ==> events[a].index < events[b].index)
  {
    if indexData != [] {
      var n := |indexData| - 1;
      var init := indexData[..n];
      HeavyLoadsExact(init, zone);
      assert forall k :: 0 <= k < n ==> init[k] == indexData[k];
    }
  }

  /** Number of heavy records of a zone at positions `lo` (included) to
      `hi` (excluded). */
  function HeavyCount(indexData: seq<IndexData>, zone: Zone, lo: nat, hi: nat): nat
  {
    if hi <= lo then 0
    else
      HeavyCount(indexData, zone, lo, hi - 1)
        + (if hi - 1 < |indexData| && IsHeavy(indexData[hi - 1], zone) then 1 else 0)
  }

  /** Appending a record changes a range count only if the new position is
      inside the range and the record is heavy. */
  lemma {:induction false} HeavyCountSnoc(indexData: seq<IndexData>, d: IndexData, zone: Zone, lo: nat, hi: nat)
    ensures HeavyCount(indexData + [d], zone, lo, hi)
         == HeavyCount(indexData, zone, lo, hi) + (if lo <= |indexData| < hi && IsHeavy(d, zone) then 1 else 0)
  {
    if lo < hi {
      HeavyCountSnoc(indexData, d, zone, lo, hi - 1);
      if hi - 1 < |indexData| {
        assert (indexData + [d])[hi - 1] == indexData[hi - 1];
      }
    }
  }

  /** Positions past the end hold no heavy record. */
  lemma {:induction false} HeavyCountBeyondEnd(indexData: seq<IndexData>, zone: Zone, lo: nat, hi: nat)
    requires |indexData| <= lo
    ensures HeavyCount(indexData, zone, lo, hi) == 0
  {
    if lo < hi {
      HeavyCountBeyondEnd(indexData, zone, lo, hi - 1);
    }
  }

  /** Slot `b` of a zone counts exactly the heavy records of that zone at
      positions `10 * b + 5` to `10 * b + 14`. */
  lemma {:induction false} SlotCountsHeavyRecords(indexData: seq<IndexData>, zone: Zone, b: nat)
    requires b < BucketCount
    ensures Tally(HeavyLoads(indexData, zone))[b] == HeavyCount(indexData, zone, 10 * b + 5, 10 * b + 15)
  {
    if indexData == [] {
      HeavyCountBeyondEnd(indexData, zone, 10 * b + 5, 10 * b + 15);
    } else {
      var n := |indexData| - 1;
      var init := indexData[..n];
      SlotCountsHeavyRecords(init, zone, b);
      assert init + [indexData[n]] == indexData;
      HeavyCountSnoc(init, indexData[n], zone, 10 * b + 5, 10 * b + 15);
      var events := HeavyLoads(init, zone);
      assert indexData[..n] == init;
      var step := if 10 * b + 5 <= n < 10 * b + 15 && IsHeavy(indexData[n], zone) then 1 else 0;
      assert HeavyCount(indexData, zone, 10 * b + 5, 10 * b + 15)
          == HeavyCount(init, zone, 10 * b + 5, 10 * b + 15) + step;
      if IsHeavy(indexData[n], zone) {
        var e := HeavyLoad(n, Diff(indexData[n], zone));
        assert HeavyLoads(indexData, zone) == events + [e];
        TallySnoc(events, e);
        assert Slot(n) == b <==> 10 * b + 5 <= n < 10 * b + 15;
        assert Tally(events + [e])[b] == Tally(events)[b] + step;
      } else {
        assert HeavyLoads(indexData, zone) == events + [];
        assert events + [] == events;
      }
    }
  }

  /** A range count splits at any point in between. */
  lemma {:induction false} HeavyCountSplit(indexData: seq<IndexData>, zone: Zone, lo: nat, mid: nat, hi: nat)
    requires lo <= mid <= hi
    ensures HeavyCount(indexData, zone, lo, hi) == HeavyCount(indexData, zone, lo, mid) + HeavyCount(indexData, zone, mid, hi)
  {
    if mid < hi {
      HeavyCountSplit(indexData, zone, lo, mid, hi - 1);
    }
  }

  /** The five counters of a zone add up to the number of its heavy records
      at positions 5 to 54: every such record is counted once, and the
      dropped positions are counted nowhere. */
  lemma TallyTotal(indexData: seq<IndexData>, zone: Zone)
    ensures var counts := Tally(HeavyLoads(indexData, zone));
      counts[0] + counts[1] + counts[2] + counts[3] + counts[4] == HeavyCount(indexData, zone, 5, 55)
  {
    SlotCountsHeavyRecords(indexData, zone, 0);
    SlotCountsHeavyRecords(indexData, zone, 1);
    SlotCountsHeavyRecords(indexData, zone, 2);
    SlotCountsHeavyRecords(indexData, zone, 3);
    SlotCountsHeavyRecords(indexData, zone, 4);
    HeavyCountSplit(indexData, zone, 5, 15, 55);
    HeavyCountSplit(indexData, zone, 15, 25, 55);
    HeavyCountSplit(indexData, zone, 25, 35, 55);
    HeavyCountSplit(indexData, zone, 35, 45, 55);
  }

  /** With no record above the threshold (in particular with no records)
      there are no events and all five counters stay zero. */
  lemma {:induction false} NoHeavyLoadAllZero(indexData: seq<IndexData>, zone: Zone)
    requires forall k :: 0 <= k < |indexData| ==> !IsHeavy(indexData[k], zone)
    ensures HeavyLoads(indexData, zone) == []
    ensures Tally(HeavyLoads(indexData, zone)) == [0, 0, 0, 0, 0]
  {
    if indexData != [] {
      var n := |indexData| - 1;
      assert forall k :: 0 <= k < n ==> indexData[..n][k] == indexData[k];
      NoHeavyLoadAllZero(indexData[..n], zone);
    }
    assert Tally([]) == [0, 0, 0, 0, 0];
  }

  /** The threshold is strict: a difference of exactly 100 is no event,
      a difference of 101 is one. */
  lemma ThresholdIsStrict(left: real, right: real, armUpDown: int)
    ensures HeavyLoads([IndexData(100.0, left, right, armUpDown)], Head) == []
    ensures HeavyLoads([IndexData(101.0, left, right, armUpDown)], Head) == [HeavyLoad(0, 101.0)]
  {
  }

  /** When position `p` holds the only heavy record of a zone, the zone's
      events are that one record. */
  lemma {:induction false} HeavyLoadsOnlyAt(indexData: seq<IndexData>, zone: Zone, p: nat)
    requires forall k :: 0 <= k < |indexData| ==> (IsHeavy(indexData[k], zone) <==> k == p)
    ensures HeavyLoads(indexData, zone) == if p < |indexData| then [HeavyLoad(p, Diff(indexData[p], zone))] else []
  {
    if indexData != [] {
      var n := |indexData| - 1;
      var init := indexData[..n];
      assert forall k :: 0 <= k < n ==> init[k] == indexData[k];
      HeavyLoadsOnlyAt(init, zone, p);
      var step := if IsHeavy(indexData[n], zone) then [HeavyLoad(n, Diff(indexData[n], zone))] else [];
      assert HeavyLoads(indexData, zone) == HeavyLoads(init, zone) + step;
      if n == p {
        assert HeavyLoads(init, zone) == [];
      } else {
        assert step == [];
      }
    }
  }

  /** A single heavy head record at position 12 adds one to the first head
      counter and nothing anywhere else. */
  lemma OnlyPosition12(indexData: seq<IndexData>)
    requires |indexData| > 12
    requires forall k :: 0 <= k < |indexData| ==> (IsHeavy(indexData[k], Head) <==> k == 12)
    ensures Tally(HeavyLoads(indexData, Head)) == [1, 0, 0, 0, 0]
  {
    HeavyLoadsOnlyAt(indexData, Head, 12);
    var e := HeavyLoad(12, indexData[12].diffHead);
    assert Slot(e.index) == 0;
    TallySnoc([], e);
    assert [] + [e] == [e];
    assert Tally([]) == [0, 0, 0, 0, 0];
  }
}
