/** Time slots and the overlap test shared by the availability and meeting services. */
module Intervals {
  import opened Base

  /** `hasTimeOverlap`: the slot `[slotStart, slotEnd)` and the interval
      `[start, end)` share some instant. The comparisons are strict, so
      intervals that only touch do not overlap. */
  predicate Overlaps(slotStart: Instant, slotEnd: Instant, start: Instant, end: Instant) {
    slotStart < end && slotEnd > start
  }

  /** A candidate slot. */
  datatype Slot = Slot(startTime: Instant, endTime: Instant)

  /** Both services cut their windows into 30-minute slots. */
  const SlotMinutes: int := 30

  /** The slots the generation loops produce for the window `[start, end]`
      and slot width `width` (in milliseconds): starting at `start`, one slot
      after the other, as long as the next slot still ends by `end`. */
  function Slots(start: Instant, end: Instant, width: int): seq<Slot>
    requires width > 0
    decreases end - start
  {
    if start < end && start + width <= end
    then [Slot(start, start + width)] + Slots(start + width, end, width)
    else []
  }

  /** Where the slot after the last one of `slots` would start. */
  function NextStart(slots: seq<Slot>, start: Instant): Instant {
    if slots == [] then start else slots[|slots| - 1].endTime
  }

  /** Each generated slot is exactly `width` wide and lies inside the window,
      and the first one starts at `start`. */
  lemma {:induction false} SlotsInWindow(start: Instant, end: Instant, width: int)
    requires width > 0
    ensures forall k :: 0 <= k < |Slots(start, end, width)| ==>
      Slots(start, end, width)[k].endTime == Slots(start, end, width)[k].startTime + width
    ensures forall k :: 0 <= k < |Slots(start, end, width)| ==>
      start <= Slots(start, end, width)[k].startTime && Slots(start, end, width)[k].endTime <= end
    ensures |Slots(start, end, width)| > 0 ==> Slots(start, end, width)[0].startTime == start
    decreases end - start
  {
    if start < end && start + width <= end {
      var t := Slots(start + width, end, width);
      SlotsInWindow(start + width, end, width);
      assert Slots(start, end, width) == [Slot(start, start + width)] + t;
    }
  }

  /** Each next slot starts where the previous one ended, so the slots follow
      each other in time and never overlap. */
  lemma {:induction false} SlotsContiguous(start: Instant, end: Instant, width: int)
    requires width > 0
    ensures forall k :: 0 <= k < |Slots(start, end, width)| - 1 ==>
      Slots(start, end, width)[k + 1].startTime == Slots(start, end, width)[k].endTime
    ensures forall i, j :: 0 <= i < j < |Slots(start, end, width)| ==>
      Slots(start, end, width)[i].endTime <= Slots(start, end, width)[j].startTime
    decreases end - start
  {
    var r := Slots(start, end, width);
    if start < end && start + width <= end {
      var t := Slots(start + width, end, width);
      SlotsContiguous(start + width, end, width);
      SlotsInWindow(start + width, end, width);
      assert r == [Slot(start, start + width)] + t;
      forall k | 0 <= k < |r| - 1 ensures r[k + 1].startTime == r[k].endTime {
        if k > 0 { assert r[k] == t[k - 1] && r[k + 1] == t[k]; }
      }
      forall i, j | 0 <= i < j < |r| ensures r[i].endTime <= r[j].startTime {
        assert r[j] == t[j - 1];
        if i > 0 { assert r[i] == t[i - 1]; }
      }
    }
  }

  /** No two generated slots overlap; in particular neighbours, which share
      an endpoint, do not. */
  lemma SlotsDisjoint(start: Instant, end: Instant, width: int)
    requires width > 0
    ensures forall i, j :: 0 <= i < |Slots(start, end, width)| && 0 <= j < |Slots(start, end, width)| && i != j ==>
      !Overlaps(Slots(start, end, width)[i].startTime, Slots(start, end, width)[i].endTime,
                Slots(start, end, width)[j].startTime, Slots(start, end, width)[j].endTime)
  {
    SlotsContiguous(start, end, width);
    SlotsInWindow(start, end, width);
  }

  /** The slot that would come after the last one does not fit in the
      window: a trailing partial slot is dropped, not shortened. */
  lemma {:induction false} SlotsDropPartial(start: Instant, end: Instant, width: int)
    requires width > 0
    ensures NextStart(Slots(start, end, width), start) + width > end
    decreases end - start
  {
    if start < end && start + width <= end {
      var t := Slots(start + width, end, width);
      SlotsDropPartial(start + width, end, width);
      assert Slots(start, end, width) == [Slot(start, start + width)] + t;
    }
  }

  /** The `k`-th slot spans `[start + k*width, start + (k+1)*width)`, and there
      are exactly as many slots as whole widths fit between `start` and `end`. */
  lemma {:induction false} SlotsCount(start: Instant, end: Instant, width: int)
    requires width > 0 && start <= end
    ensures var r := Slots(start, end, width);
      && (forall k :: 0 <= k < |r| ==> r[k] == Slot(start + k * width, start + (k + 1) * width))
      && |r| * width <= end - start < (|r| + 1) * width
    decreases end - start
  {
    var r := Slots(start, end, width);
    if start < end && start + width <= end {
      var t := Slots(start + width, end, width);
      SlotsCount(start + width, end, width);
      assert r == [Slot(start, start + width)] + t;
      forall k | 0 <= k < |r| ensures r[k] == Slot(start + k * width, start + (k + 1) * width) {
        if k > 0 {
          assert r[k] == t[k - 1];
          assert start + width + (k - 1) * width == start + k * width;
        }
      }
      assert |r| * width == width + |t| * width;
    }
  }
}
