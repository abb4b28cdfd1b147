/** The availability service: how many of a list of participants are free in
    each 30-minute slot of a window, given their calendar events and their
    declared unavailable times. */
module Availability {
  import opened Base
  import opened Intervals
  import opened Calendar

  /** A row of the unavailable-time table: a block the user declared busy. */
  datatype UnavailableTime = UnavailableTime(userId: UserId, startTime: Instant, endTime: Instant)

  /** One slot of the answer: `availability` is the exact fraction of the
      participant list that is free in the slot. */
  datatype TimeSlot = TimeSlot(startTime: Instant, endTime: Instant, availability: real)

  datatype AvailabilityReport = AvailabilityReport(meetingId: string, timeSlots: seq<TimeSlot>, participantCount: nat)

  /** The first query: events of the listed users lying entirely within the
      window (`startTime >= start` and `endTime <= end`), in table order. */
  function EventsInWindow(events: seq<CalendarEvent>, participantIds: seq<UserId>, start: Instant, end: Instant)
    : (r: seq<CalendarEvent>)
    ensures forall e :: e in r <==>
      e in events && e.userId in participantIds && start <= e.startTime && e.endTime <= end
  {
    if events == [] then []
    else
      var rest := EventsInWindow(events[..|events| - 1], participantIds, start, end);
      var e := events[|events| - 1];
      assert events == events[..|events| - 1] + [e];
      if e.userId in participantIds && start <= e.startTime && e.endTime <= end then rest + [e] else rest
  }

  /** The second query: unavailable blocks of the listed users lying
      entirely within the window, in table order. */
  function BlocksInWindow(blocks: seq<UnavailableTime>, participantIds: seq<UserId>, start: Instant, end: Instant)
    : (r: seq<UnavailableTime>)
    ensures forall u :: u in r <==>
      u in blocks && u.userId in participantIds && start <= u.startTime && u.endTime <= end
  {
    if blocks == [] then []
    else
      var rest := BlocksInWindow(blocks[..|blocks| - 1], participantIds, start, end);
      var u := blocks[|blocks| - 1];
      assert blocks == blocks[..|blocks| - 1] + [u];
      if u.userId in participantIds && start <= u.startTime && u.endTime <= end then rest + [u] else rest
  }

  /** `hasConflict`: one of the participant's busy events overlaps the slot. */
  predicate HasConflict(p: UserId, slot: Slot, events: seq<CalendarEvent>) {
    exists e | e in events :: e.userId == p && e.isBusy && Overlaps(slot.startTime, slot.endTime, e.startTime, e.endTime)
  }

  /** `hasUnavailable`: one of the participant's unavailable blocks overlaps the slot. */
  predicate HasUnavailable(p: UserId, slot: Slot, blocks: seq<UnavailableTime>) {
    exists u | u in blocks :: u.userId == p && Overlaps(slot.startTime, slot.endTime, u.startTime, u.endTime)
  }

  predicate IsFree(p: UserId, slot: Slot, events: seq<CalendarEvent>, blocks: seq<UnavailableTime>) {
    !HasConflict(p, slot, events) && !HasUnavailable(p, slot, blocks)
  }

  /** The number of entries of `ps` that are free in the slot; an id listed
      twice is counted twice. */
  function FreeCount(ps: seq<UserId>, slot: Slot, events: seq<CalendarEvent>, blocks: seq<UnavailableTime>): (n: nat)
    ensures n <= |ps|
  {
    if ps == [] then 0
    else FreeCount(ps[..|ps| - 1], slot, events, blocks) + (if IsFree(ps[|ps| - 1], slot, events, blocks) then 1 else 0)
  }

  /** The answer for one slot: the free count over the length of the list. */
  function Rate(slot: Slot, ps: seq<UserId>, events: seq<CalendarEvent>, blocks: seq<UnavailableTime>): TimeSlot
    requires |ps| > 0
  {
    TimeSlot(slot.startTime, slot.endTime, FreeCount(ps, slot, events, blocks) as real / |ps| as real)
  }

  /** `generateTimeSlots`: the window cut into slots of `intervalMinutes`. */
  method GenerateTimeSlots(start: Instant, end: Instant, intervalMinutes: int) returns (slots: seq<Slot>)
    requires intervalMinutes > 0
    ensures slots == Slots(start, end, intervalMinutes * MinuteMs)
  {
    var width := intervalMinutes * MinuteMs;
    slots := [];
    var current := start;
    while current < end
      invariant slots + Slots(current, end, width) == Slots(start, end, width)
      decreases end - current
    {
      var slotEnd := current + width;
      if slotEnd > end {
        break;
      }
      slots := slots + [Slot(current, slotEnd)];
      current := current + width;
    }
  }

  /** The body of the per-slot map: counts the participants free in `slot`. */
  method CountAvailable(slot: Slot, participantIds: seq<UserId>, events: seq<CalendarEvent>, blocks: seq<UnavailableTime>)
    returns (availableCount: nat)
    ensures availableCount == FreeCount(participantIds, slot, events, blocks)
  {
    availableCount := 0;
    for i := 0 to |participantIds|
      invariant availableCount == FreeCount(participantIds[..i], slot, events, blocks)
    {
      var participantId := participantIds[i];
      var hasConflict := exists e | e in events ::
        e.userId == participantId && e.isBusy && Overlaps(slot.startTime, slot.endTime, e.startTime, e.endTime);
      var hasUnavailable := exists u | u in blocks ::
        u.userId == participantId && Overlaps(slot.startTime, slot.endTime, u.startTime, u.endTime);
      assert participantIds[..i + 1][..i] == participantIds[..i];
      if !hasConflict && !hasUnavailable {
        availableCount := availableCount + 1;
      }
    }
    assert participantIds[..|participantIds|] == participantIds;
  }

  /** `calculateAvailability`: one entry per generated slot, in chronological
      order, each carrying the fraction of the participant list that has
      neither a busy event nor an unavailable block (within the window)
      overlapping the slot. */
  method CalculateAvailability(
    meetingId: string, participantIds: seq<UserId>, startDate: Instant, endDate: Instant,
    events: seq<CalendarEvent>, unavailableTimes: seq<UnavailableTime>)
    returns (report: AvailabilityReport)
    requires |participantIds| > 0
    ensures report.meetingId == meetingId && report.participantCount == |participantIds|
    ensures |report.timeSlots| == |Slots(startDate, endDate, SlotMinutes * MinuteMs)|
    ensures forall k :: 0 <= k < |report.timeSlots| ==>
      report.timeSlots[k] == Rate(Slots(startDate, endDate, SlotMinutes * MinuteMs)[k], participantIds,
        EventsInWindow(events, participantIds, startDate, endDate),
        BlocksInWindow(unavailableTimes, participantIds, startDate, endDate))
    ensures forall k :: 0 <= k < |report.timeSlots| ==> 0.0 <= report.timeSlots[k].availability <= 1.0
  {
    var allEvents := EventsInWindow(events, participantIds, startDate, endDate);
    var blocks := BlocksInWindow(unavailableTimes, participantIds, startDate, endDate);
    var timeSlots := GenerateTimeSlots(startDate, endDate, SlotMinutes);
    var availabilitySlots: seq<TimeSlot> := [];
    for k := 0 to |timeSlots|
      invariant |availabilitySlots| == k
      invariant forall j :: 0 <= j < k ==> availabilitySlots[j] == Rate(timeSlots[j], participantIds, allEvents, blocks)
      invariant forall j :: 0 <= j < k ==> 0.0 <= availabilitySlots[j].availability <= 1.0
    {
      var slot := timeSlots[k];
      var availableCount := CountAvailable(slot, participantIds, allEvents, blocks);
      RateIsFraction(slot, participantIds, allEvents, blocks);
      availabilitySlots := availabilitySlots + [TimeSlot(slot.startTime, slot.endTime, availableCount as real / |participantIds| as real)];
    }
    report := AvailabilityReport(meetingId, availabilitySlots, |participantIds|);
  }

  /** Availability lies in [0, 1]. */
  lemma RateIsFraction(slot: Slot, ps: seq<UserId>, events: seq<CalendarEvent>, blocks: seq<UnavailableTime>)
    requires |ps| > 0
    ensures 0.0 <= Rate(slot, ps, events, blocks).availability <= 1.0
  {
    var n := FreeCount(ps, slot, events, blocks);
    assert n as real <= |ps| as real;
  }

  /** A slot has availability 1 exactly when every listed participant is free
      in it, and 0 exactly when none is. */
  lemma {:induction false} FreeCountExtremes(ps: seq<UserId>, slot: Slot, events: seq<CalendarEvent>, blocks: seq<UnavailableTime>)
    ensures FreeCount(ps, slot, events, blocks) == |ps| <==> forall i :: 0 <= i < |ps| ==> IsFree(ps[i], slot, events, blocks)
    ensures FreeCount(ps, slot, events, blocks) == 0 <==> forall i :: 0 <= i < |ps| ==> !IsFree(ps[i], slot, events, blocks)
  {
    if ps != [] {
      var init := ps[..|ps| - 1];
      FreeCountExtremes(init, slot, events, blocks);
      assert forall i :: 0 <= i < |init| ==> init[i] == ps[i];
    }
  }

  /** An event with `isBusy == false` never lowers the count: adding it
      anywhere among the events changes nothing. */
  lemma {:induction false} NonBusyEventIgnored(
    ps: seq<UserId>, slot: Slot, before: seq<CalendarEvent>, e: CalendarEvent, after: seq<CalendarEvent>, blocks: seq<UnavailableTime>)
    requires !e.isBusy
    ensures FreeCount(ps, slot, before + [e] + after, blocks) == FreeCount(ps, slot, before + after, blocks)
  {
    if ps != [] {
      NonBusyEventIgnored(ps[..|ps| - 1], slot, before, e, after, blocks);
      var p := ps[|ps| - 1];
      assert HasConflict(p, slot, before + [e] + after) <==> HasConflict(p, slot, before + after) by {
        if HasConflict(p, slot, before + [e] + after) {
          var x :| x in before + [e] + after && x.userId == p && x.isBusy && Overlaps(slot.startTime, slot.endTime, x.startTime, x.endTime);
          assert x in before + after;
        }
        if HasConflict(p, slot, before + after) {
          var x :| x in before + after && x.userId == p && x.isBusy && Overlaps(slot.startTime, slot.endTime, x.startTime, x.endTime);
          assert x in before + [e] + after;
        }
      }
    }
  }

  /** More events can only lower the count. */
  lemma {:induction false} MoreEventsNeverRaise(
    ps: seq<UserId>, slot: Slot, events: seq<CalendarEvent>, extra: seq<CalendarEvent>, blocks: seq<UnavailableTime>)
    ensures FreeCount(ps, slot, events + extra, blocks) <= FreeCount(ps, slot, events, blocks)
  {
    if ps != [] {
      MoreEventsNeverRaise(ps[..|ps| - 1], slot, events, extra, blocks);
      var p := ps[|ps| - 1];
      if HasConflict(p, slot, events) {
        var x :| x in events && x.userId == p && x.isBusy && Overlaps(slot.startTime, slot.endTime, x.startTime, x.endTime);
        assert x in events + extra;
      }
    }
  }

  /** When no listed participant has an event or an unavailable block,
      every slot has availability 1. */
  lemma WithoutIntervalsFullyAvailable(ps: seq<UserId>, slot: Slot, events: seq<CalendarEvent>, blocks: seq<UnavailableTime>)
    requires forall e :: e in events ==> e.userId !in ps
    requires forall u :: u in blocks ==> u.userId !in ps
    ensures FreeCount(ps, slot, events, blocks) == |ps|
  {
    FreeCountExtremes(ps, slot, events, blocks);
    forall i | 0 <= i < |ps| ensures IsFree(ps[i], slot, events, blocks) {
      assert ps[i] in ps;
    }
  }

  /** A busy event that starts before the window, even one overlapping the
      window's first slot, is left out by the window query and so lowers no
      slot's availability. */
  lemma {:induction false} StraddlingEventIgnored(
    events: seq<CalendarEvent>, e: CalendarEvent, ps: seq<UserId>, start: Instant, end: Instant)
    requires e.startTime < start
    ensures EventsInWindow(events + [e], ps, start, end) == EventsInWindow(events, ps, start, end)
  {
    assert (events + [e])[..|events + [e]| - 1] == events;
  }

  /** Counting follows the list, not the set of ids: a participant listed
      twice contributes twice. */
  lemma {:induction false} DuplicateCountsTwice(ps: seq<UserId>, p: UserId, slot: Slot, events: seq<CalendarEvent>, blocks: seq<UnavailableTime>)
    requires IsFree(p, slot, events, blocks)
    ensures FreeCount(ps + [p, p], slot, events, blocks) == FreeCount(ps, slot, events, blocks) + 2
  {
    assert (ps + [p, p])[..|ps| + 1] == ps + [p];
    assert (ps + [p])[..|ps|] == ps;
  }
}
