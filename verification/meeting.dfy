/** The meeting service: meetings with invite codes, their participant table,
    and the ranked availability of a meeting's window computed from its
    participants' busy calendar events. */
module Meeting {
  import opened Base
  import opened Intervals
  import opened Calendar
  import Ordering

  /** The database id of a meeting (generated by the store). */
  type MeetingId = nat

  datatype Meeting = Meeting(
    id: MeetingId,
    creatorId: UserId,
    title: string,
    description: Option<string>,
    inviteCode: string,
    startTime: Instant,
    endTime: Instant,
    timezone: string)

  /** The fields of `CreateMeetingDto` the service reads. */
  datatype MeetingRequest = MeetingRequest(
    title: string, description: Option<string>, startTime: Instant, endTime: Instant, timezone: Option<string>)

  /** A row of the meeting participant table. */
  datatype Participant = Participant(meetingId: MeetingId, userId: Option<UserId>, status: string)

  /** A meeting with its participant rows, as `toDetailDto` lists them. */
  datatype MeetingDetail = MeetingDetail(meeting: Meeting, participants: seq<Participant>)

  /** An entry of `getMeetingParticipants`. */
  datatype ParticipantView = ParticipantView(userId: UserId, email: string, status: string)

  /** A busy calendar event of a participant, as `getMeetingAvailability` collects it. */
  datatype BusySlot = BusySlot(userId: UserId, startTime: Instant, endTime: Instant)

  datatype MeetingSlot = MeetingSlot(
    startTime: Instant, endTime: Instant, availableCount: int, availability: real, isOptimal: bool)

  datatype MeetingAvailability = MeetingAvailability(
    meetingId: MeetingId, participantCount: nat, busySlots: seq<BusySlot>, availabilitySlots: seq<MeetingSlot>)

  const MeetingNotFound: string := "Meeting not found"
  /** The database refuses a second meeting with the same invite code. */
  const InviteCodeTaken: string := "Unique constraint failed on inviteCode"
  /** The database refuses to update a participant row that does not exist. */
  const ParticipantMissing: string := "Record to update not found"

  // ---------------------------------------------------------------- lookups

  /** `meeting.findUnique({ where: { inviteCode } })`. */
  function MeetingWithCode(meetings: seq<Meeting>, code: string): (r: Option<Meeting>)
    ensures r.Some? <==> exists i :: 0 <= i < |meetings| && meetings[i].inviteCode == code
    ensures r.Some? ==> r.value in meetings && r.value.inviteCode == code
  {
    if meetings == [] then None
    else if meetings[0].inviteCode == code then Some(meetings[0])
    else MeetingWithCode(meetings[1..], code)
  }

  /** `meeting.findUnique({ where: { id } })`. */
  function MeetingWithId(meetings: seq<Meeting>, id: MeetingId): (r: Option<Meeting>)
    ensures r.Some? <==> exists i :: 0 <= i < |meetings| && meetings[i].id == id
    ensures r.Some? ==> r.value in meetings && r.value.id == id
  {
    if meetings == [] then None
    else if meetings[0].id == id then Some(meetings[0])
    else MeetingWithId(meetings[1..], id)
  }

  /** `include: { participants: true }`: the meeting's rows, in table order. */
  function ParticipantsOf(rows: seq<Participant>, meetingId: MeetingId): (r: seq<Participant>)
    ensures |r| <= |rows|
    ensures forall p :: p in r <==> p in rows && p.meetingId == meetingId
  {
    if rows == [] then []
    else
      var rest := ParticipantsOf(rows[..|rows| - 1], meetingId);
      var p := rows[|rows| - 1];
      assert rows == rows[..|rows| - 1] + [p];
      if p.meetingId == meetingId then rest + [p] else rest
  }

  predicate IsMember(rows: seq<Participant>, meetingId: MeetingId, userId: UserId) {
    exists p | p in rows :: p.meetingId == meetingId && p.userId == Some(userId)
  }

  /** The participant table after `userId` joins meeting `meetingId` with
      `status`: a row is added only when the user has none for that meeting. */
  function JoinRows(rows: seq<Participant>, meetingId: MeetingId, userId: UserId, status: string): (r: seq<Participant>)
    ensures IsMember(r, meetingId, userId)
    ensures IsMember(rows, meetingId, userId) ==> r == rows
    ensures !IsMember(rows, meetingId, userId) ==> |r| == |rows| + 1 && r[..|rows|] == rows
    ensures !IsMember(rows, meetingId, userId) ==> r == rows + [Participant(meetingId, Some(userId), status)]
  {
    if IsMember(rows, meetingId, userId) then rows
    else
      var r := rows + [Participant(meetingId, Some(userId), status)];
      assert r[|rows|] in r;
      r
  }

  /** No user has two rows for the same meeting. */
  ghost predicate UniqueMembership(rows: seq<Participant>) {
    forall i, j :: 0 <= i < j < |rows| && rows[i].userId.Some? ==>
      rows[i].meetingId != rows[j].meetingId || rows[i].userId != rows[j].userId
  }

  /** Joining twice is joining once, whatever the status of the second join. */
  lemma JoinIdempotent(rows: seq<Participant>, meetingId: MeetingId, userId: UserId, status: string, status2: string)
    ensures JoinRows(JoinRows(rows, meetingId, userId, status), meetingId, userId, status2)
         == JoinRows(rows, meetingId, userId, status)
  {
  }

  /** Joining keeps every user at most once per meeting. */
  lemma {:induction false} JoinKeepsUnique(rows: seq<Participant>, meetingId: MeetingId, userId: UserId, status: string)
    requires UniqueMembership(rows)
    ensures UniqueMembership(JoinRows(rows, meetingId, userId, status))
  {
    if !IsMember(rows, meetingId, userId) {
      var r := JoinRows(rows, meetingId, userId, status);
      forall i, j | 0 <= i < j < |r| && r[i].userId.Some?
        ensures r[i].meetingId != r[j].meetingId || r[i].userId != r[j].userId
      {
        if j == |rows| {
          assert r[i] == rows[i] && r[i] in rows;
        } else {
          assert r[i] == rows[i] && r[j] == rows[j];
        }
      }
    }
  }

  lemma MemberAfterAppend(rows: seq<Participant>, x: Participant, meetingId: MeetingId, userId: UserId)
    requires IsMember(rows, meetingId, userId)
    ensures IsMember(rows + [x], meetingId, userId)
  {
    var p :| p in rows && p.meetingId == meetingId && p.userId == Some(userId);
    assert p in rows + [x];
  }

  /** `getMeetingParticipants`: the rows whose user exists, with that user's email. */
  function Roster(rows: seq<Participant>, users: seq<User>): (r: seq<ParticipantView>)
    ensures |r| <= |rows|
    ensures forall v :: v in r ==>
      (exists p :: p in rows && p.userId == Some(v.userId) && p.status == v.status) &&
      FindUser(users, v.userId).Some? && FindUser(users, v.userId).value.email == v.email
    ensures forall p :: p in rows && p.userId.Some? && FindUser(users, p.userId.value).Some? ==>
      ParticipantView(p.userId.value, FindUser(users, p.userId.value).value.email, p.status) in r
  {
    if rows == [] then []
    else
      var rest := Roster(rows[..|rows| - 1], users);
      var p := rows[|rows| - 1];
      assert rows == rows[..|rows| - 1] + [p];
      if p.userId.Some? && FindUser(users, p.userId.value).Some?
      then rest + [ParticipantView(p.userId.value, FindUser(users, p.userId.value).value.email, p.status)]
      else rest
  }

  /** The rows after the (meeting, user) row gets `status`: only that row's
      status changes. */
  function WithStatus(rows: seq<Participant>, meetingId: MeetingId, userId: UserId, status: string): (r: seq<Participant>)
    ensures SameKeys(rows, r)
    ensures forall i :: 0 <= i < |r| && rows[i].meetingId == meetingId && rows[i].userId == Some(userId) ==> r[i].status == status
    ensures forall i :: 0 <= i < |r| && !(rows[i].meetingId == meetingId && rows[i].userId == Some(userId)) ==> r[i] == rows[i]
  {
    seq(|rows|, i requires 0 <= i < |rows| =>
      if rows[i].meetingId == meetingId && rows[i].userId == Some(userId)
      then Participant(meetingId, Some(userId), status) else rows[i])
  }

  /** Two tables with the same (meeting, user) key at every position. */
  predicate SameKeys(a: seq<Participant>, b: seq<Participant>) {
    |a| == |b| && forall i :: 0 <= i < |a| ==> a[i].meetingId == b[i].meetingId && a[i].userId == b[i].userId
  }

  /** Changing statuses changes neither who is a member of which meeting nor
      the uniqueness of memberships. */
  lemma SameKeysKeepMembership(a: seq<Participant>, b: seq<Participant>)
    requires SameKeys(a, b)
    ensures forall m, u :: IsMember(a, m, u) <==> IsMember(b, m, u)
    ensures UniqueMembership(a) <==> UniqueMembership(b)
    ensures forall p :: p in b ==> exists q :: q in a && q.meetingId == p.meetingId
  {
    forall m, u ensures IsMember(a, m, u) <==> IsMember(b, m, u) {
      if IsMember(a, m, u) {
        var p :| p in a && p.meetingId == m && p.userId == Some(u);
        var i :| 0 <= i < |a| && a[i] == p;
        assert b[i] in b;
      }
      if IsMember(b, m, u) {
        var p :| p in b && p.meetingId == m && p.userId == Some(u);
        var i :| 0 <= i < |b| && b[i] == p;
        assert a[i] in a;
      }
    }
    forall p | p in b ensures exists q :: q in a && q.meetingId == p.meetingId {
      var i :| 0 <= i < |b| && b[i] == p;
      assert a[i] in a;
    }
  }

  // ------------------------------------------------------- busy extraction

  /** The participant row has a user (`p.user !== null && p.userId !== null`). */
  predicate HasUser(p: Participant, users: seq<User>) {
    p.userId.Some? && FindUser(users, p.userId.value).Some?
  }

  /** The user's busy events starting at or after `now`, in table order. */
  function UpcomingBusy(events: seq<CalendarEvent>, userId: UserId, now: Instant): (r: seq<BusySlot>)
    ensures forall b :: b in r ==> b.userId == userId
    ensures forall b :: b in r <==>
      exists e :: e in events && e.userId == userId && e.isBusy && e.startTime >= now && b == BusySlot(userId, e.startTime, e.endTime)
  {
    if events == [] then []
    else
      var rest := UpcomingBusy(events[..|events| - 1], userId, now);
      var e := events[|events| - 1];
      assert events == events[..|events| - 1] + [e];
      if e.userId == userId && e.isBusy && e.startTime >= now
      then rest + [BusySlot(userId, e.startTime, e.endTime)]
      else rest
  }

  /** The busy slots `getMeetingAvailability` collects: for each participant
      row with a user, in row order, that user's upcoming busy events. */
  function BusySlots(rows: seq<Participant>, users: seq<User>, events: seq<CalendarEvent>, now: Instant): (r: seq<BusySlot>)
    ensures forall b :: b in r ==> exists p :: p in rows && HasUser(p, users) && p.userId == Some(b.userId)
    ensures forall b :: b in r <==>
      (exists p :: p in rows && HasUser(p, users) && p.userId == Some(b.userId)) &&
      (exists e :: e in events && e.userId == b.userId && e.isBusy && e.startTime >= now && b == BusySlot(b.userId, e.startTime, e.endTime))
  {
    if rows == [] then []
    else
      var rest := BusySlots(rows[..|rows| - 1], users, events, now);
      var p := rows[|rows| - 1];
      assert rows == rows[..|rows| - 1] + [p];
      if HasUser(p, users) then rest + UpcomingBusy(events, p.userId.value, now) else rest
  }

  // ------------------------------------------------- ranked availability

  /** The distinct users with a busy slot overlapping `slot`. */
  function BusyUsers(busy: seq<BusySlot>, slot: Slot): set<UserId> {
    set b | b in busy && Overlaps(slot.startTime, slot.endTime, b.startTime, b.endTime) :: b.userId
  }

  /** A user already busy in a slot is counted once: another overlapping
      busy slot of the same user leaves the busy users unchanged. */
  lemma RepeatBusyUserCountsOnce(busy: seq<BusySlot>, slot: Slot, b: BusySlot, extra: BusySlot)
    requires b in busy && Overlaps(slot.startTime, slot.endTime, b.startTime, b.endTime)
    requires extra.userId == b.userId
    ensures BusyUsers(busy + [extra], slot) == BusyUsers(busy, slot)
  {
    assert b.userId in BusyUsers(busy, slot);
    forall u | u in BusyUsers(busy + [extra], slot) ensures u in BusyUsers(busy, slot) {
      var c :| c in busy + [extra] && Overlaps(slot.startTime, slot.endTime, c.startTime, c.endTime) && c.userId == u;
      if c != extra { assert c in busy; }
    }
    forall u | u in BusyUsers(busy, slot) ensures u in BusyUsers(busy + [extra], slot) {
      var c :| c in busy && Overlaps(slot.startTime, slot.endTime, c.startTime, c.endTime) && c.userId == u;
      assert c in busy + [extra];
    }
  }

  /** The annotated slot: available = participants minus distinct busy users. */
  function SlotFor(slot: Slot, busy: seq<BusySlot>, participantCount: nat): MeetingSlot
    requires participantCount > 0
  {
    var availableCount := participantCount - |BusyUsers(busy, slot)|;
    MeetingSlot(slot.startTime, slot.endTime, availableCount,
                availableCount as real / participantCount as real, availableCount == participantCount)
  }

  function Annotate(slots: seq<Slot>, busy: seq<BusySlot>, participantCount: nat): (r: seq<MeetingSlot>)
    requires participantCount > 0
    ensures |r| == |slots|
    ensures forall k :: 0 <= k < |r| ==> r[k] == SlotFor(slots[k], busy, participantCount)
  {
    seq(|slots|, k requires 0 <= k < |slots| => SlotFor(slots[k], busy, participantCount))
  }

  lemma AnnotateAppend(slots: seq<Slot>, slot: Slot, busy: seq<BusySlot>, participantCount: nat)
    requires participantCount > 0
    ensures Annotate(slots + [slot], busy, participantCount)
         == Annotate(slots, busy, participantCount) + [SlotFor(slot, busy, participantCount)]
  {
    assert Annotate(slots + [slot], busy, participantCount)[|slots|] == SlotFor(slot, busy, participantCount);
  }

  /** The slots of the meeting window before ranking, in chronological order. */
  function TimeOrdered(startTime: Instant, endTime: Instant, busy: seq<BusySlot>, participantCount: nat): seq<MeetingSlot>
    requires participantCount > 0
  {
    Annotate(Slots(startTime, endTime, SlotMinutes * MinuteMs), busy, participantCount)
  }

  /** The sort key of `(a, b) => b.availability - a.availability`. */
  function ByAvailabilityDesc(s: MeetingSlot): real {
    -s.availability
  }

  function StartOf(s: MeetingSlot): int {
    s.startTime
  }

  /** The time-ordered slots are 30 minutes wide, inside the window, and in
      strictly increasing start order. */
  lemma TimeOrderedShape(startTime: Instant, endTime: Instant, busy: seq<BusySlot>, participantCount: nat)
    requires participantCount > 0
    ensures var t := TimeOrdered(startTime, endTime, busy, participantCount);
      && (forall k :: 0 <= k < |t| ==> t[k].endTime == t[k].startTime + SlotMinutes * MinuteMs)
      && (forall k :: 0 <= k < |t| ==> startTime <= t[k].startTime && t[k].endTime <= endTime)
      && (forall i, j :: 0 <= i < j < |t| ==> t[i].startTime < t[j].startTime)
  {
    SlotsInWindow(startTime, endTime, SlotMinutes * MinuteMs);
    SlotsContiguous(startTime, endTime, SlotMinutes * MinuteMs);
  }

  /** The loop of `calculateAvailabilitySlots`: the window's 30-minute
      slots in chronological order, each with the number of participants
      not busy in it. */
  method ChronologicalSlots(startTime: Instant, endTime: Instant, busySlots: seq<BusySlot>, participantCount: nat)
    returns (slots: seq<MeetingSlot>)
    requires participantCount > 0
    ensures slots == TimeOrdered(startTime, endTime, busySlots, participantCount)
  {
    var width := SlotMinutes * MinuteMs;
    ghost var all := Slots(startTime, endTime, width);
    ghost var done: seq<Slot> := [];
    slots := [];
    var current := startTime;
    while current < endTime
      invariant all == done + Slots(current, endTime, width)
      invariant slots == Annotate(done, busySlots, participantCount)
      decreases endTime - current
    {
      var slotEnd := current + width;
      if slotEnd > endTime {
        break;
      }
      var busyCount := |BusyUsers(busySlots, Slot(current, slotEnd))|;
      var availableCount := participantCount - busyCount;
      slots := slots + [MeetingSlot(current, slotEnd, availableCount,
                                    availableCount as real / participantCount as real,
                                    availableCount == participantCount)];
      assert Slots(current, endTime, width) == [Slot(current, slotEnd)] + Slots(slotEnd, endTime, width);
      AnnotateAppend(done, Slot(current, slotEnd), busySlots, participantCount);
      done := done + [Slot(current, slotEnd)];
      current := current + width;
    }
    assert done == all;
  }

  /** `calculateAvailabilitySlots`: walks the window in 30-minute slots,
      annotates each with the number of participants not busy in it, and
      returns them sorted by availability, highest first; slots of equal
      availability stay in chronological order. */
  method CalculateAvailabilitySlots(startTime: Instant, endTime: Instant, busySlots: seq<BusySlot>, participantCount: nat)
    returns (r: seq<MeetingSlot>)
    requires participantCount > 0
    ensures r == Ordering.SortBy(TimeOrdered(startTime, endTime, busySlots, participantCount), ByAvailabilityDesc)
    ensures multiset(r) == multiset(TimeOrdered(startTime, endTime, busySlots, participantCount))
    ensures forall i, j :: 0 <= i < j < |r| ==> r[i].availability >= r[j].availability
    ensures forall i, j :: 0 <= i < j < |r| && r[i].availability == r[j].availability ==> r[i].startTime < r[j].startTime
    ensures forall s :: s in r ==> s.endTime == s.startTime + SlotMinutes * MinuteMs && startTime <= s.startTime && s.endTime <= endTime
    ensures forall s :: s in r ==>
      && s.availableCount <= participantCount
      && s.availability == s.availableCount as real / participantCount as real
      && (s.isOptimal <==> s.availableCount == participantCount)
  {
    var slots := ChronologicalSlots(startTime, endTime, busySlots, participantCount);
    RankedSlots(startTime, endTime, busySlots, participantCount);
    RankedSlotsShape(startTime, endTime, busySlots, participantCount);
    r := Ordering.SortBy(slots, ByAvailabilityDesc);
  }

  /** The user ids of the rows that name a user. */
  function MemberIds(rows: seq<Participant>): set<UserId> {
    set p | p in rows && p.userId.Some? :: p.userId.value
  }

  lemma {:induction false} SubsetNoLarger<T>(a: set<T>, b: set<T>)
    requires a <= b
    ensures |a| <= |b|
    decreases |b|
  {
    if a != {} {
      var x :| x in a;
      SubsetNoLarger(a - {x}, b - {x});
    }
  }

  /** Distinct ids taken from `rows` are never more than the rows. */
  lemma {:induction false} MemberIdsBound(rows: seq<Participant>)
    ensures |MemberIds(rows)| <= |rows|
  {
    if rows != [] {
      var init := rows[..|rows| - 1];
      var last := rows[|rows| - 1];
      MemberIdsBound(init);
      assert rows == init + [last];
      if last.userId.Some? {
        assert MemberIds(rows) <= MemberIds(init) + {last.userId.value};
        SubsetNoLarger(MemberIds(rows), MemberIds(init) + {last.userId.value});
      } else {
        assert MemberIds(rows) <= MemberIds(init);
        SubsetNoLarger(MemberIds(rows), MemberIds(init));
      }
    }
  }

  /** In a meeting's availability no slot has more busy users than the
      meeting has participant rows, so the available count is never negative. */
  lemma BusyUsersBound(rows: seq<Participant>, users: seq<User>, events: seq<CalendarEvent>, now: Instant, slot: Slot)
    ensures |BusyUsers(BusySlots(rows, users, events, now), slot)| <= |rows|
  {
    var busy := BusySlots(rows, users, events, now);
    forall u | u in BusyUsers(busy, slot) ensures u in MemberIds(rows) {
      var b :| b in busy && Overlaps(slot.startTime, slot.endTime, b.startTime, b.endTime) && b.userId == u;
      var p :| p in rows && HasUser(p, users) && p.userId == Some(b.userId);
    }
    SubsetNoLarger(BusyUsers(busy, slot), MemberIds(rows));
    MemberIdsBound(rows);
  }

  /** The ranked slots of a meeting window: a permutation of the
      chronological slots, by availability highest first, equal availability
      in chronological order. */
  lemma RankedSlots(startTime: Instant, endTime: Instant, busy: seq<BusySlot>, participantCount: nat)
    requires participantCount > 0
    ensures var t := TimeOrdered(startTime, endTime, busy, participantCount);
      var r := Ordering.SortBy(t, ByAvailabilityDesc);
      && multiset(r) == multiset(t)
      && (forall i, j :: 0 <= i < j < |r| ==> r[i].availability >= r[j].availability)
      && (forall i, j :: 0 <= i < j < |r| && r[i].availability == r[j].availability ==> r[i].startTime < r[j].startTime)
  {
    var t := TimeOrdered(startTime, endTime, busy, participantCount);
    TimeOrderedShape(startTime, endTime, busy, participantCount);
    Ordering.SortByPermutes(t, ByAvailabilityDesc);
    Ordering.SortByAscending(t, ByAvailabilityDesc);
    Ordering.SortByStable(t, ByAvailabilityDesc, StartOf);
  }

  /** Every ranked slot is 30 minutes wide, lies inside the window, and
      carries its own count, ratio and optimal flag. */
  lemma RankedSlotsShape(startTime: Instant, endTime: Instant, busy: seq<BusySlot>, participantCount: nat)
    requires participantCount > 0
    ensures var r := Ordering.SortBy(TimeOrdered(startTime, endTime, busy, participantCount), ByAvailabilityDesc);
      && (forall s :: s in r ==> s.endTime == s.startTime + SlotMinutes * MinuteMs && startTime <= s.startTime && s.endTime <= endTime)
      && (forall s :: s in r ==>
            && s.availableCount <= participantCount
            && s.availability == s.availableCount as real / participantCount as real
            && (s.isOptimal <==> s.availableCount == participantCount))
  {
    var t := TimeOrdered(startTime, endTime, busy, participantCount);
    TimeOrderedShape(startTime, endTime, busy, participantCount);
    Ordering.SortByPermutes(t, ByAvailabilityDesc);
    var r := Ordering.SortBy(t, ByAvailabilityDesc);
    forall s | s in r
      ensures s.endTime == s.startTime + SlotMinutes * MinuteMs && startTime <= s.startTime && s.endTime <= endTime
      ensures s.availableCount <= participantCount
      ensures s.availability == s.availableCount as real / participantCount as real
      ensures s.isOptimal <==> s.availableCount == participantCount
    {
      assert s in multiset(t);
      var k :| 0 <= k < |t| && t[k] == s;
    }
  }

  /** A slot with at most `participantCount` distinct busy users has
      between 0 and all participants available, so its availability is a
      fraction. */
  lemma SlotForBounded(slot: Slot, busy: seq<BusySlot>, participantCount: nat)
    requires participantCount > 0 && |BusyUsers(busy, slot)| <= participantCount
    ensures 0 <= SlotFor(slot, busy, participantCount).availableCount <= participantCount
    ensures 0.0 <= SlotFor(slot, busy, participantCount).availability <= 1.0
  {
    var n := SlotFor(slot, busy, participantCount).availableCount;
    assert n as real <= participantCount as real;
  }

  /** Every ranked slot of a meeting window has between 0 and all
      participants available. */
  lemma RankedSlotsBounded(startTime: Instant, endTime: Instant, rows: seq<Participant>, busy: seq<BusySlot>,
                           users: seq<User>, events: seq<CalendarEvent>, now: Instant)
    requires |rows| > 0 && busy == BusySlots(rows, users, events, now)
    ensures forall s :: s in Ordering.SortBy(TimeOrdered(startTime, endTime, busy, |rows|), ByAvailabilityDesc) ==>
      0 <= s.availableCount <= |rows| && 0.0 <= s.availability <= 1.0
  {
    var slots := Slots(startTime, endTime, SlotMinutes * MinuteMs);
    var t := TimeOrdered(startTime, endTime, busy, |rows|);
    Ordering.SortByPermutes(t, ByAvailabilityDesc);
    forall s | s in Ordering.SortBy(t, ByAvailabilityDesc) ensures 0 <= s.availableCount <= |rows| && 0.0 <= s.availability <= 1.0 {
      assert s in multiset(t);
      var k :| 0 <= k < |t| && t[k] == s;
      assert s == SlotFor(slots[k], busy, |rows|);
      BusyUsersBound(rows, users, events, now, slots[k]);
      SlotForBounded(slots[k], busy, |rows|);
    }
  }

  // ------------------------------------------------------------ the store

  class MeetingStore {
    /** The meeting table. */
    var meetings: seq<Meeting>
    /** The meeting participant table. */
    var participants: seq<Participant>
    /** The id the next created meeting receives. */
    var nextId: nat

    /** Meeting ids are unique and below `nextId`, invite codes are unique,
        every row belongs to an allocated meeting id, no user has two rows
        for one meeting, and every meeting's creator is one of its participants. */
    ghost predicate Valid()
      reads this
    {
      && (forall i :: 0 <= i < |meetings| ==> meetings[i].id < nextId)
      && (forall i, j :: 0 <= i < j < |meetings| ==>
            meetings[i].id != meetings[j].id && meetings[i].inviteCode != meetings[j].inviteCode)
      && (forall p :: p in participants ==> p.meetingId < nextId)
      && UniqueMembership(participants)
      && (forall m :: m in meetings ==> IsMember(participants, m.id, m.creatorId))
    }

    constructor ()
      ensures Valid() && meetings == [] && participants == [] && nextId == 0
    {
      meetings := [];
      participants := [];
      nextId := 0;
    }

    /** `createMeeting`: a new meeting whose creator is its one `'accepted'`
        participant, with timezone `'UTC'` unless one is given. The invite
        code comes from the caller; a code already in use is refused. */
    method CreateMeeting(userId: UserId, request: MeetingRequest, inviteCode: string) returns (r: Result<Meeting>)
      requires Valid()
      modifies this
      ensures Valid()
      ensures MeetingWithCode(old(meetings), inviteCode).Some? ==>
        r == Err(InviteCodeTaken) && meetings == old(meetings) && participants == old(participants) && nextId == old(nextId)
      ensures MeetingWithCode(old(meetings), inviteCode).None? ==> r.Ok?
      ensures r.Ok? ==>
        && r.value.id == old(nextId) && r.value.creatorId == userId && r.value.inviteCode == inviteCode
        && r.value.title == request.title && r.value.description == request.description
        && r.value.startTime == request.startTime && r.value.endTime == request.endTime
        && r.value.timezone == OrElse(request.timezone, "UTC") && r.value.timezone != ""
        && meetings == old(meetings) + [r.value] && nextId == old(nextId) + 1
        && participants == old(participants) + [Participant(r.value.id, Some(userId), "accepted")]
    {
      if MeetingWithCode(meetings, inviteCode).Some? {
        return Err(InviteCodeTaken);
      }
      var meeting := Meeting(nextId, userId, request.title, request.description, inviteCode,
                             request.startTime, request.endTime, OrElse(request.timezone, "UTC"));
      var row := Participant(meeting.id, Some(userId), "accepted");
      forall m | m in meetings ensures IsMember(participants + [row], m.id, m.creatorId) {
        MemberAfterAppend(participants, row, m.id, m.creatorId);
      }
      assert row in participants + [row];
      assert UniqueMembership(participants + [row]) by {
        forall i, j | 0 <= i < j < |participants| + 1 && (participants + [row])[i].userId.Some?
          ensures (participants + [row])[i].meetingId != (participants + [row])[j].meetingId
               || (participants + [row])[i].userId != (participants + [row])[j].userId
        {
          assert (participants + [row])[i] == participants[i] && participants[i] in participants;
        }
      }
      meetings := meetings + [meeting];
      participants := participants + [row];
      nextId := nextId + 1;
      r := Ok(meeting);
    }

    /** The shared body of `joinMeeting` and `joinMeetingByCode`: the meeting
        with that invite code, as read before the join, after adding the user
        with `status` unless already a participant. */
    method Join(userId: UserId, inviteCode: string, status: string) returns (r: Result<MeetingDetail>)
      requires Valid()
      modifies this
      ensures Valid() && meetings == old(meetings) && nextId == old(nextId)
      ensures MeetingWithCode(meetings, inviteCode).None? ==> r == Err(MeetingNotFound) && participants == old(participants)
      ensures MeetingWithCode(meetings, inviteCode).Some? ==>
        var m := MeetingWithCode(meetings, inviteCode).value;
        && r == Ok(MeetingDetail(m, ParticipantsOf(old(participants), m.id)))
        && participants == JoinRows(old(participants), m.id, userId, status)
    {
      var found := MeetingWithCode(meetings, inviteCode);
      if found.None? {
        return Err(MeetingNotFound);
      }
      var meeting := found.value;
      r := Ok(MeetingDetail(meeting, ParticipantsOf(participants, meeting.id)));
      var rows := JoinRows(participants, meeting.id, userId, status);
      JoinKeepsUnique(participants, meeting.id, userId, status);
      if !IsMember(participants, meeting.id, userId) {
        var row := Participant(meeting.id, Some(userId), status);
        forall m | m in meetings ensures IsMember(rows, m.id, m.creatorId) {
          MemberAfterAppend(participants, row, m.id, m.creatorId);
        }
        assert row in rows;
      }
      participants := rows;
    }

    /** `joinMeeting`: joins by invite code as a `'pending'` participant. */
    method JoinMeeting(userId: UserId, inviteCode: string) returns (r: Result<MeetingDetail>)
      requires Valid()
      modifies this
      ensures Valid() && meetings == old(meetings) && nextId == old(nextId)
      ensures MeetingWithCode(meetings, inviteCode).None? ==> r == Err(MeetingNotFound) && participants == old(participants)
      ensures MeetingWithCode(meetings, inviteCode).Some? ==>
        var m := MeetingWithCode(meetings, inviteCode).value;
        && r == Ok(MeetingDetail(m, ParticipantsOf(old(participants), m.id)))
        && participants == JoinRows(old(participants), m.id, userId, "pending")
    {
      r := Join(userId, inviteCode, "pending");
    }

    /** `joinMeetingByCode`: joins by invite code as an `'accepted'` participant. */
    method JoinMeetingByCode(userId: UserId, inviteCode: string) returns (r: Result<MeetingDetail>)
      requires Valid()
      modifies this
      ensures Valid() && meetings == old(meetings) && nextId == old(nextId)
      ensures MeetingWithCode(meetings, inviteCode).None? ==> r == Err(MeetingNotFound) && participants == old(participants)
      ensures MeetingWithCode(meetings, inviteCode).Some? ==>
        var m := MeetingWithCode(meetings, inviteCode).value;
        && r == Ok(MeetingDetail(m, ParticipantsOf(old(participants), m.id)))
        && participants == JoinRows(old(participants), m.id, userId, "accepted")
    {
      r := Join(userId, inviteCode, "accepted");
    }

    /** `getMeetingDetail`. */
    function GetMeetingDetail(meetingId: MeetingId): (r: Result<MeetingDetail>)
      reads this
      ensures r.Err? <==> forall i :: 0 <= i < |meetings| ==> meetings[i].id != meetingId
      ensures r.Err? ==> r.message == MeetingNotFound
      ensures r.Ok? ==>
        && r.value.meeting in meetings && r.value.meeting.id == meetingId
        && r.value.participants == ParticipantsOf(participants, meetingId)
    {
      match MeetingWithId(meetings, meetingId)
      case None => Err(MeetingNotFound)
      case Some(m) => Ok(MeetingDetail(m, ParticipantsOf(participants, m.id)))
    }

    /** `getMeetingByCode`. */
    function GetMeetingByCode(inviteCode: string): (r: Result<MeetingDetail>)
      reads this
      ensures r.Err? <==> forall i :: 0 <= i < |meetings| ==> meetings[i].inviteCode != inviteCode
      ensures r.Err? ==> r.message == MeetingNotFound
      ensures r.Ok? ==>
        && r.value.meeting in meetings && r.value.meeting.inviteCode == inviteCode
        && r.value.participants == ParticipantsOf(participants, r.value.meeting.id)
    {
      match MeetingWithCode(meetings, inviteCode)
      case None => Err(MeetingNotFound)
      case Some(m) => Ok(MeetingDetail(m, ParticipantsOf(participants, m.id)))
    }

    /** `updateParticipantStatus`: sets the status of the (meeting, user) row;
        a missing row is refused. */
    method UpdateParticipantStatus(meetingId: MeetingId, userId: UserId, status: string) returns (r: Result<()>)
      requires Valid()
      modifies this
      ensures Valid() && meetings == old(meetings) && nextId == old(nextId)
      ensures r.Ok? <==> IsMember(old(participants), meetingId, userId)
      ensures r.Err? ==> r.message == ParticipantMissing && participants == old(participants)
      ensures r.Ok? ==> participants == WithStatus(old(participants), meetingId, userId, status)
    {
      if !IsMember(participants, meetingId, userId) {
        return Err(ParticipantMissing);
      }
      var rows := WithStatus(participants, meetingId, userId, status);
      SameKeysKeepMembership(participants, rows);
      participants := rows;
      r := Ok(());
    }

    /** `getMeetingParticipants`: the participants with an existing user. */
    function GetMeetingParticipants(inviteCode: string, users: seq<User>): (r: Result<seq<ParticipantView>>)
      reads this
      ensures r.Err? <==> MeetingWithCode(meetings, inviteCode).None?
      ensures r.Err? ==> r.message == MeetingNotFound
      ensures r.Ok? ==> r.value == Roster(ParticipantsOf(participants, MeetingWithCode(meetings, inviteCode).value.id), users)
    {
      match MeetingWithCode(meetings, inviteCode)
      case None => Err(MeetingNotFound)
      case Some(m) => Ok(Roster(ParticipantsOf(participants, m.id), users))
    }

    /** `getMeetingAvailability`: the busy intervals of the meeting's
        participants and the ranked availability of the meeting window. */
    method GetMeetingAvailability(inviteCode: string, users: seq<User>, events: seq<CalendarEvent>, now: Instant)
      returns (r: Result<MeetingAvailability>)
      requires Valid()
      ensures r.Err? <==> MeetingWithCode(meetings, inviteCode).None?
      ensures r.Err? ==> r.message == MeetingNotFound
      ensures r.Ok? ==>
        var m := MeetingWithCode(meetings, inviteCode).value;
        var rows := ParticipantsOf(participants, m.id);
        && r.value.meetingId == m.id
        && r.value.participantCount == |rows| > 0
        && r.value.busySlots == BusySlots(rows, users, events, now)
        && r.value.availabilitySlots ==
             Ordering.SortBy(TimeOrdered(m.startTime, m.endTime, r.value.busySlots, |rows|), ByAvailabilityDesc)
        && forall s :: s in r.value.availabilitySlots ==>
             0 <= s.availableCount <= |rows| && 0.0 <= s.availability <= 1.0
    {
      var found := MeetingWithCode(meetings, inviteCode);
      if found.None? {
        return Err(MeetingNotFound);
      }
      var meeting := found.value;
      var rows := ParticipantsOf(participants, meeting.id);
      var creatorRow :| creatorRow in participants && creatorRow.meetingId == meeting.id && creatorRow.userId == Some(meeting.creatorId);
      assert creatorRow in rows;
      var busySlots := BusySlots(rows, users, events, now);
      var slots := CalculateAvailabilitySlots(meeting.startTime, meeting.endTime, busySlots, |rows|);
      RankedSlotsBounded(meeting.startTime, meeting.endTime, rows, busySlots, users, events, now);
      r := Ok(MeetingAvailability(meeting.id, |rows|, busySlots, slots));
    }
  }
}
