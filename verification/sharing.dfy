/** The sharing service: each user's sharing settings, and what of a user's
    calendar events another user gets to see under those settings. */
module Sharing {
  import opened Base
  import opened Calendar
  import Ordering

  /** The three share levels, from least to most revealing. */
  const BusyOnly: string := "busy_only"
  const BasicInfo: string := "basic_info"
  const FullDetails: string := "full_details"

  const UserNotFound: string := "User not found"

  predicate IsLevel(level: string) {
    level == BusyOnly || level == BasicInfo || level == FullDetails
  }

  /** A row of the sharing settings table (at most one per user). */
  datatype SharingSettings = SharingSettings(userId: UserId, shareLevel: string, allowedUsers: seq<string>)

  /** The fields of `UpdateSharingSettingsDto`; each may be absent. */
  datatype SettingsUpdate = SettingsUpdate(
    privacyLevel: Option<string>, shareLevel: Option<string>, allowedUsers: Option<seq<string>>)

  /** The result of `getUserSchedule`. */
  datatype UserSchedule = UserSchedule(userId: UserId, userEmail: string, privacyLevel: string, events: seq<EventView>)

  /** The columns of a calendar event a reader may be shown. */
  datatype Field = Id | Owner | GoogleEventId | Title | Description | Start | End | AllDay | Busy | SyncedAt

  /** What a reader receives of one event: one shape per column selection
      the service makes. */
  datatype EventView =
    | Times(startTime: Instant, endTime: Instant, isBusy: bool)
    | TitledTimes(title: string, startTime: Instant, endTime: Instant, isBusy: bool)
    | IdTimes(id: EventId, startTime: Instant, endTime: Instant, isBusy: bool)
    | IdTitledTimes(id: EventId, title: string, startTime: Instant, endTime: Instant, isBusy: bool)
    | Whole(event: CalendarEvent)

  function AllFields(): set<Field> {
    {Id, Owner, GoogleEventId, Title, Description, Start, End, AllDay, Busy, SyncedAt}
  }

  /** The columns a share level discloses to other users. */
  function LevelFields(level: string): (r: set<Field>)
    requires IsLevel(level)
    ensures {Start, End, Busy} <= r
    ensures Title in r <==> level != BusyOnly
    ensures Description in r <==> level == FullDetails
  {
    if level == BusyOnly then {Start, End, Busy}
    else if level == BasicInfo then {Title, Start, End, Busy}
    else AllFields()
  }

  /** The columns a view carries. */
  function FieldsShown(v: EventView): set<Field> {
    match v
    case Times(_, _, _) => {Start, End, Busy}
    case TitledTimes(_, _, _, _) => {Title, Start, End, Busy}
    case IdTimes(_, _, _, _) => {Id, Start, End, Busy}
    case IdTitledTimes(_, _, _, _, _) => {Id, Title, Start, End, Busy}
    case Whole(_) => AllFields()
  }

  /** Every column the view carries holds the event's value. */
  predicate Shows(v: EventView, e: CalendarEvent) {
    match v
    case Times(s, t, b) => s == e.startTime && t == e.endTime && b == e.isBusy
    case TitledTimes(title, s, t, b) => title == e.title && s == e.startTime && t == e.endTime && b == e.isBusy
    case IdTimes(id, s, t, b) => id == e.id && s == e.startTime && t == e.endTime && b == e.isBusy
    case IdTitledTimes(id, title, s, t, b) => id == e.id && title == e.title && s == e.startTime && t == e.endTime && b == e.isBusy
    case Whole(x) => x == e
  }

  /** The view of `e` a share level selects; `withId` adds the event id, as
      the schedule listing does. */
  function Project(level: string, withId: bool, e: CalendarEvent): (r: EventView)
    requires IsLevel(level)
    ensures Shows(r, e)
    ensures FieldsShown(r) == LevelFields(level) + (if withId then {Id} else {})
  {
    if level == BusyOnly then
      (if withId then IdTimes(e.id, e.startTime, e.endTime, e.isBusy) else Times(e.startTime, e.endTime, e.isBusy))
    else if level == BasicInfo then
      (if withId then IdTitledTimes(e.id, e.title, e.startTime, e.endTime, e.isBusy)
       else TitledTimes(e.title, e.startTime, e.endTime, e.isBusy))
    else Whole(e)
  }

  function Views(level: string, withId: bool, events: seq<CalendarEvent>): (r: seq<EventView>)
    requires IsLevel(level)
    ensures |r| == |events|
    ensures forall i :: 0 <= i < |r| ==> r[i] == Project(level, withId, events[i])
  {
    seq(|events|, i requires 0 <= i < |events| => Project(level, withId, events[i]))
  }

  /** `calendarEvent.findMany({ where: { userId } })`, in table order. */
  function OwnedBy(events: seq<CalendarEvent>, userId: UserId): (r: seq<CalendarEvent>)
    ensures |r| <= |events|
    ensures forall e :: e in r <==> e in events && e.userId == userId
  {
    if events == [] then []
    else
      var rest := OwnedBy(events[..|events| - 1], userId);
      var e := events[|events| - 1];
      assert events == events[..|events| - 1] + [e];
      if e.userId == userId then rest + [e] else rest
  }

  /** The user's events that have not ended before `now`, in table order. */
  function Upcoming(events: seq<CalendarEvent>, userId: UserId, now: Instant): (r: seq<CalendarEvent>)
    ensures |r| <= |events|
    ensures forall e :: e in r <==> e in events && e.userId == userId && e.endTime >= now
  {
    if events == [] then []
    else
      var rest := Upcoming(events[..|events| - 1], userId, now);
      var e := events[|events| - 1];
      assert events == events[..|events| - 1] + [e];
      if e.userId == userId && e.endTime >= now then rest + [e] else rest
  }

  /** The share level an update asks for: `privacyLevel`, else `shareLevel`,
      else `'busy_only'`, where an absent or empty value does not count. */
  function RequestedLevel(update: SettingsUpdate): (r: string)
    ensures r != ""
    ensures Truthy(update.privacyLevel) ==> r == update.privacyLevel.value
    ensures !Truthy(update.privacyLevel) && Truthy(update.shareLevel) ==> r == update.shareLevel.value
    ensures !Truthy(update.privacyLevel) && !Truthy(update.shareLevel) ==> r == BusyOnly
    ensures ((update.privacyLevel.None? || IsLevel(update.privacyLevel.value)) &&
             (update.shareLevel.None? || IsLevel(update.shareLevel.value))) ==> IsLevel(r)
  {
    OrElse(update.privacyLevel, OrElse(update.shareLevel, BusyOnly))
  }

  /** The upcoming events of `getPublicEvents`, ordered by start time. */
  function PublicOrder(events: seq<CalendarEvent>, userId: UserId, now: Instant): (r: seq<CalendarEvent>)
    ensures multiset(r) == multiset(Upcoming(events, userId, now))
    ensures forall i, j :: 0 <= i < j < |r| ==> r[i].startTime <= r[j].startTime
  {
    var up := Upcoming(events, userId, now);
    Ordering.SortByPermutes(up, StartKey);
    Ordering.SortByAscending(up, StartKey);
    Ordering.SortBy(up, StartKey)
  }

  /** `getPublicEvents`: the user's events that have not yet ended, by start
      time, each showing its id and the columns of the share level; an
      unknown level shows nothing. */
  function GetPublicEvents(userId: UserId, shareLevel: string, events: seq<CalendarEvent>, now: Instant): (r: seq<EventView>)
    ensures !IsLevel(shareLevel) ==> r == []
    ensures IsLevel(shareLevel) ==>
      var shown := PublicOrder(events, userId, now);
      && |r| == |shown|
      && forall i :: 0 <= i < |r| ==> Shows(r[i], shown[i]) && FieldsShown(r[i]) == LevelFields(shareLevel) + {Id}
  {
    if IsLevel(shareLevel) then Views(shareLevel, true, PublicOrder(events, userId, now)) else []
  }

  class SharingStore {
    /** The sharing settings table, by user. */
    var settings: map<UserId, SharingSettings>

    /** Each row is filed under its own user and has a non-empty share level. */
    ghost predicate Valid()
      reads this
    {
      forall u :: u in settings ==> settings[u].userId == u && settings[u].shareLevel != ""
    }

    constructor ()
      ensures Valid() && settings == map[]
    {
      settings := map[];
    }

    /** `getSettings`: the user's settings, created as `'busy_only'` with no
        allowed users when the user has none yet. */
    method GetSettings(userId: UserId) returns (s: SharingSettings)
      requires Valid()
      modifies this
      ensures Valid()
      ensures s.userId == userId && s.shareLevel != ""
      ensures userId in old(settings) ==> s == old(settings)[userId] && settings == old(settings)
      ensures userId !in old(settings) ==> s == SharingSettings(userId, BusyOnly, []) && settings == old(settings)[userId := s]
    {
      if userId in settings {
        s := settings[userId];
      } else {
        s := SharingSettings(userId, BusyOnly, []);
        settings := settings[userId := s];
      }
    }

    /** `updateSettings`: creates or overwrites the user's settings with the
        requested level and allowed users. */
    method UpdateSettings(userId: UserId, update: SettingsUpdate) returns (s: SharingSettings)
      requires Valid()
      modifies this
      ensures Valid()
      ensures s.userId == userId && s.shareLevel == RequestedLevel(update)
      ensures update.allowedUsers.Some? ==> s.allowedUsers == update.allowedUsers.value
      ensures update.allowedUsers.None? ==> s.allowedUsers == []
      ensures settings == old(settings)[userId := s]
    {
      // `allowedUsers || []`: an array, even an empty one, is kept.
      var allowed := if update.allowedUsers.Some? then update.allowedUsers.value else [];
      s := SharingSettings(userId, RequestedLevel(update), allowed);
      settings := settings[userId := s];
    }

    /** `getCalendarDataByShareLevel`: nothing for a user without settings;
        every event in full for the owner; otherwise the user's events with
        the columns of their share level, and nothing for an unknown level. */
    function GetCalendarDataByShareLevel(userId: UserId, requesterId: UserId, events: seq<CalendarEvent>)
      : (r: Option<seq<EventView>>)
      reads this
      ensures r.Some? <==> userId in settings && (userId == requesterId || IsLevel(settings[userId].shareLevel))
      ensures r.Some? ==>
        && |r.value| == |OwnedBy(events, userId)|
        && forall i :: 0 <= i < |r.value| ==> Shows(r.value[i], OwnedBy(events, userId)[i])
      ensures r.Some? && userId == requesterId ==> forall v :: v in r.value ==> v.Whole?
      ensures r.Some? && userId != requesterId ==>
        forall v :: v in r.value ==> FieldsShown(v) == LevelFields(settings[userId].shareLevel)
    {
      if userId !in settings then None
      else if userId == requesterId then Some(Views(FullDetails, false, OwnedBy(events, userId)))
      else if IsLevel(settings[userId].shareLevel) then
        Some(Views(settings[userId].shareLevel, false, OwnedBy(events, userId)))
      else None
    }

    /** `getUserSchedule`: the user's public events under their share level,
        creating default settings first when the user has none. */
    method GetUserSchedule(userId: UserId, users: seq<User>, events: seq<CalendarEvent>, now: Instant)
      returns (r: Result<UserSchedule>)
      requires Valid()
      modifies this
      ensures Valid()
      ensures r.Err? <==> FindUser(users, userId).None?
      ensures r.Err? ==> r.message == UserNotFound && settings == old(settings)
      ensures r.Ok? ==>
        && settings == (if userId in old(settings) then old(settings)
                        else old(settings)[userId := SharingSettings(userId, BusyOnly, [])])
        && r.value.userId == userId
        && r.value.userEmail == FindUser(users, userId).value.email
        && r.value.privacyLevel == settings[userId].shareLevel
        && r.value.privacyLevel != ""
        && r.value.events == GetPublicEvents(userId, settings[userId].shareLevel, events, now)
    {
      var user := FindUser(users, userId);
      if user.None? {
        return Err(UserNotFound);
      }
      var s := GetSettings(userId);
      var shown := GetPublicEvents(userId, s.shareLevel, events, now);
      r := Ok(UserSchedule(user.value.id, user.value.email, s.shareLevel, shown));
    }
  }

  /** A user who has never saved settings is shown to others as busy times
      only: their schedule carries id, start, end and busy flag and no title. */
  lemma DefaultScheduleShowsBusyOnly(userId: UserId, events: seq<CalendarEvent>, now: Instant)
    ensures forall v :: v in GetPublicEvents(userId, BusyOnly, events, now) ==>
      FieldsShown(v) == {Id, Start, End, Busy} && v.IdTimes?
  {
    var r := GetPublicEvents(userId, BusyOnly, events, now);
    forall v | v in r ensures FieldsShown(v) == {Id, Start, End, Busy} && v.IdTimes? {
      var i :| 0 <= i < |r| && r[i] == v;
    }
  }

  /** Between the levels, what another user is shown only grows:
      busy_only reveals less than basic_info, which reveals less than
      full_details, and only full_details reveals descriptions. */
  lemma LevelsNested()
    ensures LevelFields(BusyOnly) < LevelFields(BasicInfo) < LevelFields(FullDetails)
    ensures Description !in LevelFields(BusyOnly) + LevelFields(BasicInfo)
  {
    assert Title in LevelFields(BasicInfo) - LevelFields(BusyOnly);
    assert Description in LevelFields(FullDetails) - LevelFields(BasicInfo);
  }
}
