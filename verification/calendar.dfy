/** The calendar service: Google events normalised into stored events, the
    event table keyed by (user, Google event id), the range query and the
    owner-checked delete. */
module Calendar {
  import opened Base
  import Ordering

  /** The database id of a stored event (generated by the store). */
  type EventId = nat

  /** A row of the calendar event table; it is also the DTO `toDto` returns. */
  datatype CalendarEvent = CalendarEvent(
    id: EventId,
    userId: UserId,
    googleEventId: string,
    title: string,
    description: Option<string>,
    startTime: Instant,
    endTime: Instant,
    isAllDay: bool,
    isBusy: bool,
    syncedAt: Instant)

  /** `start` or `end` of a Google event. `None` stands for a missing or
      empty date string; a present one is taken as the instant it denotes. */
  datatype EventTime = EventTime(dateTime: Option<Instant>, date: Option<Instant>)

  /** The fields of a Google Calendar event that the sync reads. */
  datatype GoogleEvent = GoogleEvent(
    id: Option<string>,
    summary: Option<string>,
    description: Option<string>,
    start: Option<EventTime>,
    end: Option<EventTime>,
    transparency: Option<string>)

  /** What `events.list` gave back: the response's `items` (possibly absent),
      or a thrown error. */
  datatype FetchOutcome = Fetched(items: Option<seq<GoogleEvent>>) | FetchFailed

  /** The columns an upsert writes for one Google event. */
  datatype EventFields = EventFields(
    googleEventId: string,
    title: string,
    description: Option<string>,
    startTime: Instant,
    endTime: Instant,
    isAllDay: bool,
    isBusy: bool)

  const TokenMissing: string := "Google Calendar access token expired or not available. Please login again to continue."
  const SyncFailed: string := "Failed to sync calendar events"
  const EventNotFound: string := "Event not found"

  /** `new Date(t?.dateTime || t?.date || '')`; `None` is the Invalid Date
      of `new Date('')`. */
  function TimeOf(t: Option<EventTime>): Option<Instant> {
    if t.Some? && t.value.dateTime.Some? then t.value.dateTime
    else if t.Some? then t.value.date
    else None
  }

  /** The columns written for a Google event, or `None` when its start or end
      is an Invalid Date, which the database client refuses. */
  function Normalize(e: GoogleEvent): (r: Option<EventFields>)
    ensures r.Some? <==> TimeOf(e.start).Some? && TimeOf(e.end).Some?
    ensures r.Some? ==> r.value.googleEventId == OrElse(e.id, "")
    ensures r.Some? ==> (r.value.isBusy <==> e.transparency != Some("transparent"))
    ensures r.Some? ==> (r.value.isAllDay <==> e.start.None? || e.start.value.dateTime.None?)
    ensures r.Some? && e.start.Some? && e.start.value.dateTime.Some? ==> r.value.startTime == e.start.value.dateTime.value
    ensures r.Some? && e.start.Some? && e.start.value.dateTime.None? ==> Some(r.value.startTime) == e.start.value.date
    ensures r.Some? && e.end.Some? && e.end.value.dateTime.Some? ==> r.value.endTime == e.end.value.dateTime.value
    ensures r.Some? && e.end.Some? && e.end.value.dateTime.None? ==> Some(r.value.endTime) == e.end.value.date
    ensures r.Some? ==> (Truthy(e.summary) ==> r.value.title == e.summary.value) && (!Truthy(e.summary) ==> r.value.title == "Untitled")
    ensures r.Some? ==> (r.value.description.Some? <==> Truthy(e.description))
    ensures r.Some? && r.value.description.Some? ==> r.value.description == e.description
  {
    var start := TimeOf(e.start);
    var end := TimeOf(e.end);
    if start.None? || end.None? then None
    else Some(EventFields(
      OrElse(e.id, ""),
      OrElse(e.summary, "Untitled"),
      if Truthy(e.description) then e.description else None,
      start.value,
      end.value,
      e.start.None? || e.start.value.dateTime.None?,
      e.transparency != Some("transparent")))
  }

  /** The unique key of the event table. */
  function KeyOf(e: CalendarEvent): (UserId, string) {
    (e.userId, e.googleEventId)
  }

  function KeySet(events: seq<CalendarEvent>): set<(UserId, string)> {
    set e | e in events :: KeyOf(e)
  }

  lemma KeySetAppend(events: seq<CalendarEvent>, x: CalendarEvent)
    ensures KeySet(events + [x]) == KeySet(events) + {KeyOf(x)}
  {
    assert forall e :: e in events + [x] <==> e in events || e == x;
  }

  /** Overwriting a row with one of the same key leaves the key set as it was. */
  lemma KeySetReplace(events: seq<CalendarEvent>, i: nat, x: CalendarEvent)
    requires i < |events| && KeyOf(x) == KeyOf(events[i])
    ensures KeySet(events[i := x]) == KeySet(events)
  {
    var t := events[i := x];
    forall k | k in KeySet(events) ensures k in KeySet(t) {
      var e :| e in events && KeyOf(e) == k;
      var j :| 0 <= j < |events| && events[j] == e;
      if j == i { assert KeyOf(t[i]) == k; } else { assert t[j] == e; }
    }
    forall k | k in KeySet(t) ensures k in KeySet(events) {
      var e :| e in t && KeyOf(e) == k;
      var j :| 0 <= j < |t| && t[j] == e;
      if j == i { assert KeyOf(events[i]) == k; } else { assert events[j] == e; }
    }
  }

  lemma KeyFound(events: seq<CalendarEvent>, key: (UserId, string))
    requires key in KeySet(events)
    ensures FindKey(events, key).Some?
  {
    var e :| e in events && KeyOf(e) == key;
    var j :| 0 <= j < |events| && events[j] == e;
  }

  /** Removing the row at `i` from a table with unique ids removes exactly
      the rows carrying that id. */
  lemma RemoveAtMembers(events: seq<CalendarEvent>, i: nat)
    requires i < |events|
    requires forall a, b :: 0 <= a < b < |events| ==> events[a].id != events[b].id
    ensures forall e :: e in events[..i] + events[i + 1..] <==> e in events && e.id != events[i].id
  {
    var t := events[..i] + events[i + 1..];
    forall e ensures e in t <==> e in events && e.id != events[i].id {
      if e in t {
        var j :| 0 <= j < |t| && t[j] == e;
        if j < i { assert e == events[j]; } else { assert e == events[j + 1]; }
      }
      if e in events && e.id != events[i].id {
        var j :| 0 <= j < |events| && events[j] == e;
        if j < i { assert t[j] == e; } else { assert j > i; assert t[j - 1] == e; }
      }
    }
  }

  /** Ids are unique and below `nextId`, and no two rows share a
      (userId, googleEventId) key. */
  ghost predicate TableValid(events: seq<CalendarEvent>, nextId: nat) {
    && (forall i :: 0 <= i < |events| ==> events[i].id < nextId)
    && (forall i, j :: 0 <= i < j < |events| ==> events[i].id != events[j].id)
    && (forall i, j :: 0 <= i < j < |events| ==> KeyOf(events[i]) != KeyOf(events[j]))
  }

  lemma TableValidReplace(events: seq<CalendarEvent>, nextId: nat, i: nat, x: CalendarEvent)
    requires TableValid(events, nextId) && i < |events|
    requires x.id == events[i].id && KeyOf(x) == KeyOf(events[i])
    ensures TableValid(events[i := x], nextId)
  {
  }

  lemma TableValidAppend(events: seq<CalendarEvent>, nextId: nat, x: CalendarEvent)
    requires TableValid(events, nextId) && x.id == nextId
    requires forall i :: 0 <= i < |events| ==> KeyOf(events[i]) != KeyOf(x)
    ensures TableValid(events + [x], nextId + 1)
  {
  }

  lemma TableValidRemove(events: seq<CalendarEvent>, nextId: nat, i: nat)
    requires TableValid(events, nextId) && i < |events|
    ensures TableValid(events[..i] + events[i + 1..], nextId)
  {
    var t := events[..i] + events[i + 1..];
    assert forall a :: 0 <= a < |t| ==> t[a] == events[if a < i then a else a + 1];
  }

  /** `saved` holds one stored row per event of `items`, in the same order,
      each as the upsert of that event wrote it. */
  ghost predicate SavedInOrder(saved: seq<CalendarEvent>, userId: UserId, items: seq<GoogleEvent>, now: Instant) {
    && |saved| == |items|
    && forall k :: 0 <= k < |items| ==>
         Normalize(items[k]).Some? && Written(saved[k], userId, Normalize(items[k]).value, now)
  }

  /** The keys a sync of `items` for `userId` upserts. */
  function ItemKeys(userId: UserId, items: seq<GoogleEvent>): set<(UserId, string)> {
    set e | e in items :: (userId, OrElse(e.id, ""))
  }

  /** The position of the row with key `key`, if there is one. */
  function FindKey(events: seq<CalendarEvent>, key: (UserId, string)): (r: Option<nat>)
    ensures r.Some? ==> r.value < |events| && KeyOf(events[r.value]) == key
    ensures r.None? ==> forall i :: 0 <= i < |events| ==> KeyOf(events[i]) != key
  {
    if events == [] then None
    else if KeyOf(events[|events| - 1]) == key then Some(|events| - 1)
    else FindKey(events[..|events| - 1], key)
  }

  /** The position of the row with id `id` owned by `userId`, if there is one. */
  function FindOwned(events: seq<CalendarEvent>, id: EventId, userId: UserId): (r: Option<nat>)
    ensures r.Some? ==> r.value < |events| && events[r.value].id == id && events[r.value].userId == userId
    ensures r.None? ==> forall i :: 0 <= i < |events| ==> !(events[i].id == id && events[i].userId == userId)
  {
    if events == [] then None
    else if events[|events| - 1].id == id && events[|events| - 1].userId == userId then Some(|events| - 1)
    else FindOwned(events[..|events| - 1], id, userId)
  }

  /** The stored event `e` holds what an upsert of `f` for `userId` at `now` writes. */
  predicate Written(e: CalendarEvent, userId: UserId, f: EventFields, now: Instant) {
    && e.userId == userId && e.googleEventId == f.googleEventId
    && e.title == f.title && e.description == f.description
    && e.startTime == f.startTime && e.endTime == f.endTime
    && e.isAllDay == f.isAllDay && e.isBusy == f.isBusy && e.syncedAt == now
  }

  /** The rows the range query selects, in table order. */
  function InRange(events: seq<CalendarEvent>, userId: UserId, startDate: Instant, endDate: Instant): (r: seq<CalendarEvent>)
    ensures forall e :: e in r <==> e in events && e.userId == userId && startDate <= e.startTime <= endDate
  {
    if events == [] then []
    else
      var rest := InRange(events[..|events| - 1], userId, startDate, endDate);
      var e := events[|events| - 1];
      assert events == events[..|events| - 1] + [e];
      if e.userId == userId && startDate <= e.startTime <= endDate then rest + [e] else rest
  }

  function StartKey(e: CalendarEvent): real {
    e.startTime as real
  }

  /** The event table together with the id its next new row receives. */
  datatype Table = Table(events: seq<CalendarEvent>, nextId: nat)

  /** The row an upsert of `f` for `userId` at `now` leaves under the key
      (userId, googleEventId): it keeps the id of the row it overwrites, or
      takes the next id. */
  function UpsertedRow(t: Table, userId: UserId, f: EventFields, now: Instant): (e: CalendarEvent)
    ensures Written(e, userId, f, now)
  {
    var k := FindKey(t.events, (userId, f.googleEventId));
    CalendarEvent(if k.Some? then t.events[k.value].id else t.nextId, userId, f.googleEventId, f.title,
                  f.description, f.startTime, f.endTime, f.isAllDay, f.isBusy, now)
  }

  /** The table after that upsert: the row with the key is overwritten in
      place, or the new row is appended. */
  function UpsertTable(t: Table, userId: UserId, f: EventFields, now: Instant): (r: Table)
    ensures UpsertedRow(t, userId, f, now) in r.events
    ensures |t.events| <= |r.events| <= |t.events| + 1
    ensures forall j :: 0 <= j < |t.events| && KeyOf(t.events[j]) != (userId, f.googleEventId) ==> r.events[j] == t.events[j]
  {
    var e := UpsertedRow(t, userId, f, now);
    var k := FindKey(t.events, (userId, f.googleEventId));
    if k.Some? then
      assert t.events[k.value := e][k.value] == e;
      Table(t.events[k.value := e], t.nextId)
    else
      Table(t.events + [e], t.nextId + 1)
  }

  /** An upsert adds exactly its key to the table's keys. */
  lemma UpsertTableKeys(t: Table, userId: UserId, f: EventFields, now: Instant)
    ensures KeySet(UpsertTable(t, userId, f, now).events) == KeySet(t.events) + {(userId, f.googleEventId)}
  {
    var e := UpsertedRow(t, userId, f, now);
    var k := FindKey(t.events, (userId, f.googleEventId));
    if k.Some? {
      KeySetReplace(t.events, k.value, e);
    } else {
      KeySetAppend(t.events, e);
    }
  }

  /** An upsert keeps the table invariant. */
  lemma UpsertTableValid(t: Table, userId: UserId, f: EventFields, now: Instant)
    requires TableValid(t.events, t.nextId)
    ensures var r := UpsertTable(t, userId, f, now); TableValid(r.events, r.nextId)
  {
    var e := UpsertedRow(t, userId, f, now);
    var k := FindKey(t.events, (userId, f.googleEventId));
    if k.Some? {
      TableValidReplace(t.events, t.nextId, k.value, e);
    } else {
      TableValidAppend(t.events, t.nextId, e);
    }
  }

  /** Upserting a key the table already holds adds no row. */
  lemma UpsertTableKnownKey(t: Table, userId: UserId, f: EventFields, now: Instant)
    requires (userId, f.googleEventId) in KeySet(t.events)
    ensures |UpsertTable(t, userId, f, now).events| == |t.events|
  {
    KeyFound(t.events, (userId, f.googleEventId));
  }

  /** The columns of the fetched events up to the first one whose start or
      end does not resolve: what the sync loop gets to upsert. */
  function ResolvedPrefix(items: seq<GoogleEvent>): (fs: seq<EventFields>)
    ensures |fs| <= |items|
    ensures forall k :: 0 <= k < |fs| ==> Normalize(items[k]) == Some(fs[k])
    ensures |fs| < |items| ==> Normalize(items[|fs|]).None?
  {
    if items == [] || Normalize(items[0]).None? then []
    else [Normalize(items[0]).value] + ResolvedPrefix(items[1..])
  }

  /** The loop gets through every fetched event exactly when each of them
      resolves. */
  lemma ResolvedAll(items: seq<GoogleEvent>)
    ensures |ResolvedPrefix(items)| == |items| <==> forall e :: e in items ==> Normalize(e).Some?
  {
    var n := |ResolvedPrefix(items)|;
    if n < |items| {
      assert items[n] in items;
    } else {
      forall e | e in items ensures Normalize(e).Some? {
        var k :| 0 <= k < |items| && items[k] == e;
      }
    }
  }

  /** The loop stops at event `i` exactly when `i` is the end of the
      resolved prefix; otherwise event `i` resolves to the prefix's element. */
  lemma ResolvedAt(items: seq<GoogleEvent>, i: nat)
    requires i < |items| && i <= |ResolvedPrefix(items)|
    ensures Normalize(items[i]).None? <==> i == |ResolvedPrefix(items)|
    ensures Normalize(items[i]).Some? ==> ResolvedPrefix(items)[i] == Normalize(items[i]).value
  {
  }

  /** The keys the upserts of `fs` for `userId` write. */
  function FieldKeys(userId: UserId, fs: seq<EventFields>): set<(UserId, string)> {
    set f | f in fs :: (userId, f.googleEventId)
  }

  lemma FieldKeysCons(userId: UserId, fs: seq<EventFields>)
    requires fs != []
    ensures FieldKeys(userId, fs) == {(userId, fs[0].googleEventId)} + FieldKeys(userId, fs[1..])
  {
    assert forall f :: f in fs <==> f == fs[0] || f in fs[1..];
  }

  /** The keys of the resolved events are those of the fetched events the
      loop reached. */
  lemma ResolvedKeys(userId: UserId, items: seq<GoogleEvent>)
    ensures FieldKeys(userId, ResolvedPrefix(items)) == ItemKeys(userId, items[..|ResolvedPrefix(items)|])
  {
    var fs := ResolvedPrefix(items);
    var pre := items[..|fs|];
    forall key | key in FieldKeys(userId, fs) ensures key in ItemKeys(userId, pre) {
      var f :| f in fs && key == (userId, f.googleEventId);
      var k :| 0 <= k < |fs| && fs[k] == f;
      assert pre[k] == items[k] && pre[k] in pre;
    }
    forall key | key in ItemKeys(userId, pre) ensures key in FieldKeys(userId, fs) {
      var e :| e in pre && key == (userId, OrElse(e.id, ""));
      var k :| 0 <= k < |pre| && pre[k] == e;
      assert fs[k] in fs;
    }
  }

  /** The outcome of the sync loop: the final table and the rows saved. */
  datatype Synced = Synced(table: Table, saved: seq<CalendarEvent>)

  /** The sync loop: each of `fs` is upserted in turn, and the row each
      upsert writes is saved. */
  function UpsertRows(t: Table, userId: UserId, fs: seq<EventFields>, now: Instant): (r: Synced)
    ensures |r.saved| == |fs|
    decreases |fs|
  {
    if fs == [] then Synced(t, [])
    else
      var rest := UpsertRows(UpsertTable(t, userId, fs[0], now), userId, fs[1..], now);
      Synced(rest.table, [UpsertedRow(t, userId, fs[0], now)] + rest.saved)
  }

  lemma UpsertRowsStep(t: Table, userId: UserId, fs: seq<EventFields>, now: Instant)
    requires fs != []
    ensures var rest := UpsertRows(UpsertTable(t, userId, fs[0], now), userId, fs[1..], now);
      UpsertRows(t, userId, fs, now) == Synced(rest.table, [UpsertedRow(t, userId, fs[0], now)] + rest.saved)
  {
  }

  /** Each saved row carries the columns of its event. */
  lemma {:induction false} UpsertRowsWritten(t: Table, userId: UserId, fs: seq<EventFields>, now: Instant)
    ensures var r := UpsertRows(t, userId, fs, now);
      forall k :: 0 <= k < |fs| ==> Written(r.saved[k], userId, fs[k], now)
    decreases |fs|
  {
    if fs != [] {
      var t1 := UpsertTable(t, userId, fs[0], now);
      UpsertRowsStep(t, userId, fs, now);
      UpsertRowsWritten(t1, userId, fs[1..], now);
      var r := UpsertRows(t, userId, fs, now);
      var rest := UpsertRows(t1, userId, fs[1..], now);
      forall k | 0 <= k < |fs| ensures Written(r.saved[k], userId, fs[k], now) {
        if k > 0 {
          assert r.saved[k] == rest.saved[k - 1] && fs[k] == fs[1..][k - 1];
        }
      }
    }
  }

  /** A sync keeps the table invariant: ids and keys stay unique. */
  lemma {:induction false} UpsertRowsValid(t: Table, userId: UserId, fs: seq<EventFields>, now: Instant)
    requires TableValid(t.events, t.nextId)
    ensures var r := UpsertRows(t, userId, fs, now).table; TableValid(r.events, r.nextId)
    decreases |fs|
  {
    if fs != [] {
      UpsertRowsStep(t, userId, fs, now);
      UpsertTableValid(t, userId, fs[0], now);
      UpsertRowsValid(UpsertTable(t, userId, fs[0], now), userId, fs[1..], now);
    }
  }

  /** One turn of the sync loop: upserting element `i` and then folding
      over the rest gives the fold from `i`. */
  lemma UpsertRowsFrom(t: Table, userId: UserId, fs: seq<EventFields>, now: Instant, i: nat, saved: seq<CalendarEvent>)
    requires i < |fs|
    ensures var rest := UpsertRows(UpsertTable(t, userId, fs[i], now), userId, fs[i + 1..], now);
      && rest.table == UpsertRows(t, userId, fs[i..], now).table
      && (saved + [UpsertedRow(t, userId, fs[i], now)]) + rest.saved == saved + UpsertRows(t, userId, fs[i..], now).saved
  {
    UpsertRowsStep(t, userId, fs[i..], now);
    assert fs[i..][0] == fs[i] && fs[i..][1..] == fs[i + 1..];
  }

  /** A sync touches only the rows of the keys it upserts: every other row
      keeps its value and its position, and no row is removed. */
  lemma {:induction false} UpsertRowsKeepsOthers(t: Table, userId: UserId, fs: seq<EventFields>, now: Instant)
    ensures var r := UpsertRows(t, userId, fs, now).table;
      && |t.events| <= |r.events|
      && forall j :: 0 <= j < |t.events| && KeyOf(t.events[j]) !in FieldKeys(userId, fs) ==> r.events[j] == t.events[j]
    decreases |fs|
  {
    if fs != [] {
      var t1 := UpsertTable(t, userId, fs[0], now);
      UpsertRowsStep(t, userId, fs, now);
      UpsertRowsKeepsOthers(t1, userId, fs[1..], now);
      FieldKeysCons(userId, fs);
    }
  }

  /** The keys after a sync are the old ones plus those upserted. */
  lemma {:induction false} UpsertRowsKeys(t: Table, userId: UserId, fs: seq<EventFields>, now: Instant)
    ensures KeySet(UpsertRows(t, userId, fs, now).table.events) == KeySet(t.events) + FieldKeys(userId, fs)
    decreases |fs|
  {
    if fs != [] {
      var t1 := UpsertTable(t, userId, fs[0], now);
      UpsertRowsStep(t, userId, fs, now);
      UpsertTableKeys(t, userId, fs[0], now);
      UpsertRowsKeys(t1, userId, fs[1..], now);
      FieldKeysCons(userId, fs);
    } else {
      assert FieldKeys(userId, fs) == {};
    }
  }

  /** Re-syncing events whose keys are all stored already adds no row. */
  lemma {:induction false} UpsertRowsKnownKeys(t: Table, userId: UserId, fs: seq<EventFields>, now: Instant)
    requires FieldKeys(userId, fs) <= KeySet(t.events)
    ensures |UpsertRows(t, userId, fs, now).table.events| == |t.events|
    decreases |fs|
  {
    if fs != [] {
      var t1 := UpsertTable(t, userId, fs[0], now);
      UpsertRowsStep(t, userId, fs, now);
      FieldKeysCons(userId, fs);
      UpsertTableKnownKey(t, userId, fs[0], now);
      UpsertTableKeys(t, userId, fs[0], now);
      UpsertRowsKnownKeys(t1, userId, fs[1..], now);
    }
  }

  /** The row written for the first element stays in the table when no
      later element has its key. */
  lemma UpsertRowsKeepsFirst(t: Table, userId: UserId, fs: seq<EventFields>, now: Instant)
    requires fs != []
    requires forall m :: 0 < m < |fs| ==> fs[m].googleEventId != fs[0].googleEventId
    ensures UpsertedRow(t, userId, fs[0], now) in UpsertRows(t, userId, fs, now).table.events
  {
    var t1 := UpsertTable(t, userId, fs[0], now);
    var e := UpsertedRow(t, userId, fs[0], now);
    UpsertRowsStep(t, userId, fs, now);
    var p :| 0 <= p < |t1.events| && t1.events[p] == e;
    UpsertRowsKeepsOthers(t1, userId, fs[1..], now);
    assert KeyOf(e) !in FieldKeys(userId, fs[1..]) by {
      forall f | f in fs[1..] ensures (userId, f.googleEventId) != KeyOf(e) {
        var m :| 0 <= m < |fs[1..]| && fs[1..][m] == f;
        assert fs[m + 1] == f;
      }
    }
    assert UpsertRows(t1, userId, fs[1..], now).table.events[p] == e;
  }

  /** The last upsert of a key wins: the row saved for an element whose key
      no later element repeats is in the final table. */
  lemma {:induction false} UpsertRowsStoresLast(t: Table, userId: UserId, fs: seq<EventFields>, now: Instant, k: nat)
    requires k < |fs|
    requires forall m :: k < m < |fs| ==> fs[m].googleEventId != fs[k].googleEventId
    ensures UpsertRows(t, userId, fs, now).saved[k] in UpsertRows(t, userId, fs, now).table.events
    decreases |fs|
  {
    UpsertRowsStep(t, userId, fs, now);
    if k == 0 {
      UpsertRowsKeepsFirst(t, userId, fs, now);
    } else {
      var t1 := UpsertTable(t, userId, fs[0], now);
      forall m | k - 1 < m < |fs[1..]| ensures fs[1..][m].googleEventId != fs[1..][k - 1].googleEventId {
        assert fs[1..][m] == fs[m + 1];
      }
      UpsertRowsStoresLast(t1, userId, fs[1..], now, k - 1);
    }
  }

  /** The sync of fetched `items`, stated over the events themselves: it
      adds the keys of the events it reaches and keeps every row of another
      key at its position. */
  lemma SyncedItems(t: Table, userId: UserId, items: seq<GoogleEvent>, now: Instant)
    ensures var fs := ResolvedPrefix(items); var r := UpsertRows(t, userId, fs, now).table;
      && KeySet(r.events) == KeySet(t.events) + ItemKeys(userId, items[..|fs|])
      && |t.events| <= |r.events|
      && (forall j :: 0 <= j < |t.events| && KeyOf(t.events[j]) !in ItemKeys(userId, items) ==>
            r.events[j] == t.events[j])
  {
    var fs := ResolvedPrefix(items);
    ResolvedKeys(userId, items);
    assert ItemKeys(userId, items[..|fs|]) <= ItemKeys(userId, items) by {
      forall e | e in items[..|fs|] ensures e in items { }
    }
    UpsertRowsKeepsOthers(t, userId, fs, now);
    UpsertRowsKeys(t, userId, fs, now);
  }

  /** A sync in which every fetched event resolves saves one row per event,
      in fetch order, adds exactly the events' keys, and adds no row when
      all of them were stored already. */
  lemma SyncedAllItems(t: Table, userId: UserId, items: seq<GoogleEvent>, now: Instant)
    requires |ResolvedPrefix(items)| == |items|
    ensures var r := UpsertRows(t, userId, ResolvedPrefix(items), now);
      && SavedInOrder(r.saved, userId, items, now)
      && KeySet(r.table.events) == KeySet(t.events) + ItemKeys(userId, items)
      && (ItemKeys(userId, items) <= KeySet(t.events) ==> |r.table.events| == |t.events|)
  {
    var fs := ResolvedPrefix(items);
    ResolvedKeys(userId, items);
    assert items[..|fs|] == items;
    UpsertRowsWritten(t, userId, fs, now);
    UpsertRowsKeys(t, userId, fs, now);
    if ItemKeys(userId, items) <= KeySet(t.events) {
      UpsertRowsKnownKeys(t, userId, fs, now);
    }
  }

  /** In a sync in which every fetched event resolves, the row saved for
      the last event of each key is in the table. */
  lemma SyncedItemsStoreLast(t: Table, userId: UserId, items: seq<GoogleEvent>, now: Instant)
    requires |ResolvedPrefix(items)| == |items|
    ensures var r := UpsertRows(t, userId, ResolvedPrefix(items), now);
      forall k :: 0 <= k < |items| ==>
        ((forall m :: k < m < |items| ==> OrElse(items[m].id, "") != OrElse(items[k].id, ""))
         ==> r.saved[k] in r.table.events)
  {
    var fs := ResolvedPrefix(items);
    forall k | 0 <= k < |items| &&
      (forall m :: k < m < |items| ==> OrElse(items[m].id, "") != OrElse(items[k].id, ""))
      ensures UpsertRows(t, userId, fs, now).saved[k] in UpsertRows(t, userId, fs, now).table.events
    {
      UpsertRowsStoresLast(t, userId, fs, now, k);
    }
  }

  class CalendarStore {
    /** The calendar event table, in insertion order. */
    var events: seq<CalendarEvent>
    /** The id the next created row receives. */
    var nextId: nat

    ghost predicate Valid()
      reads this
    {
      TableValid(events, nextId)
    }

    ghost function Keys(): set<(UserId, string)>
      reads this
    {
      KeySet(events)
    }

    constructor ()
      ensures Valid() && events == [] && nextId == 0
    {
      events := [];
      nextId := 0;
    }

    /** `calendarEvent.upsert` keyed by (userId, googleEventId): updates the
        row with that key in place, keeping its id, or appends a new row. */
    method Upsert(userId: UserId, f: EventFields, now: Instant) returns (saved: CalendarEvent)
      requires Valid()
      modifies this
      ensures Valid()
      ensures Written(saved, userId, f, now)
      ensures var k := FindKey(old(events), (userId, f.googleEventId));
        && (k.Some? ==> events == old(events)[k.value := saved] && saved.id == old(events)[k.value].id && nextId == old(nextId))
        && (k.None? ==> events == old(events) + [saved] && saved.id == old(nextId) && nextId == old(nextId) + 1)
      ensures Keys() == old(Keys()) + {(userId, f.googleEventId)}
      ensures saved == UpsertedRow(Table(old(events), old(nextId)), userId, f, now)
      ensures Table(events, nextId) == UpsertTable(Table(old(events), old(nextId)), userId, f, now)
    {
      var k := FindKey(events, (userId, f.googleEventId));
      if k.Some? {
        var i := k.value;
        saved := CalendarEvent(events[i].id, userId, f.googleEventId, f.title, f.description,
                               f.startTime, f.endTime, f.isAllDay, f.isBusy, now);
        KeySetReplace(events, i, saved);
        TableValidReplace(events, nextId, i, saved);
        events := events[i := saved];
      } else {
        saved := CalendarEvent(nextId, userId, f.googleEventId, f.title, f.description,
                               f.startTime, f.endTime, f.isAllDay, f.isBusy, now);
        KeySetAppend(events, saved);
        TableValidAppend(events, nextId, saved);
        events := events + [saved];
        nextId := nextId + 1;
      }
    }

    /** `syncCalendarEvents`: with a usable access token, upserts every
        fetched event in fetch order and returns the stored rows, one per
        fetched event. A missing token or a failed fetch changes nothing; an
        event whose start or end is an Invalid Date stops the sync with the
        rows upserted so far kept. Rows of keys the sync does not upsert keep
        their value and position, and the row saved for the last event of
        each key is in the table. */
    method SyncCalendarEvents(userId: UserId, accessToken: Option<string>, fetched: FetchOutcome, now: Instant)
      returns (r: Result<seq<CalendarEvent>>)
      requires Valid()
      modifies this
      ensures Valid()
      ensures !Truthy(accessToken) ==> r == Err(TokenMissing) && events == old(events) && nextId == old(nextId)
      ensures Truthy(accessToken) && fetched.FetchFailed? ==> r == Err(SyncFailed) && events == old(events) && nextId == old(nextId)
      ensures Truthy(accessToken) && fetched.Fetched? ==>
        Table(events, nextId) == UpsertRows(Table(old(events), old(nextId)), userId, ResolvedPrefix(Items(fetched)), now).table
      ensures Truthy(accessToken) && r.Err? ==> r.message == SyncFailed
      ensures r.Ok? <==> Truthy(accessToken) && fetched.Fetched? && forall e :: e in Items(fetched) ==> Normalize(e).Some?
      ensures r.Ok? ==> r.value == UpsertRows(Table(old(events), old(nextId)), userId, ResolvedPrefix(Items(fetched)), now).saved
      ensures r.Ok? ==> SavedInOrder(r.value, userId, Items(fetched), now)
      ensures old(Keys()) <= Keys()
      ensures Truthy(accessToken) && fetched.Fetched? ==>
        Keys() == old(Keys()) + ItemKeys(userId, Items(fetched)[..|ResolvedPrefix(Items(fetched))|])
      ensures r.Ok? ==> Keys() == old(Keys()) + ItemKeys(userId, Items(fetched))
      ensures r.Ok? && ItemKeys(userId, Items(fetched)) <= old(Keys()) ==> |events| == |old(events)|
      ensures |old(events)| <= |events|
      ensures forall j :: 0 <= j < |old(events)| && KeyOf(old(events)[j]) !in ItemKeys(userId, Items(fetched)) ==>
        events[j] == old(events)[j]
      ensures r.Ok? ==> forall k :: 0 <= k < |r.value| ==>
        ((forall m :: k < m < |r.value| ==> OrElse(Items(fetched)[m].id, "") != OrElse(Items(fetched)[k].id, ""))
         ==> r.value[k] in events)
    {
      if !Truthy(accessToken) {
        return Err(TokenMissing);
      }
      if fetched.FetchFailed? {
        return Err(SyncFailed);
      }
      var items := Items(fetched);
      SyncedItems(Table(events, nextId), userId, items, now);
      if |ResolvedPrefix(items)| == |items| {
        SyncedAllItems(Table(events, nextId), userId, items, now);
        SyncedItemsStoreLast(Table(events, nextId), userId, items, now);
      }
      r := UpsertAll(userId, items, now);
    }

    /** The loop of `syncCalendarEvents` over the fetched events. */
    method UpsertAll(userId: UserId, items: seq<GoogleEvent>, now: Instant) returns (r: Result<seq<CalendarEvent>>)
      requires Valid()
      modifies this
      ensures Valid()
      ensures Table(events, nextId) == UpsertRows(Table(old(events), old(nextId)), userId, ResolvedPrefix(items), now).table
      ensures r.Err? ==> r.message == SyncFailed
      ensures r.Ok? <==> forall e :: e in items ==> Normalize(e).Some?
      ensures r.Ok? ==> |ResolvedPrefix(items)| == |items|
      ensures r.Ok? ==> r.value == UpsertRows(Table(old(events), old(nextId)), userId, ResolvedPrefix(items), now).saved
    {
      ghost var fs := ResolvedPrefix(items);
      ghost var final := UpsertRows(Table(events, nextId), userId, fs, now);
      var saved: seq<CalendarEvent> := [];
      var i := 0;
      assert fs[0..] == fs;
      while i < |items|
        invariant 0 <= i <= |fs| && |saved| == i
        invariant Valid()
        invariant UpsertRows(Table(events, nextId), userId, fs[i..], now).table == final.table
        invariant saved + UpsertRows(Table(events, nextId), userId, fs[i..], now).saved == final.saved
      {
        var f := Normalize(items[i]);
        ResolvedAt(items, i);
        if f.None? {
          assert fs[i..] == [];
          ResolvedAll(items);
          return Err(SyncFailed);
        }
        UpsertRowsFrom(Table(events, nextId), userId, fs, now, i, saved);
        var e := Upsert(userId, f.value, now);
        saved := saved + [e];
        i := i + 1;
      }
      assert fs[i..] == [];
      ResolvedAll(items);
      return Ok(saved);
    }

    /** `getCalendarEvents`: the user's events with `startDate <= startTime <=
        endDate`, by start time (rows with equal start keep table order). */
    function GetCalendarEvents(userId: UserId, startDate: Instant, endDate: Instant): (r: seq<CalendarEvent>)
      reads this
      ensures forall e :: e in r <==> e in events && e.userId == userId && startDate <= e.startTime <= endDate
      ensures multiset(r) == multiset(InRange(events, userId, startDate, endDate))
      ensures forall i, j :: 0 <= i < j < |r| ==> r[i].startTime <= r[j].startTime
    {
      var selected := InRange(events, userId, startDate, endDate);
      Ordering.SortByPermutes(selected, StartKey);
      Ordering.SortByAscending(selected, StartKey);
      var r := Ordering.SortBy(selected, StartKey);
      assert forall e :: e in r <==> e in multiset(selected);
      r
    }

    /** `getCalendarEvent`: the row with that id, or null. */
    function GetCalendarEvent(eventId: EventId): (r: Option<CalendarEvent>)
      reads this
      ensures r.Some? <==> exists i :: 0 <= i < |events| && events[i].id == eventId
      ensures r.Some? ==> r.value in events && r.value.id == eventId
    {
      FindById(events, eventId)
    }

    /** `deleteCalendarEvent`: fails with 'Event not found' unless a row with
        that id belongs to `userId`; otherwise removes exactly that row. */
    method DeleteCalendarEvent(eventId: EventId, userId: UserId) returns (r: Result<()>)
      requires Valid()
      modifies this
      ensures Valid() && nextId == old(nextId)
      ensures r.Ok? <==> exists i :: 0 <= i < |old(events)| && old(events)[i].id == eventId && old(events)[i].userId == userId
      ensures r.Err? ==> r.message == EventNotFound && events == old(events)
      ensures r.Ok? ==> |events| == |old(events)| - 1
      ensures r.Ok? ==> forall e :: e in events <==> e in old(events) && e.id != eventId
    {
      var k := FindOwned(events, eventId, userId);
      if k.None? {
        return Err(EventNotFound);
      }
      var i := k.value;
      RemoveAtMembers(events, i);
      TableValidRemove(events, nextId, i);
      events := events[..i] + events[i + 1..];
      return Ok(());
    }
  }

  /** `response.data.items || []`. */
  function Items(fetched: FetchOutcome): seq<GoogleEvent> {
    if fetched.Fetched? && fetched.items.Some? then fetched.items.value else []
  }

  function FindById(events: seq<CalendarEvent>, id: EventId): (r: Option<CalendarEvent>)
    ensures r.Some? <==> exists i :: 0 <= i < |events| && events[i].id == id
    ensures r.Some? ==> r.value in events && r.value.id == id
  {
    if events == [] then None
    else if events[0].id == id then Some(events[0])
    else FindById(events[1..], id)
  }
}
