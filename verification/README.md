# mytt-be scheduling core in Dafny

A Dafny model of the scheduling core of the mytt-be backend, a NestJS
service that finds meeting times by intersecting its users' Google
calendars and discloses those calendars to other users according to each
user's privacy tier. The model covers five services:

- **Availability service** (`availability.dfy`). It cuts a window into
  30-minute slots. For each slot it gives the fraction of a participant list
  that has neither a busy calendar event nor a declared unavailable block
  overlapping the slot.
- **Meeting service** (`meeting.dfy`). It holds the meeting and participant
  tables: creating, joining by invite code, status updates and the roster. It
  also computes a meeting's ranked availability: distinct busy participants per
  slot, `availableCount`, `isOptimal`, and a stable sort by availability,
  highest first.
- **Sharing service** (`sharing.dfy`). It keeps per-user sharing settings,
  created lazily as `busy_only`, and the update rule
  `privacyLevel || shareLevel || 'busy_only'`. It projects events by tier
  (`busy_only`, `basic_info`, `full_details`), lets owners see all of their own
  events, and provides the future-only, start-ordered public schedule.
- **Calendar service** (`calendar.dfy`). It maps a Google event to a stored
  row (busy flag, all-day flag, `'Untitled'`, date fallbacks) and upserts rows
  keyed by (user, Google event id). A sync is the fold of those upserts over
  the fetched events, up to the first event whose dates do not resolve. It
  also holds the range query and the delete with its ownership check.
- **Google sign-in service** (`google_auth.dfy`). It links a login to a user:
  by Google id, then by email, otherwise as a new user. Its access-token
  bookkeeping uses the stored token while it is valid, otherwise renews it with
  a non-blank refresh token, and never replaces a refresh token with a blank
  one.

Shared pieces:

- `base.dfy`: options, results, users, and JavaScript truthiness and `trim`.
- `intervals.dfy`: the strict overlap test and the slot rule that both
  availability computations share.
- `ordering.dfy`: a stable sort by key. It stands for both `Array.prototype.sort`
  and the database's `orderBy`.

Modelling choices:

- **Time.** Times are integer milliseconds. Availability is an exact rational
  (`real`), not a float.
- **Tables as state.** Database tables are fields of store classes, which the
  methods update in place. Generated ids are counters.
- **Outside inputs.** The Google API's answers, the current time and the invite
  code are parameters.

Behaviours of the code worth knowing, modelled as written:

- `calculateAvailability` considers only events and unavailable blocks lying
  entirely inside the window (`startTime >= start` and `endTime <= end`), not
  every interval overlapping it. A busy event that starts before the window is
  ignored even when it covers the first slot (`Availability.StraddlingEventIgnored`).
- A participant id listed twice is counted twice (`Availability.DuplicateCountsTwice`).
  The meeting computation, by contrast, counts distinct busy users
  (`Meeting.RepeatBusyUserCountsOnce`).
- An empty participant list is not rejected: the code divides by zero. The
  model requires a non-empty list.
- A window with `start >= end` is not rejected either; it yields no slots.

## Model

| member | source | states |
|---|---|---|
| Base.FindUser | src/sharing/sharing.service.ts:122-132 | the user lookup finds a user exactly when one with that id exists, and returns that user |
| Base.TrimEmptyIffAllWhitespace | src/auth/google/google.service.ts:47 | `trim()` yields `''` exactly when every character is ECMAScript white space, which is what "blank refresh token" means |
| Intervals.SlotsInWindow | src/availability/availability.service.ts:86-99 | every generated slot is exactly the interval wide, starts no earlier than `start` and ends no later than `end`; the first one starts at `start` |
| Intervals.SlotsContiguous | src/availability/availability.service.ts:88-97 | each slot starts where the previous one ended, so slots are in time order |
| Intervals.SlotsDisjoint | src/availability/availability.service.ts:103-108 | under the strict overlap test no two generated slots overlap, neighbours sharing an endpoint included |
| Intervals.SlotsDropPartial | src/availability/availability.service.ts:88-90 | the slot that would follow the last one does not fit: a trailing partial slot is dropped, not shortened |
| Intervals.SlotsCount | src/availability/availability.service.ts:80-101 | slot k spans `[start + k*w, start + (k+1)*w)` and the number of slots is the number of whole widths in the window |
| Ordering.SortByPermutes | src/meeting/meeting.service.ts:275 | sorting returns a permutation of its input |
| Ordering.SortByAscending | src/meeting/meeting.service.ts:275 | sorting returns its input in ascending key order |
| Ordering.SortByStable | src/meeting/meeting.service.ts:275 | the sort is stable: elements of equal key keep their input order (here: chronological order) |
| Calendar.Normalize | src/calendar/calendar.service.ts:48-72 | a Google event maps to a row exactly when start and end resolve; busy iff transparency is not `'transparent'`; all-day iff the start has no `dateTime`; times fall back from `dateTime` to `date`; title is the summary or `'Untitled'`; description is kept only when non-empty; event id defaults to `''` |
| Calendar.InRange | src/calendar/calendar.service.ts:91-98 | the range query selects exactly the user's rows with `startDate <= startTime <= endDate` |
| Calendar.CalendarStore.Upsert | src/calendar/calendar.service.ts:44-74 | the row with key (user, Google event id) is updated in place keeping its id, or a new row with a fresh id is appended; the new table is `UpsertTable` of the old; the key set gains exactly that key; the table invariant (unique ids, unique keys) is kept |
| Calendar.UpsertTable | src/calendar/calendar.service.ts:44-74 | one upsert on a table: the written row is in the result, at most one row is added, and every row of another key is unchanged at its position |
| Calendar.UpsertTableKeys | src/calendar/calendar.service.ts:44-50 | an upsert adds exactly its key (user, Google event id) to the table's keys |
| Calendar.UpsertTableValid | src/calendar/calendar.service.ts:44-74 | an upsert keeps ids and keys unique and every id below the next id |
| Calendar.UpsertTableKnownKey | src/calendar/calendar.service.ts:44-74 | upserting a key already stored adds no row |
| Calendar.ResolvedPrefix | src/calendar/calendar.service.ts:43-58 | the columns of the fetched events in order, up to the first event whose start or end is an Invalid Date, which stops the loop |
| Calendar.ResolvedAll | src/calendar/calendar.service.ts:43-58 | the loop gets through every fetched event exactly when every event's start and end resolve |
| Calendar.ResolvedAt | src/calendar/calendar.service.ts:43-58 | the loop stops at event i exactly when i ends the resolved prefix; otherwise event i resolves to the prefix's element |
| Calendar.ResolvedKeys | src/calendar/calendar.service.ts:44-50 | the keys of the resolved events are exactly the keys (user, event id or `''`) of the fetched events the loop reached |
| Calendar.UpsertRows | src/calendar/calendar.service.ts:43-77 | the sync loop as a fold over the resolved events: exactly one saved row per upserted event |
| Calendar.UpsertRowsWritten | src/calendar/calendar.service.ts:44-76 | each saved row carries the user, the Google event id and the columns of its own event, in loop order |
| Calendar.UpsertRowsValid | src/calendar/calendar.service.ts:43-77 | a sync keeps the table invariant |
| Calendar.UpsertRowsFrom | src/calendar/calendar.service.ts:43-77 | one turn of the loop: upserting event i and then the rest gives the same table and saved rows as the fold from i |
| Calendar.UpsertRowsKeepsOthers | src/calendar/calendar.service.ts:43-77 | a sync removes no row, and every row whose key it does not upsert keeps its value and position |
| Calendar.UpsertRowsKeys | src/calendar/calendar.service.ts:43-77 | after a sync the keys are the old keys plus the upserted ones |
| Calendar.UpsertRowsKnownKeys | src/calendar/calendar.service.ts:43-77 | a sync whose keys are all stored already adds no row |
| Calendar.UpsertRowsKeepsFirst | src/calendar/calendar.service.ts:43-77 | the row written for the first event stays in the table when no later event has its key |
| Calendar.UpsertRowsStoresLast | src/calendar/calendar.service.ts:43-77 | the row saved for an event whose key no later event repeats is in the final table |
| Calendar.SyncedItems | src/calendar/calendar.service.ts:43-77 | the sync stated over the fetched events: keys grow by those of the events the loop reached, other rows keep value and position |
| Calendar.SyncedAllItems | src/calendar/calendar.service.ts:43-77 | when every event resolves: one saved row per event in fetch order with its columns, keys grow by exactly the events' keys, and no row is added when all were stored |
| Calendar.SyncedItemsStoreLast | src/calendar/calendar.service.ts:43-77 | when every event resolves, the row saved for the last event of each key is in the table |
| Calendar.CalendarStore.UpsertAll | src/calendar/calendar.service.ts:43-77 | the table becomes the fold of the upserts over the events resolved before the first unresolvable one (those upserts are kept when the loop fails); succeeds exactly when every event resolves, returning the rows written, one per event, in fetch order |
| Calendar.CalendarStore.SyncCalendarEvents | src/calendar/calendar.service.ts:16-84 | a missing or empty access token is the token error and changes nothing; with a token every failure is 'Failed to sync calendar events', and a failed fetch changes nothing; otherwise the table becomes the upsert fold over the resolved events and the keys grow by exactly their keys (also on failure); rows of other keys keep value and position; succeeds exactly when every event resolves, with the rows written in fetch order, the last row of each key stored, and no rows added when every key was stored already |
| Calendar.CalendarStore.GetCalendarEvents | src/calendar/calendar.service.ts:86-105 | returns exactly the user's events in the range, as a permutation of the selection, ordered by start time |
| Calendar.CalendarStore.GetCalendarEvent | src/calendar/calendar.service.ts:107-113 | returns the row with that id, or nothing when there is none |
| Calendar.CalendarStore.DeleteCalendarEvent | src/calendar/calendar.service.ts:115-130 | fails with 'Event not found', changing nothing, unless a row with that id belongs to the user; otherwise removes exactly that row |
| Availability.EventsInWindow | src/availability/availability.service.ts:23-29 | the event query keeps exactly the listed users' events lying entirely inside the window |
| Availability.BlocksInWindow | src/availability/availability.service.ts:32-38 | the unavailable-time query keeps exactly the listed users' blocks lying entirely inside the window |
| Availability.FreeCount | src/availability/availability.service.ts:45-64 | the count of free participants never exceeds the length of the participant list |
| Availability.GenerateTimeSlots | src/availability/availability.service.ts:80-101 | the loop produces exactly the slot sequence of the slot rule |
| Availability.CountAvailable | src/availability/availability.service.ts:45-64 | the loop counts the list entries with no overlapping busy event and no overlapping unavailable block |
| Availability.CalculateAvailability | src/availability/availability.service.ts:13-78 | one entry per generated slot, in chronological order, each the free count over the list length, within [0, 1]; `participantCount` is the list length |
| Availability.RateIsFraction | src/availability/availability.service.ts:69 | availability lies in [0, 1] |
| Availability.FreeCountExtremes | src/availability/availability.service.ts:47-63 | availability is 1 exactly when every listed participant is free, and 0 exactly when none is |
| Availability.NonBusyEventIgnored | src/availability/availability.service.ts:48-53 | inserting an event with `isBusy == false` anywhere changes no count |
| Availability.MoreEventsNeverRaise | src/availability/availability.service.ts:47-63 | more events can only lower the count |
| Availability.WithoutIntervalsFullyAvailable | src/availability/availability.service.ts:47-69 | when no listed participant has an event or unavailable block, every slot counts every entry free (availability 1) |
| Availability.StraddlingEventIgnored | src/availability/availability.service.ts:23-29 | an event starting before the window is not selected, so it affects no slot |
| Availability.DuplicateCountsTwice | src/availability/availability.service.ts:47-64 | a free participant listed twice adds two to the count |
| Meeting.MeetingWithCode | src/meeting/meeting.service.ts:45-48 | finds a meeting exactly when one has that invite code |
| Meeting.MeetingWithId | src/meeting/meeting.service.ts:73-76 | finds a meeting exactly when one has that id |
| Meeting.ParticipantsOf | src/meeting/meeting.service.ts:47 | the included participants are exactly the meeting's rows |
| Meeting.JoinRows | src/meeting/meeting.service.ts:55-67 | after a join the user is a participant; a user already present adds nothing; otherwise exactly the row (meeting, user, status) is appended |
| Meeting.JoinIdempotent | src/meeting/meeting.service.ts:55-67 | joining twice leaves the same table as joining once, whatever the second status |
| Meeting.JoinKeepsUnique | src/meeting/meeting.service.ts:55-67 | joins keep every user at most once per meeting |
| Meeting.Roster | src/meeting/meeting.service.ts:166-172 | the roster lists exactly the rows whose user exists, with that user's email and the row's status |
| Meeting.WithStatus | src/meeting/meeting.service.ts:103-111 | only the (meeting, user) row's status changes; every row keeps its meeting and user |
| Meeting.SameKeysKeepMembership | src/meeting/meeting.service.ts:103-111 | a status change alters neither membership nor its uniqueness |
| Meeting.UpcomingBusy | src/meeting/meeting.service.ts:183-209 | a user's busy slots are exactly their busy events starting at or after now |
| Meeting.BusySlots | src/meeting/meeting.service.ts:200-210 | busy slots come only from busy, upcoming events of participants whose user and user id are present, and every such event yields one |
| Meeting.RepeatBusyUserCountsOnce | src/meeting/meeting.service.ts:255-259 | a user with several busy slots overlapping a slot counts once |
| Meeting.TimeOrderedShape | src/meeting/meeting.service.ts:247-252 | before ranking, slots are 30 minutes wide, inside the meeting window, in strictly increasing start order |
| Meeting.ChronologicalSlots | src/meeting/meeting.service.ts:246-274 | the loop builds exactly the window's 30-minute slots in chronological order, each annotated with the count of participants not busy in it |
| Meeting.CalculateAvailabilitySlots | src/meeting/meeting.service.ts:228-276 | the result is a permutation of the chronological annotated slots, ordered by availability highest first; equal availability keeps chronological order; each slot is 30 minutes inside the window; `availability = availableCount / participantCount`; `isOptimal` iff everyone is available |
| Meeting.RankedSlots | src/meeting/meeting.service.ts:240-275 | the same ordering facts, stated about the ranking function: a permutation of the chronological slots, by availability highest first, ties chronological |
| Meeting.RankedSlotsShape | src/meeting/meeting.service.ts:246-265 | every ranked slot is 30 minutes wide inside the window and carries its available count, its ratio of the participant count and the optimal flag iff everyone is free |
| Meeting.BusyUsersBound | src/meeting/meeting.service.ts:255-261 | a slot never has more distinct busy users than the meeting has participant rows |
| Meeting.SlotForBounded | src/meeting/meeting.service.ts:261-268 | with at most `participantCount` busy users, the available count is in [0, participantCount] and availability in [0, 1] |
| Meeting.RankedSlotsBounded | src/meeting/meeting.service.ts:213-218 | every ranked slot of a meeting has between 0 and all participants available |
| Meeting.MeetingStore.CreateMeeting | src/meeting/meeting.service.ts:14-39 | a new meeting with the request's fields, timezone defaulting to `'UTC'`, and the creator as its one `'accepted'` participant; an invite code already in use is refused; store invariants kept |
| Meeting.MeetingStore.Join | src/meeting/meeting.service.ts:41-70 | an unknown code gives 'Meeting not found' and no change; otherwise returns the meeting with its rows as read before the join and applies the join |
| Meeting.MeetingStore.JoinMeeting | src/meeting/meeting.service.ts:41-70 | as `Join`, with new participants `'pending'` |
| Meeting.MeetingStore.JoinMeetingByCode | src/meeting/meeting.service.ts:114-143 | as `Join`, with new participants `'accepted'` |
| Meeting.MeetingStore.GetMeetingDetail | src/meeting/meeting.service.ts:72-83 | 'Meeting not found' exactly when no meeting has that id; otherwise that meeting with its rows |
| Meeting.MeetingStore.GetMeetingByCode | src/meeting/meeting.service.ts:85-96 | 'Meeting not found' exactly when no meeting has that code; otherwise that meeting with its rows |
| Meeting.MeetingStore.UpdateParticipantStatus | src/meeting/meeting.service.ts:98-112 | a missing (meeting, user) row is refused without change; otherwise only that row's status changes |
| Meeting.MeetingStore.GetMeetingParticipants | src/meeting/meeting.service.ts:145-173 | 'Meeting not found' for an unknown code; otherwise the roster of the meeting's rows |
| Meeting.MeetingStore.GetMeetingAvailability | src/meeting/meeting.service.ts:175-226 | 'Meeting not found' for an unknown code; otherwise the participant count (never zero: the creator is a participant), the busy slots, and ranked slots each with between 0 and all participants available |
| Sharing.LevelFields | src/sharing/sharing.service.ts:86-116 | every tier shows times and busy flag; title is shown from `basic_info` up; description only at `full_details` |
| Sharing.Project | src/sharing/sharing.service.ts:86-116 | a projected event carries the event's own values in exactly the tier's columns (plus the id where listed) |
| Sharing.OwnedBy | src/sharing/sharing.service.ts:80-82 | selects exactly the owner's events |
| Sharing.Upcoming | src/sharing/sharing.service.ts:149-153 | selects exactly the user's events with `endTime >= now` |
| Sharing.RequestedLevel | src/sharing/sharing.service.ts:36-39 | `privacyLevel`, else `shareLevel`, else `'busy_only'` (empty counts as absent); never empty; a known level when the inputs are |
| Sharing.PublicOrder | src/sharing/sharing.service.ts:149-161 | the user's upcoming events as a permutation, ordered by start time |
| Sharing.GetPublicEvents | src/sharing/sharing.service.ts:145-203 | for a known tier, one view per upcoming event in start order, showing the id and the tier's columns; an unknown tier yields `[]` |
| Sharing.SharingStore.GetSettings | src/sharing/sharing.service.ts:12-29 | an existing record is returned unchanged; otherwise a `busy_only` record with no allowed users is created and returned; the record is the user's and its level is never empty |
| Sharing.SharingStore.UpdateSettings | src/sharing/sharing.service.ts:31-64 | the record becomes the requested level and the allowed users (a given list, even an empty one, is kept; an absent one becomes `[]`), created if absent; nothing else changes |
| Sharing.SharingStore.GetCalendarDataByShareLevel | src/sharing/sharing.service.ts:66-119 | nothing when the owner has no settings, even for the owner; the owner sees every own event whole; others see every owner event in the columns of the owner's tier; an unknown tier gives nothing |
| Sharing.SharingStore.GetUserSchedule | src/sharing/sharing.service.ts:121-143 | 'User not found' for an unknown user; otherwise the user's email, the stored (or newly created default) level, never empty, and the public events under it |
| Sharing.DefaultScheduleShowsBusyOnly | src/sharing/sharing.service.ts:148-169 | under `busy_only` the schedule shows only id, times and busy flag |
| Sharing.LevelsNested | src/sharing/sharing.service.ts:86-116 | each tier shows strictly more than the one below it |
| GoogleAuth.ExpiryFromNow | src/auth/google/google.service.ts:42-44 | `expiresIn` seconds from now when given and non-zero, else one hour; in the future for non-negative input |
| GoogleAuth.InitialRefreshToken | src/auth/google/google.service.ts:82-85 | the stored refresh token is usable exactly when the login's is, and is either the login's own or `''` |
| GoogleAuth.NewAccount | src/auth/google/google.service.ts:77-89 | a new account carries the login's Google id, email, access token and expiry; its refresh token is usable iff the login's was |
| GoogleAuth.LoginUpdate | src/auth/google/google.service.ts:40-54 | a login always replaces access token and expiry; it replaces the refresh token only with a non-blank one, so a usable refresh token is never lost |
| GoogleAuth.RefreshLogins | src/auth/google/google.service.ts:57-62 | every account keeps its id, owner and Google id; those with the login's Google id take its access token and expiry, and a usable refresh token is never lost; the others are untouched |
| GoogleAuth.AccessTokenStep | src/auth/google/google.service.ts:183-269 | uses the stored token iff it is non-empty and unexpired; renews iff it is not, the refresh token is non-blank, and the refresh returns an access token; a renewal keeps the old refresh token when none comes back and sets the expiry to `expiry_date` or now plus one hour; otherwise gives up |
| GoogleAuth.RenewedTokenIsReused | src/auth/google/google.service.ts:183-247 | a renewed token is used as stored until its new expiry |
| GoogleAuth.LoginTokenIsUsed | src/auth/google/google.service.ts:40-45 | after a login, its access token is used as stored until it expires |
| GoogleAuth.BlankRefreshTokenGivesUp | src/auth/google/google.service.ts:199-269 | an expired token with a blank refresh token always gives up |
| GoogleAuth.FirstLinkedUser | src/auth/google/google.service.ts:25-33 | finds the first user, in table order, owning an account with that Google id (no earlier user owns one), or establishes that no user does |
| GoogleAuth.UserWithEmail | src/auth/google/google.service.ts:68-70 | finds a user with that email, or establishes that none exists |
| GoogleAuth.FirstAccountOf | src/auth/google/google.service.ts:162-164 | the position of the user's first Google account, or none |
| GoogleAuth.NoLinkedUserIffNoAccount | src/auth/google/google.service.ts:25-35 | when accounts belong to known users, no user is linked exactly when no account has the Google id |
| GoogleAuth.GoogleAuthStore.ValidateOrCreateUser | src/auth/google/google.service.ts:12-159 | lookup by Google id first (refreshing those accounts), then by email (adding an account), else a new user with an account; the returned user owns an account with that Google id; table invariants kept |
| GoogleAuth.GoogleAuthStore.AddAccount | src/auth/google/google.service.ts:98-100 | appends one new account for an existing user |
| GoogleAuth.GoogleAuthStore.GetAccessToken | src/auth/google/google.service.ts:161-270 | nothing and no change without an account; otherwise the first account's token step: stored token (no change), renewed token (only that account updated), or nothing (no change) |

## Left out

- Database access, HTTP controllers, DTO validation, the JWT and Passport layers, and `console.log` output are not modelled. The tables are sequences and maps in the store classes.
- Generated ids are counters; database string ids (cuid) and `createdAt`/`updatedAt` columns are not modelled.
- The Google Calendar `events.list` call and the OAuth `refreshAccessToken` call are parameters (`FetchOutcome`, `RefreshOutcome`). So are the current time and the access token that `syncCalendarEvents` obtains from the sign-in service.
- `generateInviteCode` depends on `Math.random`; the invite code is a parameter of `CreateMeeting`.
- Invite codes are taken to be unique, since the service looks meetings up by code with `findUnique`. A clash is modelled as an error.
- The database schema is not part of this model. The `syncedAt` of a newly created row is taken to be the sync time, as its column default would give.
- A non-empty date string that does not parse is not modelled: a present `dateTime` or `date` is taken as the instant it denotes.
- JavaScript `Date` local-time arithmetic is not modelled: `setMinutes(+30)` is plus 30 minutes, so daylight-saving shifts are out of scope. Floating-point division is modelled as exact rational division.
- The participant list of `toDetailDto` (id, email, status read from participant rows) is modelled as the raw participant rows.
- Rows with equal sort keys keep table order in the database `orderBy` queries; the database does not promise this.
- Availability.GenerateTimeSlots: requires a positive interval. The only caller passes 30.
- Availability.CalculateAvailability: requires a non-empty participant list. The code would divide by zero.
- Meeting.CalculateAvailabilitySlots: requires a positive participant count. The only caller passes the meeting's participant rows, which always include the creator.
- The refresh token sent to Google and the OAuth client configuration are not modelled; only the outcome of the refresh is.
