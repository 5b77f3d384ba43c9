/** `CalendarService` of src/services/CalendarService.js: importing the
    user's primary Google calendar into the `calendars` collection and
    syncing it again later. The Google sign-in (scopes and access token) and
    the Calendar API request are outcomes passed in; the collections are
    maps; `now` and the six-months-ago stamp are Luxon ISO strings passed in. */
module CalendarService {
  import opened Wrappers
  import opened JsString
  import UserService

  /* ---------------- Google's events and ours ---------------- */

  /** `start` / `end` of a Google event: a timed event has `dateTime`, an
      all-day one `date`. */
  datatype GoogleTime = GoogleTime(dateTime: Option<string>, date: Option<string>)

  /** The fields of a Calendar API event the service reads; `None` is a
      missing field. */
  datatype GoogleEvent = GoogleEvent(
    id: Option<string>,
    summary: Option<string>,
    description: Option<string>,
    location: Option<string>,
    start: Option<GoogleTime>,
    end: Option<GoogleTime>,
    status: Option<string>,
    htmlLink: Option<string>,
    updated: Option<string>)

  /** An event as the app stores it. */
  datatype CalendarEvent = CalendarEvent(
    eventId: string,
    externalEventId: Option<string>,
    title: string,
    description: string,
    location: string,
    startTime: Option<string>,
    endTime: Option<string>,
    isAllDay: bool,
    status: string,
    url: string,
    lastModified: string)

  /** `googleEvent.id` in a template literal: a missing id prints as
      `undefined`. */
  function IdText(id: Option<string>): string {
    if id.Some? then id.value else "undefined"
  }

  /** `t?.dateTime || t?.date`. */
  function TimeOf(t: Option<GoogleTime>): (r: Option<string>)
    ensures t.None? ==> r.None?
    ensures t.Some? && Truthy(t.value.dateTime) ==> r == t.value.dateTime
    ensures t.Some? && !Truthy(t.value.dateTime) ==> r == t.value.date
  {
    if t.None? then None
    else if Truthy(t.value.dateTime) then t.value.dateTime
    else t.value.date
  }

  /** `!t?.dateTime`. */
  predicate NoDateTime(t: Option<GoogleTime>) {
    t.None? || !Truthy(t.value.dateTime)
  }

  /** `transformGoogleEvent`: the stored form of a Google event, with the
      source's defaults for missing or empty fields; `now` is the stamp used
      when Google gives no `updated`. */
  function TransformGoogleEvent(g: GoogleEvent, now: string): (e: CalendarEvent)
    ensures e.eventId == "google-" + IdText(g.id) && e.externalEventId == g.id
    ensures e.title == (if Truthy(g.summary) then g.summary.value else "Untitled Event")
    ensures e.description == OrElse(g.description, "") && e.location == OrElse(g.location, "")
    ensures e.url == OrElse(g.htmlLink, "")
    ensures e.status == OrElse(g.status, "confirmed") && e.lastModified == OrElse(g.updated, now)
    ensures e.isAllDay <==> NoDateTime(g.start)
    ensures !e.isAllDay ==> e.startTime == g.start.value.dateTime && Truthy(e.startTime)
    ensures e.isAllDay && g.start.Some? ==> e.startTime == g.start.value.date
    ensures g.start.None? ==> e.startTime.None? && e.isAllDay
    ensures e.endTime == TimeOf(g.end)
  {
    CalendarEvent(
      "google-" + IdText(g.id),
      g.id,
      OrElse(g.summary, "Untitled Event"),
      OrElse(g.description, ""),
      OrElse(g.location, ""),
      TimeOf(g.start),
      TimeOf(g.end),
      NoDateTime(g.start),
      OrElse(g.status, "confirmed"),
      OrElse(g.htmlLink, ""),
      OrElse(g.updated, now))
  }

  /** Two Google events with ids get the same stored id exactly when their
      ids agree; an event without an id shares its stored id with one whose
      id is the text `undefined`. */
  lemma EventIdInjective(a: GoogleEvent, b: GoogleEvent, now: string)
    requires a.id.Some? && b.id.Some?
    ensures TransformGoogleEvent(a, now).eventId == TransformGoogleEvent(b, now).eventId <==> a.id == b.id
  {
    var pa, pb := "google-" + a.id.value, "google-" + b.id.value;
    if pa == pb {
      assert a.id.value == pa[7..] == pb[7..] == b.id.value;
    }
  }

  lemma MissingIdCollides(a: GoogleEvent, b: GoogleEvent, now: string)
    requires a.id.None? && b.id == Some("undefined")
    ensures TransformGoogleEvent(a, now).eventId == TransformGoogleEvent(b, now).eventId
  {
  }

  /** `(data.items || []).map(transformGoogleEvent)`. */
  function Transformed(items: Option<seq<GoogleEvent>>, now: string): (r: seq<CalendarEvent>)
    ensures items.None? ==> r == []
    ensures items.Some? ==> (|r| == |items.value|
              && forall i :: 0 <= i < |r| ==> r[i] == TransformGoogleEvent(items.value[i], now))
  {
    if items.None? then []
    else seq(|items.value|, i requires 0 <= i < |items.value| => TransformGoogleEvent(items.value[i], now))
  }

  /* ---------------- the events object ---------------- */

  /** The stored ids of `events`. */
  function Ids(events: seq<CalendarEvent>): set<string> {
    set i | 0 <= i < |events| :: events[i].eventId
  }

  /** `events.forEach(event => { eventsObject[event.eventId] = event })`:
      one entry per stored id, each holding an event with that id. */
  function EventsObject(events: seq<CalendarEvent>): (m: map<string, CalendarEvent>)
    ensures m.Keys == Ids(events)
    ensures forall id :: id in m ==> m[id].eventId == id && m[id] in events
    decreases |events|
  {
    if |events| == 0 then map[]
    else
      var init := events[..|events| - 1];
      var last := events[|events| - 1];
      assert events == init + [last];
      IdsSnoc(events);
      EventsObject(init)[last.eventId := last]
  }

  /** When several events share a stored id, the one that comes last is the
      one kept. */
  lemma {:induction false} EventsObjectLastWins(events: seq<CalendarEvent>, i: nat)
    requires i < |events|
    requires forall j :: i < j < |events| ==> events[j].eventId != events[i].eventId
    ensures events[i].eventId in EventsObject(events) && EventsObject(events)[events[i].eventId] == events[i]
    decreases |events|
  {
    var init := events[..|events| - 1];
    if i < |init| {
      forall j | i < j < |init|
        ensures init[j].eventId != init[i].eventId
      {
        assert init[j] == events[j];
      }
      EventsObjectLastWins(init, i);
    }
  }

  /** The ids of `events` are pairwise different. */
  predicate DistinctIds(events: seq<CalendarEvent>) {
    forall i, j :: 0 <= i < j < |events| ==> events[i].eventId != events[j].eventId
  }

  /** Appending an event adds its id. */
  lemma IdsSnoc(events: seq<CalendarEvent>)
    requires |events| > 0
    ensures Ids(events) == Ids(events[..|events| - 1]) + {events[|events| - 1].eventId}
  {
    var init := events[..|events| - 1];
    forall id | id in Ids(events)
      ensures id in Ids(init) + {events[|events| - 1].eventId}
    {
      var i :| 0 <= i < |events| && events[i].eventId == id;
      if i < |init| {
        assert init[i] == events[i];
      }
    }
    forall id | id in Ids(init)
      ensures id in Ids(events)
    {
      var i :| 0 <= i < |init| && init[i].eventId == id;
      assert events[i] == init[i];
    }
  }

  /** With a fresh last id, `events` has distinct ids exactly when the
      events before it do. */
  lemma DistinctSnoc(events: seq<CalendarEvent>)
    requires |events| > 0
    ensures var init := events[..|events| - 1];
            DistinctIds(events) <==> DistinctIds(init) && events[|events| - 1].eventId !in Ids(init)
  {
    var init := events[..|events| - 1];
    var last := events[|events| - 1];
    if DistinctIds(events) {
      forall i, j | 0 <= i < j < |init|
        ensures init[i].eventId != init[j].eventId
      {
        assert init[i] == events[i] && init[j] == events[j];
      }
      forall k | 0 <= k < |init|
        ensures init[k].eventId != last.eventId
      {
        assert events[k] == init[k];
      }
    }
    if DistinctIds(init) && last.eventId !in Ids(init) {
      forall i, j | 0 <= i < j < |events|
        ensures events[i].eventId != events[j].eventId
      {
        assert events[i] == init[i];
        if j < |init| {
          assert events[j] == init[j];
        }
      }
    }
  }

  /** The stored object holds as many events as were fetched exactly when no
      two share an id; otherwise it holds fewer, while the result still
      reports the number fetched. */
  lemma {:induction false} EventsObjectSize(events: seq<CalendarEvent>)
    ensures |EventsObject(events)| <= |events|
    ensures DistinctIds(events) <==> |EventsObject(events)| == |events|
    decreases |events|
  {
    assert |EventsObject(events)| == |Ids(events)|;
    if |events| > 0 {
      var init := events[..|events| - 1];
      EventsObjectSize(init);
      assert |EventsObject(init)| == |Ids(init)|;
      IdsSnoc(events);
      DistinctSnoc(events);
    }
  }

  /* ---------------- calendar documents ---------------- */

  /** A calendar's `source`; `kind` is its `type` field. */
  datatype Source = Source(kind: Option<string>, address: string, provider: string)

  /** A calendar's `sync` map. */
  datatype SyncState = SyncState(
    lastSyncedAt: Option<string>,
    syncStatus: Option<string>,
    errorMessage: Option<string>,
    rangeStart: Option<string>)

  /** A calendar's `source` field: missing, `null`, or a source map. */
  datatype SourceField = NoSource | NullSource | HasSource(value: Source)

  /** A document of the `calendars` collection. */
  datatype CalendarDoc = CalendarDoc(
    calendarId: string,
    name: string,
    description: string,
    source: SourceField,
    defaultColor: string,
    events: map<string, CalendarEvent>,
    sync: SyncState,
    subscribingGroups: seq<string>,
    createdBy: string,
    createdAt: string,
    updatedAt: string,
    isActive: bool)

  type Calendars = map<string, CalendarDoc>

  /** The clock readings the service takes: `DateTime.now().toISO()` and the
      same moment six months earlier. */
  datatype Clock = Clock(now: string, sixMonthsAgo: string)

  const GoogleBlue := "#4285F4"
  const CalendarName := "My Google Calendar"

  /** `createCalendarDocument`'s document. */
  function NewCalendarDoc(calendarId: string, userId: string, events: seq<CalendarEvent>, clock: Clock): (d: CalendarDoc)
    ensures d.calendarId == calendarId && d.createdBy == userId && d.isActive
    ensures d.events == EventsObject(events)
    ensures d.source == HasSource(Source(Some("google"), "primary", "google"))
    ensures d.sync == SyncState(Some(clock.now), Some("success"), None, Some(clock.sixMonthsAgo))
    ensures d.subscribingGroups == [] && d.createdAt == d.updatedAt == clock.now
  {
    CalendarDoc(
      calendarId, CalendarName, "Imported from Google Calendar",
      HasSource(Source(Some("google"), "primary", "google")),
      GoogleBlue,
      EventsObject(events),
      SyncState(Some(clock.now), Some("success"), None, Some(clock.sixMonthsAgo)),
      [], userId, clock.now, clock.now, true)
  }

  /** The entry added to the user's `calendars` array. */
  function CalendarRef(calendarId: string): UserService.Value {
    UserService.Obj(map[
      "calendarId" := UserService.Str(calendarId),
      "name" := UserService.Str(CalendarName),
      "permissions" := UserService.Str("owner"),
      "color" := UserService.Str(GoogleBlue)])
  }

  /* ---------------- importGoogleCalendar ---------------- */

  /** Why an import failed: an error thrown with a message, or a failed
      write of the user document. */
  datatype Failure = Thrown(message: string) | UserWriteFailed(error: UserService.UserError)

  /** What `importGoogleCalendar` resolves to. */
  datatype ImportOutcome =
    | Imported(eventCount: nat, calendarId: string)
    | NoEvents
    | ImportFailed(failure: Failure)

  /** An import's outcome and both collections afterwards. */
  datatype ImportRun = ImportRun(outcome: ImportOutcome, calendars: Calendars, users: UserService.Store)

  const NoTokenMessage := "Failed to get Google access token"

  /** The id of the calendar an import writes. */
  function PrimaryId(userId: string): string {
    "google-primary-" + userId
  }

  /** Everything before the first write: the scope request, the token and
      the API call, giving the fetched events or the failure. */
  function Fetch(scopes: Result<(), string>, token: Result<Option<string>, string>,
                 fetched: Result<Option<seq<GoogleEvent>>, string>, now: string, noToken: string)
    : (r: Result<seq<CalendarEvent>, string>)
    ensures token.Ok? && !Truthy(token.value) && scopes.Ok? ==> r == Err(noToken)
    ensures r.Ok? <==> scopes.Ok? && token.Ok? && Truthy(token.value) && fetched.Ok?
    ensures r.Ok? ==> r.value == Transformed(fetched.value, now)
  {
    if scopes.Err? then Err(scopes.error)
    else if token.Err? then Err(token.error)
    else if !Truthy(token.value) then Err(noToken)
    else if fetched.Err? then Err(fetched.error)
    else Ok(Transformed(fetched.value, now))
  }

  /** `importGoogleCalendar`: nothing is written when the sign-in, token or
      request fails or there are no events; otherwise the calendar document
      is written and then the user's reference to it. */
  function ImportGoogleCalendar(
    userId: string, scopes: Result<(), string>, token: Result<Option<string>, string>,
    fetched: Result<Option<seq<GoogleEvent>>, string>, clock: Clock,
    calendars: Calendars, users: UserService.Store): (r: ImportRun)
    ensures !r.outcome.Imported? && !(r.outcome.ImportFailed? && r.outcome.failure.UserWriteFailed?) ==>
              r.calendars == calendars && r.users == users
    ensures r.outcome.NoEvents? <==> Fetch(scopes, token, fetched, clock.now, NoTokenMessage) == Ok([])
    ensures r.outcome.Imported? ==>
              && fetched.Ok? && fetched.value.Some? && PrimaryId(userId) in r.calendars
              && userId in users && userId in r.users
              && r.outcome.calendarId == PrimaryId(userId)
              && r.calendars == calendars[PrimaryId(userId) := r.calendars[PrimaryId(userId)]]
              && r.calendars[PrimaryId(userId)].createdBy == userId
              && r.calendars[PrimaryId(userId)] == NewCalendarDoc(PrimaryId(userId), userId,
                                                                  Transformed(fetched.value, clock.now), clock)
              && r.calendars[PrimaryId(userId)].events.Keys == Ids(Transformed(fetched.value, clock.now))
              && r.outcome.eventCount == |fetched.value.value|
              && r.users == users[userId := r.users[userId]]
              && UserService.WroteOnly(users[userId], r.users[userId], "calendars", clock.now)
              && UserService.Appended(users[userId], r.users[userId], "calendars", CalendarRef(PrimaryId(userId)))
    ensures r.outcome.ImportFailed? && r.outcome.failure.UserWriteFailed? ==>
              && r.users == users
              && fetched.Ok? && fetched.value.Some?
              && r.calendars == calendars[PrimaryId(userId) := NewCalendarDoc(PrimaryId(userId), userId,
                                                                  Transformed(fetched.value, clock.now), clock)]
              && r.calendars[PrimaryId(userId)].createdBy == userId
  {
    match Fetch(scopes, token, fetched, clock.now, NoTokenMessage)
    case Err(m) => ImportRun(ImportFailed(Thrown(m)), calendars, users)
    case Ok(events) =>
      if |events| == 0 then ImportRun(NoEvents, calendars, users)
      else
        var id := PrimaryId(userId);
        var written := calendars[id := NewCalendarDoc(id, userId, events, clock)];
        match UserService.AddCalendarToUser(users, userId, CalendarRef(id), clock.now)
        case Err(e) => ImportRun(ImportFailed(UserWriteFailed(e)), written, users)
        case Ok(w) => ImportRun(Imported(|events|, id), written, w.store)
  }

  /** Importing for a user with no user document leaves the calendar
      document behind and fails. */
  lemma ImportWithoutUser(
    userId: string, token: string, items: seq<GoogleEvent>, clock: Clock,
    calendars: Calendars, users: UserService.Store)
    requires userId !in users && token != "" && |items| > 0
    ensures var r := ImportGoogleCalendar(userId, Ok(()), Ok(Some(token)), Ok(Some(items)), clock, calendars, users);
            && r.outcome == ImportFailed(UserWriteFailed(UserService.NoDocument))
            && r.calendars == calendars[PrimaryId(userId) := NewCalendarDoc(PrimaryId(userId), userId,
                                                           Transformed(Some(items), clock.now), clock)]
  {
  }

  /** Importing twice overwrites the calendar document but appends a second
      reference to it to the user's `calendars` array. */
  lemma ReimportDuplicatesReference(
    userId: string, token: string, items: seq<GoogleEvent>, clock: Clock, later: Clock,
    calendars: Calendars, users: UserService.Store)
    requires userId in users && token != "" && |items| > 0
    requires UserService.Lookup(users[userId], "calendars").Some?
    requires UserService.Lookup(users[userId], "calendars").value.Arr?
    ensures var first := ImportGoogleCalendar(userId, Ok(()), Ok(Some(token)), Ok(Some(items)), clock, calendars, users);
            var second := ImportGoogleCalendar(userId, Ok(()), Ok(Some(token)), Ok(Some(items)), later,
                                               first.calendars, first.users);
            var before := users[userId]["calendars"].items;
            && first.outcome.Imported? && second.outcome.Imported?
            && second.users[userId]["calendars"] == UserService.Arr(before + [CalendarRef(PrimaryId(userId))]
                                                                       + [CalendarRef(PrimaryId(userId))])
  {
    var first := ImportGoogleCalendar(userId, Ok(()), Ok(Some(token)), Ok(Some(items)), clock, calendars, users);
    ImportAppendsReference(userId, token, items, clock, calendars, users);
    ImportAppendsReference(userId, token, items, later, first.calendars, first.users);
  }

  /** A successful import puts one reference at the end of an existing
      `calendars` array. */
  lemma ImportAppendsReference(
    userId: string, token: string, items: seq<GoogleEvent>, clock: Clock,
    calendars: Calendars, users: UserService.Store)
    requires userId in users && token != "" && |items| > 0
    requires UserService.Lookup(users[userId], "calendars").Some?
    requires UserService.Lookup(users[userId], "calendars").value.Arr?
    ensures var r := ImportGoogleCalendar(userId, Ok(()), Ok(Some(token)), Ok(Some(items)), clock, calendars, users);
            && r.outcome.Imported? && userId in r.users
            && UserService.Lookup(r.users[userId], "calendars")
                 == Some(UserService.Arr(users[userId]["calendars"].items + [CalendarRef(PrimaryId(userId))]))
  {
    UserService.AddAppends(users, userId, "calendars", CalendarRef(PrimaryId(userId)), clock.now);
  }

  /* ---------------- syncCalendar ---------------- */

  const UnsupportedMessage := "Only Google Calendar sync is supported currently"
  const NoSyncTokenMessage := "Failed to get Google access token for sync"

  /** What reading `calendar.source.type` throws when `source` is missing. */
  const NoSourceMessage := "Cannot read property 'type' of undefined"

  /** What reading `calendar.source.type` throws when `source` is `null`. */
  const NullSourceMessage := "Cannot read property 'type' of null"

  function NotFoundMessage(calendarId: string): string {
    "Calendar " + calendarId + " not found"
  }

  /** The checks and fetch of a sync on an existing document. */
  function SyncAttempt(doc: CalendarDoc, token: Result<Option<string>, string>,
                       fetched: Result<Option<seq<GoogleEvent>>, string>, now: string)
    : (r: Result<seq<CalendarEvent>, string>)
    ensures doc.source.NoSource? ==> r == Err(NoSourceMessage)
    ensures doc.source.NullSource? ==> r == Err(NullSourceMessage)
    ensures doc.source.HasSource? && doc.source.value.kind != Some("google") ==> r == Err(UnsupportedMessage)
    ensures doc.source.HasSource? && doc.source.value.kind == Some("google") ==>
              r == Fetch(Ok(()), token, fetched, now, NoSyncTokenMessage)
  {
    if doc.source.NoSource? then Err(NoSourceMessage)
    else if doc.source.NullSource? then Err(NullSourceMessage)
    else if doc.source.value.kind != Some("google") then Err(UnsupportedMessage)
    else Fetch(Ok(()), token, fetched, now, NoSyncTokenMessage)
  }

  /** The document after a successful sync: the fetched events replace the
      old ones; `sync.errorMessage` is not touched. */
  function Synced(doc: CalendarDoc, events: seq<CalendarEvent>, now: string): CalendarDoc {
    doc.(events := EventsObject(events),
         sync := doc.sync.(lastSyncedAt := Some(now), syncStatus := Some("success")),
         updatedAt := now)
  }

  /** The document after a failed sync: the events stay, the status is
      `error` with the message. */
  function SyncFailed(doc: CalendarDoc, message: string, now: string): CalendarDoc {
    doc.(sync := doc.sync.(lastSyncedAt := Some(now), syncStatus := Some("error"), errorMessage := Some(message)),
         updatedAt := now)
  }

  /** A sync's outcome (the event count, or the message it rethrows) and the
      collection afterwards. */
  datatype SyncRun = SyncRun(outcome: Result<nat, string>, calendars: Calendars)

  /** `syncCalendar`: replace the events of a Google calendar with freshly
      fetched ones, or record the failure on the document; a missing
      document fails without any write, since recording the error on it
      fails too and that failure is swallowed. */
  function SyncCalendar(calendarId: string, calendars: Calendars, token: Result<Option<string>, string>,
                        fetched: Result<Option<seq<GoogleEvent>>, string>, now: string): (r: SyncRun)
    ensures calendarId !in calendars ==> r == SyncRun(Err(NotFoundMessage(calendarId)), calendars)
    ensures calendarId in calendars ==>
              calendarId in r.calendars && r.calendars == calendars[calendarId := r.calendars[calendarId]]
    ensures calendarId in calendars && r.outcome.Ok? ==>
              && fetched.Ok? && r.outcome.value == (if fetched.value.Some? then |fetched.value.value| else 0)
              && var (before, after) := (calendars[calendarId], r.calendars[calendarId]);
                 && after.events == EventsObject(Transformed(fetched.value, now))
                 && after.events.Keys == Ids(Transformed(fetched.value, now))
                 && after.sync.syncStatus == Some("success") && after.sync.lastSyncedAt == Some(now)
                 && after.sync.errorMessage == before.sync.errorMessage
                 && after.sync.rangeStart == before.sync.rangeStart
                 && after.updatedAt == now
                 && after.(events := before.events, sync := before.sync, updatedAt := before.updatedAt) == before
    ensures calendarId in calendars && r.outcome.Err? ==>
              && var (before, after) := (calendars[calendarId], r.calendars[calendarId]);
                 && after.events == before.events
                 && after.sync.syncStatus == Some("error") && after.sync.errorMessage == Some(r.outcome.error)
                 && after.sync.lastSyncedAt == Some(now) && after.updatedAt == now
                 && after.sync.rangeStart == before.sync.rangeStart
                 && after.(sync := before.sync, updatedAt := before.updatedAt) == before
  {
    if calendarId !in calendars then SyncRun(Err(NotFoundMessage(calendarId)), calendars)
    else
      var doc := calendars[calendarId];
      match SyncAttempt(doc, token, fetched, now)
      case Ok(events) => SyncRun(Ok(|events|), calendars[calendarId := Synced(doc, events, now)])
      case Err(m) => SyncRun(Err(m), calendars[calendarId := SyncFailed(doc, m, now)])
  }

  /** A calendar that is not a Google calendar fails to sync whatever the
      token and the API would have given, and only its status changes. */
  lemma NonGoogleNeverSyncs(calendarId: string, calendars: Calendars,
                            token1: Result<Option<string>, string>, fetched1: Result<Option<seq<GoogleEvent>>, string>,
                            token2: Result<Option<string>, string>, fetched2: Result<Option<seq<GoogleEvent>>, string>,
                            now: string)
    requires calendarId in calendars
    requires !calendars[calendarId].source.HasSource? || calendars[calendarId].source.value.kind != Some("google")
    ensures SyncCalendar(calendarId, calendars, token1, fetched1, now) == SyncCalendar(calendarId, calendars, token2, fetched2, now)
    ensures SyncCalendar(calendarId, calendars, token1, fetched1, now).outcome.Err?
  {
  }

  /** After a failed sync, a successful one reports `success` but keeps the
      earlier error message on the document. */
  lemma StaleErrorMessage(calendarId: string, calendars: Calendars,
                          badToken: Result<Option<string>, string>, token: string,
                          items: Option<seq<GoogleEvent>>, fetched: Result<Option<seq<GoogleEvent>>, string>,
                          now: string, later: string)
    requires calendarId in calendars && token != ""
    requires SyncCalendar(calendarId, calendars, badToken, fetched, now).outcome.Err?
    requires calendars[calendarId].source.HasSource? && calendars[calendarId].source.value.kind == Some("google")
    ensures var failed := SyncCalendar(calendarId, calendars, badToken, fetched, now);
            var synced := SyncCalendar(calendarId, failed.calendars, Ok(Some(token)), Ok(items), later);
            && synced.outcome.Ok?
            && synced.calendars[calendarId].sync.syncStatus == Some("success")
            && synced.calendars[calendarId].sync.errorMessage == Some(failed.outcome.error)
  {
  }

  /** Syncing right after an import, with the same answer from the API,
      stores the same events the import stored and reports the same count. */
  lemma SyncAfterImport(userId: string, token: string, items: seq<GoogleEvent>, clock: Clock, later: string,
                        calendars: Calendars, users: UserService.Store)
    requires token != ""
    requires ImportGoogleCalendar(userId, Ok(()), Ok(Some(token)), Ok(Some(items)), clock, calendars, users).outcome.Imported?
    ensures var imported := ImportGoogleCalendar(userId, Ok(()), Ok(Some(token)), Ok(Some(items)), clock, calendars, users);
            var synced := SyncCalendar(PrimaryId(userId), imported.calendars, Ok(Some(token)), Ok(Some(items)), later);
            && synced.outcome == Ok(imported.outcome.eventCount)
            && (forall id :: id in synced.calendars[PrimaryId(userId)].events <==>
                             id in imported.calendars[PrimaryId(userId)].events)
  {
  }
}
