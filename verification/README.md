# family-connect core, modelled in Dafny

This project models the service layer of the family-connect React Native app. It also
models the little pieces of state the app header and theme keep. Each part is a
pure Dafny function over immutable data, and the properties the app relies on are
proved about it.

- **iCalendar feed reader** (`IcalFeed`, `IcalDate`, `IsoTime`, `Civil`, `StableSort`).
  This is `getIcalEvents` after the download has returned. It works as follows:
  - The text is split on `'\n'` and each line is trimmed.
  - A `BEGIN:VEVENT` line opens a candidate event and an `END:VEVENT` line closes it.
  - Any other line inside a block is matched as `KEY[;params]:VALUE`. `SUMMARY`,
    `UID`, `LOCATION` and `DESCRIPTION` are recorded as they are. `DTSTART` and
    `DTEND` pass through `parseIcalDate`.
  - A closed event is kept when its start is later than now or falls on today's
    local date. A kept event gets a fallback id from `Math.random` when it has no
    uid, and its dates are rendered with `toISOString`.
  - The kept events are stable-sorted by start instant and cut to the first ten.

  `IcalDate` models `parseIcalDate`. `IsoTime` models the parts of `Date.parse` and
  `toISOString` the reader relies on. `Civil` holds the proleptic Gregorian day
  arithmetic of ECMAScript's `MakeDay`, and `StableSort` is a generic stable sort.
- **Google Calendar import and sync** (`CalendarService`):
  - `transformGoogleEvent` turns a Calendar API event into the app's event record.
  - The events object is keyed by `eventId`.
  - `importGoogleCalendar` writes a calendar document and a reference to it on the
    user.
  - `syncCalendar` replaces a calendar's events or records the failure.
- **User documents** (`UserService`):
  - `updateUser` and its `updatedAt` stamp;
  - `addToUserArray` and `removeFromUserArray`, with their six wrappers;
  - `createNewUser`, and `handleUserAuthentication` with its `needsDOB`/`complete`
    status.
- **Header text** (`Header`): `getInitials`, `getGreeting` and the first name shown
  beside the greeting.
- **Theme** (`Theme`):
  - the `isSystemTheme`/`isDarkMode` state of `ThemeContext`;
  - `initializeTheme` from the stored preference;
  - the three actions and the preference each one stores;
  - the appearance listener and the palette selection.

Every input the code reads from the outside world is a parameter:
- the Firestore collections are maps from document id to document;
- the results of `fetch`, Google sign-in and the token request are
  `Result`/`Option` values;
- the device colour scheme and the stored theme preference are values;
- the clock is an ISO string or a millisecond time value, and the local time zone
  is a fixed offset;
- `Math.random` is a function from draw number to string.

A thrown error is an `Err` (or a failure outcome) carrying what the caller would see.

Behaviour of the reader that the model keeps:
- A trailing `Z` on a DATE-TIME value is matched but not used. The value is always
  read as local wall-clock time (`IcalDate.TrailingZIgnored`).
- A DATE-TIME whose digits make an Invalid Date does not just drop its event.
  `toISOString` throws inside `parseIcalDate`, and the whole call fails. The same
  happens when a retained event's end is an Invalid Date (`IcalDate.ParseIcalDate`
  and `IcalFeed.Close`).
- The code reads the clock once per closed event, not once per call. The model
  reads it once (see Left out).

Notable behaviour of the code that the model makes explicit:
- A second import appends a second reference to the same calendar to the user
  (`CalendarService.ReimportDuplicatesReference`).
- A successful sync after a failed one reports `success` but keeps the old
  `errorMessage` (`CalendarService.StaleErrorMessage`).
- The reported `eventCount` counts fetched events. The stored events object has
  fewer entries when ids collide (`CalendarService.EventsObjectSize`).
- An event without an id gets the stored id `google-undefined`
  (`CalendarService.MissingIdCollides`).

## Model

| member | source | states |
|---|---|---|
| IcalFeed.MatchProperty | src/services/IcalService.js:59 | the pattern matches exactly when the line is non-empty, does not start with a colon and has a colon; the key is the text before the first colon and the value runs to the first line terminator |
| IcalFeed.MatchUnique | src/services/IcalService.js:59-62 | any split of a line that meets the pattern's conditions is the one the match returns |
| IcalFeed.ParametersIgnored | src/services/IcalService.js:61 | parameters after `;` never change which property a line sets |
| IcalFeed.Set | src/services/IcalService.js:64-86 | assigning one property of the candidate sets it and leaves every other property unchanged |
| IcalFeed.Apply | src/services/IcalService.js:64-86 | text properties store the value verbatim; DTSTART/DTEND store what `parseIcalDate` returns, and the line fails exactly when that throws; other keys change nothing |
| IcalFeed.ApplyProperty | src/services/IcalService.js:57-87 | a line in a block fails exactly when it is a date property whose value makes an Invalid Date; a line that does not match leaves the candidate as it was |
| IcalFeed.Accumulate | src/services/IcalService.js:57-88 | a block's body fails exactly when one of its lines holds a bad date |
| IcalFeed.AnyBadAt | src/services/IcalService.js:57-88 | a failing body is one with some line, at some index, holding a bad date |
| IcalFeed.AccumulateLastWins | src/services/IcalService.js:64-86 | each property of a finished block is the one its last line for that key set, or the earlier value when no line set it |
| IcalFeed.SameLocalDate | src/services/IcalService.js:36 | `toDateString` equality is equality of the local day numbers |
| IcalFeed.LocalMidnight | src/services/IcalService.js:35-36 | local midnight is the start of now's local day and lies within one day before now |
| IcalFeed.Retained | src/services/IcalService.js:35-38 | an event is kept exactly when it starts at or after local midnight of the current day |
| IcalFeed.RetainedFromMidnight | src/services/IcalService.js:35-38 | "later than now or on today's date" is the same as "at or after today's local midnight" |
| IcalFeed.IsoDate | src/services/IcalService.js:44 | the date part of `toISOString` is the UTC calendar date of the instant |
| IcalFeed.Close | src/services/IcalService.js:29-56 | a block yields an event exactly when start and end are present, the start is valid and today-or-later and the end is valid, and fails when only the end is invalid; the event has the uid or the next random id, `No Title` for an empty summary, the raw start/end strings and their UTC dates |
| IcalFeed.Emit | src/services/IcalService.js:25-56 | closing a block fails exactly when closing the candidate fails; otherwise the candidate is cleared, the event `Close` builds is appended exactly when it is kept, and a random id is drawn exactly when a kept event has no truthy uid |
| IcalFeed.Step | src/services/IcalService.js:18-89 | one line only ever appends good events, and a block is open afterwards exactly when the line began one or a block stays open past a non-END line |
| IcalFeed.Run | src/services/IcalService.js:18-89 | the loop only appends, at most one event per line, and every event it appends is good |
| IcalFeed.RunAppend | src/services/IcalService.js:18-89 | reading two pieces of text one after the other is reading them together |
| IcalFeed.BodyAccumulates | src/services/IcalService.js:57-88 | inside an open block, lines that neither begin nor end one just accumulate properties |
| IcalFeed.Block | src/services/IcalService.js:21-56 | a whole BEGIN..END block closes the candidate its body builds from nothing |
| IcalFeed.NoBlockNoEvents | src/services/IcalService.js:21-57 | text outside any block, such as the VCALENDAR wrapper, changes nothing |
| IcalFeed.Retrieved | src/services/IcalService.js:14-89 | every event the loop collects is good: a valid start that reads back, retained by the filter, with matching dates, a non-empty summary and source `ical` |
| IcalFeed.GetIcalEvents | src/services/IcalService.js:94-95 | the call succeeds exactly when reading the lines does, and returns ten events, or all of them when fewer were kept |
| IcalFeed.GetIcalEventsFiltered | src/services/IcalService.js:29-95 | every returned event starts today or later, and the returned starts are in ascending order |
| IcalFeed.EarliestGood | src/services/IcalService.js:94-95 | sorting and cutting to ten keep only good events |
| IcalFeed.EarliestSorted | src/services/IcalService.js:94-95 | the first ten after the sort are in start order |
| IcalFeed.GetIcalEventsIsStableSort | src/services/IcalService.js:94-95 | the result is the first ten of any start-ordered arrangement that keeps same-start events in document order, which is what the stable `Array.prototype.sort` produces |
| IcalDate.ParseIcalDate | src/services/IcalService.js:102-125 | `null` exactly for values of neither shape; an error exactly for a DATE-TIME whose digits make an Invalid Date; otherwise a DATE-TIME reads back as the local time value of its digits, and a DATE gives its own digits at UTC midnight |
| IcalDate.LocalTimeValue | src/services/IcalService.js:109-110 | local wall-clock digits name a time value exactly when the fields are in range and the instant is representable, and that value plus the offset is the wall-clock time |
| IcalDate.StampText | src/services/IcalService.js:104-110 | the DATE-TIME branch fails exactly when its digits make no time value, and otherwise returns text that reads back as that value |
| IcalDate.TrailingZIgnored | src/services/IcalService.js:104-110 | a DATE-TIME value with a trailing `Z` parses exactly as the same value without it |
| IcalDate.DateShapeText | src/services/IcalService.js:113-119 | the string the DATE branch builds is the canonical ISO text of midnight UTC on its digits |
| IcalDate.IsStampShape | src/services/IcalService.js:104 | a DATE-TIME value is at least fifteen characters, never also a DATE value, and starts with one |
| IcalDate.IsDateShape | src/services/IcalService.js:113 | a DATE value is exactly eight decimal digits |
| IcalDate.DayText | src/services/IcalService.js:113-119 | the DATE branch's string is the ISO text of the value's own fields at UTC midnight, without milliseconds |
| IcalDate.DayTextReadsBack | src/services/IcalService.js:113-119 | the DATE branch's string reads back as UTC midnight of its day, or as an Invalid Date when the month or day is out of range |
| IcalDate.DayTextDate | src/services/IcalService.js:113-119 | for a real day, the date part of the instant it reads back as is `YYYY-MM-DD` of the value's own digits |
| IcalDate.VerbatimDigits | src/services/IcalService.js:107-109 | digits read as a number and written back at the same width are the same digits |
| IsoTime.ToIsoString | src/services/IcalService.js:110 | `toISOString` output parses back to the same instant, and its part before `T` is the UTC date |
| IsoTime.ParseIsoText | src/services/IcalService.js:30 | `Date.parse` reads the canonical text of valid fields back as their time value |
| IsoTime.IsoDatePart | src/services/IcalService.js:44 | splitting ISO text at `T` gives the date text |
| JsString.Split | src/services/IcalService.js:14 | splitting gives at least one piece, no piece holds the separator, the pieces joined with the separator give the text back, and the first piece is the longest separator-free prefix |
| JsString.SplitJoin | src/services/IcalService.js:14 | splitting a join of separator-free pieces gives the pieces back |
| JsString.Trim | src/services/IcalService.js:19 | the trimmed line is a slice of the line with only trimmable characters cut from either end, and it neither starts nor ends with one |
| Civil.CivilFromDays | src/services/IcalService.js:36 | every day number is some valid calendar date |
| Civil.CivilRoundTrip | src/services/IcalService.js:36 | day number to date and back is the identity on valid dates |
| Civil.CivilInjective | src/services/IcalService.js:36 | two valid dates with the same day number are the same date |
| StableSort.Sort | src/services/IcalService.js:94 | the sort is a permutation, ordered by key, that keeps the relative order of equal keys |
| StableSort.SortUnique | src/services/IcalService.js:94 | two orderings by key that keep the same order within each key are equal, so the stable sort's result is determined |
| StableSort.StableSortIsSort | src/services/IcalService.js:94 | any ordered arrangement that preserves each key's order is this sort's output |
| UserService.UpdateUser | src/services/UserService.js:122-141 | fails exactly when the document is missing; otherwise only that document changes, keeping its fields, taking every supplied field and stamping `updatedAt` with now |
| UserService.UpdateTwice | src/services/UserService.js:122-141 | the same update applied twice at the same time is applied once |
| UserService.Spread | src/services/UserService.js:160-161 | spreading gives nothing for a falsy field, an array's items, a string's characters, and a TypeError for anything else |
| UserService.AddToUserArray | src/services/UserService.js:154-168 | a missing user throws; the call fails exactly when the field cannot be spread; otherwise only the user's document changes, only that field and `updatedAt` are written, and the field becomes its old content with the item at the end |
| UserService.AddAppends | src/services/UserService.js:154-168 | adding to an array field keeps every earlier item at its index and puts the new one last |
| UserService.Filter | src/services/UserService.js:181-184 | filtering keeps only accepted elements and never grows |
| UserService.FilterAppend | src/services/UserService.js:181-184 | filtering works piece by piece and keeps order |
| UserService.FilterMembers | src/services/UserService.js:181-184 | an element survives the filter exactly when it was present and accepted |
| UserService.FilterIdempotent | src/services/UserService.js:181-184 | filtering twice is filtering once |
| UserService.StrictEquals | src/services/UserService.js:181-184 | `!==` on a stored value: equal primitives are identical, and a stored array or object is identical to nothing passed in |
| UserService.RemainingItems | src/services/UserService.js:176-185 | a non-array throws; with a match field, a `null` item throws and items are dropped when the field is strictly equal; without one, items strictly equal to the value are dropped |
| UserService.RemoveFromUserArray | src/services/UserService.js:170-192 | a missing user throws; it fails exactly when the filter does, never for a missing or falsy field; otherwise only that field and `updatedAt` are written, with what the filter leaves |
| UserService.RemoveKeepsExactly | src/services/UserService.js:170-192 | an item is in the array afterwards exactly when it was there before and does not match, and the array never grows |
| UserService.RemoveTwice | src/services/UserService.js:170-192 | removing the same entry twice is removing it once |
| UserService.RemainingStable | src/services/UserService.js:176-185 | what the filter leaves passes the same filter unchanged |
| UserService.RewriteSame | src/services/UserService.js:122-141 | writing a document's own field value at its own `updatedAt` leaves the collection as it was |
| UserService.AddThenRemove | src/services/UserService.js:154-192 | removing a primitive value just added, which was not there before, gives the original array back |
| UserService.AddCalendarToUser | src/services/UserService.js:195-197 | a missing user throws; it fails exactly when `calendars` cannot be spread; otherwise only that user's document changes, only `calendars` and `updatedAt` are written, and the entry is appended to `calendars` |
| UserService.RemoveCalendarFromUser | src/services/UserService.js:199-201 | a missing user throws; it fails exactly when the filter does, never for a missing `calendars`; otherwise only that user's `calendars` and `updatedAt` are written, with what the filter by `calendarId` leaves, so that no entry has the given `calendarId` |
| UserService.AddGroupToUser | src/services/UserService.js:203-205 | a missing user throws; it fails exactly when `groupIds` cannot be spread; otherwise only that user's `groupIds` and `updatedAt` are written, with the group id appended |
| UserService.RemoveGroupFromUser | src/services/UserService.js:207-209 | a missing user throws; it fails exactly when the filter does, never for a missing `groupIds`; otherwise only that user's `groupIds` and `updatedAt` are written, with what the filter leaves, so that no entry is strictly equal to the group id |
| UserService.AddSubscriptionToUser | src/services/UserService.js:211-213 | a missing user throws; it fails exactly when `subscriptions` cannot be spread; otherwise only that user's `subscriptions` and `updatedAt` are written, with the subscription appended |
| UserService.RemoveSubscriptionFromUser | src/services/UserService.js:215-217 | a missing user throws; it fails exactly when the filter does, never for a missing `subscriptions`; otherwise only that user's `subscriptions` and `updatedAt` are written, with what the filter by `subscriptionId` leaves, so that no entry has the given `subscriptionId` |
| UserService.NewUserDoc | src/services/UserService.js:65-83 | a new user is an active adult with empty groups, calendars and subscriptions, the Google provider, the device time zone, equal creation and update stamps, and `profilePicture` only when the photo URL is truthy |
| UserService.CreateNewUser | src/services/UserService.js:60-101 | the new document is stored under the uid and returned |
| UserService.HandleUserAuthentication | src/services/UserService.js:28-58 | a stored user is returned unchanged, complete exactly when a date of birth is set; an unknown user is created and needs a date of birth |
| UserService.NewUserHasNoDob | src/services/UserService.js:65-83 | a newly created document has no date of birth |
| UserService.SignInTwice | src/services/UserService.js:28-58 | a second sign-in finds the document the first one created and writes nothing |
| UserService.DobCompletes | src/services/UserService.js:143-152 | once a non-empty date of birth has been stored, signing in is complete |
| CalendarService.TimeOf | src/services/CalendarService.js:114-115 | a time is its `dateTime` when that is non-empty, else its `date` |
| CalendarService.TransformGoogleEvent | src/services/CalendarService.js:107-121 | the stored id is `google-` and the Google id, missing text fields get their defaults, an event is all-day exactly when its start has no `dateTime`, and a timed event starts at that `dateTime` |
| CalendarService.EventIdInjective | src/services/CalendarService.js:109 | events with ids share a stored id exactly when they share the Google id |
| CalendarService.Transformed | src/services/CalendarService.js:97 | the transformed list maps each fetched item in order, and is empty without `items` |
| CalendarService.EventsObject | src/services/CalendarService.js:126-129 | the keys are exactly the events' ids and each entry is an event filed under its own id |
| CalendarService.EventsObjectLastWins | src/services/CalendarService.js:126-129 | an event that no later event shares an id with is the one stored under its id |
| CalendarService.EventsObjectSize | src/services/CalendarService.js:203-206 | the object never has more entries than events, and has as many exactly when the ids are distinct |
| CalendarService.NewCalendarDoc | src/services/CalendarService.js:131-159 | a new calendar is an active Google calendar owned by the user, holding the events object, with a successful sync stamped now and a range starting six months back |
| CalendarService.Fetch | src/services/CalendarService.js:16-25 | the events are fetched exactly when the scope request and token succeed, the token is non-empty and the API answers; an empty token throws the no-token message |
| CalendarService.ImportGoogleCalendar | src/services/CalendarService.js:11-64 | nothing is written on a failure before the write or when there are no events, and there are none exactly when the fetch gives an empty list; an import writes the new calendar document of the transformed events under `google-primary-<user>`, keyed by the fetched ids, writes only that user's `calendars` and `updatedAt`, appending the reference, leaves every other user alone and counts the fetched events; a failed user write leaves the same calendar document behind and no user changed |
| CalendarService.ImportWithoutUser | src/services/CalendarService.js:37-48 | without a user document the import fails after writing the calendar |
| CalendarService.ImportAppendsReference | src/services/CalendarService.js:37-48 | an import for a user with a `calendars` array succeeds and puts the reference at its end |
| CalendarService.ReimportDuplicatesReference | src/services/CalendarService.js:37-48 | importing twice leaves two references to the same calendar on the user |
| CalendarService.SyncAttempt | src/services/CalendarService.js:189-200 | a document whose source is missing or `null` throws on reading its type, with the message for `undefined` or `null`; a non-Google source throws the unsupported message; otherwise the token and the fetch decide |
| CalendarService.MissingIdCollides | src/services/CalendarService.js:109 | an event without an id is stored under the same id as one whose id is the text `undefined` |
| CalendarService.SyncCalendar | src/services/CalendarService.js:174-240 | a missing calendar throws and nothing changes; otherwise only that calendar changes; a success replaces its events with the events object of the fetched events, reports the fetched count and marks `success` but keeps the old error message; a failure keeps the events and records `error` and the message; in both cases only `events`, the sync stamp and status (and message on failure) and `updatedAt` change, and the sync range start is kept |
| CalendarService.NonGoogleNeverSyncs | src/services/CalendarService.js:189-191 | a calendar that is not a Google calendar fails the same way whatever the token and API give |
| CalendarService.StaleErrorMessage | src/services/CalendarService.js:209-214 | a success after a failure reports `success` but still carries the failure's message |
| CalendarService.SyncAfterImport | src/services/CalendarService.js:200-220 | syncing right after an import, with the same answer, reports the same count and stores the same event ids |
| Header.GetInitials | src/components/Header.js:133-136 | a missing or empty name gives `?`, and the initials are at most two characters |
| Header.InitialsOfWords | src/components/Header.js:133-136 | for single-space-separated words, the initials are the upper-cased first letters of the first two words |
| Header.EmptyWordIgnored | src/components/Header.js:135 | empty words from extra spaces add no initial |
| Header.BlankNameNoInitials | src/components/Header.js:133-136 | a name of only spaces gives the empty string, not `?` |
| Header.LocalHour | src/components/Header.js:139 | the local hour is in 0..23 and now falls within that hour after local midnight |
| Header.GetGreeting | src/components/Header.js:138-143 | morning exactly before twelve, afternoon exactly from twelve to before seventeen, evening exactly from seventeen |
| Header.GreetingByTime | src/components/Header.js:138-143 | the greeting is decided by how long after local midnight it is |
| Header.FirstName | src/components/Header.js:171 | `User` for a missing or empty name or one starting with a space; otherwise a non-empty prefix of the name without spaces, ending at a space or at the end |
| Header.FirstNameOfWords | src/components/Header.js:171 | the first word of a name is what is shown |
| Theme.InitializeTheme | src/contexts/ThemeContext.js:28-55 | a stored preference decides whether the device is followed and otherwise fixes the mode; without a readable one, the mode follows the device |
| Theme.ToggleTheme | src/contexts/ThemeContext.js:69-74 | toggling flips the mode, stops following the device and stores exactly the new state |
| Theme.SetSystemTheme | src/contexts/ThemeContext.js:76-81 | following the device takes its scheme and stores exactly that state |
| Theme.SetManualTheme | src/contexts/ThemeContext.js:83-87 | a manual mode is set and stored whatever came before |
| Theme.ToggleTwice | src/contexts/ThemeContext.js:69-74 | toggling twice gives back the mode, now fixed |
| Theme.SetManualIdempotent | src/contexts/ThemeContext.js:83-87 | setting the same manual mode twice is setting it once |
| Theme.RestoredOnLaunch | src/contexts/ThemeContext.js:28-87 | after an action is stored, a launch restores its state, or the then-current device scheme when the action was to follow the device |
| Theme.Run | src/contexts/ThemeContext.js:57-87 | after any actions the stored preference records exactly the current state |
| Theme.RelaunchRestores | src/contexts/ThemeContext.js:28-87 | with the device scheme unchanged, a relaunch restores exactly the state the last action left |
| Theme.OnSchemeChange | src/contexts/ThemeContext.js:19-26 | a device change alters the mode only while the device is followed, and never whether it is followed |
| Theme.OnSchemeChanges | src/contexts/ThemeContext.js:19-26 | device changes never change whether the device is followed |
| Theme.SystemFollowsDevice | src/contexts/ThemeContext.js:19-26 | while following the device, the mode is dark exactly when the latest scheme is |
| Theme.ManualIgnoresDevice | src/contexts/ThemeContext.js:19-26 | a manual mode ignores every device change |
| Theme.CurrentTheme | src/contexts/ThemeContext.js:89 | the dark palette exactly in dark mode |
| Theme.FirstLaunch | src/contexts/ThemeContext.js:28-55 | on a first launch the palette follows the device |

## Left out

- The network download of the feed (`fetch`, `response.text()`), the Google Calendar API request, and `requestAdditionalScopes`/`getGoogleAccessToken`. Their results are parameters: the feed text, and `Result` values for the token, the scopes and the API answer, with the API error's message as the failure text.
- Firestore. Collections are maps, and `set`, `update` and `get` are map updates and lookups. A dotted field path such as `sync.errorMessage` is written as a field of the nested sync record. A field set to `undefined` is an absent key.
- UserService.UpdateUser: Firestore's `update` reads a dotted key in `updates` as a path into a nested map. The model writes every key of `updates`, dotted or not, as a top-level field.
- UserService.AddToUserArray and UserService.RemoveFromUserArray read the document and then write it back without a transaction, so two concurrent calls can lose one of the updates. The model treats each call as one atomic step.
- Luxon and the clock. `DateTime.now().toISO()` is one string parameter per call, so the several readings the code takes within one call are the same. `DateTime.local().zoneName` is a parameter too. In the feed reader, time values are integer milliseconds and the local time zone is one fixed offset, with no daylight-saving changes.
- IcalFeed.Close: the code reads `new Date()` once for each closed block. The model uses one reading for the whole call.
- IsoTime.FieldsInRange: a day of 29, 30 or 31 is accepted in every month and rolls over into the next month, as V8 reads `new Date("2025-02-30T10:00:00")`. JavaScriptCore and SpiderMonkey give an Invalid Date for such text instead: there `DTSTART:20250230T100000` makes `toISOString` throw and the whole call fail, and an all-day start such as `20250231` drops its event rather than keeping it.
- IsoTime.ParseIso: `Date.parse` is modelled only for the text shapes the reader produces and reads back. These are a four-digit or signed six-digit year, optional milliseconds, and an optional `Z`.
- RFC 5545 line unfolding, `TZID` parameters and every property other than the six the reader records. The code ignores them too.
- JsString.ToUpper: upper-casing maps ASCII letters only. Strings are sequences of code points, not UTF-16 code units.
- UserService.Value: JavaScript numbers are integers, and floating point is left out. `item[matchField]` on a string or an array item is treated as having no such field, so built-in properties such as `length` are not modelled.
- `AsyncStorage` failures while saving the theme are logged and swallowed. The model returns only the preference each action asks to store.
- The appearance listener's subscribe and unsubscribe timing. The model applies device changes in order to the current state.
- CalendarService.SyncAttempt: the messages for a document whose `source` is missing or `null` are the wording one JavaScript engine gives for reading `type` of `undefined` and of `null`. Other engines word them differently.
- Header.GetInitials: its own contract states only the `?` case and the length bound. The content of the initials is stated by `Header.InitialsOfWords` and `Header.BlankNameNoInitials`.
- `fetchGoogleCalendarEvents`'s request URL and time window. Only its transformed result matters to the callers.
- `getCurrentUser`, `updateUserPreferences`, `getUserCalendars`, `deleteCalendar`, the authentication service, the screens and the rendering of the components. They are outside the modelled core.
- `console.log`/`console.error` output.
