# Reservation reconciliation of the Airbnb manager, in Dafny

This project models the core of a small property-management backend for short-term rentals. The
backend keeps a reservation table in step with two outside sources and tells the cleaning team what
changed:

- the **calendar worker** (`backend/workers/ical.js`) reads each property's iCal feed. It takes the
  guest's name out of every event and creates the reservation row for an event it has not seen
  (flagged `missing_info`), or re-dates the row when the event moved. Each new row is announced.
- the **mail worker** (`backend/workers/email.js`) picks the reservation emails by subject and asks
  the language-model extractor (`backend/services/openai.js`) for the guest's details. It falls back
  to a `name:` label in the text for the guest's name. It finds the reservation whose guest name
  contains that name and merges the details into it: the safebox code is the last four digits of the
  phone, and `missing_info` is cleared. It then appends the special requests and announces the
  update.
- the **checkout reminder** (same file) sends, for every reservation leaving tomorrow, a checkout
  notice and a digest of its notes and special requests.
- the **store** (`backend/db/index.js`) holds the properties, reservations, notes, special requests
  and settings as in-memory tables.
- the **analytics dashboard** (`frontend/components/AnalyticsDashboard.js`) computes occupancy,
  stay-length and per-property statistics.
- the **settings page** (`frontend/pages/admin.js`) posts settings patches that must never store
  the mask `******` as a secret.

Modules, one per source file: `Values` (nullable values and JavaScript truthiness), `Text` (regex
character classes, case folding, `trim`, digit extraction), `Notify` (the messages sent), `Store`,
`Calendar`, `Extractor`, `Mail`, `Checkout`, `Analytics` and `Admin`.

The workers are methods over a `Store.Database` object whose tables are `seq` fields. Each worker is
proved equal to a fold over its inputs: `Calendar.ApplyAll` for the sync, `Mail.MailRun` for the mail
loop and `Checkout.CheckoutMessages` for the reminder. The properties the system relies on are then
lemmas about those folds:
- running the sync twice changes nothing;
- a calendar event never gets two rows;
- the mail worker never creates or deletes a reservation, and `missing_info` only goes from true to
  false;
- exactly one checkout notice is sent per reservation leaving tomorrow;
- the digest lists every note and every request;
- the occupancy percentages stay between 0 and 100;
- the per-property counts add up to the known reservations.

Inputs from outside the process are parameters:
- each feed's parsed content, as a function from URL to an optional list of calendar components;
- the extractor's raw reply for each email;
- `JSON.parse`, as a function from text to an optional record;
- "tomorrow", as a day number.

Dates are whole day numbers. Each message is a value (`Notify.Message`) appended to an outbox
sequence. The one exception is the checkout digest, which is built as text because that is all it
is.

Where the code does something surprising, the model follows the code:
- a feed that fails to load or parse ends the whole sync run (the `try` around the loop), not just
  that property. So does an event without a summary or dates.
- an email without a subject ends the whole mail run (`includes` on `undefined` throws).
- so does a matched reservation whose property no longer exists, and this happens after the row and
  its requests have been written.
- `updateStatus` sets a special request's status with no guard on its current status.
- the merge keeps the stored value whenever the extracted one is falsy, so `0` and `""` never
  overwrite.

## Model

| member | source | states |
|---|---|---|
| Text.Trim | backend/workers/ical.js:39 | the trimmed text neither starts nor ends with whitespace and is no longer than the input |
| Text.Fold | backend/workers/email.js:168-171 | the case folding ILIKE applies: ASCII and Latin-1 capitals map to their small letters, every other character to itself |
| Text.TrimFixed | backend/workers/ical.js:39 | text without whitespace at either end is its own trim |
| Text.TrimIdempotent | backend/workers/ical.js:39 | trimming twice is trimming once |
| Text.TrimIsInfix | backend/workers/email.js:102 | the trimmed text is the stretch of the input that starts after the leading whitespace, and everything after it is whitespace |
| Text.Digits | backend/workers/email.js:117 | removing non-digits leaves only digits, never lengthens, and leaves an all-digit text unchanged |
| Text.DigitsAppend | backend/workers/email.js:117 | digit removal distributes over concatenation |
| Text.DigitsOfOne | backend/workers/email.js:117 | one character is kept exactly when it is a digit, so with `DigitsAppend` every non-digit is removed |
| Text.LastChars | backend/workers/email.js:117 | `slice(-n)` is the last `min(n, length)` characters |
| Store.PropertyName | backend/db/index.js:51-54 | a name is found exactly when some property has the id, and it is that property's name |
| Store.KeyIndexFrom | backend/workers/ical.js:63-66 | the first row for the event's property and uid; none only when no row has that key |
| Store.NameIndexFrom | backend/workers/email.js:168-171 | the first row whose guest name contains the name, ignoring case; none only when no row matches |
| Store.GuestMatches | backend/workers/email.js:168-171 | `guest_name ILIKE '%name%'`: the folded guest name contains the folded search text; its first match is `NameIndexFrom` |
| Store.UpdateTouchesOnlyThatRow | backend/db/index.js:115-145 | with unique ids, `update` rewrites exactly the row with that id and keeps its external id |
| Store.DateRangeIsOverlap | backend/db/index.js:83-86 | for a well-formed stay and window, the three WHERE clauses hold exactly when the closed intervals overlap |
| Store.InDateRange | backend/db/index.js:83-86 | the three OR'd WHERE clauses of the date-range query, read as overlap by `DateRangeIsOverlap` |
| Store.RangeRows | backend/db/index.js:78-90 | a row is selected exactly when it is in the table, in the range and joined to a property |
| Store.InsertByArrivalAddsOne | backend/db/index.js:87 | inserting into the ordered result adds exactly that row |
| Store.InsertByArrivalSorts | backend/db/index.js:87 | inserting keeps the result ordered by arrival date |
| Store.InsertByArrival | backend/db/index.js:87 | one row placed after the rows whose arrival is not later, as `ORDER BY arrival_date` keeps ties; `InsertByArrivalAddsOne` and `InsertByArrivalSorts` are its properties |
| Store.NotesOf | backend/db/index.js:149-156 | a note is listed exactly when it belongs to the reservation |
| Store.NotesNewestFirst | backend/db/index.js:153 | with serial ids given in insertion order, the listed notes are newest first |
| Store.RequestsOf | backend/db/index.js:172-179 | a request is listed exactly when it belongs to the reservation |
| Store.RequestsNewestFirst | backend/db/index.js:176 | the listed requests are newest first |
| Store.StatusHasNoTerminalGuard | backend/db/index.js:193-202 | a completed request can be set back to pending |
| Store.WithStatus | backend/db/index.js:193-202 | `UPDATE … SET status WHERE id`: every row with the id takes the status, the others are unchanged |
| Store.SettingFrom | backend/db/index.js:215-218 | `get` is null exactly when no row has the key, and otherwise returns the value of a row with that key |
| Store.UpsertRows | backend/db/index.js:221-234 | the rows after UPDATE of every row with the key, then INSERT when none was updated |
| Store.Upserted | backend/db/index.js:220-237 | the settings after `update`: rows with the key take the value, or one row is appended when none had it; `SettingsUpdateThenGet` states its meaning |
| Store.SettingsUpdateThenGet | backend/db/index.js:220-237 | after `update(k, v)`: `get(k)` is `v`; every other key reads as before; keys stay unique; a row is added only for a new key |
| Store.SettingsMapAgrees | backend/db/index.js:206-213 | with unique keys, `getAll` has one entry per row, each equal to what `get` returns |
| Store.SettingsMap | backend/db/index.js:206-213 | `getAll`: the object built row by row in table order, a later row overwriting an earlier one with the same key |
| Store.Database.CreateReservation | backend/db/index.js:92-113 | the row is appended under the next serial id and returned |
| Store.Database.UpdateReservation | backend/db/index.js:115-145 | the table after the UPDATE; a row is returned exactly when one had the id |
| Store.Database.FindByKey | backend/workers/ical.js:63-66 | returns the first row with the event's key |
| Store.Database.FindByGuestName | backend/workers/email.js:168-179 | returns the first row whose guest name contains the name |
| Store.Database.ReservationsInRange | backend/db/index.js:78-90 | the selected rows, ordered by arrival date, as a permutation of the selection |
| Store.Database.CreateNote | backend/db/index.js:158-168 | the note is appended under the next serial id |
| Store.Database.NotesFor | backend/db/index.js:149-156 | returns the reservation's notes, newest first |
| Store.Database.CreateRequest | backend/db/index.js:181-191 | the request is appended; a missing or empty status becomes `pending` |
| Store.Database.RequestsFor | backend/db/index.js:172-179 | returns the reservation's requests, newest first |
| Store.Database.UpdateRequestStatus | backend/db/index.js:193-202 | every row with the id gets the status; a row is returned exactly when one had the id |
| Store.Database.GetSetting | backend/db/index.js:215-218 | returns the stored value, or null exactly when no row has the key |
| Store.Database.UpdateSetting | backend/db/index.js:220-237 | the settings after the upsert, with `get(key)` now `value`, keys still unique |
| Store.Database.AllSettings | backend/db/index.js:206-213 | the object built row by row; each entry comes from a stored row |
| Calendar.FeedEvents | backend/workers/ical.js:18-32 | an event is listed exactly when some VEVENT component projects to it |
| Calendar.FeedEventsOfOne | backend/workers/ical.js:21 | a single component gives one event when it is a VEVENT and none otherwise |
| Calendar.FeedEventsAppend | backend/workers/ical.js:21 | the events of two feeds joined are the events of each, joined: feed order and multiplicity are kept |
| Calendar.LazyEnd | backend/workers/ical.js:36 | the lazy `(.+?)` takes the shortest group that is followed by the stop |
| Calendar.MatchEnd | backend/workers/ical.js:36-37 | the pattern matches at a position exactly when a group end is returned, and it is the shortest |
| Calendar.FirstMatch | backend/workers/ical.js:36-37 | the leftmost match; none only when the pattern matches nowhere |
| Calendar.Captured | backend/workers/ical.js:36-37 | a captured name is non-empty and holds no line terminator |
| Calendar.GuestName | backend/workers/ical.js:36-39 | the summary's capture, trimmed, wins; with neither capture the name is `Unknown Guest` |
| Calendar.SummaryNameIsTextBeforeDash | backend/workers/ical.js:36 | `Reservation for NAME - …`, in any case, yields NAME trimmed |
| Calendar.DescriptionNameIsLineAfterGuest | backend/workers/ical.js:37 | with no summary match, `Guest: NAME` up to the line end yields NAME trimmed |
| Calendar.NoMatchIsUnknownGuest | backend/workers/ical.js:39 | with no summary match and no description, the name is `Unknown Guest` |
| Calendar.ExtractGuestInfo | backend/workers/ical.js:34-47 | an event can be read exactly when it has a summary and both dates; the uid, dates and name are carried over |
| Calendar.PropertyUpserts | backend/workers/ical.js:59-60 | one upsert per event read, all for this property; all events when none aborts |
| Calendar.PropertyAbortSticks | backend/workers/ical.js:110-112 | after an unreadable event no later event is looked at |
| Calendar.RunUpserts | backend/workers/ical.js:54-57 | every upsert belongs to a listed property |
| Calendar.RunAbortSticks | backend/workers/ical.js:110-112 | after a failed feed no later property is synced |
| Calendar.RunUpsertsStep | backend/workers/ical.js:54-60 | one more property adds its feed's upserts unless the run has stopped |
| Calendar.PropertyRun | backend/workers/ical.js:56-60 | one property: no upserts and a stop when its feed cannot be fetched or parsed, else its events' upserts |
| Calendar.CompleteRunCoversAllProperties | backend/workers/ical.js:54-60 | a complete run loaded every feed and covers every event of every property |
| Calendar.StepShape | backend/workers/ical.js:63-104 | one event either appends its row or re-dates only its own row; event keys stay unique |
| Calendar.Step | backend/workers/ical.js:63-104 | one event: an unseen key appends a `missing_info` row under the next id and announces it; a known key changes that row's dates only when they differ |
| Calendar.NewEventCreatesOneRow | backend/workers/ical.js:68-89 | an unseen event adds one row flagged `missing_info` and one announcement |
| Calendar.ApplyAllGrows | backend/workers/ical.js:59-106 | rows are only appended, one id and one message each; old rows keep all but their dates; keys stay unique |
| Calendar.ApplyAll | backend/workers/ical.js:59-106 | the events one after another in feed order, each as one `Step`; `ApplyAllGrows`, `ApplyAllRedates` and `ApplyAllDates` state its properties |
| Calendar.ApplyAllRedates | backend/workers/ical.js:90-104 | an existing row ends with the dates of the last event for it |
| Calendar.ApplyAllDates | backend/workers/ical.js:59-106 | every event seen has a row carrying the dates of its last sighting |
| Calendar.ApplyAllNoNewRows | backend/workers/ical.js:68 | events that all have rows create nothing |
| Calendar.SyncIdempotent | backend/workers/ical.js:49-113 | syncing again on the same feeds changes no row, no id and sends nothing |
| Calendar.SyncEvent | backend/workers/ical.js:60-105 | the database after one event is one step of the fold |
| Calendar.SyncProperty | backend/workers/ical.js:56-106 | the database after one feed is the fold over its upserts, with completeness reported |
| Calendar.SyncReservations | backend/workers/ical.js:49-113 | the database and messages after the sync are the fold over the run's upserts |
| Extractor.BraceSlice | backend/services/openai.js:45-47 | the text from the first `{` to the last `}`; it exists exactly when some `{` precedes some `}` |
| Extractor.BraceSliceCutsOutObject | backend/services/openai.js:45 | an object surrounded by brace-free prose is cut out exactly |
| Extractor.ExtractFromReply | backend/services/openai.js:40-61 | the parsed reply, else the parsed brace slice, else the all-null record |
| Extractor.ExtractFromReplyOrigin | backend/services/openai.js:40-61 | the result always comes from the reply, its slice, or the fixed fallback |
| Extractor.WrappedReplyIsUnderstood | backend/services/openai.js:44-47 | JSON wrapped in commentary is still read |
| Mail.CaseMattersInSubjects | backend/workers/email.js:152-156 | the subject keywords are case-sensitive: a subject without `R`, `B`, `z` or `á` is ignored |
| Mail.BookingSubjectIsHandled | backend/workers/email.js:152-156 | "Booking confirmed" is handled |
| Mail.IsReservationSubject | backend/workers/email.js:152-156 | the subject contains `Reservation`, `Booking`, `rezervace` or `ubytování`, with case significant |
| Mail.GroupAfter | backend/workers/email.js:100 | the greedy `\s*([A-Za-z\s]+)` captures only letters and whitespace |
| Mail.LabelGroup | backend/workers/email.js:100 | a match starting at a position captures, after the label's colon, only letters and whitespace |
| Mail.FirstLabel | backend/workers/email.js:100-101 | the position found has a label followed by a group |
| Mail.FirstLabelIsLeftmost | backend/workers/email.js:100-101 | no earlier position has a label followed by a group: the match is the leftmost one |
| Mail.FirstLabelNone | backend/workers/email.js:100-101 | no match is found only when no position has a label followed by a group |
| Mail.NameGroupFrom | backend/workers/email.js:100-101 | group 1 of the leftmost match lies after the label and holds only letters and whitespace |
| Mail.NameGroupFromIsLeftmost | backend/workers/email.js:100-101 | the capture is the group of a match starting at some position with no match starting earlier; there is no capture only when no position starts a match |
| Mail.FallbackNameIsLetters | backend/workers/email.js:100-102 | the fallback name holds only letters and whitespace, trimmed at both ends |
| Mail.FallbackNameAfterLabel | backend/workers/email.js:100-102 | `name:` then whitespace then a name gives that name, trimmed |
| Mail.FallbackName | backend/workers/email.js:100-102 | the leftmost label match's group 1, trimmed; none when the pattern matches nowhere |
| Mail.Safebox | backend/workers/email.js:116-117 | a code exactly when the phone is truthy; at most four digits, all the digits when fewer |
| Mail.SafeboxUsesLastFourDigits | backend/workers/email.js:117 | only the last four digits of the phone matter |
| Mail.SafeboxOfCzechNumber | backend/workers/email.js:117 | `+420 777 123 456` gives `3456` |
| Mail.ExtractReservationData | backend/workers/email.js:94-123 | data exactly when the email has text and an API key is stored; the extractor's name wins over the fallback |
| Mail.FailedExtractionFallsBackToText | backend/workers/email.js:113-118 | when the extractor fails, the name comes from the text and there is no safebox code |
| Mail.Merge | backend/workers/email.js:180-188 | each of the five detail fields takes the extracted value when truthy and keeps the stored one otherwise; identity and dates are kept; `missing_info` is cleared |
| Mail.MergeKeepsKnownDetails | backend/workers/email.js:180-188 | a detail that was truthy stays truthy after a merge |
| Mail.MergeIdempotent | backend/workers/email.js:180-188 | merging the same email twice equals merging it once |
| Mail.EmptyDataOnlyClearsFlag | backend/workers/email.js:180-188 | data with nothing truthy only clears `missing_info` |
| Mail.NewRequestsShape | backend/workers/email.js:193-203 | one pending row per item, in order, under consecutive ids; type defaults to `Other` |
| Mail.NewRequests | backend/workers/email.js:193-203 | the rows `specialRequest.create` adds for the items, in order, under consecutive ids; its shape is `NewRequestsShape` |
| Mail.Descriptions | backend/workers/email.js:217-218 | the announced descriptions are the items' descriptions, in order |
| Mail.UnrelatedEmailIsSkipped | backend/workers/email.js:158 | an email without a keyword changes nothing |
| Mail.UnmatchedEmailChangesNothing | backend/workers/email.js:161-176 | a reservation email with no extracted data, a falsy guest name or no reservation matching the name leaves the state unchanged and the run goes on |
| Mail.HandleEmail | backend/workers/email.js:147-220 | one turn of the loop: no content or a non-reservation subject continues unchanged, a missing subject throws (stop), no data or no match continues unchanged, otherwise `HandleMatch` |
| Mail.HandleMatch | backend/workers/email.js:178-219 | the first match is merged and the requests are appended; the update is announced, or, when the row's property is missing, the writes stay and the run stops as the throw does |
| Mail.NoApiKeyChangesNothing | backend/workers/email.js:105-109 | without an API key no email changes the tables or the outbox |
| Mail.MatchedEmailUpdatesFirstMatch | backend/workers/email.js:168-203 | the first matching row gets the merge and only it changes; one request per item is appended |
| Mail.MailRunStep | backend/workers/email.js:147-221 | a whole run creates or deletes no reservation; identity, name and dates are kept; `missing_info` only clears; requests and messages are only appended |
| Mail.MailRunAbortSticks | backend/workers/email.js:225-227 | after a turn throws, no later email is processed |
| Mail.MailRun | backend/workers/email.js:147-227 | the emails one after another, each as `HandleEmail`, with a throw ending the run; `MailRunStep` states what a run keeps |
| Mail.CreateRequests | backend/workers/email.js:193-203 | the requests table gains exactly the new rows |
| Mail.ApplyMatch | backend/workers/email.js:179-219 | the database after a match is `HandleMatch` of the old state |
| Mail.HandleEmailIn | backend/workers/email.js:147-220 | the database after one email is `HandleEmail` of the old state |
| Mail.ProcessEmails | backend/workers/email.js:125-228 | without a configured mail account nothing changes, the request counter included; otherwise the state is the fold over the emails |
| Checkout.NoteLinesListEach | backend/workers/email.js:265-270 | every note's line appears in the notes section |
| Checkout.RequestLinesListEach | backend/workers/email.js:272-277 | every request's line appears in the requests section |
| Checkout.DigestListsEverything | backend/workers/email.js:262-278 | the digest starts with the guest's heading and lists every note and request |
| Checkout.NoticesOnlyForDueReservations | backend/workers/email.js:236-256 | every checkout notice is for a reservation leaving tomorrow from an existing property |
| Checkout.OneNoticePerDueReservation | backend/workers/email.js:247-256 | the number of notices equals the number of reservations due |
| Checkout.NothingDueNothingSent | backend/workers/email.js:243 | with nothing due, nothing is sent |
| Checkout.Due | backend/workers/email.js:236-247 | a reservation is due when it leaves tomorrow and its property row exists, as the join requires |
| Checkout.CheckoutFor | backend/workers/email.js:248-280 | for one due reservation: the checkout notice, then the digest when it has notes or requests |
| Checkout.DigestOnlyWithNotesOrRequests | backend/workers/email.js:248-280 | the checkout notice comes first; a digest follows exactly when there are notes or requests |
| Checkout.CheckoutMessages | backend/workers/email.js:230-285 | every message the job sends, reservation by reservation in table order; counted by `OneNoticePerDueReservation` |
| Checkout.DigestText | backend/workers/email.js:262-278 | the heading with the guest, then the notes section, then the requests section; `DigestListsEverything` states its content |
| Checkout.DigestSectionsInOrder | backend/workers/email.js:262-278 | the notes section follows the heading directly and the requests section follows it, closing the digest |
| Checkout.AppendNoteLines | backend/workers/email.js:267-269 | appends the note lines in order |
| Checkout.AppendRequestLines | backend/workers/email.js:274-276 | appends the request lines in order |
| Checkout.AppendNotes | backend/workers/email.js:265-270 | appends the notes section, nothing without notes |
| Checkout.AppendRequests | backend/workers/email.js:272-277 | appends the requests section, nothing without requests |
| Checkout.BuildDigest | backend/workers/email.js:262-278 | builds the digest text |
| Checkout.NotifyDeparture | backend/workers/email.js:248-280 | the notice, then the digest when there are notes or requests |
| Checkout.CheckUpcomingCheckouts | backend/workers/email.js:230-285 | the messages are the fold over the reservations leaving tomorrow |
| Analytics.OccupiedDays | frontend/components/AnalyticsDashboard.js:114-128 | a property is occupied on at most all the days of the month |
| Analytics.MultOfUniqueId | frontend/components/AnalyticsDashboard.js:109-111 | with distinct ids each property has one counter slot |
| Analytics.RoundPercent | frontend/components/AnalyticsDashboard.js:133 | the result is the nearest whole percentage, halves up |
| Analytics.RoundedMeanBetween | frontend/components/AnalyticsDashboard.js:179 | a rounded mean lies between any bounds of the values |
| Analytics.PercentBounds | frontend/components/AnalyticsDashboard.js:133 | a share of the month is between 0 and 100 |
| Analytics.ZeroCounters | frontend/components/AnalyticsDashboard.js:109-111 | every listed id has a counter, all zero |
| Analytics.CountDay | frontend/components/AnalyticsDashboard.js:115-127 | each counter rises by its listings when that property is occupied that day |
| Analytics.CountDayAdvances | frontend/components/AnalyticsDashboard.js:114-128 | counting one more day keeps the counters equal to the occupied days |
| Analytics.OccupancyRates | frontend/components/AnalyticsDashboard.js:104-137 | one rate per property: its occupied days as a rounded percentage of the month |
| Analytics.RatesArePercentages | frontend/components/AnalyticsDashboard.js:131-134 | with distinct ids every rate is between 0 and 100 |
| Analytics.OccupiedCount | frontend/components/AnalyticsDashboard.js:146-158 | no more properties are occupied than listed |
| Analytics.DailyOccupancy | frontend/components/AnalyticsDashboard.js:139-166 | one bar per day: day of month, properties occupied, properties listed |
| Analytics.DailyChartAgreesWithCounts | frontend/components/AnalyticsDashboard.js:139-166 | the daily bars and the per-property counts add up the same property-days |
| Analytics.StayLengths | frontend/components/AnalyticsDashboard.js:171-176 | one stay length per reservation, departure minus arrival |
| Analytics.MinOf | frontend/components/AnalyticsDashboard.js:180 | the minimum is one of the values and no value is smaller |
| Analytics.MaxOf | frontend/components/AnalyticsDashboard.js:181 | the maximum is one of the values and no value is larger |
| Analytics.AverageBetweenMinAndMax | frontend/components/AnalyticsDashboard.js:168-183 | the rounded average stay lies between the shortest and the longest |
| Analytics.StayLengthStats | frontend/components/AnalyticsDashboard.js:168-183 | all zero without reservations; otherwise the rounded mean, minimum and maximum of the stay lengths, bounded by `AverageBetweenMinAndMax` |
| Analytics.CountFor | frontend/components/AnalyticsDashboard.js:192-196 | a property has at most all the reservations |
| Analytics.ReservationsByProperty | frontend/components/AnalyticsDashboard.js:185-202 | one count per property, its number of reservations |
| Analytics.CountsAddUpToKnownReservations | frontend/components/AnalyticsDashboard.js:185-202 | with distinct ids the counts add up to the reservations of listed properties |
| Analytics.TotalGuests | frontend/components/AnalyticsDashboard.js:209 | the total is non-negative when every guest count is |
| Analytics.TotalGuestsAppend | frontend/components/AnalyticsDashboard.js:209 | the total over two lists is the sum of their totals |
| Analytics.Guests | frontend/components/AnalyticsDashboard.js:209 | `guest_count \|\| 0` for one reservation |
| Admin.SettingsPatch | frontend/pages/admin.js:77-95 | the patch never stores the mask or an empty secret |
| Admin.EmailPatchShape | frontend/pages/admin.js:81-87 | server, user and protocol are sent as typed; the password only when new |
| Admin.OpenAIPatchShape | frontend/pages/admin.js:88-92 | the API key is sent exactly when a new one was typed |
| Admin.OtherSectionIsEmpty | frontend/pages/admin.js:78-93 | any other section posts an empty patch |
| Admin.EmailDefaults | frontend/pages/admin.js:135-163 | the password field starts as the mask or empty |
| Admin.OpenAIDefaults | frontend/pages/admin.js:214 | the API-key field starts as the mask or empty |
| Admin.UntouchedFormsKeepSecrets | frontend/pages/admin.js:154 | saving an untouched form leaves the stored secrets alone |

## Left out

- IMAP connection and mail fetching, `mailparser`, and the HTTP calls to the feeds and to the model's API are inputs. Each email's parsed content and the model's reply are given; `fetchICalFeed` plus `node-ical` are a function from feed URL to an optional list of components.
- `JSON.parse` is an abstract function parameter. A reply that parses to something other than an object is not distinguished from one that parses to the record.
- Mail.ExtractReservationData: the extractor's fields are taken to have their documented JSON types. A truthy `contact_phone` that is not a string (a JSON number, say) makes `.replace` throw in `extractReservationData`, which then returns null and the email is skipped; the model returns data for it instead. Likewise a `special_requests` entry that is `null` makes `request.type` throw after the row was updated, ending the whole run; the model has no such entry.
- Telegram delivery is an append to an outbox. The no-op when Telegram is not configured, and the message texts other than the checkout digest, are not modelled.
- The cron schedules and the runs at startup are not modelled. Neither are the `pg` pool and client plumbing nor logging.
- The list of dates scanned out of the email text and never used is not modelled.
- Floating point is not modelled. `totalRevenue` (a `parseFloat` sum) is left out. Percentages and the average stay are rounded in integer arithmetic, which agrees with `Math.round` of the floating quotient for month lengths of 28 to 31 days.
- Dates are whole day numbers. `toISOString` time-zone effects and `date-fns` formatting are not modelled.
- `isWithinInterval` throws on a reversed interval; the model treats a reversed stay as covering no day.
- Properties are listed in table order, which the model takes to be name order. Rows are read in insertion order, which stands in for `created_at`.
- ILIKE wildcards in a guest name are read as plain characters.
- Case folding covers ASCII and Latin-1 letters only.
- `reservation.getAll` and `reservation.getById` are not modelled.
- The server routes and the rendering-only components are not modelled.
- Form fields absent from a submitted form are `None`.
- Calendar.SyncIdempotent: stated for feeds whose events all carry a UID, since a `Component` always has one. In `parseICalFeed` an event without a UID gets an undefined `external_id`, and the lookup by `external_id = NULL` never matches, so such an event is inserted and announced again on every sync and the (external id, property) key is no longer unique.
- Analytics.OccupancyRates: requires a month of at least one day, as `eachDayOfInterval` over a calendar month always gives.
