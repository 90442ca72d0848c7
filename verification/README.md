# Apps Mumi attendance — a Dafny model

Apps Mumi registers the young members (*muda-mudi*) of a set of village
congregations. It schedules activities (*sesi*) and records who attended
each one by scanning a QR code from each participant's card. The data lives
in three tables: `peserta` (participants), `sesi` (sessions) and `absensi`
(attendance). This project models the application's core and proves what
it promises.

- **Service library** (`lib/appsmumi.ts`). `AppsMumi` holds the group-to-village
  table, the age computation and the QR payload. `Service.AttendanceStore`
  holds the three tables as sequences and the serial counters. Its methods
  do what the database calls do.
  - A database invariant, `Service.Tables`, is kept by every operation:
    - ids are unique and below the next serial;
    - every attendance row names an existing participant and session;
    - no (participant, session) pair is recorded twice.
  - Queries are specified by how often each row occurs in the result and by
    the order the query asks for.
- **Scan screen** (`app/components/ScanTab.tsx`), module `ScanTab`:
  - decoding scanned text: a JSON payload, else the first run of digits;
  - the session guard;
  - recording, and how failures are reported;
  - the scanner's callback, which keeps the session selected when scanning
    started (`ScanScreen.scanSessionId`), even if the selection changes
    while the camera is open;
  - manual entry.
  JSON is modelled by a parser and a serializer (`Json`, `JsonRoundTrip`).
  The parser follows the grammar of ECMA-404. It decodes a `\u` escape
  pair of surrogates into the one character the pair encodes. Numbers are
  kept as exact decimals (see "Left out").
- **Report screen** (`app/components/ReportTab.tsx`), module `ReportTab`:
  - the per-session list;
  - per-participant attendance counts;
  - the count-by-key statistics, built by a loop (`ReportTab.CountBy`) and
    specified by `ReportTab.Tally`.
- **Registration screen** (`app/components/ParticipantTab.tsx`), module
  `ParticipantTab`:
  - the row built from the form;
  - the create/update choice;
  - the edit form;
  - the list filter.
- **Search screen** (`app/components/SearchTab.tsx`), module `SearchTab`:
  - form fields to search filters;
  - the active-filter flag;
  - search and reset.

Supporting modules:
- `Wrappers`: `Option` and `Result`.
- `Seqs`: filter, map, distinct, sort and serial tables.
- `Text`:
  - digits and `parseInt`;
  - trimming;
  - ASCII lower-casing;
  - substring search;
  - code-point order.
- `Records`: the row types of `lib/supabase.ts`.

JavaScript details the model keeps:
- **Truthiness.** An id or age bound of 0 or NaN counts as absent.
- **`parseInt`.** Leading white space, a sign, a hexadecimal prefix, and NaN
  when there is no digit.
- **`undefined` keys.** A key whose value is `undefined` is dropped from a
  JSON body.
- **`null.id`.** It throws, so the text `null` falls back to the digit scan.

Where the design description and the code differ, the model follows the
code:
- **Today's attendance** is the window from 00:00:00 up to, but not
  including, 23:59:59. The last second of the day is left out.
- **Parsable text without an `id`** yields no id. There is no digit fallback
  for it.
- **The duplicate check** reads with `.single()`. It therefore sees an
  existing record only when exactly one matches. Under the pair-uniqueness
  invariant this is the same as "one exists" (`Service.SingleMatch`).

## Model

| member | source | states |
|---|---|---|
| AppsMumi.Lookup | lib/appsmumi.ts:5-36 | a key has a value exactly when the table lists it, and the value is one listed with it |
| AppsMumi.KeysDistinct | lib/appsmumi.ts:5-36 | no group appears twice in the group-to-village table |
| AppsMumi.LookupOfDistinct | lib/appsmumi.ts:5-36 | in a table with distinct keys, looking up entry i's key yields entry i's value |
| AppsMumi.GroupOptionsAreMapped | lib/appsmumi.ts:38 | a group has a village exactly when it is a group option |
| AppsMumi.VillageOptionsAreMappedValues | lib/appsmumi.ts:39 | a text is a village option exactly when some group maps to it |
| AppsMumi.CalculateAge | lib/appsmumi.ts:42-53 | the age-th anniversary of the birth date is on or before today and the next one is after today |
| AppsMumi.AgeIsCompletedYears | lib/appsmumi.ts:42-53 | that anniversary property determines the age uniquely |
| AppsMumi.AgeNonNegative | lib/appsmumi.ts:42-53 | a birth date on or before today gives an age of at least 0 |
| AppsMumi.QrPayload | lib/appsmumi.ts:65-72 | the payload is an object of six members whose `id`, `nama`, `jenis_kelamin`, `usia`, `kelompok` and `desa` are the participant's (a missing age as null) |
| AppsMumi.QrTextRoundTrip | lib/appsmumi.ts:75 | parsing the serialized payload gives the payload back |
| JsonRoundTrip.ParseSerialize | app/components/ScanTab.tsx:94 | `Parse(Serialize(v)) == Some(v)` for every JSON value: the payload text the card holds is read back as the payload |
| JsonRoundTrip.SurrogatePairRoundTrip | app/components/ScanTab.tsx:94 | a character beyond the 16-bit range, written as an escaped pair of surrogates, is read back as that character |
| Records.FindParticipant | lib/appsmumi.ts:229 | the embedded participant is found exactly when a participant has the row's id, and what is found is in the table with that id |
| Records.FindSession | app/components/ReportTab.tsx:41 | `find` by id finds a session exactly when one has that id, and what it finds is in the list with that id |
| Service.ByNameOrders | lib/appsmumi.ts:170 | ordering by name is a total preorder, so the sorted result is well defined |
| Service.TimestampOrders | lib/appsmumi.ts:99 | ordering by creation time, session date or recording time (either direction) is a total preorder |
| Service.Joined | lib/appsmumi.ts:227-231 | each joined record carries its own row and that row's participant and session |
| Service.UpdatedParticipants | lib/appsmumi.ts:116-126 | the row with the id gets the patched columns and keeps id and creation time; every other row is unchanged |
| Service.UpdatedSessions | lib/appsmumi.ts:198-208 | the same for sessions |
| Service.DeleteParticipantKeepsTables | lib/appsmumi.ts:128-139 | deleting a participant's rows and then the participant keeps the database invariant |
| Service.DeleteSessionKeepsTables | lib/appsmumi.ts:210-221 | deleting a session's rows and then the session keeps the database invariant |
| Service.RecordKeepsTables | lib/appsmumi.ts:251-263 | appending a new row for a fresh pair of existing ids keeps the database invariant |
| Service.SingleMatch | lib/appsmumi.ts:240-249 | under pair uniqueness, `.single()` sees exactly one row iff the pair is already recorded |
| Service.AttendanceStore.GetParticipants | lib/appsmumi.ts:95-103 | every participant, each as often as stored, newest first |
| Service.AttendanceStore.CreateParticipant | lib/appsmumi.ts:105-114 | appends a row with a fresh serial id and the given columns; the invariant holds and nothing else changes |
| Service.AttendanceStore.UpdateParticipant | lib/appsmumi.ts:116-126 | succeeds iff the id exists, then returns and stores the patched row; otherwise a no-single-row error and no change |
| Service.AttendanceStore.DeleteParticipant | lib/appsmumi.ts:128-139 | afterwards no participant and no attendance row has the id; every other row keeps its count; sessions unchanged |
| Service.AttendanceStore.SearchParticipants | lib/appsmumi.ts:141-174 | exactly the participants meeting every truthy filter (name containment ignoring case, equal village, group and gender, inclusive age bounds), ordered by name |
| Service.AttendanceStore.GetSessions | lib/appsmumi.ts:177-185 | every session, latest date first |
| Service.AttendanceStore.CreateSession | lib/appsmumi.ts:187-196 | appends a session with a fresh serial id; nothing else changes |
| Service.AttendanceStore.UpdateSession | lib/appsmumi.ts:198-208 | succeeds iff the id exists, then stores the patched session; otherwise a no-single-row error and no change |
| Service.AttendanceStore.DeleteSession | lib/appsmumi.ts:210-221 | afterwards no session and no attendance row has the id; every other row keeps its count; participants unchanged |
| Service.AttendanceStore.GetAttendance | lib/appsmumi.ts:224-236 | every attendance row, newest first, each joined with its (existing) participant and session |
| Service.AttendanceStore.JoinedComplete | lib/appsmumi.ts:227-231 | rows taken from the table always find their participant and session |
| Service.AttendanceStore.RecordAttendance | lib/appsmumi.ts:238-267 | fails with the duplicate error iff the pair is recorded; succeeds iff the id is an integer, the pair is new and both ids exist; success appends exactly one row stamped now; failure changes nothing |
| Service.AttendanceStore.GetTodayAttendance | lib/appsmumi.ts:269-285 | exactly the rows stamped in [today 00:00:00, today 23:59:59), newest first, joined |
| Service.AttendanceStore.GetAttendanceBySession | lib/appsmumi.ts:288-301 | exactly the session's rows, oldest first, joined |
| Service.DesaQuery | lib/appsmumi.ts:304-315 | the selected rows are, with their multiplicities, the rows whose participant lives in the village and, for a truthy session id, belong to that session |
| Service.AttendanceStore.GetAttendanceByDesa | lib/appsmumi.ts:303-321 | exactly the rows whose participant lives in the village (and, for a truthy session id, of that session), oldest first |
| Text.ParseIntOfDigits | app/components/ScanTab.tsx:100 | `parseInt` of a run of digits is its decimal value |
| Text.ParseIntOfIntText | app/components/ScanTab.tsx:142 | `parseInt` reads a printed integer back |
| Text.ParseIntWithoutDigits | app/components/ScanTab.tsx:142 | a text without digits parses to NaN |
| Text.TrimEmptyIffBlank | app/components/ScanTab.tsx:136 | trimming leaves nothing iff every character is white space |
| Text.Contains | lib/appsmumi.ts:152 | containment holds iff the needle occurs at some position |
| Text.LexLeTotal | lib/appsmumi.ts:170 | any two names are comparable |
| ScanTab.FirstDigitRun | app/components/ScanTab.tsx:98 | `/\d+/`: no match iff the text has no digit; otherwise the maximal digit run starting at the first digit |
| ScanTab.IdField | app/components/ScanTab.tsx:95 | an id is read iff the payload's `id` member is a number with an integral value, and then it is that value |
| Json.IntegralValueMeans | app/components/ScanTab.tsx:95 | a JSON number is read as the integer k iff mantissa times ten to the exponent is exactly k |
| ScanTab.DigitFallback | app/components/ScanTab.tsx:96-104 | invalid format iff the text has no digit; otherwise the decimal value of the first digit run |
| ScanTab.DecodeScan | app/components/ScanTab.tsx:92-105 | only text without digits is rejected as invalid format |
| ScanTab.DecodeFallback | app/components/ScanTab.tsx:96-100 | text that does not parse, or parses to null, is read by the digit fallback |
| ScanTab.DecodeParsed | app/components/ScanTab.tsx:93-95 | text that parses to a non-null value yields its `id` field and no fallback; a value without `id`, or not an object, yields no id |
| ScanTab.DecodeQrText | app/components/ScanTab.tsx:93-95 | decoding a card's QR text yields the participant's id |
| ScanTab.ParseRejectsLetter | app/components/ScanTab.tsx:94 | text starting with a letter other than n, t, f is not JSON |
| ScanTab.LetterTextFallsBack | app/components/ScanTab.tsx:96-100 | such text is decoded by the digit fallback |
| ScanTab.FirstRunAfterPrefix | app/components/ScanTab.tsx:98 | after a digit-free prefix, the first run is the maximal run of digits |
| ScanTab.FallbackReadsFirstRun | app/components/ScanTab.tsx:98-100 | the fallback yields the decimal value of that run |
| ScanTab.FallbackOfEmbeddedDigits | app/components/ScanTab.tsx:98-100 | "id-is-42-here" falls back to 42 |
| ScanTab.DecodeEmbeddedDigits | app/components/ScanTab.tsx:93-100 | "id-is-42-here" decodes to 42 |
| ScanTab.RecordFailureText | app/components/ScanTab.tsx:126-131 | a failure shows either the error's own message or the generic text |
| ScanTab.MarkerNeedsH | app/components/ScanTab.tsx:127 | a message without an 'h' cannot contain "sudah tercatat" |
| ScanTab.ForeignKeyMessageWithoutH | app/components/ScanTab.tsx:127 | a foreign-key violation message on these names has no 'h' |
| ScanTab.DatabaseMessageWithoutH | app/components/ScanTab.tsx:127 | no error other than the duplicate one has an 'h' in its message |
| ScanTab.OnlyDuplicateShownVerbatim | app/components/ScanTab.tsx:126-131 | the message is shown verbatim iff the error is the duplicate; otherwise the generic text |
| ScanTab.RecordToasts | app/components/ScanTab.tsx:120-131 | an error shows one failure toast; a joined success shows the name; never more than one toast |
| ScanTab.TypedIdIsRead | app/components/ScanTab.tsx:142 | an id typed as its decimal text (a leading minus for a negative one) is recorded as that very id |
| ScanTab.ScanScreen.LoadSessions | app/components/ScanTab.tsx:18-28 | the sessions, latest first; the first becomes selected when none was; a failure shows the load error and changes nothing else |
| ScanTab.ScanScreen.LoadTodayAttendance | app/components/ScanTab.tsx:30-37 | today's attendance as the service returns it; a failure keeps the list |
| ScanTab.ScanScreen.StartScanning | app/components/ScanTab.tsx:44-74 | without a selected session: an error toast and no scanning; otherwise scanning starts and its callback keeps the current selection |
| ScanTab.ScanScreen.StopScanning | app/components/ScanTab.tsx:76-82 | scanning stops and nothing else changes |
| ScanTab.ScanScreen.RecordAttendance | app/components/ScanTab.tsx:113-133 | without a session in the calling handler's render nothing is recorded; otherwise the service outcome at that session, with its toast, and the table changes only on success |
| ScanTab.ScanScreen.ProcessQRCode | app/components/ScanTab.tsx:84-111 | without a session in the calling handler's render, or for text without digits, nothing is recorded and the matching error is shown; otherwise the decoded id is recorded at that session |
| ScanTab.ScanScreen.OnScanned | app/components/ScanTab.tsx:62-67 | a scan is recorded at the session selected when scanning started, even if the selection changed since; scanning stops |
| ScanTab.ScanScreen.HandleManualAttendance | app/components/ScanTab.tsx:135-148 | blank input is rejected before any recording; otherwise `parseInt` of the input is recorded and the field is cleared |
| ReportTab.AttendanceCount | app/components/ReportTab.tsx:64 | the count of rows naming the participant equals the id's multiplicity among the rows' participant ids |
| ReportTab.FilterLengthCounts | app/components/ReportTab.tsx:64 | the length of the filtered list is that multiplicity |
| ReportTab.ParticipantStats | app/components/ReportTab.tsx:63-69 | one entry per participant, in the list's order, each with that participant's row count |
| ReportTab.ReportDescribesTables | app/components/ReportTab.tsx:58-69 | the report covers each stored participant, counting its stored rows, whatever the fetch order |
| ReportTab.Bump | app/components/ReportTab.tsx:92 | one more participant with key k raises k's entry by one (from 0 when absent) and leaves every other entry |
| ReportTab.CountBy | app/components/ReportTab.tsx:91-94 | the loop builds the map `Tally` specifies |
| ReportTab.TallyCounts | app/components/ReportTab.tsx:91-112 | the keys are exactly the values that occur, and each count is the number of participants with that value |
| ReportTab.TallyAbsent | app/components/ReportTab.tsx:91-112 | a value no participant has gets no entry |
| ReportTab.TallyPermutation | app/components/ReportTab.tsx:91-112 | the statistics do not depend on the order of the participant list |
| ReportTab.SumBumpOutside | app/components/ReportTab.tsx:92 | a bump outside the summed keys leaves the sum |
| ReportTab.SumBumpInside | app/components/ReportTab.tsx:92 | a bump inside the summed keys raises the sum by one |
| ReportTab.TallySum | app/components/ReportTab.tsx:91-116 | the counts, over the keys in order of first appearance, add up to the number of participants |
| ReportTab.ReportScreen.LoadSessions | app/components/ReportTab.tsx:22-29 | the sessions, latest first; a failure keeps the list |
| ReportTab.ReportScreen.GenerateSessionReport | app/components/ReportTab.tsx:35-54 | nothing without a selected session; otherwise the session's rows, oldest first, the session found in the list, and the count of attendees |
| ReportTab.ReportScreen.GenerateParticipantReport | app/components/ReportTab.tsx:56-81 | one entry per stored participant with its row count, newest participant first, and the participant total |
| ReportTab.StatsFollowParticipants | app/components/ReportTab.tsx:63-69 | the statistics list the participants in the order they were fetched |
| ReportTab.ReportScreen.GenerateStatisticsReport | app/components/ReportTab.tsx:83-129 | the three table sizes and the tallies by village, group, category and gender of the stored participants |
| ParticipantTab.ParticipantDataOf | app/components/ParticipantTab.tsx:72-79 | the age is present iff a birth date is given, and it is the completed years; occupation only for USMAN, school only for GENERUS, never both |
| ParticipantTab.DesaFollowsGroup | app/components/ParticipantTab.tsx:74 | a listed group is saved with its village, which is a village option; an unlisted one with "" |
| ParticipantTab.AsWrittenPatch | app/components/ParticipantTab.tsx:83 | the update as sent: age, occupation and school are overwritten only when present, otherwise kept |
| ParticipantTab.AsWrittenKeepsStaleOccupation | app/components/ParticipantTab.tsx:77-83 | editing a USMAN with an occupation into a GENERUS stores both the old occupation and a school |
| ParticipantTab.ReplacementPatch | app/components/ParticipantTab.tsx:77-83 | the corrected update makes the row exactly the submitted data, whatever it held |
| ParticipantTab.ReplacementKeepsCategoryFields | app/components/ParticipantTab.tsx:77-78 | with the corrected update, a saved row has an occupation iff USMAN and a school iff GENERUS |
| ParticipantTab.SaveRequestOf | app/components/ParticipantTab.tsx:82-88 | a truthy editing id updates that participant so its row becomes the data; otherwise the data is created |
| ParticipantTab.EditForm | app/components/ParticipantTab.tsx:107-122 | the form takes the participant's values; each of the seven optional fields is its value when present and "" when absent |
| ParticipantTab.EditThenSaveUnchanged | app/components/ParticipantTab.tsx:107-122 | editing a row saved from a form and submitting unchanged on the same day saves the same data |
| ParticipantTab.FilteredParticipants | app/components/ParticipantTab.tsx:146-150 | keeps a participant iff the lower-cased term occurs in the lower-cased name, group or village, each as often as listed |
| ParticipantTab.EmptyTermKeepsAll | app/components/ParticipantTab.tsx:146-150 | the empty term keeps the whole list |
| ParticipantTab.FilterKeepsOrder | app/components/ParticipantTab.tsx:146-150 | filtering preserves order (it distributes over concatenation) |
| SearchTab.FiltersOf | app/components/SearchTab.tsx:41-48 | a text filter takes part iff its field is not empty; an age bound iff its field is not empty and parses to a non-zero number |
| SearchTab.ActiveUnlessDefault | app/components/SearchTab.tsx:66 | the active-filter flag is off exactly on the default form |
| SearchTab.InactiveMatchesAll | app/components/SearchTab.tsx:66 | a form without active filters matches everyone |
| SearchTab.UntruthyBoundsIgnored | app/components/SearchTab.tsx:46-47 | age fields that parse to 0 or NaN filter nothing |
| SearchTab.ZeroBoundIgnored | app/components/SearchTab.tsx:46 | a minimum age of "0" behaves as no minimum |
| SearchTab.DigitBoundConstrains | app/components/SearchTab.tsx:46 | a non-zero minimum given in digits admits only participants at least that old |
| SearchTab.Submit | app/components/SearchTab.tsx:36-58 | the results are exactly the matching participants ordered by name; a failure leaves an empty list; the searched flag is set |
| SearchTab.Reset | app/components/SearchTab.tsx:60-64 | the default form, no results, and no search made |
| SearchTab.ResetThenSearchFindsAll | app/components/SearchTab.tsx:60-64 | after a reset, every participant matches |

## Left out

- **Network and database errors.** The Supabase client, the network and
  PostgreSQL are not modelled. The tables are in memory. The error texts are
  PostgreSQL's and PostgREST's usual messages, written out as constants.
  - A `reachable` flag stands for a call that fails, whatever the reason. Only
    the screens' loads, the three reports and the search carry it.
  - Creating, updating and deleting rows and recording attendance have no
    network failure path. Among what that leaves out: the error of the
    attendance delete (`lib/appsmumi.ts:130`), which the code ignores, and a
    network failure while recording, which the scan screen would show with
    its generic text.
- **The recording race.** Several scanning stations could race between the
  existence check and the insert. Recording is one sequential step.
- **Dates and clocks.**
  - Dates are given as year, month and day; timestamps as milliseconds. The
    current time and today's date are parameters.
  - Not modelled: parsing a date text (`dateOf` stands for `new Date(text)`),
    time zones, and locale formatting (`formatDate`, `formatTime`).
- **Text matching.**
  - `ilike` wildcards in the search text are not modelled: containment is
    plain substring search.
  - Lower-casing covers ASCII letters only.
  - Text order is by code point, not the database collation.
- ParticipantTab.ParticipantDataOf: the gender is taken to be chosen. The
  form's gender select starts on a blank option and is not required, so the
  code can send "" as `jenis_kelamin` to create and update, and the
  statistics would count it under "". The model's gender has only the two
  values.
- **JSON surrogates.** A lone escaped surrogate (`"\uD800"`) is rejected,
  because a Dafny character cannot hold one; `JSON.parse` accepts it.
- **JSON numbers.** Numbers are exact decimals, not IEEE doubles. An id
  such as `5.0000000000000001` is not integral in the model but is 5 in
  JavaScript, and `9007199254740993` stays exact where JavaScript rounds it.
  `Serialize` stands for `JSON.stringify` on strings and on integers with
  exponent 0, which is all the QR payload holds. A number with another
  exponent is written in `e` notation (`JNumber(5, 1)` as "5e1"), where
  `JSON.stringify(50)` writes "50".
- **Unused columns.** `foto` and `qr_code_path` are never written by the
  core and are not modelled.
- **Column types.** The form sends a blank birth date as "". Whether the
  database accepts "" in that column is not modelled: the store accepts any
  text.
- **Rendering and hardware.** Not modelled:
  - QR image rendering (`QRCode.toDataURL`) and camera scanning
    (`Html5QrcodeScanner`);
  - PDF export (`downloadPDF`);
  - JSX, React hooks and effects;
  - toasts beyond their text, which `ScanTab.Toast` keeps.
- **Prototype keys.** A group or statistics key that names an
  `Object.prototype` property (such as `constructor`) would read an inherited
  value. Keys are treated as plain data.
- **Statistics key order.** The statistics are maps without order. The
  display order of `Object.entries` is used only in `ReportTab.TallySum`, as
  first-appearance order.
- ScanTab.IdField: only a JSON number is read as an id. A string of
  digits such as `{"id":"5"}` is read as no id, which the store rejects as
  not an integer, recording nothing; the database's integer column would
  coerce "5" and record participant 5. A null, fraction or NaN id is
  rejected in the same way, with a generic error and no change.
- **`catch` branches that cannot be reached.** The error classification in
  `recordAttendance` always catches, so the outer `catch` blocks of
  `processQRCode` and `handleManualAttendance` cannot be reached. They are not
  modelled.
- **Village count.** That the table has exactly eight distinct villages is
  not proved. `AppsMumi.VillageOptionsAreMappedValues` states what the
  option list contains.
- **Other screens and handlers.** Session registration (`SessionTab`),
  participant deletion from the list (`handleDelete`, a confirm dialog
  around `Service.AttendanceStore.DeleteParticipant`) and the QR modal are
  outside the core.
- ParticipantTab.SaveRequestOf: sends the corrected update
  (`ReplacementPatch`), not the one the code sends; see Findings.
- ReportTab.ReportScreen.GenerateSessionReport: the initial `null`
  selection and the select's `Number('')` are both modelled as 0.

## Findings

| source | as written | input that shows it | evidently intended | confidence | as-written member | corrected member |
|---|---|---|---|---|---|---|
| app/components/ParticipantTab.tsx:77-83 | On an edit, `pekerjaan`/`nama_sekolah` of the other category are `undefined`. The key is dropped from the update body, so the column keeps its old value. | A USMAN with `pekerjaan` "guru", edited to GENERUS with a school | The row holds exactly the submitted data: the other category's column is cleared | likely; not executed | ParticipantTab.AsWrittenKeepsStaleOccupation | ParticipantTab.ReplacementPatch |
