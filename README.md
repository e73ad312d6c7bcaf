# SuperPlato attendance portal — verified model

SuperPlato is a FastAPI backend and a React client that sign students of Pusan
National University in to the university's Plato e-learning site and record
their lecture attendance. This project models the deterministic logic under
the browser automation, HTTP and UI layers, and proves properties of it.

**Backend**
- The classroom-location parser and the merged campus building tables.
- The timetable-cell parser, over rows already given as cell texts.
- The end-time arithmetic, the schedule serialiser and the "in lecture now" window.
- The two-thirds attendance summary and the record lines of the analysis prompt.
- Lecture and schedule table maintenance: deduplicated inserts, enrolment, and the search for the current lecture.
- The attendance endpoints:
  - the Korean-day duplicate window;
  - the automatic and brute-force attendance guards, with the busy flag;
  - the per-lecture automatic-attendance switches;
  - the listings.
- The automatic-attendance runner's target selection and its sleep policy.
- The administrator endpoints, the sign-in endpoints and Pro-key redemption.
- The Pro-key generator script.
- The special-administrator promotion of a user.

**Client**
- Session classification in `App`, the route guards and the menu filter.
- The bearer-token fetch wrappers and the storage sweep on logout.
- The small state machines and validators of these pages and components:
  - the attendance form, assignment review and account form;
  - onboarding;
  - brute-force options and the administrator's runner page;
  - the building buttons, the lecture list and the home-page countdown.

**How it is modelled**
- Database tables are sequences inside a `Db` object (models.dfy); endpoints that write them are methods that change it.
- Each request's database session does not flush before a query (`autoflush=False`, backend/database.py:8). A query inside a request therefore does not see rows the same request has added.
- Clock reads are parameters:
  - an instant is integer microseconds since the Unix epoch, in UTC;
  - Korean time is UTC + 9 h;
  - "now" and "today" are passed in.
- The answers of the Plato site, of Firebase and of the network are parameters of the operations that wait for them.
- React components with state are classes whose fields are the state cells, and whose handlers are methods.
- Pure rendering decisions are functions.

## Model

| member | source | states |
|---|---|---|
| Common.Pad3 | backend/routers/attendance.py:352 | `f"{code:03d}"` of a number below 1000 is three digits whose decimal value is the number |
| Common.NatToString | backend/utils/attendance_summary.py:53 | `str(n)` is a non-empty run of digits whose value is `n` |
| Common.StripKeeps | backend/utils/location_parser.py:184 | `str.strip()` keeps the slice between an all-whitespace prefix and an all-whitespace suffix, and the kept text neither starts nor ends with whitespace |
| Common.StripEmptyMeaning | backend/utils/schedule_parser.py:23-25 | a stripped cell is empty exactly when the cell is all whitespace |
| Common.StripUnchanged | backend/utils/location_parser.py:184 | text without whitespace at either end is left as it is |
| Common.StripIdempotent | backend/utils/schedule_parser.py:21-25 | stripping twice is stripping once |
| Campus.BusanCodes | backend/utils/location_parser.py:8-106 | every Busan code is three characters and does not start with `Y`, `M` or `A` |
| Campus.YangsanCodes | backend/utils/location_parser.py:107-139 | every Yangsan code starts with `Y` |
| Campus.MiryangCodes | backend/utils/location_parser.py:140-154 | every Miryang code starts with `M` |
| Campus.AmiCodes | backend/utils/location_parser.py:155-165 | every Ami code is four characters starting with `A` |
| Campus.CampusOf | backend/utils/location_parser.py:8-165 | no code is listed by two campuses |
| Campus.Merged | backend/utils/location_parser.py:167-172 | the `{**a, **b, ...}` merge answers a code with the last campus table that lists it |
| Campus.SearchCampusLookup | backend/utils/location_parser.py:167-175 | `search_campus` gives the name from the one campus that lists the code, and `"알 수 없는 건물"` for a code that no campus lists |
| LocationParser.FirstSpecial | backend/utils/location_parser.py:196-260 | the prefix found is one of the listed prefixes that the text starts with; none found means the text starts with none of them |
| LocationParser.FirstSpecialIs | backend/utils/location_parser.py:196-260 | the tests run in order: the prefix at index i is the one taken when no earlier prefix fits |
| LocationParser.MatchCodeRoomMeaning | backend/utils/location_parser.py:263-266 | `^([가-힣A-Z0-9]+)-(\d+)$` matches exactly the texts that are a non-empty code of those characters, a dash and a non-empty run of digits, and its groups are that code and room (both directions) |
| LocationParser.CleanCampusPrefix | backend/utils/location_parser.py:269-272 | a leading `양산`, `밀양` or `아미` is dropped once; any other code is unchanged |
| LocationParser.ParseOnline | backend/utils/location_parser.py:184-193 | the result is online exactly when the stripped text is `"사이버수업"`, and then every field is None and the label is `"사이버수업"` |
| LocationParser.SpecialPrefixesExclusive | backend/utils/location_parser.py:196-260 | no text starts with two of the six Miryang prefixes |
| LocationParser.ParseSpecial | backend/utils/location_parser.py:196-260 | a text starting with one of the six Miryang prefixes is offline in `M01-1` or `M05-1`; the room is the text after the prefix, the name is found by looking up the code, and the label is the whole stripped text |
| LocationParser.SpecialNotGeneral | backend/utils/location_parser.py:196-263 | no text of the general code-dash-room form starts with a Miryang prefix, so the order of the two tests does not matter |
| LocationParser.ParseGeneral | backend/utils/location_parser.py:263-280 | a text of the general form is offline; the code has one leading campus name removed, the name is looked up on the cleaned code, the room is the digits, and the label is the cleaned code, a dash and the room |
| LocationParser.ParseUnknown | backend/utils/location_parser.py:283-289 | any other text is unknown with every field None, labelled by the stripped text |
| LocationParser.OfflineNamesBuilding | backend/utils/location_parser.py:199-203 | every offline result has a code and a room, and its name is the lookup of its code; no other result has a code, name or room |
| LocationParser.ParseExampleGeneral | backend/utils/location_parser.py:262-280 | `"401-101"` is building `401`, room `101` |
| LocationParser.ParseExampleCyber | backend/utils/location_parser.py:184-193 | `" 사이버수업 "` is online once stripped |
| LocationParser.ParseExampleMiryang | backend/utils/location_parser.py:268-279 | `"밀양M02-101"` is building `M02`, label `M02-101` |
| LocationParser.ParseExampleSpecial | backend/utils/location_parser.py:207-216 | `"밀양M01-1-203"` is building `M01-1`, room `203`, labelled by the whole text |
| TimeOfDay.FormatHM | backend/utils/serializer.py:8-9 | `strftime("%H:%M")` is five characters, two zero-padded digit fields round a colon, holding the hour and the minute |
| TimeOfDay.ParseFormat | backend/utils/end_time_calculator.py:4-6 | parsing a formatted time with `strptime("%H:%M")` gives the same time back |
| TimeOfDay.FormatOrder | backend/runners/auto_attendance_runner.py:104-107 | comparing two formatted times as strings orders them as the times themselves |
| TimeOfDay.KstMidnightUtc | backend/runners/auto_attendance_runner.py:33-39 | the Korean midnight that starts the day of an instant is at or before it, less than a day earlier, and on the same Korean weekday |
| EndTime.CalcEndTimeMeaning | backend/utils/end_time_calculator.py:3-6 | an end time exists exactly when the start parses and the sum stays within the `datetime` range, and it reads back as the start plus the minutes modulo one day |
| EndTime.CalcEndTimeOf | backend/utils/end_time_calculator.py:4-6 | the end time of a start at minute m is the formatted (m + minutes) mod 1440 |
| EndTime.CalcEndTimeZero | backend/utils/end_time_calculator.py:4-6 | a zero length gives the start written as a zero-padded `HH:MM` |
| EndTime.CalcEndTimeCompose | backend/utils/end_time_calculator.py:5-6 | adding a minutes and then b minutes equals adding a + b minutes |
| EndTime.CalcEndTimeFullDay | backend/utils/end_time_calculator.py:5-6 | past midnight the time wraps: a full day changes nothing |
| EndTime.CalcEndTimeOverflow | backend/utils/end_time_calculator.py:5 | a length that runs past year 9999 raises instead of wrapping |
| Serializer.PyIndex | backend/utils/serializer.py:7 | Python list indexing: defined for -n..n-1, and a negative index counts from the end |
| Serializer.WrappedMinutes | backend/utils/serializer.py:10 | `(end - start).seconds // 60` is below one day and never negative, it takes the start to the end modulo one day, and it is end - start when start <= end |
| Serializer.SerializeMeaning | backend/utils/serializer.py:5-16 | a result exists for a weekday Python can index with, and 0..6 get labels 월..일; start and end read back as the schedule's times; the duration is the wrapped length; details are present exactly when a location is linked, and carry its three fields |
| Serializer.WeekdayLabelsDistinct | backend/utils/serializer.py:3 | the seven labels are single characters and pairwise distinct |
| ScheduleChecker.InLectureMinutes | backend/utils/schedule_checker.py:10-14 | at minute granularity, a reading in session lies between the start and end minutes; every instant from the start minute up to the end minute is in session; within the end minute, only its first microsecond is |
| ScheduleChecker.InLectureEndpoints | backend/utils/schedule_checker.py:13 | both ends of the slot are inclusive |
| ScheduleChecker.InLectureNever | backend/utils/schedule_checker.py:12-13 | another weekday is never in session, and a slot with start after end never is |
| AttendanceWindow.TodayWindow | backend/runners/auto_attendance_runner.py:33-39 | the window from today's KST midnight to the next one, both read as UTC instants, holds exactly the instants of the same Korean calendar day |
| AttendanceWindow.AttendedTodayMeaning | backend/runners/auto_attendance_runner.py:28-47 | already attended today holds exactly when some record of the same user and lecture falls on the current Korean calendar day |
| Runner.EnabledRows | backend/runners/auto_attendance_runner.py:128-130 | the rows read are exactly the association rows with automatic attendance enabled |
| Runner.SlotNowMinutes | backend/runners/auto_attendance_runner.py:151-155 | the runner's `"%H:%M"` string comparison means: the same weekday, with the current minute between the start and end minutes |
| Runner.SlotNowWider | backend/runners/auto_attendance_runner.py:151-155 | the runner's window contains the in-session window of `is_currently_in_lecture`, and also the rest of the end minute |
| Runner.ScanSlots | backend/runners/auto_attendance_runner.py:104-107 | the scan of a lecture's schedules finds a match exactly when one of them matches now |
| Runner.AnyOngoing | backend/runners/auto_attendance_runner.py:84-108 | true exactly when some enabled row with a Pro user and an existing lecture has a schedule matching now |
| Runner.LaterMeaning | backend/runners/auto_attendance_runner.py:71-77 | "today's start is after now" means the start minute lies after the current instant of the Korean day |
| Runner.SoonestNextStart | backend/runners/auto_attendance_runner.py:49-82 | the result is a candidate start (today's weekday, later than now, of an enabled row with a Pro user and an existing lecture), and no candidate is earlier; None exactly when there is no candidate |
| Runner.SoonestInRow | backend/runners/auto_attendance_runner.py:69-78 | folding one row's schedules keeps the running minimum: still a candidate, and no larger than any candidate of the rows seen so far |
| Runner.WorkersFor | backend/runners/auto_attendance_runner.py:173-188 | a selected row gets one worker per script, in script order, each carrying the row's user and lecture |
| Runner.StartWorkers | backend/runners/auto_attendance_runner.py:178-188 | the three `Popen` calls start the row's workers |
| Runner.PassRow | backend/runners/auto_attendance_runner.py:135-191 | a selected row (Pro user, existing lecture, not attended today, not in progress, matching now) has its in-progress flag set and its three workers started; any other row changes nothing and starts nothing |
| Runner.RunnerPass | backend/runners/auto_attendance_runner.py:127-193 | one pass reads the rows once; its launches and the new association table are those of the rows in order |
| Runner.PassLaunchesMeaning | backend/runners/auto_attendance_runner.py:135-191 | a pass launches only workers of selected rows, and for every selected row one worker per script |
| Runner.PassFlagsMeaning | backend/runners/auto_attendance_runner.py:159-169 | after a pass, every association row keeps its pair and its enabled flag, and is in progress exactly when it was before or its pair is that of a selected row |
| Runner.SleepSeconds | backend/runners/auto_attendance_runner.py:204-218 | the sleep is 10, 300 or 900 seconds: 900 exactly when no lecture is in session and none starts later today; 10 exactly when one is in session or the next start is at most twenty minutes away |
| Runner.SleepSooner | backend/runners/auto_attendance_runner.py:211-218 | a sooner next start never makes the runner sleep longer |
| Runner.NextStartInstant | backend/runners/auto_attendance_runner.py:71-76 | the instant of the soonest start exists exactly when a start minute does, and it falls on the current Korean day |
| Runner.KstTodayWeekday | backend/runners/auto_attendance_runner.py:71-76 | a minute of the Korean day lies on that day's weekday, at that minute's first microsecond |
| Models.User.constructor | backend/models/user.py:12-18 | a new account has no student id and no password, and is neither Pro nor administrator |
| Models.User.SetAdminIfSpecial | backend/models/user.py:30-36 | the administrator flag is granted when both configured values are set and match the student id and the decrypted password; it is never cleared and nothing else changes |
| Models.FindUser | backend/runners/auto_attendance_runner.py:136 | a user found is in the table with the id; None exactly when no user has it |
| Models.FindLecture | backend/runners/auto_attendance_runner.py:137 | a lecture found is in the table with the id; None exactly when no lecture has it |
| Models.UserLectures | backend/models/user.py:20 | `user.lectures` lists only stored lectures, each linked to the user by an association row |
| Models.LectureSchedules | backend/runners/auto_attendance_runner.py:151 | `lecture.schedules` holds exactly the schedules of that lecture |
| Models.NextId | backend/models/user.py:12 | the id given to a new row is positive and larger than every id in use |
| Models.SetInProgress | backend/routers/attendance.py:316-324 | the update keeps the table's length, sets the in-progress flag on exactly the rows of that user and lecture and leaves every other row as it was |
| Selection.Without | frontend/src/pages/AdminUserRunners.jsx:78 | `filter(id => id !== x)` keeps exactly the other ids, and leaves a list without x unchanged |
| Selection.ToggleMembership | frontend/src/pages/AdminUserRunners.jsx:75-81 | a click flips whether its id is selected; every other id stays as it was; an unselected id is appended at the end |
| Selection.ToggleNoDup | frontend/src/pages/BruteAttendOptions.jsx:72-78 | toggling keeps the selection free of duplicates |
| Selection.WithoutMultiset | frontend/src/pages/BruteAttendOptions.jsx:75 | removal takes away every copy of the id and nothing else |
| Selection.ToggleTwice | frontend/src/pages/BruteAttendOptions.jsx:72-78 | clicking the same id twice restores the same ids; an id that was not selected restores the list exactly; a selected id moves to the end, and a duplicate-free list keeps each id once |
| AdminUserRunners.FindIndex | frontend/src/pages/AdminUserRunners.jsx:326 | `find` takes the first lecture with the id; None exactly when no lecture has it |
| AdminUserRunners.AnyScheduled | frontend/src/pages/AdminUserRunners.jsx:325-328 | `selected.some(...)` holds exactly when some selected id's first lecture has schedules |
| AdminUserRunners.GuardMeaning | frontend/src/pages/AdminUserRunners.jsx:325-332 | an empty selection, or one where no lecture has schedules, is refused; a selection holding the id of a scheduled lecture (first with that id) is accepted |
| AdminUserRunners.RefreshMeaning | frontend/src/pages/AdminUserRunners.jsx:55-73 | the message is empty exactly when both lookups succeed; on failure it is the lookup error with nothing selected; a failed first lookup leaves no lectures |
| AdminUserRunners.SaveText | frontend/src/pages/AdminUserRunners.jsx:93 | `res.message || default` is never empty |
| AdminUserRunners.SaveMessageLost | frontend/src/pages/AdminUserRunners.jsx:84-100 | as written, an answered save followed by a successful refresh leaves the message empty, unlike the intended message |
| AdminUserRunners.SaveMessageShown | frontend/src/pages/AdminUserRunners.jsx:86-96 | with the message set after the refresh, an answered save shows the server message or the default; an unanswered one shows the save error |
| AdminUserRunners.Runners.constructor | frontend/src/pages/AdminUserRunners.jsx:41-52 | the page starts with nothing loaded, nothing selected and no message |
| AdminUserRunners.Runners.HandleCheck | frontend/src/pages/AdminUserRunners.jsx:75-81 | the clicked id toggles in the selection |
| AdminUserRunners.Runners.FetchUserData | frontend/src/pages/AdminUserRunners.jsx:55-73 | the lectures, selection and message become those of `Refresh` on the two answers, and fetching ends |
| AdminUserRunners.Runners.HandleSave | frontend/src/pages/AdminUserRunners.jsx:84-100 | an answered save reloads the user's data; an unanswered one leaves it; the message is the corrected save message |
| AdminUserRunners.Runners.Submit | frontend/src/pages/AdminUserRunners.jsx:321-333 | the selection is saved exactly when some selected lecture has schedules; otherwise the schedule message is set and nothing else changes |
| AdminUserRunners.Runners.AllOff | frontend/src/pages/AdminUserRunners.jsx:397-399 | the all-off button saves an empty list without the guard |
| AdminUserRunners.Runners.FetchAttendances | frontend/src/pages/AdminUserRunners.jsx:124-144 | nothing happens without a user id; a successful answer shows its rows and `총 N건`; any other outcome clears the rows and shows the lookup error |
| BruteAttendOptions.ResultMeaning | frontend/src/pages/BruteAttendOptions.jsx:81-139 | save and stop-all succeed exactly when the server answers `success`; every outcome has a message; a server message is shown whenever the request returned one; a success without a message reads `전체 OFF` for an empty selection and `자동 출석 실행됨.` otherwise |
| BruteAttendOptions.DisplayName | frontend/src/pages/BruteAttendOptions.jsx:277 | a lecture is never shown with an empty name |
| BruteAttendOptions.DisplayNameMeaning | frontend/src/pages/BruteAttendOptions.jsx:277 | the name is the first present, non-empty field of lecture name, name, code, course id; only a lecture with none of them is called `강의` |
| BruteAttendOptions.Options.constructor | frontend/src/pages/BruteAttendOptions.jsx:276 | the page starts with nothing selected and no message or status |
| BruteAttendOptions.Options.HandleChange | frontend/src/pages/BruteAttendOptions.jsx:72-78 | the clicked id toggles in the selection |
| BruteAttendOptions.Options.HandleSave | frontend/src/pages/BruteAttendOptions.jsx:81-110 | the selection is posted; status and message come from the answer; a success leaves edit mode |
| BruteAttendOptions.Options.Submit | frontend/src/pages/BruteAttendOptions.jsx:262-270 | an empty selection is refused with the error message and status and nothing is posted; any other selection is saved |
| BruteAttendOptions.Options.StopRunner | frontend/src/pages/BruteAttendOptions.jsx:113-139 | stop-all posts the empty list whatever is selected; status and message come from the answer; a success leaves edit mode |
| BuildingButtons.Candidate | frontend/src/components/BuildingButtonGroup.jsx:8-9 | a schedule contributes at most one name, and never an empty one |
| BuildingButtons.Dedup | frontend/src/components/BuildingButtonGroup.jsx:4 | the set built by the `add` calls holds exactly the names added |
| BuildingButtons.DedupDistinct | frontend/src/components/BuildingButtonGroup.jsx:4 | the set holds each name once |
| BuildingButtons.DedupPrefix | frontend/src/components/BuildingButtonGroup.jsx:18 | names met first come first: the set built from a prefix starts the set built from the whole |
| BuildingButtons.DedupStep | frontend/src/components/BuildingButtonGroup.jsx:9 | adding a name already collected changes nothing; a new name goes last |
| BuildingButtons.NamesMeaning | frontend/src/components/BuildingButtonGroup.jsx:5-10 | a lecture without schedules adds no name; no name is empty; a schedule adds nothing exactly when it has no details or neither a truthy building name nor a truthy code; a building name is preferred to the code |
| BuildingButtons.AddScheduleNames | frontend/src/components/BuildingButtonGroup.jsx:7-10 | the inner loop adds each schedule's name, in order, to the set built so far |
| BuildingButtons.AddLectureNames | frontend/src/components/BuildingButtonGroup.jsx:5-11 | one step of the outer loop adds the lecture's names, or none when it has no schedules |
| BuildingButtons.Buttons | frontend/src/components/BuildingButtonGroup.jsx:3-14 | the component renders nothing exactly when no name is found; otherwise it renders the distinct names in the order first met |
| LectureList.LocationTextMeaning | frontend/src/components/LectureList.jsx:31-40 | details with a building (name or code) and a room give their own text, which the raw location never replaces; otherwise a truthy raw location is shown, else `장소 미정`; the text is never empty |
| LectureList.RenderMeaning | frontend/src/components/LectureList.jsx:4-6 | the empty message appears exactly for a missing or empty list; otherwise there is one block per lecture in order, titled by its name; `시간표 정보 없음` appears exactly when a lecture has no schedules, and otherwise one line per schedule with its location text |
| ClientAuth.GetItem | frontend/src/api/auth.js:149 | `getItem` gives the stored value, or `null` exactly when the key is absent |
| ClientAuth.WebStorage.constructor | frontend/src/api/auth.js:115-116 | a storage holds the given items |
| ClientAuth.WebStorage.RemoveItem | frontend/src/api/auth.js:115 | `removeItem` drops that key and only that key |
| ClientAuth.WebStorage.SetItem | frontend/src/api/auth.js:61 | `setItem` sets that key and only that key |
| ClientAuth.WebStorage.SweepSessionKeys | frontend/src/api/auth.js:117-126 | the sweep removes exactly the keys whose lower-cased name contains `token` or `auth`, and keeps the rest with their values |
| ClientAuth.WebStorage.ClearSession | frontend/src/api/auth.js:115-126 | logout's storage step leaves the storage without `jwt` and without session keys |
| ClientAuth.CleanIdempotent | frontend/src/api/auth.js:39-51 | clearing a second time, as `googleLogin` does after `logout`, changes nothing |
| ClientAuth.CleanMeaning | frontend/src/api/auth.js:115-126 | after clearing, no `jwt` and no session key remain, and every other key keeps its value |
| ClientAuth.SweptExamples | frontend/src/api/auth.js:118 | `firebase:authUser` and `idToken` are swept |
| ClientAuth.KeptExamples | frontend/src/api/auth.js:118 | `session` is kept by the sweep, and `jwt` is removed only by name |
| ClientAuth.Logout | frontend/src/api/auth.js:105-131 | after a successful sign-out both storages are cleared; a failed sign-out throws before anything is removed |
| ClientAuth.GoogleLogin | frontend/src/api/auth.js:26-103 | login succeeds exactly on a `success` answer, which stores the new jwt in `localStorage` over cleared storages; any other answer or a network failure leaves both storages cleared; a failed popup leaves them as its logouts leave them |
| ClientAuth.AuthHeaders | frontend/src/api/auth.js:152-155 | the request keeps the caller's headers and sets `Authorization: Bearer <token>` over them |
| ClientAuth.SecureFetchMeaning | frontend/src/api/auth.js:148-180 | without a jwt the result is `null` and does not depend on the network; with one, the request carries the bearer header, and only a 401 or 403 answer becomes `null` |
| ClientAuth.SecureFetchJson | frontend/src/api/auth.js:182-193 | the body is returned exactly when `secureFetch` answered and the content type contains `application/json`; otherwise `null` |
| ClientAuth.JsonNeedsToken | frontend/src/api/auth.js:174-177 | a JSON answer requires a stored jwt, and a refused request leaves the jwt in place |
| AppRouter.ViewMeaning | frontend/src/routes/AppRouter.jsx:27-66 | nothing renders until all four props are defined; an onboarding user is redirected to `/onboarding` from every path except `/onboarding`, `/privacy` and `/terms`; the menu shows exactly for a logged-in user who has finished onboarding; the footer shows exactly when the location read at the router's last render is neither legal page |
| AppRouter.FooterStale | frontend/src/routes/AppRouter.jsx:58-61 | the footer follows the location of the last render, not the page: after a link from `/privacy` to `/lectures` it stays hidden, after a link from `/` to `/privacy` it stays shown |
| AppRouter.GuardMeaning | frontend/src/routes/AppRouter.jsx:70-182 | a routed page is shown exactly when its guard holds, and a guarded page only to members; when a guard fails, an administrator page renders nothing and any other page redirects to `/`; an unknown path is not found, or for an onboarding user redirects to `/onboarding` |
| AppRouter.MemberRoutes | frontend/src/routes/AppRouter.jsx:70-89 | the lecture, attendance, log and account pages need a logged-in user who has finished onboarding |
| AppRouter.RestrictedRoutes | frontend/src/routes/AppRouter.jsx:90-169 | the brute-force and review pages also need Pro; the key page and the Pro advert need no Pro; the five administrator routes need an administrator |
| AppRouter.OpenRoutes | frontend/src/routes/AppRouter.jsx:68-69 | home, onboarding, terms, privacy, bug report and forbidden open for everyone |
| AppRouter.CourseRoute | frontend/src/routes/AppRouter.jsx:78-85 | `/attendance/:courseId` takes every id except `logs`, which the log page takes |
| AppRouter.NotStaticCourse | frontend/src/routes/AppRouter.jsx:67-173 | no plain route other than the log page starts with `/attendance/` |
| AppRouter.LectureRoute | frontend/src/routes/AppRouter.jsx:146-153 | `/admin/lecture/:lectureId` takes every id, for administrators |
| AppRouter.LinkTargets | frontend/src/components/Navbar.jsx:4-16 | each menu link names a routed page, except `/lectures/all`, which no route serves |
| AppRouter.MenuLinksOpen | frontend/src/routes/AppRouter.jsx:66-182 | for a member, every link the menu shows opens its page; `/lectures/all` opens "not found" |
| Navbar.Shown | frontend/src/components/Navbar.jsx:45-50 | the menu shows exactly the links whose flags the viewer meets, and no more links than there are |
| Navbar.ShownAppend | frontend/src/components/Navbar.jsx:45-50 | filtering keeps the links in menu order |
| Navbar.ShownFlags | frontend/src/components/Navbar.jsx:45-50 | Pro users never see a `proHide` link; other users never see a `proOnly` link; only administrators see an `adminOnly` link; a link without flags is always shown |
| App.ClassifyMeaning | frontend/src/App.jsx:7-54 | without a jwt the session is signed out whatever the server says; there is no session exactly without a jwt or without an answer; otherwise the flags come from `/me`, and the session is ready exactly when a student id and a password are stored |
| App.ReadyForWhoami | backend/routers/auth.py:27-37 | against the server's `/me`, a user is ready exactly when both a student id and a password are stored; a profile the server calls complete is ready; a ready one it does not call complete has an empty name |
| App.PropsOf | frontend/src/App.jsx:44-54 | the router gets four defined flags, never both logged-in and onboarding |
| App.PropsMeaning | frontend/src/App.jsx:44-54 | the router sees a logged-in user exactly for a ready session and onboarding exactly for an onboarding one, and the flags pass through; the router renders for every path |
| App.AppState.constructor | frontend/src/App.jsx:8-10 | the status starts undefined and both flags false |
| App.AppState.RunEffect | frontend/src/App.jsx:12-41 | the effect sets the status and both flags to the classification of the jwt and the `/me` answer |
| App.AppState.Rendered | frontend/src/App.jsx:43-54 | nothing renders while the status is undefined; then the router with the session's props |
| AccountForm.PasswordKept | frontend/src/components/AccountForm.jsx:45 | sent to `update_profile`, an empty password keeps the stored one and any other is stored encrypted, except a password typed as the sentinel itself, which is also taken as "keep"; the value sent is never empty |
| AccountForm.Account.constructor | frontend/src/components/AccountForm.jsx:13-16 | the form starts from the initial values with an empty password, not editing |
| AccountForm.Account.SyncExternal | frontend/src/components/AccountForm.jsx:20-22 | a boolean `isEditing` prop decides editing mode; any other value leaves it |
| AccountForm.Account.Reset | frontend/src/components/AccountForm.jsx:24-28 | new initial values replace the fields and clear the password |
| AccountForm.Account.EditClick | frontend/src/components/AccountForm.jsx:30-35 | the edit button turns editing mode on |
| AccountForm.Account.Submit | frontend/src/components/AccountForm.jsx:37-72 | nothing happens outside editing mode; a missing name or student id is alerted and nothing is sent; otherwise the form is sent with the password or the sentinel; only a success leaves editing mode and clears the password |
| AttendanceForm.ValidCodeIsPadded | frontend/src/components/AttendanceForm.jsx:12 | the valid codes are exactly the zero-padded numbers 000 to 999 |
| AttendanceForm.DescClassMeaning | frontend/src/components/AttendanceForm.jsx:86-98 | the hint is neutral exactly for an empty input, success exactly for a valid code, and an error for anything else typed |
| AttendanceForm.MessageClassMeaning | frontend/src/components/AttendanceForm.jsx:38-70 | after a submit or a brute force, the message is styled as a success exactly when the server answered `success` |
| AttendanceForm.Form.constructor | frontend/src/components/AttendanceForm.jsx:6-9 | the form starts with no code, no message and nothing loading |
| AttendanceForm.Form.SetDisabled | frontend/src/components/AttendanceForm.jsx:14-16 | a disabled form forgets the typed code |
| AttendanceForm.Form.Submit | frontend/src/components/AttendanceForm.jsx:18-50 | a request is sent exactly for a three-digit code; any other code sets the error message; a sent code shows the answer as a ✅ or ❌ message, with separate messages for no answer and a failed request |
| AttendanceForm.Form.Bruteforce | frontend/src/components/AttendanceForm.jsx:52-76 | nothing is sent unless confirmed; then the answer becomes the message, with the server's message or a fallback |
| AssignmentReview.SomeSuffix | frontend/src/pages/AssignmentReview.jsx:15-19 | `exts.some(ext => name.endsWith(ext))` holds exactly when the name ends with one of the extensions |
| AssignmentReview.IsSupportedFile | frontend/src/pages/AssignmentReview.jsx:15-19 | a file is supported exactly when it is present and its lower-cased name ends with a listed extension |
| AssignmentReview.SupportedExamples | frontend/src/pages/AssignmentReview.jsx:6-19 | case is ignored (`Report.PDF` is supported); `archive.zip` and no file are not |
| AssignmentReview.SubmitErrorMeaning | frontend/src/pages/AssignmentReview.jsx:66-78 | a blank question is reported first, then an unsupported file, then one over 8 MiB; the checks pass exactly for a question with no file, or with a supported file of at most 8 MiB; a file of exactly 8 MiB passes |
| AssignmentReview.FailureText | frontend/src/pages/AssignmentReview.jsx:100 | the error shown for a failed answer is never empty |
| AssignmentReview.Review.constructor | frontend/src/pages/AssignmentReview.jsx:28-34 | the page starts with no file, question, answer, raw output or error, on the `gpt-3.5-turbo` model |
| AssignmentReview.Review.FileChange | frontend/src/pages/AssignmentReview.jsx:36-45 | a new file clears the answer and the raw output, and an unsupported file is reported at once |
| AssignmentReview.Review.QuestionChange | frontend/src/pages/AssignmentReview.jsx:47-52 | a new question clears the answer, error and raw output |
| AssignmentReview.Review.ModelChange | frontend/src/pages/AssignmentReview.jsx:54-59 | a new model clears the answer, error and raw output |
| AssignmentReview.Review.Submit | frontend/src/pages/AssignmentReview.jsx:61-107 | a request is sent exactly when the checks pass, and otherwise their error is set; a success shows the answer and any raw output; a failed answer shows its error; a `null` answer shows the Pro-only message; a thrown request shows the server error |
| Home.Diff | frontend/src/pages/Home.jsx:73 | the whole seconds left are zero exactly when less than a second remains, and otherwise are the elapsed whole seconds, rounded down |
| Home.SplitMeaning | frontend/src/pages/Home.jsx:74-76 | hours, minutes and seconds add back up to the difference, minutes and seconds stay below sixty, and no other such split exists |
| Home.CountdownMeaning | frontend/src/pages/Home.jsx:65-84 | the countdown is empty exactly without a start time, and reads "수업중입니다!" exactly when less than a second is left |
| Home.HourLabelMeaning | frontend/src/pages/Home.jsx:127-133 | for an hour of the day, the 12-hour number is in 1..12, the period is 오전 exactly before noon, period and number give back the hour, and the minutes are shown exactly when not zero |
| Home.Page.constructor | frontend/src/pages/Home.jsx:6-9 | the page starts with no name, no next lecture and no attendance status |
| Home.Page.Load | frontend/src/pages/Home.jsx:20-62 | without a jwt the state is reset and nothing is requested; otherwise the name comes from a non-empty `/me` answer, the next lecture from an answer whose status is not `none`, and the status from its answer, or a closed status with an error message when that request threw |
| Onboarding.StepsMeaning | frontend/src/pages/Onboarding.jsx:56-78 | the wizard stays within steps 1 to 3; step 2 follows only a successful profile answer, step 3 only a successful lecture load, and a lecture load that answers without success goes back to step 1 |
| Onboarding.Wizard.constructor | frontend/src/pages/Onboarding.jsx:8-12 | the wizard starts at step 1 with empty fields, no consent and nothing loading |
| Onboarding.Wizard.Prefill | frontend/src/pages/Onboarding.jsx:20-29 | the name is filled in from a `/me` answer with a non-empty name and otherwise kept |
| Onboarding.Wizard.ProfileSubmit | frontend/src/pages/Onboarding.jsx:39-64 | a missing field is alerted before missing consent, and in both cases nothing is sent; a sent form moves to step 2 on success and alerts the server's message or the fallback otherwise; a thrown request alerts nothing and leaves the step |
| Onboarding.Wizard.LectureUpdate | frontend/src/pages/Onboarding.jsx:66-82 | a successful load moves to step 3; a failed answer is alerted and goes back to step 1; a thrown request leaves the step; loading is off afterwards |
| AuthRouter.Whoami | backend/routers/auth.py:27-37 | `/me` reports the user's id, name, student id and flags, whether a password is stored, and that the profile is complete exactly when name, student id and password are all present |
| AuthRouter.LoginMessageMeaning | backend/routers/auth.py:48-67 | the failure message starts with the invalid-token text; it is that text alone when the error names neither marker, the clock hint follows it when the error says `Token used too early`, and the popup hint follows it alone when only `auth/popup-blocked` appears |
| AuthRouter.FindByUid | backend/routers/auth.py:69 | a user found has the uid; none is found exactly when no user has it |
| AuthRouter.FindByUidAppend | backend/routers/auth.py:69-79 | a user added for a uid nobody had is the one found for it afterwards |
| AuthRouter.LoginFirebase | backend/routers/auth.py:40-93 | a rejected token gives the failure message and changes no user; a known uid signs in as that user with its profile-complete flag; a new uid adds one fresh user with the next id, the token's name or `이름없음`, no student id and no password, whose profile is not complete; afterwards the uid always finds the signed-in user |
| AuthRouter.Plaintext | backend/routers/auth.py:112-116 | the password checked for the administrator flag is the plaintext of what is stored after the update: the new password, or for `__NO_CHANGE__` the stored one |
| AuthRouter.UpdateProfile | backend/routers/auth.py:96-131 | an empty form field is a 422 that changes nothing, and only then is the request refused; otherwise name and student id are replaced, the stored password is replaced unless `__NO_CHANGE__` was sent, the administrator flag is granted, never revoked, for the special account, and the profile is complete exactly when a new password was sent or one was stored |
| AuthRouter.Redeemed | backend/routers/auth.py:148-150 | a redeemed key keeps its text and is used, by the caller, at the given instant |
| AuthRouter.VerifyProKey | backend/routers/auth.py:133-157 | an empty key is a 422, an unknown key a 404 and a used key a 400, and none of them changes anything; otherwise the first row with the key is marked used by the caller and the caller becomes Pro |
| AuthRouter.RedeemOnce | backend/routers/auth.py:139-150 | after a redemption the key is found at the same row and is used, so a second attempt is refused; unique keys stay unique |
| AdminRouter.AdminRequired | backend/routers/admin.py:17-20 | a caller passes exactly when it has the administrator flag; anyone else gets 403 with the fixed message |
| AdminRouter.SlotMeaning | backend/routers/admin.py:52-58 | one slot uses at most ten draws, and a key it adds is the last one drawn and in no row |
| AdminRouter.SlotsCount | backend/routers/admin.py:50-58 | at most `count` keys are created, one per slot at most |
| AdminRouter.SlotsMeaning | backend/routers/admin.py:50-58 | every created key is a drawn one and, when checked, was in no row, neither an old one nor one created before it |
| AdminRouter.SlotsKeepUnique | backend/routers/admin.py:50-59 | a key table without duplicates has none after the created keys are added |
| AdminRouter.CreatedKeysShape | backend/routers/admin.py:45-58 | every created key has the form `PRO-dddd-LLLL` |
| AdminRouter.FillSlot | backend/routers/admin.py:52-58 | the inner loop adds the key of one slot, or none after ten taken draws, as the slot function says |
| AdminRouter.FillSlots | backend/routers/admin.py:50-58 | the outer loop returns the keys the slots create and adds exactly their rows, in order |
| AdminRouter.GenerateKeys | backend/routers/admin.py:40-60 | a non-administrator gets 403 and no key; otherwise `count` slots (none for a count below one) of up to ten draws each, and the table gains exactly the created keys' rows |
| AdminRouter.DeleteProKey | backend/routers/admin.py:63-70 | 403 for a non-administrator and 404 for an unknown key, both with no change; otherwise the first row with the key is removed and the message names the key |
| AdminRouter.DeleteRemovesKey | backend/routers/admin.py:63-70 | with unique keys the table loses exactly the row with that key: one row fewer, every other row kept, and unique keys still |
| AdminRouter.SetUserPro | backend/routers/admin.py:92-99 | 403 for a non-administrator and 404 for an unknown user, both with no change; otherwise only that user's Pro flag becomes the value |
| AdminRouter.SetUserAdmin | backend/routers/admin.py:102-112 | 403 and 404 as for the Pro flag; an administrator clearing their own flag gets 400 with no change; otherwise only that user's flag becomes the value; the caller never loses the flag |
| AdminRouter.AdminSetAutoAttendance | backend/routers/admin.py:200-240 | 403 for a non-administrator; a non-list body is an error answer with no change; otherwise the target user's enabled lectures become exactly the listed ids among their rows, other users' rows unchanged |
| AdminRouter.AllRunnerStatus | backend/routers/admin.py:289-330 | 403 for a non-administrator; otherwise the entries of every enabled row in table order, and the count is the number of entries |
| AdminRouter.WatchedRowsMeaning | backend/routers/admin.py:309-324 | each entry comes from an enabled row whose user and lecture both exist, every such row gives an entry, and there are no more entries than rows |
| AdminRouter.WatchedOfMeaning | backend/routers/admin.py:311-314 | a row gives an entry exactly when its user and its lecture are both found, and the entry carries their ids |
| ProKeys.LetterChar | backend/script/generate_prokeys.py:8 | a letter index below 26 is an upper-case ASCII letter |
| ProKeys.DrawOf | backend/script/generate_prokeys.py:6-9 | a key is read back only from a string of the key shape, and always as a valid draw |
| ProKeys.KeyRoundTrip | backend/script/generate_prokeys.py:6-9 | every draw gives a key of the form `PRO-dddd-LLLL`, from which the draw is read back |
| ProKeys.ShapeIsKey | backend/script/generate_prokeys.py:6-9 | every string of that form is the key of the draw read from it, so the generator can produce any such key |
| ProKeys.KeyOfInjective | backend/script/generate_prokeys.py:6-9 | distinct draws give distinct keys |
| ProKeys.KeyIndex | backend/script/generate_prokeys.py:19 | `filter_by(key=key).first()` finds the first row with the key, and none exactly when no row has it |
| ProKeys.GenerateProKeys | backend/script/generate_prokeys.py:11-25 | the loop ends with the table and counters of the generator function: draws stop once `n` keys are created or `5n` draws are made |
| ProKeys.GenerateCounts | backend/script/generate_prokeys.py:16-22 | rows added equal `created`, at most one per draw; `created` never passes `n`, draws never pass `5n`, and the loop ends only at one of the two bounds |
| ProKeys.GenerateRows | backend/script/generate_prokeys.py:16-22 | the existing rows stay in place, and each added row is an unused key of the key shape that was in no row when checked |
| ProKeys.FreshKeepsUnique | backend/models/user.py:42 | rows added with keys absent from every earlier row keep the key column unique |
| ProKeys.GenerateFromStart | backend/script/generate_prokeys.py:11-25 | from a fresh start the table grows by exactly `created` rows, at most `n` and within `5n` draws, and unique keys stay unique |
| ProKeys.GenerateUnflushed | backend/script/generate_prokeys.py:16-22 | as the code runs it, the run only appends rows, and each added key is new only with respect to the rows stored before the run |
| ProKeys.UnflushedDuplicate | backend/script/generate_prokeys.py:16-25 | two draws of the same key with `n = 2` add that key twice as written, which the unique column refuses at commit; with the intended check the keys stay unique |
| AdminRouter.SlotsUnflushed | backend/routers/admin.py:50-58 | as the code runs it, at most one key per slot, each new only with respect to the rows stored before the call |
| AdminRouter.UnflushedSlotsDuplicate | backend/routers/admin.py:50-59 | two slots drawing the same key on an empty table both add it as written, so the commit repeats a key of the unique column |
| AttendanceRouter.AttendanceStatusMeaning | backend/routers/attendance.py:205-224 | `/status` says one can attend exactly when one of the user's lectures has a slot that contains the Korean wall clock |
| AttendanceRouter.AutoAttend | backend/routers/attendance.py:84-166 | the reply and the attendance table are those of the result function for the lecture current on the Korean clock |
| AttendanceRouter.AutoAttendGuards | backend/routers/attendance.py:97-105 | outside class time, or once the lecture has a record today, the reply is fixed whatever the site would answer and nothing is recorded |
| AttendanceRouter.AutoAttendRecords | backend/routers/attendance.py:107-162 | success comes exactly when a lecture is current, it has no record today and the site accepts the code, and then exactly one type-0 record with the code is added; every other outcome records nothing |
| AttendanceRouter.RecordCountsToday | backend/routers/attendance.py:62-78 | a record counts as attended at every instant of the same Korean day |
| AttendanceRouter.AutoAttendOncePerDay | backend/routers/attendance.py:97-149 | after a successful attempt, every later attempt that Korean day for the lecture is refused as already attended, before any browser step |
| AttendanceRouter.FirstAccepted | backend/routers/attendance.py:349-361 | the loop stops at the first code the site accepts; when none is found, no code was accepted |
| AttendanceRouter.FirstRow | backend/routers/attendance.py:294-300 | `fetchone()` gives the first row of the pair, and none exactly when the pair has no row |
| AttendanceRouter.TryCodes | backend/routers/attendance.py:349-416 | the loop returns the first accepted position and the keys posted up to and including it; a failed post only moves on to the next code |
| AttendanceRouter.BruteForce | backend/routers/attendance.py:270-442 | reply, records, flags and posted keys are those of the result function; while the codes are tried the pair's flag is set, and it is set only once the four refusals are passed |
| AttendanceRouter.ShuffleInRange | backend/routers/attendance.py:343-344 | a shuffle of `range(1000)` holds only codes from 0 to 999, and every one of them |
| AttendanceRouter.ShuffleDistinct | backend/routers/attendance.py:343-344 | no code occurs twice in the shuffle |
| AttendanceRouter.SentKeysMeaning | backend/routers/attendance.py:349-352 | every posted key is three digits naming its code, no key is posted twice, and when no code is accepted every key from `000` to `999` has been posted |
| AttendanceRouter.BruteEffects | backend/routers/attendance.py:283-442 | the four refusals change nothing and post nothing; otherwise the pair's flag ends false in every row of the pair and other rows are untouched; success comes exactly when the attempt started, the page was open and a code was accepted, with one type-1 record naming the code the reply prints |
| AttendanceRouter.BruteRestoresFlags | backend/routers/attendance.py:316-325 | with one row per pair, a brute force leaves the association table as it found it |
| AttendanceRouter.FindByCourse | backend/routers/attendance.py:501 | a lecture found has the course id; none is found exactly when no lecture has it |
| AttendanceRouter.ReportAttendanceSuccess | backend/routers/attendance.py:485-512 | reply and attendance table are those of the result function |
| AttendanceRouter.ReportMeaning | backend/routers/attendance.py:495-512 | the course id is checked first; the report is stored exactly when both ids are given and name an existing user and a lecture with that course id, and then as one type-2 record for the first such lecture |
| AttendanceRouter.AllOff | backend/routers/attendance.py:535-540 | turning everything off keeps the number of rows |
| AttendanceRouter.OnFor | backend/routers/attendance.py:544-555 | turning the listed lectures on keeps the number of rows |
| AttendanceRouter.SetAutoAttendance | backend/routers/attendance.py:517-563 | a non-list body is an error with no change; otherwise the two updates run, the second skipped for an empty list, and the reply is a success |
| AttendanceRouter.EnabledForMeaning | backend/routers/attendance.py:534-558 | afterwards each of the user's rows is enabled exactly when its lecture is listed, so an empty list turns all off; the busy flag, other users' rows and the row order are unchanged |
| AttendanceRouter.EnabledForLastWins | backend/routers/attendance.py:517-558 | saving twice is the same as saving the second list once |
| AttendanceRouter.EnabledIds | backend/routers/attendance.py:622-630 | the ids listed are exactly those of the user's enabled rows |
| AttendanceRouter.LecturesIn | backend/routers/attendance.py:631 | `Lecture.id.in_(ids)` selects exactly the lectures whose id is listed |
| AttendanceRouter.Names | backend/routers/attendance.py:641 | the names listed are exactly the non-empty names of the lectures |
| AttendanceRouter.CurrentCoursesMeaning | backend/routers/attendance.py:612-659 | the courses are, in table order, the lectures that one of the user's enabled rows names, each with its id and name |
| AttendanceRouter.CurrentCoursesMessage | backend/routers/attendance.py:633-644 | the "none set" message comes exactly with an empty list; otherwise the message counts and lists the named courses |
| AttendanceRouter.WeekdayTextMeaning | backend/routers/attendance.py:591 | within 0..6 the label is the weekday name; outside it is the number, which is never a weekday name |
| AttendanceRouter.LectureRowOf | backend/routers/attendance.py:589-605 | one lecture's entry carries its fields and exactly its own slots, in order, each labelled and formatted |
| AttendanceRouter.ListLectures | backend/routers/attendance.py:586-605 | one entry per lecture, in order, each carrying that lecture's id, PLATO course id, name, code and section and exactly its own slots, labelled and formatted |
| AttendanceRouter.SlotRowTimes | backend/routers/attendance.py:594-595 | a listed start or end read back with `%H:%M` is the stored time |
| AttendanceRouter.AutoAttendanceTargets | backend/routers/attendance.py:565-610 | one entry per lecture of the user's enabled rows, in table order, each carrying the lecture's id, PLATO course id, name, code, section and its own slots |
| AttendanceRouter.UserLogs | backend/routers/attendance.py:182 | the selected records are exactly the user's, none added |
| AttendanceRouter.Insert | backend/routers/attendance.py:182 | inserting adds exactly the one record |
| AttendanceRouter.InsertDescending | backend/routers/attendance.py:182 | inserting into a newest-first list keeps it newest first |
| AttendanceRouter.SortDesc | backend/routers/attendance.py:182 | the ordering is a permutation of the records |
| AttendanceRouter.SortDescDescending | backend/routers/attendance.py:182 | the ordered records are newest first |
| AttendanceRouter.EntriesOf | backend/routers/attendance.py:188-198 | one entry per record, in order |
| AttendanceRouter.AttendanceLogs | backend/routers/attendance.py:172-203 | the entries are those of the user's records newest first, and the count is their number |
| AttendanceRouter.LogsMeaning | backend/routers/attendance.py:182-198 | the listed records are exactly the user's, each once, newest first; an entry names its lecture exactly when that lecture exists |
| AttendanceSummary.DateOf | backend/utils/attendance_summary.py:15 | a date is built only when the calendar has it |
| AttendanceSummary.ParseDate | backend/utils/attendance_summary.py:15-17 | `strptime(s, "%Y-%m-%d")` accepts only a real calendar date in years 1 to 9999; anything else is the ValueError |
| AttendanceSummary.FormatDate | backend/utils/attendance_summary.py:2 | `%Y-%m-%d` is ten characters with dashes at positions 4 and 7 |
| AttendanceSummary.ParseFormatDate | backend/utils/attendance_summary.py:2-15 | every valid date written as `%Y-%m-%d` parses back to itself |
| AttendanceSummary.ParseDateLeap | backend/utils/attendance_summary.py:15-17 | `2024-02-29` parses and `2023-02-29` is refused |
| AttendanceSummary.ParseDateShortFields | backend/utils/attendance_summary.py:15-17 | `2024-1-5` parses to 5 January 2024, and year `0000` is refused |
| AttendanceSummary.ParseDateTrailing | backend/utils/attendance_summary.py:15-17 | text after the day field is refused |
| AttendanceSummary.CountsOrdered | backend/utils/attendance_summary.py:13-24 | attended classes are at most the past ones, which are at most the total |
| AttendanceSummary.UnparsedIgnored | backend/utils/attendance_summary.py:14-17 | a record whose date does not parse changes none of the three counts |
| AttendanceSummary.DecideMeaning | backend/utils/attendance_summary.py:26-35 | the required count is two thirds of the total, rounded down; when attending every remaining class still misses it the verdict is F with no absence allowed; otherwise the absences allowed are the best reachable attendance minus the required count |
| AttendanceSummary.Summarize | backend/utils/attendance_summary.py:5-44 | the summary is the decision on the number of parsed records, of those dated today or earlier, and of those among them marked `출석` or `기록 없음` |
| AttendanceSummary.PromptLines | backend/utils/attendance_summary.py:51-53 | one line `- date / period교시 / status` per record, in order |
| AttendanceSummary.FormattedLineCount | backend/utils/attendance_summary.py:55 | when no line holds a newline, the joined block has one newline between consecutive lines, so one text line per record |
| LectureService.WeekdayMapLabels | backend/services/lecture_service.py:18-26 | the seven weekday labels map to 0..6 and are exactly the labels the serialiser prints for those numbers, in both directions |
| LectureService.FindLectureByKey | backend/services/lecture_service.py:29 | a found lecture is in the table with the code and section asked for; nothing is found exactly when no row has both |
| LectureService.TimeOfFormat | backend/services/lecture_service.py:68-75 | the `int`/`time(*parts)` conversion of an "HH:MM" rendering gives back the same time of day |
| LectureService.IsDuplicateScan | backend/services/lecture_service.py:38-51 | an unknown weekday counts as a duplicate; otherwise a duplicate is a snapshot slot with the same weekday, both times and location text |
| LectureService.EntryRowMeaning | backend/services/lecture_service.py:53-81 | an entry adds a row exactly when its weekday is known, start, end and duration are truthy, it repeats no snapshot slot and both times convert; the row carries the lecture, weekday number, times, duration and location of the entry |
| LectureService.EntryRowIsNew | backend/services/lecture_service.py:38-51 | an added slot written as "HH:MM" matches no slot of the snapshot on weekday, times and location |
| LectureService.NewRowsFromEntries | backend/services/lecture_service.py:53-81 | a batch adds at most one row per entry, and every added row is the row of one of the entries |
| LectureService.BatchRepeatKept | backend/services/lecture_service.py:36-65 | the duplicate check reads only the pre-loop snapshot, so the same new entry twice in one batch is added twice |
| LectureService.SaveSchedule | backend/services/lecture_service.py:28-85 | the schedule table gains exactly the rows of the entries that pass the checks, in entry order, and nothing when no lecture has the code and section |
| LectureService.ParenMeaning | backend/services/lecture_service.py:96 | the reader of `\(([\w\d]+)-(\d+)\)` returns groups exactly when the text at that position has that shape with those groups |
| LectureService.TailAtMeaning | backend/services/lecture_service.py:96 | the reader of `\s+` plus the parenthesised groups succeeds with given groups exactly when some non-empty whitespace run is followed by that shape |
| LectureService.NameLimit | backend/services/lecture_service.py:96 | `.` stops at the first newline: every character before the limit is not a newline and the one at the limit is |
| LectureService.LastOk | backend/services/lecture_service.py:96 | greedy `.+` backtracks to the largest split point that lets the rest match, or there is none |
| LectureService.MatchTitleMeaning | backend/services/lecture_service.py:96-105 | a title's dictionary is returned exactly when the name is the longest newline-free prefix after which the tail matches, with those groups, and the full name rebuilt from them |
| LectureService.MatchTitleNone | backend/services/lecture_service.py:96-107 | a title is skipped exactly when no split point within reach of `.+` is followed by the tail |
| LectureService.TitleRoundTrip | backend/services/lecture_service.py:96-99 | reading a title written as `f"{name} ({code}-{section})"` gives back the name, code, section and that full name |
| LectureService.CollectMeaning | backend/services/lecture_service.py:94-108 | the collected dictionaries are exactly the readings of the titles that match |
| LectureService.TitleInfosMeaning | backend/services/lecture_service.py:89-108 | the dictionaries returned are exactly those of the titles that match the pattern |
| LectureService.ParseLectureList | backend/services/lecture_service.py:89-108 | the loop returns the matching titles' dictionaries in page order |
| LectureService.LectureKeys | backend/services/lecture_service.py:111-113 | the key set holds the (code, section) of every stored lecture and nothing else |
| LectureService.StoreParsedLectures | backend/services/lecture_service.py:110-125 | the lecture table gains one row, with the next free id, for each dictionary whose key was not stored before the call |
| LectureService.AfterStoreMeaning | backend/services/lecture_service.py:110-125 | storing keeps the old rows as a prefix and ids distinct; each added row is a batch dictionary with a key new to the table, and each such dictionary is added |
| LectureService.StoreBatchRepeat | backend/services/lecture_service.py:111-124 | the key set is read once, so the same new key twice in one batch inserts two rows with that key |
| LectureService.KeyLookup | backend/services/lecture_service.py:130-138 | the dictionary lookup finds the last stored lecture with the key, and nothing exactly when none has it |
| LectureService.EnrollUser | backend/services/lecture_service.py:129-141 | the pending rows are one per dictionary whose key the user lacked before the call and the lecture table holds; the commit stores them exactly when the table then keeps one row per (user, lecture) pair, and otherwise leaves the table unchanged; a table with its keys intact keeps them |
| LectureService.AfterEnrolMeaning | backend/services/lecture_service.py:129-141 | enrolling keeps the old rows; each added row links the user to a stored lecture of a batch key the user lacked, with both runner flags off; every such key is linked |
| LectureService.AfterEnrolUnique | backend/services/lecture_service.py:129-141 | from a table with one row per pair and lectures with distinct ids, the pending rows keep one row per pair exactly when no key the user lacked and the table holds comes twice in the batch |
| LectureService.RepeatsStep | backend/services/lecture_service.py:135-140 | a dictionary adds a repeated key exactly when its key is new to the user, held by the table and came earlier in the batch |
| LectureService.AppendUnique | backend/models/user_lecture_map.py:8-9 | one more association row keeps one row per pair exactly when its pair is not linked yet |
| LectureService.LinkedIffSeen | backend/services/lecture_service.py:133-140 | before a dictionary whose key the user lacked, its lecture is already linked exactly when the key came earlier in the batch |
| LectureService.SameIdSameLecture | backend/models/lecture.py:9 | in a lecture table with distinct ids, two lectures with one id are the same lecture |
| LectureService.EnrolledKeyKnown | backend/services/lecture_service.py:133 | a row linking the user to a stored lecture puts that lecture's key among the user's keys |
| LectureService.UserLecturesHas | backend/models/user.py:20 | each row of the user whose lecture is stored contributes that lecture to `user.lectures` |
| LectureService.EnrolBatchRepeat | backend/services/lecture_service.py:135-141 | the same new key twice in one batch gives two identical rows for one pair, which the commit refuses |
| LectureService.CurrentLectureMeaning | backend/services/lecture_service.py:147-152 | the current lecture is the first of the user's lectures with a schedule in session, and there is none exactly when no lecture is in session |
| LectureService.FindCurrentLecture | backend/services/lecture_service.py:147-152 | the nested scan returns that first lecture in session |
| LecturesRouter.OwnEntries | backend/routers/lectures.py:267 | the inner loop visits one entry per schedule of the lecture, in table order |
| LecturesRouter.FoundStays | backend/routers/lectures.py:272-279 | once an entry in session is returned, later schedules do not change the answer |
| LecturesRouter.ScanMeaning | backend/routers/lectures.py:264-287 | the scan finds the first entry in session; with none, the kept entry starts later today with the earliest start, the first such on ties, and there is none exactly when nothing starts later today |
| LecturesRouter.ScanLecture | backend/routers/lectures.py:267-286 | the inner loop over one lecture's schedules is that scan continued from the earlier lectures' state |
| LecturesRouter.GetNextLecture | backend/routers/lectures.py:259-296 | the nested loops give the answer of the scan over all the user's schedules |
| LecturesRouter.NextOngoing | backend/routers/lectures.py:268-279 | the answer is "ongoing" exactly when some schedule today has `start <= now <= end`, and it names the first such lecture with its times |
| LecturesRouter.NextUpcoming | backend/routers/lectures.py:280-294 | an "upcoming" answer comes only when nothing is in session and names a schedule later today with the earliest start, the first such on ties |
| LecturesRouter.NextNone | backend/routers/lectures.py:288-296 | the answer is "none" exactly when no schedule today is in session or starts later |
| LecturesRouter.FindPlace | backend/routers/lectures.py:205-208 | the lookup finds the first room with the building code and room number, and nothing exactly when no room has both |
| LecturesRouter.LinkLecture | backend/routers/lectures.py:195-220 | the inner loop keeps the number of schedule rows |
| LecturesRouter.LinkAll | backend/routers/lectures.py:194-220 | the outer loop keeps the number of schedule rows |
| LecturesRouter.FindPlaceExtends | backend/routers/lectures.py:205-217 | rooms added at the end do not change which room a pair already present finds |
| LecturesRouter.LinkOneMeaning | backend/routers/lectures.py:196-220 | one schedule step links an offline schedule to the room its text names, creating the room at the end only when no row has the pair; other schedules, and non-offline ones, are unchanged; pairs and ids stay distinct |
| LecturesRouter.AppendedPlace | backend/routers/lectures.py:210-217 | a room created for a new pair is the one later lookups of that pair find |
| LecturesRouter.RelinkSame | backend/routers/lectures.py:196-220 | linking an already linked schedule again changes nothing |
| LecturesRouter.LinkedAgain | backend/routers/lectures.py:196-220 | linking a link again keeps it a link of the original schedule |
| LecturesRouter.LinkLectureMeaning | backend/routers/lectures.py:195-220 | after one lecture's loop its offline schedules are linked, every other schedule is unchanged, rooms are only appended, and pairs and ids stay distinct |
| LecturesRouter.LinkAllMeaning | backend/routers/lectures.py:194-221 | after all lectures, every offline schedule of the user's lectures is linked to the room its text names, other schedules are unchanged, rooms are only appended and never with a pair already present |
| LecturesRouter.LinkLectureRows | backend/routers/lectures.py:195-220 | the loop over one lecture's schedules leaves the tables as the inner-loop function says |
| LecturesRouter.UpdateLocation | backend/routers/lectures.py:182-221 | with no lectures the answer is "empty" and nothing changes; otherwise the answer is "success" and the tables are those of linking every lecture in turn |
| ScheduleParser.WeekdayLead | backend/utils/schedule_parser.py:40 | `[월화수목금토]\s+` matches at a position only on one of the six weekday characters followed by whitespace |
| ScheduleParser.SpaceThenRun | backend/utils/schedule_parser.py:40 | `\s+` and a greedy class run are read as a non-empty run of that class after the whitespace |
| ScheduleParser.MatchRange | backend/utils/schedule_parser.py:39-41 | a range-form match yields two "dd:dd" tokens and a location of the range class |
| ScheduleParser.MatchMinutes | backend/utils/schedule_parser.py:56-58 | a minutes-form match yields a "dd:dd" token, a digit run and a location of the plain class |
| ScheduleParser.MatchRaw | backend/utils/schedule_parser.py:81 | a raw-form match yields a time token of the form `\d+(?:\.\d+/\d+)?` and a location of the range class |
| ScheduleParser.MatchAt | backend/utils/schedule_parser.py:39-81 | a match of any of the four forms starting at a position gives groups of that form and ends after its start |
| ScheduleParser.FindAll | backend/utils/schedule_parser.py:39-81 | every tuple `re.findall` returns holds the groups of its form |
| ScheduleParser.RangeBlockMeaning | backend/utils/schedule_parser.py:42-53 | a range block keeps the weekday, both tokens and the location, and its duration is the end minus the start in minutes, negative when the range runs backwards |
| ScheduleParser.ClockParse | backend/utils/schedule_parser.py:43-46 | an accepted "dd:dd" token names the minute of the day its hour and minute digits say |
| ScheduleParser.MinuteBlockMeaning | backend/utils/schedule_parser.py:59-67 | a minutes block exists exactly when the end-time calculator accepts its start and length; its end reads back as the start plus the length modulo one day |
| ScheduleParser.CyberRawMeaning | backend/utils/schedule_parser.py:70-89 | a cyber block has no times and the location "사이버수업"; a raw block keeps its time token as the start and has no end or duration |
| ScheduleParser.Blocks | backend/utils/schedule_parser.py:42-89 | one block per match, in match order, each with the match's weekday; only minutes blocks can raise |
| ScheduleParser.CellBlocks | backend/utils/schedule_parser.py:36-92 | every block of a time cell carries one of the six weekday characters |
| ScheduleParser.SectionPrefix | backend/utils/schedule_parser.py:20 | `\d{3}(?:\.\d+/\d+)?` matches at the start exactly when the text starts with three digits, and the longer match continues with a dot |
| ScheduleParser.NormaliseSection | backend/utils/schedule_parser.py:18-21 | a section cell starting with three digits becomes its leading section number; any other cell is kept stripped |
| ScheduleParser.RowBlocks | backend/utils/schedule_parser.py:14-31 | a row with fewer than twelve cells, another course code or another section adds nothing |
| ScheduleParser.RowResults | backend/utils/schedule_parser.py:13-92 | the per-row results are the rows' own results, in row order |
| ScheduleParser.MapRows | backend/utils/schedule_parser.py:13 | the row parser is applied to each row in turn |
| ScheduleParser.ParseRowsWeekdays | backend/utils/schedule_parser.py:5-95 | every block `parse_schedule` returns carries one of 월화수목금토; Sunday never appears |
| ScheduleParser.ParseSchedule | backend/utils/schedule_parser.py:5-95 | the row loop returns each row's blocks in row order, or raises when a row raises |
| ScheduleParser.NoneStays | backend/utils/schedule_parser.py:13-92 | once a row raises, the whole call raises |
| ScheduleParser.ParseRowsAppend | backend/utils/schedule_parser.py:13-92 | the result of two lists of rows is the first's blocks followed by the second's |
| ScheduleParser.UnwantedRowAddsNothing | backend/utils/schedule_parser.py:15-31 | a row that is not the wanted course section leaves the result unchanged |
| ScheduleParser.WantedRowBlocks | backend/utils/schedule_parser.py:33-92 | a wanted row adds its range blocks, then minutes, then cyber, then raw blocks, and raises exactly when a minutes block does |

## Left out

**External systems**
- Browser automation and scraping are not modelled. This covers the Plato sign-in, form reading, the pop-up closer, the HTML table reading and `get_schedule` (backend/services/lecture_service.py:155-220). They are I/O against an external site. `parse_schedule` and `parse_lecture_list` are modelled over the cell and title texts that BeautifulSoup would return.
- The attendance workers that run in parallel processes are not modelled, because their point is concurrency. Only the codes they share with the brute-force endpoint are modelled. The same goes for the OpenAI and OCR calls.
- Firebase token verification, JWT encoding and decoding, and Fernet encryption are opaque:
  - token verification is a parameter with either the claims or the error text;
  - ciphertexts are opaque strings;
  - the issued token is not modelled.
- `/logout` on the server (backend/routers/auth.py:22-25) only answers a constant message, and is not modelled.
- The Firebase pop-up in `googleLogin`, and the alert texts the client shows around it, are not modelled.
- AuthRouter.LoginFirebase: a verified token always carries a `uid`. The source's query with a missing `uid` (`filter_by(firebase_uid=None)`) is not modelled.

**Database and server failure paths**
- Database failures are not modelled. The IntegrityError and other server-error replies around a commit (for example backend/routers/attendance.py:150-159, 393-411) are left out.
- The order of database ids is not modelled: a new row takes the next free id.
- AuthRouter.UpdateProfile, AuthRouter.VerifyProKey: FastAPI's 422 for an empty or missing form field is modelled by its status and the message `Field required`; the rest of its error body is not modelled.
- LectureService.EnrollUser: a commit refused for a repeated (user, lecture) pair is modelled as storing nothing and reporting `committed` false. The exception it raises in the caller (backend/routers/lectures.py:136) is not modelled.
- The Pro gate `verify_pro_user` (backend/services/auth_dependency.py:32), in front of several attendance endpoints, is not modelled. The endpoints are modelled for a caller who has passed it.
- LecturesRouter.UpdateLocation:
  - the listing it returns after linking is not modelled, only the status and the new tables;
  - the reply for an exception (status 500) is not modelled.
- The listing endpoints of backend/routers/lectures.py:60-179 are not modelled. Neither is `my_lectures` (backend/routers/attendance.py:661-697); only the listing loop it shares with `auto_attendance_targets` is modelled.
- Several administrator listing endpoints are not modelled: the Pro keys, the users, enrolled lectures, targets, one user's runner status, a lecture and the attendance records. They only serialise table rows.
- AttendanceSummary.PromptLines: only the record lines of `make_attendance_prompt`, and their join, are modelled. The fixed prompt text around them is left out.
- AttendanceRouter.UserLogs: attendance records are kept opaque apart from the fields the endpoints read.

**Numbers, text and time**
- AttendanceSummary.Summarize: `int((2/3) * total)` is modelled as the integer `(2 * total) / 3`. The floating-point rounding of the source is not modelled.
- The runner compares the float `total_seconds()` to the next start. It is modelled as an integer count of microseconds; float rounding is not modelled.
- Regular-expression classes are approximations:
  - `\d` is the ASCII digits;
  - `\w` is ASCII letters and digits, the underscore and the Hangul syllables, whereas Python's Unicode `\w` is wider.
- JavaScript `toLowerCase` and Python `lower()` are modelled on ASCII letters only.
- `str.strip()` and `\s` use Python's white-space set; JavaScript `trim` uses its own set.
- Locale date formatting is not modelled (`toKSTString`, `toLocaleString`, `toISOString`).
- Pro keys' `used_at` is stored as a Korean-time `datetime`. It is modelled as the instant of the redemption.
- Timers and sleeps are not modelled (`setInterval`, `setTimeout`, `asyncio.sleep`). The runner's sleep choice is modelled; the sleep itself is not.
- The runner's process loop, its worker launches and its exception handling are not modelled. One pass of target selection and flag setting is.

**Client**
- React rendering, HTML and CSS are not modelled. So are the browser's routing details, such as trailing slashes and case-folding of paths.
- A response body that is not JSON makes `response.json()` throw. It is one of the outcomes where the request threw.
- The merging of a caller's `Authorization` header spelled in another case is not modelled. Headers are a map with exact keys.
- `fetchAllRunnerStatus`, the GPT model list and the parent's `setIsEditing` callback are not modelled; they are UI plumbing.
- The static and fetch-and-render pages are not modelled: privacy, terms, Pro ad, bug report, not found, forbidden, footer, administrator dashboard, Pro keys, users, Pro-key verify, attendance detail, lecture detail, manage lectures, attendance, account edit and attendance logs. The same goes for the map and search components, and for `useAuth`, which no route uses.

**Behaviour of the code worth noting**
- ClientAuth.SecureFetch: on a 401 or 403 answer the function returns null and leaves the stored jwt in place.
- ClientAuth.WebStorage.SweepSessionKeys: the logout sweep removes only keys whose lower-cased names contain `token` or `auth`, so a key such as `session` stays.
- AppRouter.MenuLinksOpen: the menu's `/lectures/all` link matches no route, so it opens the not-found page.
- AppRouter.FooterStale: the footer is decided from `window.location` when `AppRouter` renders, outside the router, so following a link inside the app does not show or hide it.

**Pro-key generation**
- Pro-key generation is modelled as intended: each draw is checked against the keys added earlier in the same run. The code as written is modelled beside it and listed under Findings.

## Findings

| source | as written | input that shows it | evidently intended | confidence | as-written member | corrected member |
|---|---|---|---|---|---|---|
| backend/routers/admin.py:50-59 | each slot checks a drawn key with a query, but the session does not flush (`autoflush=False`), so keys added earlier in the same call are never seen; a key drawn twice is added twice and the commit fails on the unique `key` column (backend/models/user.py:42) | `count = 2`, an empty key table, and both slots drawing `PRO-0000-AAAA` | a key already added in the same call is skipped, so all created keys are distinct and the commit succeeds | not executed | AdminRouter.UnflushedSlotsDuplicate | AdminRouter.SlotsKeepUnique |
| backend/script/generate_prokeys.py:16-25 | the same unflushed query: a key drawn twice in one run is added twice, and the final commit fails on the unique column | `n = 2`, an empty key table, and the first two draws both giving `PRO-0000-AAAA` | each draw is checked against the keys added so far, so keys stay unique | not executed | ProKeys.UnflushedDuplicate | ProKeys.GenerateFromStart |
| frontend/src/pages/AdminUserRunners.jsx:84-100 | the save handler sets the server's message and then awaits `fetchUserData()`, which begins with `setMsg('')`, so the message is cleared | an answered save followed by a successful refresh | the save message is shown after the refresh | not executed | AdminUserRunners.SaveMessageLost | AdminUserRunners.SaveMessageShown |
