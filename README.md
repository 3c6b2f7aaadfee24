# QR attendance — a Dafny model

The system lets teachers run classes and sessions, and lets students check in to a session by scanning a QR code.

- A teacher creates a class. The class gets a short random code that students type to join it.
- The teacher adds sessions to the class. A session is created CLOSED.
- Opening a session mints a random QR token with an expiry and records the teacher's GPS position.
- A student scans the QR code (session id and token), takes a selfie and sends a check-in.
- The check-in is accepted only when all of these hold:
  - the session is OPEN;
  - the token matches and has not expired;
  - the student belongs to the class;
  - the student has not checked in to that session before;
  - where the teacher position is known, the student is within 50 m of it.
- An accepted check-in is stored as ON_TIME or LATE, measured against the session start plus a window of minutes (15 by default).
- Closing a session clears its token.
- The class report counts, per student, the sessions attended, on time, late and absent.

There are three implementations of the server side, and the model covers each one:

- the newer Spring service (`backend/…`), which also checks the distance;
- the older Spring service (`QRapp/backend/src/main/java/…`);
- the Express controllers and models (`QRapp/backend/src/…`).

The model also covers the student pages of the React front end: joining a class, searching the class list, and the scan, selfie and submit flow.

## Layout

| module | file | what it holds |
|---|---|---|
| `Common` | `common.dfy` | option and result types, API errors, ASCII string helpers (trim, case, whitespace removal, `lastIndexOf`, `Math.round`) |
| `Domain` | `domain.dfy` | entities (class, session, membership, attendance row) and the ON_TIME / LATE classification |
| `Sorting` | `sorting.dfy` | ORDER BY as a stable insertion sort, proved sorted and a permutation |
| `Codes` | `codes.dfy` | class codes and QR tokens drawn from random inputs |
| `ClassStore`, `SessionStore`, `MemberStore`, `AttendanceStore` | `class_store.dfy`, `session_store.dfy`, `member_store.dfy`, `attendance_store.dfy` | the tables as classes over `seq` rows with their unique constraints, and the queries of the models |
| `CheckIn`, `CheckInProperties` | `check_in.dfy`, `check_in_props.dfy` | the check-in of the three services, as a decision function plus a method that stores it, and properties across them |
| `Lifecycle`, `LifecycleProperties` | `lifecycle.dfy`, `lifecycle_props.dfy` | class creation, session creation, opening and closing, member removal, and how opening relates to check-in |
| `Report` | `report.dfy` | the class report of both Spring and Express, and their agreement |
| `Student` | `student.dfy` | joining a class by code, the session list and the attendance history |
| `Accounts` | `accounts.dfy` | the user table, Google sign-in of the three services, and Express register, login and "me" |
| `Security`, `Jwt`, `Upload` | `security.dfy`, `jwt.dfy`, `upload.dfy` | CORS origins and the public paths of both Spring chains, the Express `auth` and `requireRole` middleware, the JWT secret and lifetime, and the photo upload |
| `Frontend` | `frontend.dfy` | the join form, the class search, media URLs and the state of the scan page |

Modelling choices:

- Time is an integer number of milliseconds. `plusMinutes(m)` adds `m * 60000`, and `isAfter` is a strict `>`.
- The haversine distance, the clock, the random draws, the Google token verifier, the JWT verifier, the password hash and compare, `JSON.parse` and `StringUtils.cleanPath` are all inputs, given as values or functions.
- A table the source mutates is a class. Its methods state the new rows and keep its `Valid()` invariant: distinct ids and the unique constraints of the schema.
- The source and this model differ from the general description of the system in two places:
  - The newer Spring service lets a QR token expire `onTimeMinutes` after the moment the session is opened. It is not the session's scheduled start plus the window, so a late opening admits LATE check-ins.
  - The Spring report counts a MANUAL row as present without counting it as on time or late, so `present` can exceed `onTime + late`.

## Model

| member | source | states |
|---|---|---|
| Domain.Classify | QRapp/backend/src/controllers/attendanceController.js:109-115 | a check-in is LATE exactly when it is strictly after the session start plus the on-time window, ON_TIME otherwise |
| Domain.BoundaryIsInclusive | QRapp/backend/src/controllers/attendanceController.js:109-115 | the boundary instant itself is on time and one millisecond later is late |
| Domain.ClassifyByMinutes | QRapp/backend/src/controllers/attendanceController.js:109-115 | a check-in `k` whole minutes after the start is LATE exactly when `k` exceeds the window, so with the default 15 minutes the fifteenth minute is still on time |
| Domain.ClassifyMonotone | QRapp/backend/src/controllers/attendanceController.js:109-115 | checking in later never turns a late arrival into an on-time one |
| Sorting.SortBy | QRapp/backend/src/models/sessionModel.js:25 | ORDER BY: the result is ordered by the key and is a permutation of the input |
| SessionStore.FindSession | QRapp/backend/src/models/sessionModel.js:16-21 | null exactly when no row has the id; a row found has that id |
| SessionStore.FindSessionUnique | QRapp/backend/src/models/sessionModel.js:16-21 | with distinct ids the row found is the only row with that id |
| SessionStore.SessionTable.CreateSession | QRapp/backend/src/models/sessionModel.js:4-14 | a new session is appended CLOSED, without token, expiry or teacher position, and is found by its new id |
| SessionStore.OpenedRow | QRapp/backend/src/models/sessionModel.js:32-43 | opening sets status OPEN, the token, its expiry and the teacher position and keeps id, class, title and date |
| SessionStore.SessionTable.OpenSession | QRapp/backend/src/models/sessionModel.js:32-43 | only the row with the id changes, to its opened form; an unknown id changes nothing |
| SessionStore.ClosedRow | QRapp/backend/src/models/sessionModel.js:45-54 | closing sets status CLOSED and clears token and expiry; the teacher position stays |
| SessionStore.SessionTable.CloseSession | QRapp/backend/src/models/sessionModel.js:45-54 | only the row with the id changes, to its closed form; an unknown id changes nothing |
| SessionStore.SessionTable.GetSessionsByClass | QRapp/backend/src/models/sessionModel.js:23-29 | exactly the sessions of the class, newest date first |
| SessionStore.SessionTable.GetSessionsByClassIds | QRapp/backend/src/models/sessionModel.js:56-64 | an absent or empty id list answers []; otherwise exactly the sessions whose class is listed |
| MemberStore.FindMembership | QRapp/backend/src/models/classMemberModel.js:42-48 | finds a row exactly when the student is a member of the class |
| MemberStore.MemberTable.AddStudentToClass | QRapp/backend/src/models/classMemberModel.js:5-28 | a new pair is appended; an existing pair is answered from the table, which stays unchanged (duplicate-key path) |
| MemberStore.MemberTable.GetMembersByClass | QRapp/backend/src/models/classMemberModel.js:51-61 | the memberships of the class in join order |
| MemberStore.MemberTable.GetStudentsByClass | QRapp/backend/src/models/classMemberModel.js:64-74 | exactly the students of the class, each once |
| MemberStore.MembersOfClassKeepsKeys | QRapp/backend/src/models/classMemberModel.js:64-74 | the memberships of one class keep the (class, student) pair and the row id unique |
| MemberStore.StudentIdsDistinct | QRapp/backend/src/models/classMemberModel.js:64-74 | under the unique (class, student) constraint the student ids of one class are distinct |
| MemberStore.MemberTable.GetClassesByStudent | QRapp/backend/src/models/classMemberModel.js:30-40 | exactly the classes the student has joined, newest class first |
| MemberStore.MemberTable.Delete | backend/src/main/java/com/service/TeacherService.java:177-193 | the membership row with the id is gone and every other row stays |
| ClassStore.FindByCode | QRapp/backend/src/models/classModel.js:41-46 | null exactly when no class holds the code; a class found holds it |
| ClassStore.FindClass | QRapp/backend/src/models/classModel.js:21-24 | null exactly when no class has the id |
| ClassStore.ClassTable.Insert | QRapp/backend/src/models/classModel.js:5-11 | a code in use is refused and nothing is stored; otherwise the class is appended under the next id |
| AttendanceStore.FindAttendance | QRapp/backend/src/models/attendanceModel.js:5-11 | null exactly when the student has no row for the session |
| AttendanceStore.AttendanceTable.CreateAttendance | QRapp/backend/src/models/attendanceModel.js:13-33 | a second row for the same session and student is refused and nothing changes; otherwise the row is appended under the next id |
| AttendanceStore.AttendanceTable.GetBySession | QRapp/backend/src/models/attendanceModel.js:35-45 | the check-ins of the session in arrival order |
| AttendanceStore.JoinRow | QRapp/backend/src/models/attendanceModel.js:50-57 | a session's history row carries status and time exactly when the student has a row, and then the stored ones |
| AttendanceStore.AttendanceTable.GetByStudentAndClass | QRapp/backend/src/models/attendanceModel.js:48-63 | the i-th line is the left join of the i-th session of the class in date order (a permutation of the class's sessions), so the lines run oldest first and carry the student's stored status where a row exists |
| AttendanceStore.ClassSessionsByDate | QRapp/backend/src/models/attendanceModel.js:48-63 | the sessions of the class ordered by date ascending, a permutation of the class's sessions |
| AttendanceStore.ClassSessionsByDateDistinct | QRapp/backend/src/models/attendanceModel.js:48-63 | with distinct session ids the ordered sessions of a class have distinct ids |
| AttendanceStore.HistoryListsEachSessionOnce | QRapp/backend/src/models/attendanceModel.js:48-63 | with the primary key on session ids, every session of the class has a line, no session has two, and each line is the left join of the session with its id |
| AttendanceStore.AttendanceTable.GetByClass | QRapp/backend/src/models/attendanceModel.js:66-75 | exactly the check-ins of sessions of the class |
| Codes.ClassCodeAlphabetShape | backend/src/main/java/com/util/CodeUtil.java:7 | the alphabet has 32 symbols and leaves out I, O, 0 and 1 |
| Codes.GenerateClassCode | backend/src/main/java/com/util/CodeUtil.java:12-17 | six symbols, the i-th being the alphabet entry of the i-th draw |
| Codes.NodeGenerateClassCode | QRapp/backend/src/utils/generateCode.js:2-9 | `length` symbols of the alphabet, each at floor(r * 32) of its draw |
| Codes.RandomToken | backend/src/main/java/com/util/CodeUtil.java:19-24 | `length` symbols of the 62-symbol alphabet, one per draw |
| Codes.HexToken | QRapp/backend/src/utils/randomToken.js:5-8 | two lower-case hex digits per byte, so `n` bytes give `2n` digits (32 for the default 16) |
| Codes.HexRoundTrip | QRapp/backend/src/utils/randomToken.js:5-8 | decoding the hex token gives back the bytes |
| Codes.HexTokenInjective | QRapp/backend/src/utils/randomToken.js:5-8 | distinct bytes give distinct tokens |
| CheckIn.Realize | backend/src/main/java/com/service/AttendanceService.java:130-137 | a refusal is answered as such, an insert with the stored row and its distance, an insert that fails afterwards with 500 |
| CheckIn.Applied | backend/src/main/java/com/service/AttendanceService.java:130 | a row is added exactly when the decision inserts one |
| CheckIn.SpringMeasured | backend/src/main/java/com/service/AttendanceService.java:85-94 | a distance is measured exactly when both the teacher and the student positions are known |
| CheckIn.SpringDecide | backend/src/main/java/com/service/AttendanceService.java:55-137 | an accepted check-in has a found OPEN session, a matching unexpired token, membership and no earlier row; it stores the request's fields with the on-time status; it reports a distance exactly when the teacher position is known, and then one of at most 50 m; it never fails after storing |
| CheckIn.SpringDecideAsWritten | backend/src/main/java/com/service/AttendanceService.java:130-137 | refuses exactly when the corrected decision refuses; an accepted check-in without a measured distance is stored and then fails |
| CheckIn.SpringCheckIn | backend/src/main/java/com/service/AttendanceService.java:55-138 | the answer and the new attendance rows are those of `SpringDecide` |
| CheckIn.LegacyDecide | QRapp/backend/src/main/java/com/service/AttendanceService.java:54-120 | an accepted check-in passes the same guards as the newer service, without a photo guard, and reports no distance |
| CheckIn.LegacyCheckIn | QRapp/backend/src/main/java/com/service/AttendanceService.java:54-120 | the answer and the new attendance rows are those of `LegacyDecide` |
| CheckIn.NodePhoto | QRapp/backend/src/controllers/attendanceController.js:123 | an empty photo URL is stored as null, any other is kept |
| CheckIn.NodeDecide | QRapp/backend/src/controllers/attendanceController.js:29-131 | never answers 500 itself; an accepted check-in had a truthy payload, two finite coordinates, a found OPEN session with the same non-empty token, no expiry passed, membership and no earlier row, and stores the parsed coordinates and the on-time status |
| CheckIn.NodeCheckIn | QRapp/backend/src/controllers/attendanceController.js:29-131 | the answer and the new attendance rows are those of `NodeDecide` |
| CheckInProperties.InsertKeepsKeysUnique | QRapp/backend/src/controllers/attendanceController.js:100-107 | storing a decision that passed the duplicate guard keeps the (session, student) key unique |
| CheckInProperties.SpringChecksInOnce | backend/src/main/java/com/service/AttendanceService.java:112-115 | after a stored check-in, a second one of the same student for the same session is refused, and one that would otherwise have been stored is refused as "Already checked in" |
| CheckInProperties.NodeChecksInOnce | QRapp/backend/src/controllers/attendanceController.js:100-107 | after a stored check-in, a second one of the same student for the same session is refused, and one that would otherwise have been stored is refused as "Already checked in" |
| CheckInProperties.ClosedSessionRefused | QRapp/backend/src/controllers/attendanceController.js:52-54 | a session that is not OPEN refuses every backend's check-in with "Session is not open" |
| CheckInProperties.UnknownSessionRefused | backend/src/main/java/com/service/AttendanceService.java:68-69 | an id no session has is refused by all three backends with 404 "Session not found" (also QRapp/backend/src/controllers/attendanceController.js:49-50) |
| CheckInProperties.ExpiredTokenRefused | QRapp/backend/src/controllers/attendanceController.js:60-69 | the right token of an open session presented after its expiry is refused by all three backends with 400 (also backend/src/main/java/com/service/AttendanceService.java:79-82) |
| CheckInProperties.NonMemberRefused | backend/src/main/java/com/service/AttendanceService.java:108-110 | a valid, unexpired scan within the geofence by a student outside the class is refused by all three backends with 403 |
| CheckInProperties.DuplicateRefused | QRapp/backend/src/controllers/attendanceController.js:99-107 | a member's valid, unexpired scan within the geofence for a session already checked in is refused by all three backends with 400 "Already checked in" |
| CheckInProperties.StaleTokenRefused | QRapp/backend/src/controllers/attendanceController.js:56-58 | a token other than the one stored is refused as "Invalid qrToken" by every backend |
| CheckInProperties.DataUrlPhotoRefusedFirst | backend/src/main/java/com/service/AttendanceService.java:62-66 | an inline `data:` photo is refused before the session is looked up |
| CheckInProperties.TooFarReportsAtLeastLimit | backend/src/main/java/com/service/AttendanceService.java:95-104 | a refusal for distance reports a rounded distance of at least 50 m, with status 400 |
| CheckInProperties.BackendsAgree | QRapp/backend/src/controllers/attendanceController.js:29-131 | on a well-formed request the three backends decide alike, up to the distance only the newer service reports |
| CheckInProperties.MissingGpsNeverStored | backend/src/main/java/com/service/AttendanceService.java:125-126 | without coordinates the Spring services store nothing and the Express controller answers 400 |
| CheckInProperties.AsWrittenStoresThenFails | backend/src/main/java/com/service/AttendanceService.java:130-137 | a concrete check-in without a teacher position is stored, answered 500, and its retry is refused as "Already checked in" |
| CheckInProperties.CorrectedAnswersStoredRow | backend/src/main/java/com/service/AttendanceService.java:130-137 | the corrected service stores the same rows as the code as written and answers the stored row where the latter fails |
| Lifecycle.FirstFreeIndex | backend/src/main/java/com/service/TeacherService.java:71-76 | the index found lies in the range, every earlier candidate is taken and the one found, when inside the range, is free |
| Lifecycle.SpringClassCode | backend/src/main/java/com/service/TeacherService.java:69-80 | when one of the five tries is free the code chosen is free; when all five are taken the sixth draw is used unchecked |
| Lifecycle.NodeClassCode | QRapp/backend/src/controllers/teacherController.js:27-34 | when one of the five tries is free the code chosen is free; when all five are taken the fifth, taken, code is used |
| Lifecycle.SpringCreateClass | backend/src/main/java/com/service/TeacherService.java:69-92 | the class is stored under the next id with the chosen code, owned by the teacher; a chosen code already in use answers 409 and stores nothing |
| Lifecycle.NodeCreateClass | QRapp/backend/src/controllers/teacherController.js:22-46 | a missing or empty name answers 400; otherwise the class is stored with the chosen code, and a taken code makes the insert fail with 500 and store nothing |
| Lifecycle.SpringCreateSession | backend/src/main/java/com/service/TeacherService.java:146-164 | only the owner of the class adds a session, CLOSED and without token; anyone else gets 404 and nothing changes |
| Lifecycle.NodeCreateSession | QRapp/backend/src/controllers/teacherController.js:93-113 | ownership is checked before the body: 404 first, then 400 for a missing title or date, otherwise a CLOSED session is appended |
| Lifecycle.NodeExpiry | QRapp/backend/src/controllers/teacherController.js:154-157 | the Express token expires exactly at the on-time boundary of the session's scheduled start |
| Lifecycle.SpringOpenSession | backend/src/main/java/com/service/TeacherService.java:203-245 | 404 for a missing session, 403 for a class of another teacher; otherwise a 16-symbol token from the draws, expiry now plus the on-time window, the teacher position stored, and a QR payload of the session id with that token; rows with another id stay as they were; opened sessions keep carrying the teacher position |
| Lifecycle.NodeOpenSession | QRapp/backend/src/controllers/teacherController.js:129-178 | 400 for a teacher position that is not two finite numbers, checked first; then 404 / 403; otherwise the hex token of the 16 bytes, expiring at the on-time boundary of the session date; rows with another id stay as they were; open sessions keep expiring at their boundary |
| Lifecycle.CloseSession | backend/src/main/java/com/service/TeacherService.java:248-261 | 404 / 403 as for opening; otherwise the row with the id becomes its CLOSED form without token or expiry, and every row with another id stays as it was |
| Lifecycle.RemoveMember | backend/src/main/java/com/service/TeacherService.java:177-194 | 404 for a class of another teacher or an unknown member row, 400 for a member of another class; otherwise the row is deleted and the student is no longer a member |
| LifecycleProperties.SpringOpenedSessionAdmitsScan | backend/src/main/java/com/service/TeacherService.java:203-245 | the QR content of an opened session is accepted from a member inside the geofence until expiry, with the distance reported, and it is LATE exactly after the on-time boundary |
| LifecycleProperties.NodeOpenedSessionAdmitsScan | QRapp/backend/src/controllers/teacherController.js:129-178 | the QR content of a session opened by Express is accepted from a member inside the geofence until expiry, as ON_TIME |
| LifecycleProperties.ExpressNeverRecordsLate | QRapp/backend/src/controllers/teacherController.js:154-157 | with tokens expiring at the on-time boundary, every check-in Express accepts is ON_TIME |
| LifecycleProperties.ClosingKeepsBoundary | QRapp/backend/src/controllers/teacherController.js:180-195 | closing a session keeps the invariant that open sessions expire at their on-time boundary |
| LifecycleProperties.ClosingKeepsPositions | backend/src/main/java/com/service/TeacherService.java:248-261 | closing a session keeps the invariant that open sessions carry the teacher position |
| LifecycleProperties.SpringOpenedNeverCrashes | backend/src/main/java/com/service/TeacherService.java:221-222 | on sessions opened by the newer service, the check-in as written answers exactly as the corrected one |
| LifecycleProperties.ClosedSessionAcceptsNothing | backend/src/main/java/com/service/TeacherService.java:248-261 | after closing, no check-in of any of the three implementations is stored for that session |
| Report.CountPresent | backend/src/main/java/com/service/TeacherService.java:359-362 | a student's check-ins are at most the rows of the class |
| Report.CountStatus | backend/src/main/java/com/service/TeacherService.java:363-368 | check-ins with a given status are at most the student's check-ins |
| Report.CountAbsent | QRapp/backend/src/controllers/teacherController.js:253-263 | the sessions missed are at most the sessions of the class |
| Report.Max0 | backend/src/main/java/com/service/TeacherService.java:371-375 | `Math.max(n, 0)`: at least n and at least 0, and one of the two |
| Report.TallyAttendance | backend/src/main/java/com/service/TeacherService.java:350-369 | one entry per student with its present, on-time and late counts; the attendance map marks exactly the (session, student) pairs with a row |
| Report.ZeroedStats | backend/src/main/java/com/service/TeacherService.java:333-345 | exactly one entry per student, with the session count and every counter at zero |
| Report.MarkStep | backend/src/main/java/com/service/TeacherService.java:348-356 | after marking a row, the attendance map marks exactly the (session, student) pairs seen so far |
| Report.TalliedStep | backend/src/main/java/com/service/TeacherService.java:358-368 | a row bumps present, and on-time or late by its status, of its own student and of no other |
| Report.SpringAbsences | backend/src/main/java/com/service/TeacherService.java:371-375 | one entry per student in student order, each with absences `max(total - present, 0)` |
| Report.CountAbsences | QRapp/backend/src/controllers/teacherController.js:253-263 | every student's absences become the number of sessions of the class it has no row for; the other counters stay |
| Report.AbsencesOfSession | QRapp/backend/src/controllers/teacherController.js:253-262 | after the pass for one session, every student's absences count that session exactly when the student has no mark for it |
| Report.CountAbsentStep | QRapp/backend/src/controllers/teacherController.js:253-262 | one more session adds one absence exactly when the student has no check-in for it |
| Report.SpringClassReport | backend/src/main/java/com/service/TeacherService.java:306-388 | 404 unless the class is the teacher's; otherwise the class, its sessions newest first, its students and one entry per student in student order with absences `max(total - present, 0)` |
| Report.NodeClassReport | QRapp/backend/src/controllers/teacherController.js:215-274 | 404 unless the class is the teacher's; otherwise the class, sessions and students, and the per-student entries ordered by student id |
| Report.EntriesInOrder | QRapp/backend/src/controllers/teacherController.js:236-263 | reading the map in the order the students were entered gives the Express entry of each student |
| Report.NodeRows | QRapp/backend/src/controllers/teacherController.js:236-263 | one entry per student, in student order, with the Express counters |
| Report.AllAbsentWithoutRows | QRapp/backend/src/controllers/teacherController.js:253-263 | a student without any check-in is absent from every session |
| Report.AbsentUnaffected | QRapp/backend/src/controllers/teacherController.js:253-263 | a row of another student, or of a session outside the class, changes nobody's absences |
| Report.AbsentFilled | QRapp/backend/src/controllers/teacherController.js:253-263 | a first check-in for a session of the class removes exactly one absence |
| Report.PresentPlusAbsent | QRapp/backend/src/controllers/teacherController.js:241-263 | with unique check-ins all within the class, present plus absent equals the number of sessions |
| Report.AttendanceOfClassUnique | QRapp/backend/src/models/attendanceModel.js:66-75 | the check-ins of one class keep the (session, student) key unique |
| Report.SessionsOfClassDistinct | QRapp/backend/src/models/sessionModel.js:23-29 | the sessions of one class have distinct ids |
| SessionStore.SessionsOfClassKeepsDistinct | QRapp/backend/src/models/sessionModel.js:23-29 | filtering the sessions of one class keeps their ids distinct |
| Report.ReportsAgree | backend/src/main/java/com/service/TeacherService.java:371-375 | on the tables the backends keep, the Spring absence `max(total - present, 0)` equals the Express count of missed sessions, and present plus absent is the number of sessions |
| Report.SameEntriesBothBackends | QRapp/backend/src/controllers/teacherController.js:269 | the two reports hold the same per-student entries; only their order can differ |
| Report.StatusesWithinPresent | backend/src/main/java/com/service/TeacherService.java:362-368 | on-time, late and manual check-ins together never exceed the check-ins |
| Common.RemoveSpaces | backend/src/main/java/com/service/StudentService.java:95 | the result holds no whitespace, keeps every other character and is no longer than the input; order and multiplicity in Common.RemoveSpacesFilters |
| Common.RemoveSpacesFilters | backend/src/main/java/com/service/StudentService.java:95 | removing whitespace keeps the other characters in their order (an ordered subsequence) and each as often as it occurs in the input |
| Common.LastIndexOf | QRapp/backend/src/main/java/com/service/UploadService.java:40 | -1 or an index holding the character, with no occurrence after it |
| Common.Round | backend/src/main/java/com/service/AttendanceService.java:98-101 | `Math.round`: the integer within half a unit of x, ties rounded up |
| Student.NormalizeClassCode | backend/src/main/java/com/service/StudentService.java:95 | a missing code reads as ""; the result holds neither whitespace nor a lower-case letter, and does not start or end with a character `trim` removes |
| Student.RemoveSpacesKeepsEnds | backend/src/main/java/com/service/StudentService.java:95 | removing whitespace from a trimmed string keeps its first and last characters |
| Student.RemoveSpacesLast | backend/src/main/java/com/service/StudentService.java:95 | a last character that is not whitespace stays last |
| Student.RemoveSpacesOfSpaceless | backend/src/main/java/com/service/StudentService.java:95 | a string without whitespace is left as it is |
| Student.NormalizedBlankIffEmpty | backend/src/main/java/com/service/StudentService.java:95-97 | the `isBlank` test after normalising holds exactly for the empty code |
| Student.NormalizeIdempotent | backend/src/main/java/com/service/StudentService.java:95 | normalising a normalised code changes nothing |
| Student.CodeSymbols | backend/src/main/java/com/util/CodeUtil.java:7 | a generated class code consists of upper-case letters and digits |
| Student.NormalizeGeneratedCode | backend/src/main/java/com/service/StudentService.java:93-95 | a generated code typed as it is or in lower case normalises to the code itself |
| Student.FindByOwnCode | QRapp/backend/src/models/classModel.js:41-46 | with distinct codes the lookup of a class's code finds that class |
| Student.LowerCaseCodeJoinsSameClass | backend/src/main/java/com/service/StudentService.java:95-101 | a generated code typed in lower case finds the class holding it |
| Student.CodeNotFound | backend/src/main/java/com/service/StudentService.java:100-101 | the unknown-code error is 404 and ends with the normalised code |
| Student.SpringJoinClass | backend/src/main/java/com/service/StudentService.java:90-131 | 400 for a blank normalised code, 404 for an unknown one; a member gets its existing row with "already joined" and nothing is inserted; otherwise one membership row is added with "joined"; either way the student is a member afterwards |
| Student.NodeJoinClass | QRapp/backend/src/controllers/studentController.js:15-31 | 400 for a missing or empty code, 404 when no class holds exactly that code; otherwise the student is a member afterwards and a row is added only if it was not one |
| Student.ViewHidesToken | backend/src/main/java/com/service/StudentService.java:147-155 | the session view shown to students is independent of the QR token and the teacher position, and determines every other field |
| Student.SpringSessionsInClass | backend/src/main/java/com/service/StudentService.java:137-159 | 403 exactly for a non-member; otherwise one view per session of the class, newest first |
| Student.ViewRows | backend/src/main/java/com/service/StudentService.java:146-156 | the loop answers one view per listed session, in order |
| Student.Labelled | backend/src/main/java/com/service/StudentService.java:175-187 | one entry per row in the same order; a missing status reads ABSENT, a present one is kept |
| Student.HistoryMeaning | backend/src/main/java/com/service/StudentService.java:161-190 | with session ids unique, the history has exactly one line per session of the class, oldest first, carrying that session's title and date; a session without a check-in of the student reads ABSENT with no time, one with a check-in carries the stored status and check-in time |
| Student.SpringHistory | backend/src/main/java/com/service/StudentService.java:165-190 | 403 exactly for a non-member; otherwise the labelled left join of the class's sessions with the student's check-ins |
| Student.LabelRows | backend/src/main/java/com/service/StudentService.java:174-187 | the labelled rows, one per joined row in order, a missing status read as ABSENT |
| Student.NodeHistory | QRapp/backend/src/controllers/studentController.js:33-56 | 400 without a class id, 403 for a non-member, otherwise the labelled history |
| Security.Split | backend/src/main/java/com/config/SecurityConfig.java:72 | at least one piece, none holding the separator |
| Security.JoinSplit | backend/src/main/java/com/config/SecurityConfig.java:72 | gluing the pieces back with the separator gives the string |
| Security.SplitJoin | backend/src/main/java/com/config/SecurityConfig.java:72 | splitting a join of separator-free pieces gives back the pieces |
| Security.TrimAll | backend/src/main/java/com/config/SecurityConfig.java:73 | every piece trimmed, order and number kept |
| Security.DropEmpty | backend/src/main/java/com/config/SecurityConfig.java:74 | exactly the non-empty entries are kept |
| Security.ParseOrigins | backend/src/main/java/com/config/SecurityConfig.java:69-75 | no setting gives no origin; otherwise exactly the non-empty trimmed comma-separated entries, each trimmed and free of commas |
| Security.TrimAllShape | backend/src/main/java/com/config/SecurityConfig.java:73 | a non-empty trimmed piece is trimmed at both ends and holds no comma when its piece holds none |
| Security.TrimAllOfTrimmed | backend/src/main/java/com/config/SecurityConfig.java:73 | trimming entries that are already trimmed changes none of them |
| Security.OriginsRoundTrip | backend/src/main/java/com/config/SecurityConfig.java:69-75 | a comma-joined list of trimmed origins parses back to that list |
| Security.CorsFor | backend/src/main/java/com/config/SecurityConfig.java:77-96 | no origin configured gives the fallback patterns; a list with a `*` is used as patterns, one without as exact origins; methods, headers `*` and no credentials in every case |
| Security.SpringCors | backend/src/main/java/com/config/SecurityConfig.java:79-85 | the newer fallback is the four patterns; a configured list is handled as in the older service |
| Security.LegacyCors | QRapp/backend/src/main/java/com/config/SecurityConfig.java:84-100 | the older fallback is the two patterns |
| Security.SpringAdmits | backend/src/main/java/com/config/SecurityConfig.java:46-55 | an authenticated request passes; an anonymous one passes exactly when it is public |
| Security.LegacyAdmits | QRapp/backend/src/main/java/com/config/SecurityConfig.java:47-60 | the same rule over the older public list |
| Security.ApiNeedsToken | backend/src/main/java/com/config/SecurityConfig.java:46-55 | an anonymous non-OPTIONS request under /api/ outside /api/auth is refused by both chains |
| Security.PublicListsDiffer | QRapp/backend/src/main/java/com/config/SecurityConfig.java:52-56 | everything public in the older chain is public in the newer, which adds exactly the OAuth2 callback paths |
| Security.BearerToken | QRapp/backend/src/middleware/auth.js:5-8 | a token exactly when the header starts with `Bearer `, and then the header is that prefix followed by the token |
| Security.Authenticate | QRapp/backend/src/middleware/auth.js:4-27 | 401 "Missing token" without a non-empty bearer token, 401 "Invalid or expired token" when verification fails, otherwise the user from the claims |
| Security.BearerRoundTrip | QRapp/backend/src/middleware/auth.js:4-27 | a header built from a genuine token authenticates its holder with the token's claims |
| Security.RequireRole | QRapp/backend/src/middleware/roles.js:2-15 | 401 without a user; with one, it passes exactly when no role is required or the user's role is listed, otherwise 403 |
| Jwt.RepeatSecret | backend/src/main/java/com/security/JwtUtil.java:43-44 | at least 32 characters, the i-th being the secret's character i modulo its length |
| Jwt.NormalizeSecret | backend/src/main/java/com/security/JwtUtil.java:36-48 | the key has at least 32 characters; an empty trimmed secret gives the default; a long one is kept; a short one is repeated and cut at 32, beginning with the secret |
| Jwt.ExpirationMs | backend/src/main/java/com/security/JwtUtil.java:30-32 | the configured lifetime when positive, seven days otherwise, so always positive |
| Jwt.TokenExpiry | backend/src/main/java/com/security/JwtUtil.java:51-52 | a token expires one lifetime after it is issued, strictly later |
| Upload.Extension | QRapp/backend/src/main/java/com/service/UploadService.java:39-41 | empty exactly when the name has no '.'; otherwise a suffix of the name starting at its last '.' |
| Upload.UploadPhoto | QRapp/backend/src/main/java/com/service/UploadService.java:33-56 | 400 for a missing or empty file, 500 when the write fails, otherwise `/uploads/` followed by the UUID and the extension of the cleaned name, "photo" standing in for a missing name |
| Upload.ExtensionPreserved | QRapp/backend/src/main/java/com/service/UploadService.java:39-43 | the stored name keeps the extension of the original when the UUID holds no '.' |
| Upload.DefaultNameHasNoExtension | QRapp/backend/src/main/java/com/service/UploadService.java:38-54 | a non-empty file sent without a name is answered as `/uploads/` and the bare UUID, given that path cleaning leaves "photo" as it is |
| Accounts.Safe | QRapp/backend/src/controllers/authController.js:78-86 | the answered user keeps id, name, e-mail and role and leaves out the hash and the Google id |
| Accounts.ParseRole | QRapp/backend/src/controllers/authController.js:13-15 | a role exactly for "TEACHER" and "STUDENT", and it is named by that string |
| Accounts.RoleNameRoundTrip | QRapp/backend/src/controllers/authController.js:13-15 | every role's name parses back to that role |
| Accounts.FindByEmail | backend/src/main/java/com/service/GoogleAuthService.java:83-84 | null exactly when no user has the e-mail; a user found has it |
| Accounts.FindByGoogleId | backend/src/main/java/com/service/GoogleAuthService.java:83-84 | null exactly when no user is linked to the Google id; a user found is |
| Accounts.FindUserById | QRapp/backend/src/controllers/authController.js:75-78 | null exactly when no user has the id |
| Accounts.FindByOwnEmail | QRapp/backend/src/controllers/authController.js:49-52 | with unique e-mails the lookup of a user's e-mail finds that user |
| Accounts.Replaced | backend/src/main/java/com/service/GoogleAuthService.java:107-109 | saving a user replaces the row with its id and keeps every other row |
| Accounts.ReplacedKeepsKeys | backend/src/main/java/com/service/GoogleAuthService.java:107-109 | saving a user under its own id and e-mail keeps ids distinct and e-mails unique |
| Accounts.UserTable.Insert | QRapp/backend/src/controllers/authController.js:17-29 | a taken e-mail is refused and nothing is stored; otherwise the user is appended under the next id |
| Accounts.UserTable.Update | backend/src/main/java/com/service/GoogleAuthService.java:107-109 | the table becomes the replaced rows and keeps its invariant |
| Accounts.GoogleAccount | backend/src/main/java/com/service/GoogleAuthService.java:83-84 | the account linked to the Google id when there is one, otherwise the one with the e-mail; none exactly when neither exists |
| Accounts.NewGoogleUser | backend/src/main/java/com/service/GoogleAuthService.java:86-96 | a new Google user has the token's e-mail and subject, no password and always a name |
| Accounts.SpringSync | backend/src/main/java/com/service/GoogleAuthService.java:97-110 | links a missing Google id, takes a present token name and keeps everything else; it reports a change exactly when the user changed |
| Accounts.SpringSyncSettles | backend/src/main/java/com/service/GoogleAuthService.java:97-110 | a second sign-in with the same token changes nothing more |
| Accounts.SpringGoogleLogin | backend/src/main/java/com/service/GoogleAuthService.java:49-128 | 400 for a missing client id, a rejected token or a failure; otherwise the linked or e-mail account, synced and saved only if changed, or a new account |
| Accounts.LegacySync | QRapp/backend/src/main/java/com/service/GoogleAuthService.java:80-93 | links a missing or blank Google id, takes a non-blank token name and keeps everything else; a reported change is a real one except when a blank subject replaces itself |
| Accounts.LegacySyncSettles | QRapp/backend/src/main/java/com/service/GoogleAuthService.java:80-93 | with a non-blank subject a second sign-in changes nothing more |
| Accounts.LegacyGoogleLogin | QRapp/backend/src/main/java/com/service/GoogleAuthService.java:40-106 | 500 for a missing client id, otherwise every failure is 500 with "Google authentication failed: " and its cause; success as in the newer service with the blank-aware sync |
| Accounts.NodeGoogleLogin | QRapp/backend/src/controllers/googleAuthController.js:34-99 | 400 without a token, 500 without a client id, 400 for a token that fails verification; a linked account is answered unchanged; otherwise a new account with the whitelisted role or STUDENT, and an e-mail clash answers the catch-all 500 |
| Accounts.NodeRegister | QRapp/backend/src/controllers/authController.js:6-41 | 400 for a missing field, a role outside the whitelist or a registered e-mail, storing nothing; otherwise a new row holding the hash of the password |
| Accounts.NodeLogin | QRapp/backend/src/controllers/authController.js:43-73 | 400 for a missing field; the same 400 for an unknown e-mail and a wrong password; otherwise the safe user |
| Accounts.RegisteredUserLogsIn | QRapp/backend/src/controllers/authController.js:22-57 | a user registered with a password logs in with it |
| Accounts.NodeMe | QRapp/backend/src/controllers/authController.js:75-88 | 404 exactly when the id is unknown; otherwise the safe form of the user with that id |
| Frontend.JsTrimEmpty | frontend/src/pages/student/StudentDashboard.jsx:27-28 | trimming gives "" exactly for an all-whitespace string |
| Frontend.JoinRequest | frontend/src/pages/student/StudentDashboard.jsx:26-33 | refused with "Vui lòng nhập mã lớp" exactly when the code is all whitespace; a sent code is non-empty with no whitespace and no lower-case letter |
| Frontend.ClientCodeShape | frontend/src/pages/student/StudentDashboard.jsx:26-33 | the code sent is empty exactly for blank input and holds no whitespace and no lower-case letter |
| Frontend.TrimKeepsChars | frontend/src/pages/student/StudentDashboard.jsx:27 | trimming adds no character |
| Common.TrimOfUntrimmed | frontend/src/pages/student/StudentDashboard.jsx:27 | a string whose ends are not trimmed is left as it is |
| Frontend.ClientCodeChars | frontend/src/pages/student/StudentDashboard.jsx:27 | a typed code without control characters normalises to characters neither trimmed by Java nor lower-case |
| Frontend.ServerKeepsClientCode | frontend/src/pages/student/StudentDashboard.jsx:27-33 | the server's normalisation leaves the code the page sends unchanged |
| Frontend.KeepMatching | frontend/src/pages/student/StudentDashboard.jsx:47-52 | the classes kept, in their order, are exactly those whose name or code holds the keyword |
| Frontend.Filtered | frontend/src/pages/student/StudentDashboard.jsx:44-53 | an empty trimmed keyword shows every class; otherwise exactly the matching classes in their order |
| Frontend.SearchByCodeFindsClass | frontend/src/pages/student/StudentDashboard.jsx:44-53 | searching for a class's code, in any case, shows that class |
| Frontend.StripTrailingSlashes | frontend/src/pages/student/StudentScanQR.jsx:30 | a prefix of the input not ending in '/', followed in the input only by slashes |
| Frontend.StripApi | frontend/src/pages/student/StudentScanQR.jsx:31 | a trailing `/api` or `/api/` is removed and anything else is kept |
| Frontend.ResolveMediaUrl | frontend/src/pages/student/StudentScanQR.jsx:26-35 | a missing, empty or non-upload URL is kept; an upload path is prefixed with the API origin |
| Frontend.StripSlashesAfter | frontend/src/pages/student/StudentScanQR.jsx:30 | trailing slashes are removed exactly |
| Frontend.OriginOfHost | frontend/src/pages/student/StudentScanQR.jsx:30-31 | a host, with or without a trailing slash or `/api`, has itself as origin |
| Frontend.ResolveSettles | frontend/src/pages/student/StudentScanQR.jsx:26-35 | resolving twice is resolving once when the origin is absolute |
| Frontend.DecimalString | frontend/src/pages/student/StudentScanQR.jsx:167-172 | the rounded accuracy is printed as a non-empty string of decimal digits |
| Frontend.DecimalStringValue | frontend/src/pages/student/StudentScanQR.jsx:167-172 | the printed digits denote the number itself, with no leading zero except for zero |
| Frontend.ServerMessageOr | frontend/src/pages/student/StudentScanQR.jsx:210-213 | the server's message when present and non-empty, the page's own otherwise |
| Frontend.ScanPage.constructor | frontend/src/pages/student/StudentScanQR.jsx:39-45 | the page starts at the scan step, idle, with nothing scanned |
| Frontend.ScanPage.HandleScan | frontend/src/pages/student/StudentScanQR.jsx:106-139 | only a non-empty scan at the scan step acts: a payload without session id or token, or text that does not parse, is an error; a complete one moves to the selfie step |
| Frontend.ScanPage.CaptureSelfie | frontend/src/pages/student/StudentScanQR.jsx:87-103 | without a video element nothing changes; otherwise the selfie is kept with its prompt and nothing else changes |
| Frontend.ScanPage.HandleSubmit | frontend/src/pages/student/StudentScanQR.jsx:142-222 | refuses without a payload, a selfie or GPS; an accuracy over 80 m sends nothing; a failed upload (an error with the server's message or the fallback, or no URL with the upload message) sends only the upload; otherwise the check-in posts the payload, the GPS coordinates and exactly the uploaded URL; a rejection shows the server's message or the fallback and its distance fields; success exactly when both requests went out and the server accepted, and only then does the step move on |
| Frontend.ScanPage.OnPosition | frontend/src/pages/student/StudentScanQR.jsx:166-213 | an accuracy over 80 m sends nothing; an upload error shows the server's message or the fallback and clears the distance fields; no URL shows the upload message after the upload alone; otherwise the check-in carries the payload, the coordinates and exactly the uploaded URL, a rejection shows the server's message or the fallback and its distance fields, and an acceptance moves to the done step |
| Frontend.ScanPage.ResetAll | frontend/src/pages/student/StudentScanQR.jsx:224-232 | every field goes back to its initial value |

## Left out

- The haversine distance (`distanceInMeters`, `toRad`): floating-point trigonometry. It is a function parameter `dist`, and only the test `dist > 50` and the rounding of its value are modelled.
- The clock, `SecureRandom`, `Math.random`, `crypto.randomBytes` and `UUID.randomUUID`: nondeterministic. `now`, the draws, the bytes and the UUID are inputs.
- JWT signing and verification, bcrypt and the Google ID-token verifier: opaque libraries. They are function parameters, and only their outcomes matter.
- `JSON.parse` of the QR text: it is a parameter of `HandleScan`. A QR payload holds only an integer session id and a string token, so other JSON values in those fields (strings for the id, numbers for the token) are not modelled.
- `StringUtils.cleanPath`, directory creation and the file transfer of the upload: they are a parameter and a boolean outcome.
- Concurrency: the unique-constraint races of `joinClass`, `createClass` and `addStudentToClass` are not modelled. The model is sequential, so a conflict can only come from a code or pair already in the table.
- MemberStore.MemberTable.AddStudentToClass: an error other than a duplicate key is rethrown by the source. Database failures are not modelled.
- Characters are ASCII: upper and lower case, trimming and `\s` cover ASCII only, and Unicode case mapping and whitespace are not modelled.
- MySQL's case-insensitive collation: code lookups compare strings exactly, so the Express `findByCode` of a lower-case code is taken as a miss.
- MemberStore.MemberTable.GetStudentsByClass: the `ORDER BY fullName` order (collation-dependent) is not stated; only which students appear, each once, is.
- Names and e-mails in the student rows of the report are not modelled; the model carries student ids and the counters.
- Plain CRUD is not modelled:
  - `getMyClasses`, `updateClass`, `deleteClass`, `getClassMembers`, `getSessions` and `getSessionAttendance` in `TeacherService.java` and `teacherController.js`;
  - `StudentService.getMyClasses` and `studentController.getMyClasses`;
  - the user and class model modules beyond the lookups and inserts used here.
- The services' own "no current user → 401" branches are not modelled. The caller's id is an input, because the security chain and `requireRole` already guarantee an authenticated caller.
- Lifecycle.SpringCreateClass: the 409 answer is modelled only for a code already in the table; a conflict on save caused by a concurrent insert is not.
- Accounts.SpringGoogleLogin: a token without an e-mail, and a save that fails, are not modelled. Only the verifier's three outcomes are.
- Accounts.NodeGoogleLogin: the users table is assumed to have a unique e-mail column, so a clash of e-mails on insert is the only insert failure.
- Accounts.NodeRegister: the model answers the stored row. The response's JWT is not modelled, and the row as answered includes the password hash, as in the source.
- The Express application's error handler (`QRapp/backend/src/app.js`) is not part of this model. An error passed to `next` is taken to be answered as 500 "Internal server error" (`Common.ServerError`).
- `CorsConfiguration` is set through setters in the source. Here the resulting configuration is a value, and Spring's pattern matching of origins is not modelled.
- Bean validation of the Spring check-in body is not modelled. The older request type (`QRapp/backend/src/main/java/com/api/dto/AttendanceDtos.java:9-19`) declares `payload`, `sessionId` and both coordinates `@NotNull` and `qrToken` and `photoUrl` `@NotBlank`; the newer controller takes its body with `@Valid` (`backend/src/main/java/com/api/controller/AttendanceController.java:27`); both exception handlers answer a violation with 400 "Invalid request". The newer request type and the older check-in controller are not part of this model. `CheckIn.SpringDecide` and `CheckIn.LegacyDecide` assume no validation ran: a missing payload, session id or coordinate answers 500 (`Crash`), and `LegacyDecide` accepts a check-in without a photo.
- Frontend.ScanPage.HandleSubmit: a failed upload reply is taken to carry no distance fields (the upload endpoint sends none); the camera, the canvas and the rendering are not modelled. The asynchronous GPS and upload callbacks are taken to run to their end, in order.
- The JWT lifetime is a 64-bit `long` in the source; `Jwt.TokenExpiry` uses unbounded integers, so overflow of `issuedAt + expirationMs` is not modelled.
- Security.Split: it keeps trailing empty pieces, where Java's `split` drops them. Blank pieces are filtered out afterwards, so the parsed origins are the same.

## Findings

| source | as written | input that shows it | evidently intended | confidence | as-written member | corrected member |
|---|---|---|---|---|---|---|
| backend/src/main/java/com/service/AttendanceService.java:130-137 | the success answer is built with `Map.of`, which throws on a null value; `distanceMeters` is null whenever the session has no teacher position, and the row is already saved by then | an OPEN session created with no teacher position (its teacherLat and teacherLng are null), a member checking in with a valid token: the row is stored, the answer is 500, and a retry is refused as "Already checked in" | answer the stored row, with a null distance | medium, not executed | `CheckIn.SpringDecideAsWritten`, `CheckInProperties.AsWrittenStoresThenFails` | `CheckIn.SpringDecide`, `CheckInProperties.CorrectedAnswersStoredRow` |

Sessions opened by the newer service always carry the teacher position (`Lifecycle.SpringOpenSession`). `LifecycleProperties.SpringOpenedNeverCrashes` proves that on such sessions the code as written behaves as the corrected code. The failure needs a session that is OPEN without a teacher position, for instance one opened by another backend sharing the database.
