# Timecard: a verified model of the attendance core

The timecard application records employees' working days. A FastAPI backend keeps one
`attendance_records` row per user and date, stamped by clock-in and clock-out, and answers status,
range and monthly-summary queries. It also registers users, logs them in with bearer tokens
(blacklisted on logout), gates routes by active and admin users, and lists and updates users. A
Next.js frontend shows clock panels, duration and break labels, validated request forms (paid
leave, expenses, allowances, profile, registration), a password-strength meter, and the
administrator's filtered lists and counters.

This project models that core in Dafny as pure functions over immutable data:

- the attendance state machine: `AttendanceModel`, `AttendanceService`, `AttendanceRouter`, over
  the date arithmetic of `Calendar`;
- the frontend attendance arithmetic and UI guards: `AttendanceDisplay`, `ClockPanels`, over
  `JsNumber` (JavaScript's `Math.floor` and truncating `%`);
- the validators: `Forms` (a zod schema as the list of issues it reports), `ProfileValidation`,
  `RequestForms`, `RegisterSchema`, `PasswordField`;
- the auth decision logic: `Users`, `Security`, `AuthService`, `AuthDependencies`, `AuthRoutes`,
  `AuthRouter`, `UsersRouter`, `Auth0Client`;
- the list filters and aggregates: `AdminUsers`, `AdminApprovals`, `AdminSettings`,
  `ExpenseHistory`, `Payslip`, `DashboardLayout`;
- shared helpers: `Wrappers` (`Option`, `Result`, HTTP errors), `Text` (digits, numerals, prefix,
  split and join), `Sequences` (filter, count, find, distinct, subsequence).

Conventions:

- The database is a sequence of rows. A query's `.first()` is the first matching row, and
  uniqueness (one attendance row per user and date; unique user ids and e-mails) is an invariant
  proved to be preserved, not something built into the type.
- Backend instants are naive `datetime`s at microsecond resolution: a date plus microseconds since
  midnight. Hours are kept as whole microseconds instead of floats rounded to two places.
  Frontend instants are whole epoch milliseconds, and an unparsable date string is `None`
  (JavaScript's `NaN`).
- The clock, the password hash, token signing and decoding, e-mail syntax, Unicode character
  classes and URL encoding are parameters of the functions that use them.
- A route's dependency (the current user, the admin gate, the bearer credentials) is passed in as
  the `Result` the dependency produced.

Where the code and its design notes disagree, the model follows the code:

- the backend has no break intervals: a fixed hour is deducted from any span longer than an hour;
- it does not clamp a negative span;
- clock-out cannot be undone.

The monthly-summary route (`GET /attendance/summary/monthly`) never succeeds as written. Its response model requires `attendance_records`, but the service returns the list under `records`, so response validation fails and every call past the guard is a 500. `AttendanceRouter.MonthlySummaryEndpoint` models that; `AttendanceService.MonthlySummary` models the summary the service computes.

`backend/app/main.py` mounts the router of `backend/app/auth/router.py`, so both that router
(`AuthRouter`) and `backend/app/routers/auth.py` (`AuthRoutes`) are modelled.

## Model

| member | source | states |
|---|---|---|
| AttendanceModel.StatusCode | backend/app/models/attendance.py:9-15 | every status is stored under one of the five codes |
| AttendanceModel.StatusCodesExact | backend/app/models/attendance.py:9-15 | the five codes are distinct and are exactly the stored values |
| AttendanceModel.NewRecord | backend/app/services/attendance_service.py:28-40 | a new row has the user and date, no clock times, zero hours, status present and no notes |
| AttendanceModel.WorkingExcludesClockedOut | backend/app/models/attendance.py:37-50 | working means clocked in and not clocked out, so a clocked-out row is never working |
| AttendanceService.FindRecord | backend/app/services/attendance_service.py:19-26 | returns the first row for the user and date, and None exactly when no row matches |
| AttendanceService.ErrorMessagesDistinct | backend/app/services/attendance_service.py:53-81 | the three refusals carry different, non-empty messages |
| AttendanceService.ClockIn | backend/app/services/attendance_service.py:42-67 | fails exactly when today's row is already clocked in; otherwise writes only today's row (created if missing): clock-in time, notes, late strictly after 09:00, other fields kept |
| AttendanceService.WorkedMicros | backend/app/services/attendance_service.py:89-97 | a span longer than an hour counts exactly one hour less; a span of at most an hour counts whole |
| AttendanceService.OvertimeAfter | backend/app/services/attendance_service.py:99-101 | overtime is the worked time above eight hours; at or below eight hours the previous value stays |
| AttendanceService.StatusAfterClockOut | backend/app/services/attendance_service.py:103-108 | before 18:00 a late row becomes half-day and any other becomes early-leave; from 18:00 on the status is kept |
| AttendanceService.ClockOut | backend/app/services/attendance_service.py:69-112 | succeeds exactly when today has a row that is not clocked out; fails with "no record" exactly when today has no row and with "already clocked out" exactly when it is clocked out; on success stamps the time, replaces notes only with non-empty ones, and computes hours, overtime and status only when a clock-in exists |
| AttendanceService.ClockInPreservesUnique | backend/app/services/attendance_service.py:42-67 | clock-in keeps at most one row per user and date |
| AttendanceService.ClockOutPreservesUnique | backend/app/services/attendance_service.py:69-112 | clock-out keeps at most one row per user and date |
| AttendanceService.ClockInThenFind | backend/app/services/attendance_service.py:48-67 | after clock-in, today's lookup finds the written row, and it is clocked in |
| AttendanceService.FindRecordOrNew | backend/app/services/attendance_service.py:48-51 | the row clock-in works on belongs to the user and date |
| AttendanceService.SecondClockInFails | backend/app/services/attendance_service.py:53-55 | a second clock-in on the same day is refused |
| AttendanceService.SecondClockOutFails | backend/app/services/attendance_service.py:79-81 | a second clock-out on the same day is refused |
| AttendanceService.ClockInThenOut | backend/app/services/attendance_service.py:88-97 | clock-in then a later clock-out the same day succeeds unless the row was already out, and records a worked time between zero and the span |
| AttendanceService.WorkedNotMonotone | backend/app/services/attendance_service.py:93-95 | a 61-minute span counts one minute while a 60-minute span counts sixty |
| AttendanceService.InsertByDate | backend/app/services/attendance_service.py:121 | inserting into a newest-first list keeps it sorted and adds exactly one element |
| AttendanceService.SortByDateDesc | backend/app/services/attendance_service.py:121 | the result is sorted newest first and is a permutation of the input |
| AttendanceService.UserRecords | backend/app/services/attendance_service.py:114-121 | the result is sorted newest first and is a permutation of the user's rows within the inclusive date range |
| AttendanceService.UserRecordsExact | backend/app/services/attendance_service.py:117-120 | a row is returned iff it belongs to the user and its date lies in the range |
| AttendanceService.AverageDaily | backend/app/services/attendance_service.py:140 | the average is the floor of total over days, and 0 with no work days |
| AttendanceService.MonthlySummary | backend/app/services/attendance_service.py:123-150 | an invalid year or month is an error; otherwise the month's rows newest first, each as many times as the table holds it, with the clocked-in day count, the totals and the average |
| AttendanceService.TotalsAdditive | backend/app/services/attendance_service.py:138-139 | the work and overtime totals of two lists joined are the sums of their totals |
| AttendanceService.TotalsIgnoreOrder | backend/app/services/attendance_service.py:134-139 | two lists holding the same rows have the same work and overtime totals, so sorting the month newest first does not change them |
| AttendanceService.MonthlySummaryRecords | backend/app/services/attendance_service.py:129-134 | the summary lists exactly the user's rows in that year and month, each as many times as the table holds it |
| AttendanceService.MonthRecordsMultiplicity | backend/app/services/attendance_service.py:129-134 | the range from the 1st to the last day of a month keeps exactly that month's rows of the user, with their multiplicity |
| Calendar.DaysInMonth | backend/app/services/attendance_service.py:131 | a month has 28 to 31 days, and February has 29 exactly in leap years |
| Calendar.OrdinalOrder | backend/app/services/attendance_service.py:117-121 | ordering dates by field and by day number agree |
| Calendar.DurationSign | backend/app/services/attendance_service.py:90 | the difference of two date-times is non-negative exactly when the first is not after the second |
| Calendar.DurationMicros | backend/app/services/attendance_service.py:90 | the span between two date-times is the difference of their instants in microseconds, across day boundaries |
| AttendanceRouter.ClockInEndpoint | backend/app/attendance/router.py:21-35 | a refusal of the active-user guard is the answer; past it, succeeds iff the service does for the guard's user, and a refusal is a 400 with the service's message |
| AttendanceRouter.ClockOutEndpoint | backend/app/attendance/router.py:38-52 | a refusal of the guard is the answer; past it, succeeds iff the service does, and a refusal is a 400, with the "no record" text exactly when today has no row |
| AttendanceRouter.TodayRecord | backend/app/attendance/router.py:55-67 | a refusal of the guard is the answer; past it, 404 exactly when the guard's user has no row today, otherwise a row of that user and date |
| AttendanceRouter.RecordsEndpoint | backend/app/attendance/router.py:70-79 | a refusal of the guard is the answer; past it, the user's rows in the inclusive range, newest first, each as many times as the table holds it |
| AttendanceRouter.MonthlySummaryEndpoint | backend/app/attendance/router.py:82-91 | a refusal of the guard is the answer; past it the route always answers 500: an invalid year or month raises, and a valid one yields a summary that fails response validation |
| AttendanceRouter.SummaryResponseInvalid | backend/app/schemas/attendance.py:68-76 | the response model requires `attendance_records`, which the service's dictionary (attendance_service.py:142-150) lacks, so the summary never validates |
| AttendanceRouter.StatusOf | backend/app/attendance/router.py:99-120 | with no row all flags are false with the "not yet" message; otherwise the flags are those of today's row |
| AttendanceRouter.AttendanceStatus | backend/app/attendance/router.py:94-120 | a refusal of the guard is the answer; past it, the status of the guard's user |
| AttendanceRouter.StatusMessageCases | backend/app/attendance/router.py:119 | each of the four messages is given exactly in its case, and working and clocked-out never hold together |
| AttendanceRouter.StatusAfterClockIn | backend/app/attendance/router.py:94-120 | after clock-in the status reports clocked in, and working unless the row was already out |
| AttendanceRouter.GuardRefusalsReachEndpoints | backend/app/attendance/router.py:21-97 | a token that fails to verify, is logged out or names no user (401), and an inactive user (400), are refused by all six endpoints with the guard's own error |
| AttendanceRouter.InactiveUserRefused | backend/app/attendance/router.py:21-35 | a deactivated user gets the 400 "inactive" answer from clock-in and the status endpoint |
| JsNumber.FloorDiv | frontend/src/app/dashboard/attendance/page.tsx:106 | `Math.floor(a / d)` for a positive divisor: the greatest q with q * d at most a |
| JsNumber.JsRem | frontend/src/app/dashboard/attendance/page.tsx:107 | JavaScript's remainder takes the dividend's sign, lies strictly within the divisor, and leaves a multiple of the divisor when subtracted from the dividend |
| JsNumber.JsRemUnique | frontend/src/app/dashboard/attendance/page.tsx:107 | those three properties determine the remainder: any value meeting them is JsRem |
| JsNumber.JsDivRemNonNegative | frontend/src/app/dashboard/attendance/page.tsx:106-107 | on a non-negative dividend, floor quotient times divisor plus remainder gives the dividend back |
| JsNumber.DivUnique | frontend/src/app/dashboard/attendance/page.tsx:106-107 | a quotient and a remainder in range that rebuild the dividend are the quotient and remainder of division |
| JsNumber.JsRemOdd | frontend/src/app/dashboard/attendance/page.tsx:107 | the truncating remainder of a negated dividend is the negated remainder |
| AttendanceDisplay.DurationLabelRoundTrip | frontend/src/app/dashboard/attendance/page.tsx:99-109 | reading the h:mm label back gives the whole minutes of a positive duration, and 0 otherwise |
| AttendanceDisplay.DurationLabel | frontend/src/app/dashboard/attendance/page.tsx:99-109 | the label is the h:mm form of the whole minutes of a positive span, hours without leading zeros and minutes below 60 on two digits; 0:00 for a span that is not positive; never the "--:--" placeholder |
| AttendanceDisplay.JsHourMinute | frontend/src/app/dashboard/attendance/page.tsx:106-107 | for a non-negative span, the floored hours and the minutes of the truncated remainder are the hours and the minutes below 60 of its whole minutes |
| AttendanceDisplay.MinutesLabelRoundTrip | frontend/src/app/dashboard/attendance/page.tsx:105-108 | every count of whole minutes written as h:mm reads back as that count |
| AttendanceDisplay.ParsedLabelIsCanonical | frontend/src/app/dashboard/attendance/page.tsx:105-108 | whatever reads back as a count is exactly the h:mm form of that count, so other spellings such as 0:75 or 01:15 are not read |
| AttendanceDisplay.HourMinuteSplit | frontend/src/app/dashboard/attendance/page.tsx:106-107 | the minutes part is below 60, and hours times 60 plus minutes is the whole minutes |
| AttendanceDisplay.WorkDuration | frontend/src/app/dashboard/attendance/page.tsx:99-109 | the placeholder exactly when a time is missing; otherwise the h:mm form of the whole minutes of end minus start minus the break, 0:00 when that is not positive |
| AttendanceDisplay.HistoryWorkDuration | frontend/src/app/dashboard/attendance/history/page.tsx:77-91 | the placeholder exactly when there is no clock-out; otherwise the h:mm form of the whole minutes of clock-out minus clock-in minus the break, a missing clock-in counting as the epoch |
| AttendanceDisplay.WorkDurationReadsBack | frontend/src/app/dashboard/attendance/page.tsx:99-109 | the attendance page's label for a finished day reads back as the net whole minutes |
| AttendanceDisplay.HistoryWorkDurationReadsBack | frontend/src/app/dashboard/attendance/history/page.tsx:77-91 | the history page's label for a clocked-out day reads back as the net whole minutes |
| AttendanceDisplay.DurationPagesAgree | frontend/src/app/dashboard/attendance/history/page.tsx:77-91 | with both times present the two pages show the same label |
| AttendanceDisplay.FormatBreakTime | frontend/src/app/dashboard/attendance/history/page.tsx:93-100 | for a non-negative count, the whole hours with 時間 and the remaining minutes with 分, the hours left out below an hour and the minutes left out when zero |
| AttendanceDisplay.FormatBreakTimeInjective | frontend/src/app/dashboard/attendance/history/page.tsx:93-100 | different non-negative minute counts get different labels |
| AttendanceDisplay.BreakLabelsAgree | frontend/src/app/dashboard/attendance/page.tsx:230-232 | the summary's break label equals the history's exactly outside 1 to 59 minutes |
| AttendanceDisplay.BreakSummaryLabel | frontend/src/app/dashboard/attendance/page.tsx:230-232 | from an hour on the same hours-and-minutes label as the history page; below an hour 0時間 and the minutes; 0分 for no break |
| AttendanceDisplay.BreakOptionsValues | frontend/src/app/dashboard/attendance/page.tsx:6-16 | nine options, the multiples of 15 from 0 to 120, each captioned with its break label |
| AttendanceDisplay.YearOptions | frontend/src/app/dashboard/attendance/history/page.tsx:116-119 | five years, holding exactly the current year and the four before it |
| AttendanceDisplay.YearOptionsDescending | frontend/src/app/dashboard/attendance/history/page.tsx:116-119 | the list starts at the current year and goes down one year at a time |
| AttendanceDisplay.MonthOptions | frontend/src/app/dashboard/attendance/history/page.tsx:120 | twelve months, 1 to 12 in order, and nothing else |
| AttendanceDisplay.StatusBadgeLabel | frontend/src/app/dashboard/attendance/history/page.tsx:40-48 | a badge exists exactly for the five stored status codes |
| AttendanceDisplay.StatusBadgeKeys | frontend/src/app/dashboard/attendance/history/page.tsx:40-48 | the badge map's keys are exactly the backend's status codes |
| ClockPanels.PageClockIn | frontend/src/app/dashboard/attendance/page.tsx:78-82 | clock-in starts work now and clears the end time, keeping the break |
| ClockPanels.PageClockOut | frontend/src/app/dashboard/attendance/page.tsx:84-87 | clock-out stops work and ends it now, keeping the start |
| ClockPanels.PageRunInvariant | frontend/src/app/dashboard/attendance/page.tsx:150-195 | every click sequence keeps: working means started and not ended, an end time means a start time, and the break stays 60 while the selector is locked |
| ClockPanels.PageReachable | frontend/src/app/dashboard/attendance/page.tsx:150-195 | in every reachable state exactly one clock button is enabled, and the duration is shown exactly after a clock-out |
| ClockPanels.HomeClockIn | frontend/src/app/page.tsx:20-25 | clock-in starts work at the current time |
| ClockPanels.HomeClockOut | frontend/src/app/page.tsx:28-41 | clock-out stops work and keeps the start time |
| ClockPanels.HomeButtonsExclusive | frontend/src/app/page.tsx:88-106 | exactly one of the two buttons is enabled, and each click enables the other |
| ClockPanels.CalculateWorkTime | frontend/src/app/page.tsx:43-49 | "0時間0分" unless working with a start; from the start on, the elapsed whole minutes as hours and minutes below 60; less than a minute before the start, "-1時間-1分" |
| ClockPanels.HourMinuteLabel | frontend/src/app/page.tsx:45-48 | a non-negative duration shows its whole minutes as hours and the minutes below 60; a duration less than a minute below zero shows "-1時間-1分" |
| ClockPanels.ClockInBeforeTick | frontend/src/app/page.tsx:11-25 | a clock-in stamped after the last clock tick shows "-1時間-1分" until the next tick, and one stamped at the tick shows "0時間0分" |
| ClockPanels.HourMinuteLabelShape | frontend/src/app/page.tsx:45-48 | for a non-negative duration the label shows the whole hours and the minutes below 60 |
| ClockPanels.HourMinuteLabelInjective | frontend/src/app/page.tsx:45-48 | two non-negative durations get the same label iff they have the same whole minutes |
| ClockPanels.DashboardButtonsExclusive | frontend/src/app/dashboard/DashboardPageClient.tsx:166-192 | the two buttons are never both enabled; a record today or a request in flight disables clock-in |
| ClockPanels.DashboardPanel | frontend/src/app/dashboard/DashboardPageClient.tsx:83-145 | the spinner while loading, then the working panel, the clocked-out panel, or the off-duty panel, each exactly in its case |
| ClockPanels.PanelTitlesDistinct | frontend/src/app/dashboard/DashboardPageClient.tsx:83-145 | each panel has its own title, and only the spinner has none |
| ClockPanels.DashboardAgreesWithRecord | frontend/src/app/dashboard/DashboardPageClient.tsx:340 | the dashboard's "working" agrees with the row's is_working whenever the row has a clock-in |
| Forms.Check | frontend/src/app/dashboard/paid-leave/page.tsx:14-17 | one rule yields no issue iff it holds, and otherwise exactly its message on its field |
| Forms.ShownMessage | frontend/src/app/dashboard/mypage/edit/page.tsx:250-256 | a field shows a message iff some issue is on its path, and the message is that of the first issue on its path |
| Forms.ShownMessageFirst | frontend/src/app/dashboard/mypage/edit/page.tsx:250-256 | the first issue is the one its field shows |
| ProfileValidation.PhoneCheckMatchesPattern | frontend/src/app/dashboard/mypage/edit/page.tsx:29-35 | the phone check accepts exactly the strings either alternative of the phone pattern matches |
| ProfileValidation.DashedPatternSplits | frontend/src/app/dashboard/mypage/edit/page.tsx:32-34 | a string with dashes in the pattern's positions passes the phone check |
| ProfileValidation.PhonePatternNonEmpty | frontend/src/app/dashboard/mypage/edit/page.tsx:29-35 | a string the phone pattern accepts has at least 9 characters, so it is never empty |
| ProfileValidation.PensionCheckMatchesPattern | frontend/src/app/dashboard/mypage/edit/page.tsx:59-65 | the pension check accepts exactly four digits, a dash and six digits |
| ProfileValidation.ProfileAcceptedIffValid | frontend/src/app/dashboard/mypage/edit/page.tsx:11-66 | the profile schema reports no issue iff every required field is filled, the birth date lies in the past, and the phone, account, insurance and pension numbers have their formats |
| ProfileValidation.PersonalAcceptedIff | frontend/src/app/dashboard/mypage/edit/page.tsx:12-24 | the birth date, gender and address pass iff all are filled and the birth date parses to a time before now |
| ProfileValidation.ContactsAcceptedIff | frontend/src/app/dashboard/mypage/edit/page.tsx:25-47 | the contact fields pass iff the first contact's name and relationship are filled, its phone matches the pattern, and a second phone, when given and not empty, matches it too |
| ProfileValidation.BankAcceptedIff | frontend/src/app/dashboard/mypage/edit/page.tsx:48-54 | the bank fields pass iff bank, branch and account type are filled and the account number is exactly seven digits |
| ProfileValidation.InsuranceAcceptedIff | frontend/src/app/dashboard/mypage/edit/page.tsx:55-65 | the insurance fields pass iff the health-insurance number is exactly eight digits and the pension number matches its pattern |
| ProfileValidation.ContactsRequired | frontend/src/app/dashboard/mypage/edit/page.tsx:25-33 | an empty first-contact name, relationship or phone is reported with its own message |
| ProfileValidation.BankRequired | frontend/src/app/dashboard/mypage/edit/page.tsx:48-54 | an empty bank, branch, account number or account type is reported with its own message |
| ProfileValidation.InsuranceRequired | frontend/src/app/dashboard/mypage/edit/page.tsx:55-65 | an empty health-insurance or pension number is reported with its own message |
| ProfileValidation.EmptyRequiredFieldsRejected | frontend/src/app/dashboard/mypage/edit/page.tsx:11-66 | every required field left empty is reported on its path with its own message |
| ProfileValidation.SecondContactOptional | frontend/src/app/dashboard/mypage/edit/page.tsx:36-37 | the second contact's name and relationship never change the result |
| RequestForms.DatesInOrderValid | frontend/src/app/dashboard/paid-leave/page.tsx:19-42 | for two valid dates the rule accepts exactly today <= start <= end |
| RequestForms.DatesInOrderInvalidStart | frontend/src/app/dashboard/paid-leave/page.tsx:19-42 | an unparsable start date passes the rule whatever the end date |
| RequestForms.PaidLeaveAcceptedIff | frontend/src/app/dashboard/paid-leave/page.tsx:12-42 | a request is accepted iff all four fields are filled and, where the dates parse, the start is not before today and the end not before the start |
| RequestForms.PaidLeaveReportsBoth | frontend/src/app/dashboard/paid-leave/page.tsx:12-42 | the date rule still runs when a field is empty, so both issues are reported |
| RequestForms.CeilDiv | frontend/src/app/dashboard/paid-leave/page.tsx:79 | the rounded-up quotient is the least multiple count covering the dividend |
| RequestForms.CalculateDays | frontend/src/app/dashboard/paid-leave/page.tsx:73-82 | 0 while a field is empty; NaN exactly when a date does not parse; otherwise the rounded-up whole days between the dates, plus one |
| RequestForms.CalculateDaysSymmetric | frontend/src/app/dashboard/paid-leave/page.tsx:78 | swapping the dates does not change the count |
| RequestForms.CalculateDaysWholeDays | frontend/src/app/dashboard/paid-leave/page.tsx:73-82 | dates n whole days apart count n + 1 days |
| RequestForms.AmountIssues | frontend/src/app/dashboard/expenses/page.tsx:14-16 | an amount passes iff it is a number of at least 1; a missing number reports only the type message |
| RequestForms.ExpenseAcceptedIff | frontend/src/app/dashboard/expenses/page.tsx:11-34 | an expense is accepted iff name and purpose are filled, the amount is at least 1, and a first file exists of at most 5,000,000 bytes and of an accepted type |
| RequestForms.NoEvidenceMessage | frontend/src/app/dashboard/expenses/page.tsx:17-33 | with no file all three evidence rules fail and the upload message is shown |
| RequestForms.EvidenceMessageShown | frontend/src/app/dashboard/expenses/page.tsx:17-33 | an oversize first file shows the size message; an acceptable size with a wrong type shows the type message; otherwise no issue |
| RequestForms.OnlyFirstFileChecked | frontend/src/app/dashboard/expenses/page.tsx:23-32 | files after the first never change the outcome |
| RequestForms.AllowanceAcceptedIff | frontend/src/app/dashboard/allowances/page.tsx:11-18 | an allowance is accepted iff name, type and reason are filled and the amount is a number of at least 1 |
| RequestForms.AllowanceTypesShape | frontend/src/app/dashboard/allowances/page.tsx:22-31 | eight distinct options ending with "その他", each passing the type rule |
| RegisterSchema.PasswordIssuesIff | frontend/src/app/register/registerSchema.ts:17-23 | the password has no issue iff it has at least 8 characters with an upper-case letter, a lower-case letter and a digit |
| RegisterSchema.PasswordIssues | frontend/src/app/register/registerSchema.ts:17-23 | every password issue is reported on the password field |
| RegisterSchema.FieldIssues | frontend/src/app/register/registerSchema.ts:4-28 | a filled-in confirmation carries no field issue of its own |
| RegisterSchema.NameIssues | frontend/src/app/register/registerSchema.ts:5-12 | a name passes iff it has at least two characters; an empty name gets both messages and a one-character name only the length one |
| RegisterSchema.RegisterAcceptedIff | frontend/src/app/register/registerSchema.ts:3-32 | a registration is accepted iff both names have two characters, the e-mail is filled and well-formed, the password is strong enough, the confirmation equals it and the terms are accepted |
| RegisterSchema.MismatchShownOnConfirmation | frontend/src/app/register/registerSchema.ts:29-32 | a filled-in confirmation that differs from the password shows the mismatch message |
| RegisterSchema.EmptyNameMessages | frontend/src/app/register/registerSchema.ts:5-8 | an empty first name is reported first, with the "required" message |
| PasswordField.Strength | frontend/src/components/common/formFields/PasswordField.tsx:29-38 | the score is at most 5, and 0 for the empty password |
| PasswordField.StrengthCountsCriteria | frontend/src/components/common/formFields/PasswordField.tsx:32-37 | the score of a non-empty password is the number of the five criteria it meets |
| PasswordField.StrengthLabel | frontend/src/components/common/formFields/PasswordField.tsx:39-49 | the label is the table entry for the score, and empty exactly for the empty password |
| PasswordField.StrengthColor | frontend/src/components/common/formFields/PasswordField.tsx:40-49 | the colour is the table entry for the score, and none exactly for the empty password |
| PasswordField.NonEmptyIsRated | frontend/src/components/common/formFields/PasswordField.tsx:34-37 | every non-empty password scores at least 1 |
| PasswordField.StrengthMonotone | frontend/src/components/common/formFields/PasswordField.tsx:32-37 | typing more characters never lowers the score |
| PasswordField.BarColorOf | frontend/src/components/common/formFields/PasswordField.tsx:100-109 | red up to 1, then orange, yellow, green, and blue from 5, each exactly in its band |
| PasswordField.BarWidthPercent | frontend/src/components/common/formFields/PasswordField.tsx:111 | the width is 20 percent per point, at most 100 |
| PasswordField.FullBar | frontend/src/components/common/formFields/PasswordField.tsx:98-111 | an instance: "Abcdef1!" meets all five criteria, so it fills the bar, in blue, labelled "非常に強い" |
| Users.RoleValue | backend/app/models/user.py:8-11 | a role is stored as "employee" or "admin" |
| Users.RoleValueInjective | backend/app/models/user.py:8-11 | two roles have the same stored value iff they are the same role |
| Users.FullName | backend/app/models/user.py:30-33 | the full name is the family name, one space, then the given name |
| Users.FullNameSplits | backend/app/models/user.py:30-33 | when neither name contains a space, splitting the full name at spaces gives back the two names |
| Users.NewUser | backend/app/models/user.py:18-26 | a new row is active, has the given fields and the given role, and no profile attributes |
| Users.FindByEmail | backend/app/services/auth_service.py:30 | the index of the first row with the e-mail, and None exactly when no row has it |
| Users.FindById | backend/app/users/router.py:61 | the index of the first row with the id, and None exactly when no row has it |
| Users.FindByEmailUnique | backend/app/models/user.py:19 | with unique e-mails, the lookup finds the one row that has the e-mail |
| Users.ReplaceKeepsWellFormed | backend/app/models/user.py:18-25 | replacing a row without changing its id, e-mail or employee id keeps the uniqueness constraints |
| Security.AddToBlacklist | backend/app/core/security.py:59-61 | the token is listed afterwards and every other token keeps its membership |
| Security.ClearExpiredTokens | backend/app/core/security.py:69-73 | clearing removes nothing and adds nothing |
| Security.BlacklistMonotone | backend/app/core/security.py:59-73 | blacklisting is idempotent, and no operation ever unlists a token |
| Security.VerifyToken | backend/app/core/security.py:39-56 | a blacklisted token is refused before decoding; otherwise the token is accepted iff it decodes with a subject, and the claims are those of the payload |
| Security.LoggedOutTokenRefused | backend/app/core/security.py:42-43 | once blacklisted, no decoder can make a token valid |
| Security.BlacklistIsolated | backend/app/core/security.py:39-61 | blacklisting one token leaves the verdict on every other token unchanged |
| AuthService.CreateErrorResponse | backend/app/services/auth_service.py:31-49 | each validation failure is a 400, and the uncaught employee-id constraint is not |
| AuthService.TooShortMessage | backend/app/services/auth_service.py:38-42 | an instance of CreateErrorResponse: the length message names the configured minimum of 8 |
| AuthService.NextId | backend/app/models/user.py:18 | a new id is larger than every id in use |
| AuthService.CreateUser | backend/app/services/auth_service.py:15-67 | a taken e-mail is refused first, then a password below the minimum, then one without a letter and a digit, then a taken employee id; otherwise the row is appended with the hash and an unused id |
| AuthService.CreateUserKeepsWellFormed | backend/app/services/auth_service.py:51-67 | a successful creation keeps ids, e-mails and employee ids unique |
| AuthService.CreatedUserFound | backend/app/services/auth_service.py:51-67 | the created user is found by e-mail, at the end of the table |
| AuthDependencies.TokenFromHeader | backend/app/dependencies/auth.py:58-67 | 401 exactly when the header is missing or lacks the "Bearer " prefix; otherwise the text after the prefix up to the next space |
| AuthDependencies.TokenIsAfterPrefix | backend/app/dependencies/auth.py:67 | the second piece of the header split at spaces is the text after the prefix up to the next space |
| AuthDependencies.BearerRoundTrip | frontend/src/lib/api.ts:89 | the header the client builds, "Bearer " and a token without spaces, yields that token |
| AuthDependencies.TokenUpToFirstSpace | backend/app/dependencies/auth.py:58-67 | a header with the prefix yields the text after it up to the first space |
| AuthDependencies.TokenExampleEmpty | backend/app/dependencies/auth.py:58-67 | an instance of TokenFromHeader: "Bearer " yields the empty token |
| AuthDependencies.ExtraWordsDropped | backend/app/dependencies/auth.py:67 | after the prefix only the first space-separated word is the token |
| AuthDependencies.TokenExampleRejected | backend/app/dependencies/auth.py:61-66 | instances of TokenFromHeader: a lower-case prefix and a bare "Bearer" are refused |
| AuthDependencies.CurrentUser | backend/app/dependencies/auth.py:14-35 | succeeds iff the token verifies and its e-mail belongs to a row, which is returned; every failure is a 401, with "authentication failed" exactly when the token does not verify |
| AuthDependencies.CurrentActiveUser | backend/app/dependencies/auth.py:38-45 | passes an active user through, keeps the inner failure, and refuses an inactive user with 400 |
| AuthDependencies.CurrentAdminUser | backend/app/dependencies/auth.py:48-55 | passes an active admin through, keeps the inner failure, and refuses a non-admin with 403 |
| AuthDependencies.AdminGateOrder | backend/app/dependencies/auth.py:14-55 | which status each kind of caller gets from the admin guard, in the guards' order |
| AuthDependencies.LoggedOutTokenLocked | backend/app/dependencies/auth.py:19-25 | a blacklisted token fails the user guard with 401 "authentication failed" |
| AuthRoutes.Authenticate | backend/app/routers/auth.py:50-93 | log-in succeeds iff the address passes the restriction, has an account, the password verifies and the account is active; the claims name that account; failures are 403, 401 or 400 |
| AuthRoutes.AuthenticateOutcomes | backend/app/routers/auth.py:50-80 | each failure in check order: 403 for a restricted address, 401 for an unknown one or a wrong password, 400 for an inactive account |
| AuthRoutes.CredentialsNotDisclosed | backend/app/routers/auth.py:58-80 | an unknown address and a wrong password get the same 401, and the inactive answer is given only with a correct password |
| AuthRoutes.RestrictionGate | backend/app/routers/auth.py:18-23 | with the restriction off every address may log in; with it on, exactly the listed ones |
| AuthRoutes.Login | backend/app/routers/auth.py:47-93 | a token is issued iff authentication succeeds; it is the signed claims with type "bearer", and a failure is passed on |
| AuthRoutes.LoginForm | backend/app/routers/auth.py:96-142 | the form log-in succeeds iff authentication of the username and password does |
| AuthRoutes.ParseUserLogin | backend/app/schemas/auth.py:18-21 | the JSON body is refused iff the address fails `EmailStr`; otherwise it carries the normalised address and the password, unchanged for an address already normal |
| AuthRoutes.LoginRoutesAgree | backend/app/routers/auth.py:96-142 | for an address already in `EmailStr`'s normal form, the form log-in answers exactly like the JSON log-in |
| AuthRoutes.LoginRoutesDifferOnUnnormalized | backend/app/routers/auth.py:96-108 | an address that normalisation changes can log in through the JSON route but not through the form, which looks up the raw username |
| AuthRoutes.IssuedTokenOpensGuard | backend/app/routers/auth.py:82-93 | a freshly issued, unrevoked token opens the active-user guard as the user who logged in |
| AuthRoutes.Logout | backend/app/routers/auth.py:145-155 | succeeds iff the bearer credentials pass the active-user guard and the header carries a token; then exactly that token is added to the blacklist |
| AuthRoutes.LogoutLocksToken | backend/app/routers/auth.py:145-155 | after logging out with a token, that token fails the user guard with 401 |
| AuthRoutes.LogoutWithToken | backend/app/routers/auth.py:158-163 | any string is blacklisted without a guard, and nothing is unlisted |
| AuthRoutes.LogoutStatus | backend/app/routers/auth.py:166-181 | behind the active-user guard, reports the caller's e-mail and whether the header's token is blacklisted, with the matching message |
| AuthRoutes.LogoutStatusNeverRevoked | backend/app/routers/auth.py:166-181 | when guard and header read the same token the status never says "revoked", and after logout the same request is a 401 |
| AuthRoutes.AllowedUsers | backend/app/routers/auth.py:184-187 | the allow list behind the admin guard, or the guard's error |
| AuthRoutes.AddAllowedUser | backend/app/routers/auth.py:190-199 | the admin guard's refusal passed on unchanged; for an administrator the address is listed afterwards, nothing else changes, and an address already listed changes nothing |
| AuthRoutes.AddAllowedUserIdempotent | backend/app/routers/auth.py:195-197 | adding twice is adding once, and a list without duplicates stays without |
| AuthRoutes.RemoveFirst | backend/app/routers/auth.py:208 | the list without its first occurrence of the value |
| AuthRoutes.RemoveFirstCounts | backend/app/routers/auth.py:208 | removal takes exactly one copy of a listed value away and keeps the rest |
| AuthRoutes.RemoveAllowedUser | backend/app/routers/auth.py:202-216 | the admin guard's refusal passed on unchanged; for an administrator, 404 exactly when the address is not listed, otherwise one copy is removed and the restriction flag kept |
| AuthRoutes.RemoveUndoesAdd | backend/app/routers/auth.py:190-216 | removing an address that adding just listed restores the settings |
| AuthRoutes.RemovedUserLockedOut | backend/app/routers/auth.py:202-216 | with the restriction on and no duplicates, a removed address can no longer log in |
| AuthRoutes.ToggleLoginRestriction | backend/app/routers/auth.py:219-228 | the admin guard's refusal passed on unchanged; for an administrator, sets the flag, keeps the list, and reports whether it is now on or off |
| AuthRoutes.ToggleGovernsLogin | backend/app/routers/auth.py:219-228 | after toggling, an address may log in iff the restriction is off or the address is listed |
| AuthRoutes.NonAdminsCannotManageLogins | backend/app/routers/auth.py:184-228 | an active caller who is not an administrator gets 403 from every allowed-users route |
| AuthRouter.Register | backend/app/auth/router.py:15-49 | a taken e-mail is refused, then a short password; no letter-and-digit check; otherwise the new row is appended |
| AuthRouter.ServiceAcceptedIsRegistered | backend/app/auth/router.py:15-49 | every registration the service accepts is accepted here with the same new row |
| AuthRouter.RegisterDiffersOnStrength | backend/app/auth/router.py:15-49 | this route and the service differ exactly on passwords that fail the letter-and-digit check |
| AuthRouter.LettersOnlyPassword | backend/app/auth/router.py:26-49 | "abcdefgh" is registered here and refused by the service |
| AuthRouter.Authenticate | backend/app/auth/router.py:52-90 | log-in succeeds iff the account exists, the password verifies and it is active; never a 403 |
| AuthRouter.UnrestrictedLogin | backend/app/auth/router.py:52-90 | this log-in is the restricted one with the restriction switched off |
| AuthRouter.InactiveWithWrongPassword | backend/app/auth/router.py:62-70 | an inactive account with a wrong password gets the same 401 as an unknown address |
| AuthRouter.Login | backend/app/auth/router.py:52-90 | a token is issued iff authentication succeeds, and it is the signed claims of the account |
| UsersRouter.SetIfSent | backend/app/schemas/user.py:28-36 | a field sent in the request takes the sent value, possibly null; an unsent field keeps its value |
| UsersRouter.ApplyUpdate | backend/app/users/router.py:34-35 | exactly the fields present in the request are written |
| UsersRouter.UpdateAlgebra | backend/app/users/router.py:34-35 | an empty request changes nothing, repeating a request changes nothing more, and two requests equal their merge |
| UsersRouter.UpdateCurrentUserProfile | backend/app/users/router.py:26-40 | fails iff the guard fails; otherwise only the profile changes, as the update says |
| UsersRouter.ProfileUpdateKeepsIdentity | backend/app/users/router.py:26-40 | the update cannot change the caller's id, e-mail, role, password or active flag |
| UsersRouter.Offset | backend/app/users/router.py:51 | a negative offset counts as none, and an offset never passes the end |
| UsersRouter.Page | backend/app/users/router.py:51 | the rows from the offset on, in order, at most the limit of them, all of them for a negative limit |
| UsersRouter.ListUsers | backend/app/users/router.py:43-52 | the admin guard's refusal passed on unchanged; for an administrator, the rows from the offset on, in order, at most the limit of them, all of them for a negative limit |
| UsersRouter.PagesConcatenate | backend/app/users/router.py:51 | a page of n followed by the next page of m is the page of n + m |
| UsersRouter.DefaultPageListsAll | backend/app/users/router.py:45-46 | with the defaults a table of at most 100 users is listed whole |
| UsersRouter.GetUser | backend/app/users/router.py:55-68 | the admin guard's refusal passed on unchanged; for an administrator, 404 exactly when no row has the id, otherwise a row with that id |
| UsersRouter.SetActive | backend/app/users/router.py:71-108 | the admin guard's refusal passed on unchanged; for an administrator, 404 exactly when no row has the id, otherwise only the first row with it gets the flag |
| UsersRouter.NonAdminsRefused | backend/app/users/router.py:43-108 | an active caller who is not an administrator gets 403 from listing, lookup, activation and deactivation, and the table is not changed |
| UsersRouter.SetActiveFacts | backend/app/users/router.py:71-108 | setting twice is setting once, the table stays well formed, and the user then reads back with the flag |
| UsersRouter.DeactivationLocksOut | backend/app/users/router.py:91-108 | a deactivated user's still-valid token gets 400 from the active-user guard, and reactivation lets it through again |
| UsersRouter.FindByIdUnique | backend/app/users/router.py:62 | with unique ids, the lookup finds the one row that has the id |
| AdminUsers.FilteredEmployees | frontend/src/app/dashboard/admin/users/page.tsx:110-122 | an employee is listed iff the search term occurs in a name, number or e-mail and every non-empty drop-down equals its field, as many times as it occurs, in list order |
| AdminUsers.NoFilterListsAll | frontend/src/app/dashboard/admin/users/page.tsx:110-122 | with the search and drop-downs cleared, the whole list is shown |
| AdminUsers.UnmatchedSearchHides | frontend/src/app/dashboard/admin/users/page.tsx:111-115 | an employee whose four searched fields lack the term is never listed, whatever the drop-downs say |
| AdminUsers.DepartmentColumn | frontend/src/app/dashboard/admin/users/page.tsx:126 | one department per employee, position by position |
| AdminUsers.Departments | frontend/src/app/dashboard/admin/users/page.tsx:126 | each department of some employee exactly once, in order of first appearance |
| AdminUsers.AdminCount | frontend/src/app/dashboard/admin/users/page.tsx:239 | the administrator card never exceeds the head count |
| AdminUsers.AdminCountMatchesRoleFilter | frontend/src/app/dashboard/admin/users/page.tsx:239 | the administrator card equals the length of the list filtered by the administrator role |
| AdminUsers.RoleLabel | frontend/src/app/dashboard/admin/users/page.tsx:128-150 | the role badge reads 管理者 exactly for administrators |
| AdminUsers.StatusLabel | frontend/src/app/dashboard/admin/users/page.tsx:152-174 | the status badge reads 在籍 exactly for active employees |
| AdminApprovals.FilteredApprovals | frontend/src/app/dashboard/admin/approvals/page.tsx:89-93 | a request is listed iff each non-empty filter equals its type or status, as many times as it occurs, in queue order |
| AdminApprovals.ResetFilters | frontend/src/app/dashboard/admin/approvals/page.tsx:294-297 | the reset clears both filters |
| AdminApprovals.ResetListsAll | frontend/src/app/dashboard/admin/approvals/page.tsx:294-297 | after the reset the whole queue is listed |
| AdminApprovals.UnknownStatusListsNothing | frontend/src/app/dashboard/admin/approvals/page.tsx:89-93 | a status filter naming no status lists nothing |
| AdminApprovals.CountsPartitionQueue | frontend/src/app/dashboard/admin/approvals/page.tsx:181-183 | the pending, approved and rejected cards add up to the queue's size |
| AdminApprovals.PendingCardMatchesFilter | frontend/src/app/dashboard/admin/approvals/page.tsx:181 | the pending card equals the length of the list under the pending filter |
| AdminApprovals.Actions | frontend/src/app/dashboard/admin/approvals/page.tsx:383-400 | a row offers approve and reject, bound to its id, iff it is pending |
| AdminApprovals.DecidedRowsOfferNothing | frontend/src/app/dashboard/admin/approvals/page.tsx:383-400 | every decided row listed under any filter shows only 処理済み |
| AdminSettings.FilteredSettings | frontend/src/app/dashboard/admin/settings/page.tsx:158-164 | a setting is listed iff the active tab shows its category, as many times as it occurs, in declared order |
| AdminSettings.TabContents | frontend/src/app/dashboard/admin/settings/page.tsx:158-164 | each tab lists its own category, the departments tab lists none, and approval settings appear on no tab |
| AdminSettings.ExactlyOneTab | frontend/src/app/dashboard/admin/settings/page.tsx:158-164 | every non-approval setting belongs to exactly one tab |
| ExpenseHistory.FilteredRecords | frontend/src/app/dashboard/expenses/history/page.tsx:61-66 | "all" lists everything; any other value lists exactly the records with that status value, each as many times as it occurs, in order |
| ExpenseHistory.UnknownFilterListsNothing | frontend/src/app/dashboard/expenses/history/page.tsx:61-66 | a value that is neither "all" nor a status lists nothing |
| ExpenseHistory.StatusFiltersPartition | frontend/src/app/dashboard/expenses/history/page.tsx:61-66 | the three status lists together are exactly as long as the whole |
| ExpenseHistory.StatusFilterCount | frontend/src/app/dashboard/expenses/history/page.tsx:61-66 | a status filter lists as many records as have that status value |
| Payslip.TotalAllowances | frontend/src/app/dashboard/payslip/page.tsx:63-66 | the fold over the allowance values is the sum of the four allowance fields |
| Payslip.TotalDeductions | frontend/src/app/dashboard/payslip/page.tsx:69-72 | the fold over the deduction values is the sum of the six deduction fields |
| Payslip.SumFour | frontend/src/app/dashboard/payslip/page.tsx:63-66 | folding four values adds them |
| Payslip.SumSix | frontend/src/app/dashboard/payslip/page.tsx:69-72 | folding six values adds them |
| Payslip.GrossSalary | frontend/src/app/dashboard/payslip/page.tsx:75 | gross pay exceeds the basic salary by exactly the allowance total |
| Payslip.TotalsBoundParts | frontend/src/app/dashboard/payslip/page.tsx:63-75 | with no negative amount, gross pay is at least the basic salary and each total at least each of its parts |
| Payslip.ShownNetAgainstComputed | frontend/src/app/dashboard/payslip/page.tsx:213 | the net pay shown equals gross pay minus deductions iff the stored figure equals the basic salary plus the allowances minus the deductions; it depends on the stored figure alone |
| Payslip.SampleNetNotRecomputed | frontend/src/app/dashboard/payslip/page.tsx:37-60 | on the screen's sample, gross minus deductions is 297200 while 240000 is shown |
| Payslip.FormatDate | frontend/src/app/dashboard/payslip/page.tsx:81-83 | the heading is the year's digits, 年, the month's digits, 月 |
| Payslip.FormatDateInjective | frontend/src/app/dashboard/payslip/page.tsx:81-83 | two periods with the same heading are the same period |
| Payslip.FormatDateExample | frontend/src/app/dashboard/payslip/page.tsx:81-83 | an instance of the heading: December 2024 reads 2024年12月 (the general form is FormatDate and FormatDateInjective) |
| Payslip.AvailableMonthsAreCalendar | frontend/src/app/dashboard/payslip/page.tsx:116 | the month selector offers each of 1 to 12 once, ascending |
| Payslip.StatusLabel | frontend/src/app/dashboard/payslip/page.tsx:85-104 | the badge is one of the three status labels |
| Payslip.StatusLabelInjective | frontend/src/app/dashboard/payslip/page.tsx:85-104 | distinct statuses carry distinct labels |
| DashboardLayout.NameOr | frontend/src/app/dashboard/layout.tsx:176-178 | a found entry's non-empty name, otherwise the fallback |
| DashboardLayout.FindActive | frontend/src/app/dashboard/layout.tsx:73-78 | none iff no entry is active for the path; otherwise the first active entry |
| DashboardLayout.HeaderTitle | frontend/src/app/dashboard/layout.tsx:176-178 | the first active main entry's name, else the first active administrator entry's, else ダッシュボード |
| DashboardLayout.AttendanceHistoryPath | frontend/src/app/dashboard/layout.tsx:73-78 | on the history page the attendance entry is active and titles the page, the dashboard entry is not |
| DashboardLayout.DashboardPath | frontend/src/app/dashboard/layout.tsx:73-78 | on /dashboard only the dashboard entry is active |
| DashboardLayout.PrefixNotSegment | frontend/src/app/dashboard/layout.tsx:73-78 | a path that merely extends an entry's last segment still highlights that entry |
| Auth0Client.Query | frontend/src/lib/auth0.ts:84-90 | empty unless a non-empty return address is given, then returnTo= and its encoding |
| Auth0Client.WithQuery | frontend/src/lib/auth0.ts:89 | the base alone for an empty query, else base ? query |
| Auth0Client.LoginUrl | frontend/src/lib/auth0.ts:84-90 | the log-in path, with ?returnTo= and the encoded address exactly when one is given |
| Auth0Client.LogoutUrl | frontend/src/lib/auth0.ts:95-101 | the log-out path, with ?returnTo= and the encoded address exactly when one is given |
| Auth0Client.LinksReadBack | frontend/src/lib/auth0.ts:84-101 | each link starts with its base and the text after returnTo= is the encoded address |
| Auth0Client.LoginAndLogoutDiffer | frontend/src/lib/auth0.ts:84-101 | no log-in link equals any log-out link |
| Auth0Client.GetUserInfo | frontend/src/lib/auth0.ts:61-79 | none iff no user or a missing sub or e-mail; otherwise the id, e-mail, picture, and the name or else the e-mail |
| Auth0Client.GetUser | frontend/src/lib/auth0.ts:24-32 | a user iff the lookup succeeds with a session holding one, and then that user |
| Auth0Client.GetAccessToken | frontend/src/lib/auth0.ts:37-48 | a token iff a session exists and the token lookup gives a non-empty token, and then that token |
| Auth0Client.UserInfoOnlyWhenAuthenticated | frontend/src/lib/auth0.ts:53-79 | a summary exists only for an authenticated user and always has a non-empty name |
| Auth0Client.NoSessionNoUser | frontend/src/lib/auth0.ts:24-56 | a failing or missing session is unauthenticated, with no summary and no token |

## Left out

- AttendanceService.WorkedMicros: hours are whole microseconds, not floats rounded to two places, so `round(…, 2)` and its float error are not modelled.
- AttendanceService.AverageDaily: the floor of an integer quotient stands for the float average rounded to two places.
- PasswordField.BarWidthPercent: only the percentage is modelled, not the CSS string built from it.
- AdminUsers.RoleLabel: the source throws on a role outside its map, so the model requires one of the two declared roles.
- AdminUsers.StatusLabel: the source throws on a status outside its map, so the model requires one of the two declared statuses.
- Floating point in general: the history page's average and amounts are integers in the model.
- Time zones and locales: frontend dates are epoch milliseconds and `toLocaleDateString`/`toLocaleTimeString` output is not modelled; backend instants are naive.
- The clock: `datetime.now()`, `date.today()` and `new Date()` are parameters read once per call, so two reads cannot disagree.
- `create_access_token`, `verify_password` and `get_password_hash` in `backend/app/core/security.py` (lines 16-37) are library calls (JWT signing with its expiry, bcrypt), so hashing, checking and signing are parameters.
- E-mail syntax and normalisation (`EmailStr`, the `normalize` parameter of `AuthRoutes.ParseUserLogin`; zod's `.email()`), URL encoding and Unicode character classes are parameters.
- The bearer-credential parsing of `HTTPBearer` is not modelled; its outcome is a parameter.
- zod's message internals: only the issues that are produced and their order are modelled, not zod's own error objects.
- `backend/app/auth/dependencies.py` is not part of this model. `backend/app/users/router.py` and `backend/app/attendance/router.py` import their guards from `app.auth.dependencies` directly (`backend/app/auth/__init__.py` only re-exports from it). The model assumes those guards behave like the ones in `backend/app/dependencies/auth.py` (`AuthDependencies`). `UsersRouter.DeactivationLocksOut`, `UsersRouter.NonAdminsRefused` and the attendance endpoints rest on this assumption.
- FastAPI's 422 answers for malformed query parameters and request bodies are not modelled as responses: the attendance endpoints take valid dates and integers, and a log-in body whose address `EmailStr` refuses is `AuthRoutes.ParseUserLogin` returning `None`.
- `backend/app/routers/attendance.py` is an older copy of the attendance endpoints. `AttendanceRouter` models `backend/app/attendance/router.py` instead; `backend/app/main.py` mounts neither of them.
- The profile fields that `update_current_user_profile` sets are not columns of `users`. The update is modelled on the in-memory row, and nothing says it is persisted.
- `get_current_user_profile` (`backend/app/users/router.py:20-23`) only returns the guard's user, which `AuthDependencies` already models.
- `get_users` has no `ORDER BY`: the model lists rows in table order.
- `TokenData` role validation by pydantic is not modelled.
- Persisting the allowed-user list, and the configuration fields it needs that `backend/app/core/config.py` lacks: the list and the restriction flag are parameters.
- The approve and reject handlers of the approvals screen only log to the console, so they are not modelled.
- The "joined this month" counter of the employee list is not modelled: it depends on the clock and locale parsing.
- The approvals screen's type and status badges, and other display-only formatting (`formatCurrency`, date formatting on the admin screens), are not modelled.
- `GetUser` and `GetAccessToken` take the session store's answers as parameters: the SDK calls themselves are not modelled.
- The attendance hook sends `break_minutes` with clock-in and clock-out (`frontend/src/hooks/useAttendance.ts`, lines 35-37 and 52-55), but the backend's request and response schemas have no break field, so the value is dropped. The break on the attendance page is display state only.
- AttendanceDisplay.HistoryWorkDuration: the history page reads `break_minutes` from records that the backend never fills, which in the source gives "NaN:NaN" and "NaN分". The model takes the break as a whole number of minutes given by the caller, as if the record carried one; `AttendanceDisplay.FormatBreakTime` takes it the same way.
- String lengths are counted in characters, not JavaScript UTF-16 code units, for zod's `.min`/`.max` and the password meter.
