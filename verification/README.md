# plansync scheduling grid and authentication, in Dafny

This project models the parts of plansync that decide something: the client's
scheduling grid and the server's authentication.

- The grid has time labels, a window of calendar days, and a selection map keyed
  by `fullDate-time`.
- The administrator's page has a two-step "delete event" confirmation.
- The server has a request authentication gate and the account handlers
  (register, login, forgot password, reset password) over the user table.

## Modules

- `ClockLabels` (`clock_labels.dfy`) builds a grid label (`09:00`, `23:30`) from an
  hour with its zero padding. It also parses a label back into minutes after
  midnight.
- `AdminPage` (`admin_page.dfy`) holds the half-hourly label generator of
  `client/src/pages/Admin.jsx`. It also holds the page state as a class:
  `selectedSlots`, `isConfirmingDelete` and `message`. The delete flow is a
  function of the clicks made, and lemmas cover sequences of clicks.
- `EventPage` (`event_page.dfy`) holds the hourly label generator of
  `client/src/pages/Event.jsx`. Its loop runs to hour 24, so the grid holds both
  `24:00` and `00:00`. The comment above the loop says it stops at 23. The model
  follows the loop, and `EventPage.MidnightListedTwice` states the consequence.
- `ScheduleWindow` (`schedule_window.dfy`) models `getDatesForWeeks`. The two
  pages have the same text for it (`Admin.jsx:20-41`, `Event.jsx:20-41`), so one
  definition serves both.
  - Days are integer day numbers.
  - Today is injected as its day number and its `getDay()` weekday (0 = Sunday).
  - The `fullDate` and `displayDate` renderings are injected functions.
  - The weekday name follows the fixed `en-US` short names.
- `SlotSelection` (`slot_selection.dfy`) models the selection map shared by both
  pages: `SlotKey`, `Toggle` (`toggleSlot`) and `IsSelected` (`isSelected`).
  These are identical in `Admin.jsx:54-64` and `Event.jsx:51-61`. A missing key
  reads as "not selected".
- `AuthMiddleware` (`auth_middleware.dfy`) models `authenticate`.
  - `Gate` is the decision.
  - `Authenticate` is the method that writes `req.userId` or the 401 response.
  - `jwt.verify` is an injected partial function from token to user id.
  - `Split`/`Join` model `split(" ")`.
- `AuthController` (`auth_controller.dfy`) models the four account handlers.
  - Each handler is a function from the table (`Accounts`) to a new table and a
    reply.
  - Each handler is also a module-level method that takes the live `UserTable`
    object and updates it, proved equal to its function.
  - The table is a sequence of rows in id order, and a lookup returns the first
    match in that order. `findFirst` is called without `orderBy`, so the store
    itself promises no order; taking the first row by id is this model's
    assumption. Only the reset lookup can meet several matching rows.
  - `resetPassword` comes twice: `HandleResetPassword` as written, and
    `HandleResetPasswordCorrected` for the behaviour under "Findings".
  - These are injected: `bcrypt.hash`/`compare`, `jwt.sign`, the random reset
    token, and the current time in milliseconds.

## Model

| member | source | states |
|---|---|---|
| `ClockLabels.Decimal` | client/src/pages/Admin.jsx:10 | `${hour}` is a non-empty digit string that reads back as the hour; one digit exactly below 10, two digits exactly for 10..99 |
| `ClockLabels.PadHour` | client/src/pages/Admin.jsx:10 | the padded hour is always two digits and reads back as the hour (hours below 10 get a leading zero) |
| `ClockLabels.LabelRoundTrip` | client/src/pages/Admin.jsx:10-12 | every `${paddedHour}:00` / `:30` label is five characters `HH:MM` and parses back to hour*60 (+30) minutes |
| `ClockLabels.LabelInjective` | client/src/pages/Admin.jsx:10-12 | two labels are equal strings exactly when built from the same hour and half-hour flag |
| `AdminPage.GenerateTimeSlots` | client/src/pages/Admin.jsx:6-17 | the loop returns 31 labels: label i is hour 9 + i/2, on the half hour for odd i, and the last is "00:00" |
| `AdminPage.HalfHourLabelTime` | client/src/pages/Admin.jsx:9-13 | label i of the loop stands for 09:00 plus 30*i minutes |
| `AdminPage.TimeSlotsWellFormed` | client/src/pages/Admin.jsx:9-15 | every label is a well-formed zero-padded `HH:MM`; the grid starts "09:00", "09:30" and its 30th label is "23:30" |
| `AdminPage.TimeSlotsIncreasing` | client/src/pages/Admin.jsx:9-15 | the first 30 labels are strictly increasing in time of day (09:00 + 30*i); the final label is midnight |
| `AdminPage.TimeSlotsDistinct` | client/src/pages/Admin.jsx:9-15 | no label occurs twice |
| `AdminPage.Step` | client/src/pages/Admin.jsx:75-86 | after one click the dialog is open exactly when the click was "Delete Event"; that click clears the banner, "Yes, Delete" sets the deletion banner, "Cancel" keeps it |
| `AdminPage.Run` | client/src/pages/Admin.jsx:75-86 | no clicks leave the state as it was; otherwise the dialog is open exactly when the last click was "Delete Event", and a banner that was not there before needs a "Yes, Delete" click |
| `AdminPage.Shown` | client/src/pages/Admin.jsx:188-218 | "Delete Event" is on screen only for an administrator; "Yes, Delete" and "Cancel" exactly while the dialog is open |
| `AdminPage.DialogOpenIffLastClickOpens` | client/src/pages/Admin.jsx:75-80 | after any clicks, the confirmation dialog is open exactly when the last click was "Delete Event" |
| `AdminPage.NoticeIffLastDecisionConfirms` | client/src/pages/Admin.jsx:75-82 | the success banner is shown exactly when the last non-Cancel click was "Yes, Delete"; opening the dialog clears it, Cancel keeps it |
| `AdminPage.DialogAndNoticeExclusive` | client/src/pages/Admin.jsx:76-80 | the dialog and the success banner are never shown at the same time |
| `AdminPage.ConfirmFollowsOpen` | client/src/pages/Admin.jsx:188-225 | clicking only rendered buttons, every "Yes, Delete" directly follows "Delete Event", and a non-admin page cannot enter the flow |
| `AdminPage.AdminPageState.constructor` | client/src/pages/Admin.jsx:50-52 | the page starts with an empty selection, no dialog and no banner |
| `AdminPage.AdminPageState.ToggleSlot` | client/src/pages/Admin.jsx:54-60 | a cell click replaces the selection map by its toggled version and touches nothing else |
| `AdminPage.AdminPageState.HandleDeleteEvent` | client/src/pages/Admin.jsx:75-86 | `false` opens the dialog and clears the banner; `true` closes it and sets the deletion success banner naming the event; the selection is unchanged |
| `AdminPage.AdminPageState.CancelDelete` | client/src/pages/Admin.jsx:215 | Cancel closes the dialog and leaves the banner and the selection as they were |
| `EventPage.GenerateTimeSlots` | client/src/pages/Event.jsx:6-17 | the loop returns 17 labels: label i is the whole hour 9 + i for i < 16, and the last is "00:00" |
| `EventPage.TimeSlotsOnTheHour` | client/src/pages/Event.jsx:9-11 | every label is a zero-padded two-digit hour followed by ":00" (no half hours); label i < 16 stands for 09:00 + i hours |
| `EventPage.TimeSlotsDistinct` | client/src/pages/Event.jsx:9-15 | the labels are pairwise distinct strings, with "24:00" at index 15 and "00:00" at index 16 |
| `EventPage.MidnightListedTwice` | client/src/pages/Event.jsx:8-15 | "24:00" and "00:00" are different strings that denote the same time of day |
| `ScheduleWindow.WeekdayOf` | client/src/pages/Admin.jsx:31 | a day's weekday is in 0..6 and advances by one per day from today's |
| `ScheduleWindow.MondayOnOrBefore` | client/src/pages/Admin.jsx:24-25 | the anchor is a Monday, on or before today and at most 6 days earlier; a Sunday goes back exactly 6 days |
| `ScheduleWindow.DatesForWeeks` | client/src/pages/Admin.jsx:20-41 | the loop returns weeks*7 days; entry i is the anchor Monday plus i days, with its `fullDate`, weekday name and `displayDate` |
| `ScheduleWindow.WindowWeekdays` | client/src/pages/Admin.jsx:27-31 | the columns' weekday names run Mon, Tue, ..., Sun and repeat; the first column is "Mon" |
| `ScheduleWindow.TodayInFirstWeek` | client/src/pages/Event.jsx:24-29 | today's column index lies in 0..6 and that column shows today's `fullDate` |
| `ScheduleWindow.WindowDistinct` | client/src/pages/Admin.jsx:27-35 | with an injective `fullDate` rendering, no two columns share a `fullDate` |
| `ScheduleWindow.DefaultWindowLength` | client/src/pages/Admin.jsx:46 | the default four-week window has 28 columns |
| `SlotSelection.SlotKey` | client/src/pages/Admin.jsx:55 | the key is the `fullDate`, one `-`, then the time: both parts can be read back at fixed positions |
| `SlotSelection.IsSelected` | client/src/pages/Admin.jsx:62-64 | a cell whose key was never written reads as not selected; otherwise it reads the stored flag for its `fullDate-time` key |
| `SlotSelection.Toggle` | client/src/pages/Admin.jsx:54-60 | toggling adds the cell's key, flips what `isSelected` reports for that cell, and keeps every other entry |
| `SlotSelection.SlotKeyInjective` | client/src/pages/Admin.jsx:55-63 | for dates of equal width, two cells share a `fullDate-time` key exactly when they are the same cell |
| `SlotSelection.ToggleFlipsOnlyThatCell` | client/src/pages/Event.jsx:51-61 | `isSelected` reads the key `toggleSlot` writes: only the toggled cell changes its reported state |
| `SlotSelection.ToggleTwiceRestores` | client/src/pages/Admin.jsx:54-64 | toggling a cell twice restores what `isSelected` reports for every cell |
| `SlotSelection.ToggleTwiceIsIdentity` | client/src/pages/Admin.jsx:54-60 | once the cell's key exists, toggling it twice gives back the same map |
| `AuthMiddleware.Split` | server/src/middleware/authMiddleware.js:13 | `split(" ")` gives at least one field and no field contains a space |
| `AuthMiddleware.JoinSplit` | server/src/middleware/authMiddleware.js:13 | joining the fields with spaces gives back the header |
| `AuthMiddleware.SplitJoin` | server/src/middleware/authMiddleware.js:13 | fields without spaces, joined with spaces, split back into the same fields |
| `AuthMiddleware.BearerToken` | server/src/middleware/authMiddleware.js:13 | a token, when there is one, holds no space; when there is none, the whole header is a single field |
| `AuthMiddleware.BearerTokenOfScheme` | server/src/middleware/authMiddleware.js:13 | the token is the second field: a header `<scheme> <token>` yields exactly `<token>` |
| `AuthMiddleware.NoTokenWithoutSpace` | server/src/middleware/authMiddleware.js:13 | there is no second field exactly when the header has no space |
| `AuthMiddleware.Gate` | server/src/middleware/authMiddleware.js:7-23 | a missing or empty header gives 401 "Unauthorized"; a request passes exactly when there is a token that `verify` accepts, with its user id; every rejection is 401, and for a non-empty header the error is "Invalid token" |
| `AuthMiddleware.FailsClosed` | server/src/middleware/authMiddleware.js:13-23 | a non-empty header without a second field gives 401 "Invalid token", whatever `verify` accepts |
| `AuthMiddleware.BearerHeaderPasses` | server/src/middleware/authMiddleware.js:13-22 | a `Bearer <token>` header passes with the decoded user id when `verify` accepts the token, otherwise gets 401 "Invalid token" |
| `AuthMiddleware.Authenticate` | server/src/middleware/authMiddleware.js:5-24 | `next` is called exactly when the gate passes, and then `userId` is set and no response is written; otherwise 401 with the gate's error and `userId` untouched |
| `AuthController.Matches` | server/src/controllers/authController.js:72-77 | the e-mail filter matches the row with that e-mail; the reset filter with a token matches exactly the rows that hold it unexpired (`CanReset`); without a token, every row with an unexpired reset |
| `AuthController.FirstMatch` | server/src/controllers/authController.js:72-77 | the lookup returns the first row matching the filter, or none when no row matches |
| `AuthController.FindFirst` | server/src/controllers/authController.js:72-77 | the store's scan in id order returns the same row as `FirstMatch` |
| `AuthController.EmailLookupUnique` | server/src/controllers/authController.js:16 | with unique e-mails, the lookup by e-mail finds a row exactly when the e-mail is registered, and it is that user's row |
| `AuthController.Register` | server/src/controllers/authController.js:16-27 | a known e-mail gives 400 "Email already exists" and no change; otherwise exactly one row with the next id, the e-mail and the hash is appended, with 201; the table invariant (unique e-mails, increasing ids) is kept |
| `AuthController.Login` | server/src/controllers/authController.js:37-47 | 200 exactly when the e-mail's user exists and the password matches its hash, with a token signed for that user's id; every failure is the same 400 "Invalid credentials" |
| `AuthController.ForgotPassword` | server/src/controllers/authController.js:53-66 | an unknown e-mail gives 404 and no change; otherwise only that user's reset token and expiry (now + 3600000) change, and the token is returned |
| `AuthController.ClearedReset` | server/src/controllers/authController.js:83-90 | the updated row keeps its id and e-mail, takes the new hash, and has no reset token or expiry left, so no reset filter matches it any more |
| `AuthController.ResetPasswordAsWritten` | server/src/controllers/authController.js:70-92 | as the query is written: it succeeds exactly when some row matches the filter (an absent token puts no constraint on `resetToken`), and then one matching row gets the new hash and its reset fields cleared, nothing else changes; a failure gives 400 and no change; the table invariant is kept |
| `AuthController.AbsentTokenResetsPendingUser` | server/src/controllers/authController.js:70-90 | as written, a request with no `token` succeeds while any user has an unexpired reset pending, and such a user's password hash becomes the caller's; the corrected handler refuses it |
| `AuthController.ResetPassword` | server/src/controllers/authController.js:72-92 | success exactly when a token is given that some row holds with an expiry strictly after now; that row gets the new hash and both reset fields cleared, nothing else changes; otherwise 400 and no change |
| `AuthController.RegisterTwiceRejected` | server/src/controllers/authController.js:16-19 | registering the same e-mail a second time is refused and leaves the table as after the first |
| `AuthController.LoginFailuresIndistinguishable` | server/src/controllers/authController.js:37-41 | an unknown e-mail and a wrong password get the identical reply |
| `AuthController.ResetTokenSingleUse` | server/src/controllers/authController.js:83-90 | after a successful reset, the same token is refused, at any later time |
| `AuthController.ResetTokenExpires` | server/src/controllers/authController.js:58-79 | a token issued at t0 resets the password exactly when used strictly before t0 + 3600000 |
| `AuthController.ResetThenLogin` | server/src/controllers/authController.js:37-90 | after forgot-password and a timely reset, the new password logs in the same user (token signed for that user's id) |
| `AuthController.HandleRegister` | server/src/controllers/authController.js:11-32 | the handler's new table and reply are those of `Register`, and the table invariant holds |
| `AuthController.HandleLogin` | server/src/controllers/authController.js:34-48 | the handler's reply is `Login`'s; it has no `modifies` clause, so the table is unchanged |
| `AuthController.HandleForgotPassword` | server/src/controllers/authController.js:50-67 | the handler's new table and reply are those of `ForgotPassword` |
| `AuthController.HandleResetPassword` | server/src/controllers/authController.js:69-93 | the handler as written: its new table and reply are those of `ResetPasswordAsWritten`, and the table invariant holds |
| `AuthController.HandleResetPasswordCorrected` | server/src/controllers/authController.js:69-93 | the handler with the missing-token check: its new table and reply are those of `ResetPassword` |

## Findings

| source | as written | input that shows it | evidently intended | confidence | as-written member | corrected member |
|---|---|---|---|---|---|---|
| server/src/controllers/authController.js:70-77 | `token` from the body goes straight into the `findFirst` filter. When the field is absent it is `undefined`, and the store drops that filter, so only `resetTokenExpiry > now` is checked (the handler as written is `AuthController.HandleResetPassword`; the corrected one is `AuthController.HandleResetPasswordCorrected`) | body `{ "newPassword": "x" }` with no `token`, while any user has an unexpired reset pending: that user's password is replaced (`AuthController.AbsentTokenResetsPendingUser`) | a request without a token is refused with 400 "Invalid or expired token" | medium: rests on the store ignoring `undefined` filter fields; not executed | `AuthController.ResetPasswordAsWritten` | `AuthController.ResetPassword` |

## Left out

- JSX markup, Tailwind classes and `getSlotClass`: presentation only.
- `toLocaleDateString` and `toISOString`: locale- and time-zone-dependent. The model injects them as `isoDate` and `shortDate` functions of the day number. The UTC `fullDate` can differ from the local day; that effect is not modelled.
- `setTimeout` clearing the deletion banner after five seconds: a timer. `console.log`: logging.
- bcrypt, `jwt.sign`/`jwt.verify`, `crypto.randomBytes`: foreign library calls, taken as function parameters. `jwt.verify` is a partial function from token to user id; a payload without `userId` is not modelled.
- The 500 branch of `register` (authController.js:28-31): it catches library exceptions, such as the unique-email race between two concurrent registrations.
- Missing `email` fields in login, register and forgot-password: these make the store throw. A missing `password` in register or login makes `bcrypt` throw instead. Neither is modelled.
- A missing `newPassword` in reset-password: `bcrypt.hash(undefined)` rejects after the lookup has succeeded, the rejection is not caught, and no update happens. The model takes the new password to be present.
- A reset `token` that is not a string: the model's `token` is a string or absent. A JSON object (such as `{"not": "x"}`) would reach the store as a query operator, and a number or `null` would be compared as it is; none of these is modelled.
- The store's order among several rows that match one lookup: `findFirst` has no `orderBy`, and the model picks the first by id.
- Concurrency between requests: each handler is one atomic step over the table.
- Event CRUD (`eventController.js`), routing, app wiring, `Login.jsx`, `Home.jsx` and the token storage context: glue without decisions of their own. Event deletion has no creator check, and none is modelled.
- Availability submission and aggregation: `addAvailability` and `getById` are imported by the routes but are not part of this model.
