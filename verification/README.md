# Cricket contest service: registration, OTP verification and daily scores

This project is a Dafny model of the request handlers of a small contest
backend. Users register with a phone number and an email. They verify the
phone with a one-time password (OTP). They submit at most three scores per UTC
day (submitting scores does not require a verified phone), ask for their rank
among today's scores, and list their scores of the current week.

The database is plain state: three tables (`users`, `otps`, `scores`), each a
sequence of immutable rows in table order. Every handler is a pure transition
`Db × request × now → (result, Db)`. The clock is the parameter `now`, in whole
seconds since 1970-01-01 UTC. The calendar date of an instant is
`now / 86400`, and the weekday is `(date + 3) % 7` with Monday = 0.

Modules, following the source files:

- `Clock` (`clock.dfy`): dates, weekdays, week bounds, and how a stored timestamp compares with a bare date.
- `Schemas` (`schemas.dfy`): request and response shapes, and the score and OTP field checks.
- `Database` (`database.dfy`): the three row types and the database state. Also the id assignment of an integer primary key, the lookups, and the constraints as the invariant `Valid`.
- `Verification` (`verification.dfy`): `register_user`, `request_otp`, `verify_otp`.
- `Ledger` (`ledger.dfy`): `add_score`.
- `Ranking` (`ranking.dfy`): the rank computation and `get_weekly_scores`.
- `Service` (`service.dfy`): all requests as one transition; invariants over request sequences.
- `Outcomes`, `Seqs`, `Sorting`: error kinds, table queries (`.first()`, `.all()`), and `ORDER BY` as a sort.

The model follows the code as written; in particular:

- `request_otp` adds an OTP without deleting older ones, so one user can hold several OTPs. Verification then picks the one with the latest expiry.
- The rank is the position of the user's first row in today's scores ordered by score only. Of two tied users, one ranks first and the other second. `Ranking.SameDayRanks` shows this on the four-score example. `Ranking.RankInAnyTieOrder` states what holds whatever order the database returns ties in.
- The weekly query compares the timestamp column with bare dates. Timestamps are stored as text (`YYYY-MM-DD HH:MM:SS.ffffff`) next to date text (`YYYY-MM-DD`). So `timestamp >= Monday` admits everything from Monday 00:00 on. But `timestamp <= Sunday` admits only instants before Sunday 00:00, because every Sunday timestamp sorts after the bare Sunday date. The week listed is therefore Monday 00:00 up to Sunday 00:00, and a score submitted on a Sunday is missing from that Sunday's weekly list (`Service.SundayScoreNotListed`).
- The score shown on the rank card is the user's first score of today in table order. It need not be the score at the rank position (`Ranking.ShownScoreNeedNotBeRanked`).

## Model

| member | source | states |
|---|---|---|
| `Database.NextId` | database.py:15 | An inserted row's id is larger than every id in its table. It is one more than the largest, or 1 in an empty table. |
| `Database.FreshUserId` | database.py:15 | A new user's id differs from every existing user's id. |
| `Database.FreshOtpId` | database.py:27 | A new OTP's id differs from every stored OTP's id. |
| `Database.FreshScoreId` | database.py:37 | A new score's id differs from every stored score's id. |
| `Database.UserByPhone` | main.py:54-56 | The phone lookup finds a user exactly when some user has that phone, and the user it finds has it. |
| `Database.UserByEmail` | main.py:60-62 | The email lookup finds a user exactly when some user has that email, and the user it finds has it. |
| `Database.UserById` | main.py:204 | The id lookup finds a user exactly when a user with that id exists. |
| `Database.DeleteOtp` | main.py:131 | Deleting by id removes every row with that id and keeps every copy of each other row. |
| `Database.MarkVerified` | main.py:138 | Setting the flag changes only the rows with that id, and to verified. |
| `Database.CountOnDate` | main.py:210-216 | The count of a user's scores dated `d` is zero exactly when the user has no score dated `d`. |
| `Database.EmptyDbValid` | database.py:13-41 | The empty database meets every constraint. |
| `Database.CountOnDateAppend` | main.py:224-226 | Appending a score raises only its owner's count on its own date, by one. |
| `Database.DeleteOtpRemovesOne` | main.py:131 | With unique OTP ids, deleting by a row's id removes exactly that row and keeps the rest in order. |
| `Database.MarkVerifiedUpdatesOne` | main.py:138 | With unique user ids, the update sets the flag of that one user's row. |
| `Database.AppendUserKeepsUserConstraints` | database.py:15-20 | Adding a user with a new id, phone and email and a 0/1 flag keeps ids, phones and emails unique. |
| `Database.OwnersSurvive` | database.py:28-38 | While users keep their ids, every OTP's and score's `user_id` still names an existing user. |
| `Database.MarkVerifiedKeepsUserConstraints` | database.py:20 | Setting one flag to 1 keeps the user constraints and every id. |
| `Database.AppendOtpKeepsOtpConstraints` | database.py:27-30 | An OTP with a fresh id, an existing owner and a 4-character code keeps the OTP constraints. |
| `Database.RemoveOtpKeepsOtpConstraints` | database.py:27-28 | Removing an OTP keeps the OTP constraints. |
| `Database.Valid` | database.py:15-38 | The state invariant. The schema's own constraints are: unique ids in each table (database.py:15, :27, :37), unique phones (:16), unique emails (:19), and an existing owner for every OTP (:28) and score (:38). The handlers keep four more: flags are 0 or 1 (default 0 at :20, set to 1 at main.py:138), codes have 4 characters (schemas.py:41), scores lie in 50..500 (schemas.py:20), and a user has at most 3 scores per date (main.py:218). |
| `Verification.GenerateOtp` | main.py:40-41 | The generated code passes the 4-character OTP field check (schemas.py:41). |
| `Verification.NewOtp` | main.py:87-89 | The OTP row stored at registration, and again on request (main.py:187-190), has an id no stored OTP has. It carries the given owner and phone, a code that passes the 4-character check, and expiry `now + 60`. |
| `Verification.LatestOtp` | main.py:117-122 | The selected OTP belongs to the user and no OTP of the user expires later. Nothing is selected exactly when the user has no OTP. Among equal expiries the earliest row wins. |
| `Verification.SelectedOtp` | main.py:109-122 | The OTP verification acts on belongs to the phone's owner and has the latest expiry among that user's OTPs. |
| `Verification.RegisterUser` | main.py:54-104 | A phone in use is rejected first, then an email in use; a rejection changes nothing. Otherwise exactly one user is added, with a fresh id, the submitted fields and flag 0. The returned `User` carries those fields, the id and `false` (schemas.py:13-15). Scores are untouched. |
| `Verification.FreshUserHasNoOtp` | main.py:81-85 | In a valid database no stored OTP belongs to the id the next user gets, so the delete-existing step never fires. |
| `Verification.RegisterIssuesOneOtp` | main.py:77-91 | A successful registration keeps every earlier OTP. It adds one OTP for the new user with a fresh id, code "1234" and expiry `now + 60`. |
| `Verification.RequestOtp` | main.py:180-192 | An unknown phone fails with `UserNotFound` and changes nothing. Otherwise exactly one OTP ("1234", `now + 60`, fresh id, owned by the phone's user) is appended and none is deleted. |
| `Verification.VerifyOtp` | main.py:107-142 | A code that is not 4 characters is rejected (schemas.py:41). An unknown phone fails with `UserNotFound`. Only an expiry or a success changes state, and scores never change. |
| `Verification.VerifyDecision` | main.py:117-142 | If the user has no OTP, the result is `OtpNotFound` and nothing changes. Otherwise a latest-expiring OTP of the user is selected. If it expired before `now`, exactly that row is deleted and the call fails. An expiry equal to `now` is still live. A wrong code fails and changes nothing. The right code sets that user's flag to 1 and deletes only that OTP. |
| `Verification.RetryAfterMismatch` | main.py:135-136 | After a wrong code the state is unchanged. Submitting the stored code at any instant up to its expiry then succeeds. |
| `Verification.RegisterPreservesValid` | main.py:54-91 | Registration keeps all constraints, including unique phones (database.py:16) and emails (database.py:19). |
| `Verification.RequestOtpPreservesValid` | main.py:186-192 | Requesting an OTP keeps all constraints. |
| `Verification.DecidePreservesValid` | main.py:130-140 | Whichever way the decision on an OTP goes, all constraints are kept. |
| `Verification.DecideEffect` | main.py:130-140 | With unique ids, an expired OTP is deleted alone. A wrong code changes nothing. The right code flags exactly that user and deletes exactly that OTP. |
| `Verification.RegisteredOtpDecides` | main.py:77-91 | Right after a registration, verification for the new phone acts on the OTP the registration stored: code "1234", expiry `now + 60`. |
| `Verification.ConsumeKeepsValid` | main.py:130-140 | Deleting one OTP, with or without verifying one user, keeps all constraints. |
| `Verification.VerifyOtpPreservesValid` | main.py:109-142 | Verification keeps all constraints. |
| `Verification.RegisterThenVerify` | main.py:66-142 | After registering, the code "1234" submitted within 60 s verifies the new user and consumes its OTP. Submitted later, it fails as expired and the OTP is deleted anyway. |
| `Verification.SoleOtpDecides` | main.py:117-142 | A user whose only OTP is the last row gets the decision on that row. |
| `Ledger.AddScore` | main.py:203-227 | A score outside 50..500 is rejected (schemas.py:20). So are an unknown user and a user with 3 or more scores dated today, each without a state change. Otherwise exactly one score is appended, with the submitted user and score, timestamp `now` and a fresh id, and returned as a `Score` (schemas.py:23-25). |
| `Ledger.AddScoreCounts` | main.py:208-226 | An accepted score raises its owner's count for today by one, to at most 3, and no other count changes. |
| `Ledger.AddScorePreservesValid` | main.py:208-226 | Score submission keeps all constraints: no user ever has more than 3 scores dated the same day. |
| `Ranking.Leaderboard` | main.py:256-261 | Today's leaderboard is a permutation of today's scores in descending score order. |
| `Ranking.UserRank` | main.py:241-272 | The rank fails exactly when the user has no score dated today, and then with `NoScoreToday`; the "not ranked" failure cannot happen. Otherwise the rank is in `1..` the number of today's scores, and the date is today. |
| `Ranking.RankInAnyTieOrder` | main.py:256-268 | For any order of today's scores by descending score, whatever the order of ties, the user's first row carries the user's best score. Every row ahead belongs to another user and scores at least that much, and every row scoring more is ahead. |
| `Ranking.UserRankMeaning` | main.py:241-272 | For a user whose best score today is `best`, the rank is one more than the position of the user's first row in today's leaderboard. That row carries `best`, every row ahead belongs to another user and scores at least `best`, and every row scoring more is ahead. The shown score is one of the user's scores of today, so at most `best`. |
| `Ranking.SameDayRanks` | main.py:255-268 | For any database whose scores are 100, 300, 300 and 200 of today for users 1 to 4, user 4's 200 ranks 3 and user 1's 100 ranks 4. Of the tied 300s, user 2's (met first in the table) ranks 1 and user 3's ranks 2. |
| `Ranking.ShownScoreNeedNotBeRanked` | main.py:244-253 | A user with 100 then 300 today ranks first by the 300, but the card shows 100. |
| `Ranking.WeeklyEntries` | main.py:312-321 | The weekly rows come in ascending timestamp order. |
| `Ranking.WeeklyScores` | main.py:324-326 | `success` is true exactly when the list is non-empty. The list holds the scores of the weekly rows in order. |
| `Ranking.WeeklyContents` | main.py:307-321 | The week starts on the Monday on or before today, which lies in it. The weekly rows hold every copy of each of the user's rows stamped from that Monday 00:00 up to, but excluding, Sunday 00:00, and nothing else. |
| `Ranking.WeekStartBoundary` | main.py:308-316 | A row at Monday 00:00 of the current week is listed and one a second earlier is not. |
| `Ranking.WeekEndBoundary` | main.py:309-317 | A row at Saturday 23:59:59 of the current week is listed and one at Sunday 00:00 is not. |
| `Service.ApplyPreservesValid` | main.py:48-326 | Every request keeps all constraints. |
| `Service.RunPreservesValid` | database.py:13-41 | From any valid database (the empty one is valid by `EmptyDbValid`), any sequence of requests at any instants keeps every constraint of `Database.Valid`. Ids stay unique per table, phones and emails stay unique, and flags stay 0 or 1. Every OTP and score has an existing owner, and codes have 4 characters. Scores lie in 50..500, and no user exceeds 3 scores on a date. |
| `Service.ApplyEvolves` | database.py:40 | A request never removes a user or resets its flag, and only appends scores. |
| `Service.RunEvolves` | database.py:40 | Over any sequence of requests, a stored score, timestamp included, never changes, and a verified user stays verified. |
| `Service.SundayScoreNotListed` | main.py:309-317 | A score accepted on a Sunday is stored but missing from that day's weekly list. |
| `Seqs.FirstMatch` | main.py:54-56 | A `.first()` query returns the earliest row that passes the filter, and nothing exactly when no row passes. |
| `Seqs.Filter` | main.py:256-261 | A `.filter().all()` query returns only rows that pass, and no more rows than the table has. |
| `Seqs.FilterMultiplicity` | main.py:312-321 | A filtered query keeps every copy of each passing row and no copy of a failing one. |
| `Ranking.OneRowWeekly` | main.py:312-321 | In a one-row table, the row is listed exactly when it is the user's and stamped from Monday 00:00 up to, but excluding, Sunday 00:00. |
| `Ranking.TwoScoresBoard` | main.py:256-261 | A 100 and a 300 of today are ordered 300 first. |
| `Clock.EpochWasThursday` | main.py:308 | Day 0 (1970-01-01) has weekday 3, Thursday, counting Monday as 0 like `date.weekday()`. |
| `Clock.WeekdayAdvances` | main.py:308 | Each next day has the next weekday, wrapping from Sunday to Monday. |
| `Sorting.SortBy` | main.py:259 | Sorting returns a permutation of its input: the same rows, each as often. |
| `Sorting.SortBySorted` | main.py:259 | Sorting puts the rows in ascending key order. |
| `Sorting.InsertSorted` | main.py:259 | Inserting one row into a sorted sequence keeps it sorted. |
| `Clock.DateOfIsDay` | main.py:209 | An instant is on date `d` exactly when it lies in `[d·86400, (d+1)·86400)`. |
| `Clock.NotBeforeDateIsMidnight` | main.py:316 | `timestamp >= date` holds exactly from that date's midnight on. |
| `Clock.NotAfterDateIsBeforeMidnight` | main.py:317 | `timestamp <= date` holds exactly before that date's midnight. |
| `Clock.WeekBounds` | main.py:308-309 | The week start is a Monday, the week end a Sunday, and today lies between them. |
| `Verification.Decide` | main.py:130-140 | The call succeeds exactly when the selected OTP has not expired before `now` and its code matches. An expired OTP fails with `OtpExpired` and leaves the users alone. A live OTP with the wrong code fails with `OtpMismatch` and changes nothing. Every other outcome removes that OTP's id and keeps every copy of each other OTP, and scores never change. |
| `Schemas.ValidScore` | schemas.py:20 | A score is accepted exactly when it lies in 50..500, both ends included. |
| `Schemas.ValidOtpText` | schemas.py:41 | An OTP text is accepted exactly when it has 4 characters. |
| `Clock.Weekday` | main.py:308 | A date's weekday is in 0..6, counting Monday as 0 like `date.weekday()`. |
| `Clock.WeekStart` | main.py:308 | The week start is a Monday, on or at most 6 days before the date. |
| `Clock.WeekEnd` | main.py:309 | The week end is a Sunday, on or at most 6 days after the date. |
| `Clock.NotBeforeDate` | main.py:316 | `timestamp >= date` on stored text: the timestamp's date is not earlier (`NotBeforeDateIsMidnight` gives it as an instant bound). |
| `Clock.NotAfterDate` | main.py:317 | `timestamp <= date` on stored text: the timestamp's date is strictly earlier, because a timestamp sorts after its own bare date (`NotAfterDateIsBeforeMidnight`). |
| `Ranking.InWeek` | main.py:314-318 | The weekly filter keeps the user's rows whose timestamp passes both bare-date comparisons with the week's Monday and Sunday. |
| `Database.AsUser` | main.py:94-101 | A stored user row is returned with its id, name, phone, date of birth and email, and flag 1 as `true`. |
| `Service.Apply` | main.py:48-326 | A request is served by its handler; the rank and weekly queries leave the database as it was. |
| `Service.Run` | database.py:13-41 | Requests are served in order; a sequence of rank and weekly queries only leaves the database as it was. |

## Left out

- Web framework wiring is left out: the app object, `get_db` sessions, table creation at startup, and the engine. The database is the in-memory `Db` value.
- Rendering the rank card as a PNG image (main.py:274-296) is left out. `UserRank` returns the rank, the score and the date.
- `send_otp` (a print) and the logging setup are left out, because they only have side effects.
- HTTP status codes are not modelled; each failure is a typed `Error`. Registration re-raises its own 400 errors as 500 (main.py:102-104), and the model reports `DuplicatePhone` / `DuplicateEmail` instead.
- Concurrency is left out. Requests run one after another, so no check-then-insert race arises.
- The handlers read the clock more than once. Registration reads it at main.py:79. A score's default timestamp (database.py:40) is taken apart from the date check (main.py:209). The model uses one `now` per request, so a request that straddles midnight is not modelled.
- Timestamps are whole seconds; microseconds are left out. Comparing stored text with a date is modelled by comparing calendar dates, which matches the text order for four-digit years.
- Ties in `ORDER BY` are unspecified by the database. The computed leaderboard and weekly list keep table order among ties, and `LatestOtp` takes the earliest row among equal expiries. The rank facts in `RankInAnyTieOrder` hold for every tie order.
- Integer widths are left out: ids and scores are unbounded. The case of a table whose largest id is the largest 64-bit integer is not modelled.
- Dates of birth are day numbers. Parsing `YYYY-MM-DD` is left out.
- `get_all_users` and `get_user` are left out because they are plain reads.
- `ScoreRankResponse`, which no handler uses, and `UserList`, which only the left-out `get_all_users` returns, are left out.
- `Database.CountOnDate`: its contract states only when the count is zero and that it is at most the table size, not the exact count. The exact count is what `CountOnDateAppend` and `AddScoreCounts` use.
