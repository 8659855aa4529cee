# TaskTracker in Dafny

A model of the core of TaskTracker. TaskTracker is a small multi-user web application: users register with an email and a password, prove control of the email with a six-digit one-time code (OTP) that is mailed to them, and then keep a personal list of tasks. The tasks can be added, completed and deleted, and a dashboard shows them with counts and a completion rate.

The model covers the state machine behind the route handlers of `app/main.py`, over the three tables declared in `app/models.py`:

- the database is held in the fields of one object, `Tracker.TaskTracker`:
  - `users`, `tasks` and `otpCodes` are sequences of rows in storage order;
  - `nextUserId` and `nextTaskId` are the ids the database hands out next;
- the two cookies the browser sends back, `otp_email` and `user_email`, are the optional fields `otpEmail` and `userEmail`;
- each handler that changes the database or the cookies is a method of that object;
- the dashboard is a function;
- the clock (`now`), the random draw of `random.randint` (`n`), the outcome of `strptime` (`parsedDue`) and the success of the mail relay (`delivered`) are parameters.

The session moves through three states:
1. Anonymous: no cookie.
2. OTP-pending: `login` or `register` sets `otp_email`.
3. Authenticated: `verify_otp` consumes the matching code row, deletes `otp_email` and sets `user_email`.

`logout` deletes `user_email` again.

Modules, one per concern:
- `Wrappers`: `Option`.
- `Models`: the row datatypes, the table constraints (unique email, unique ids, the owner of a task exists), and the cascade that deletes a user's tasks with the user.
- `Queries`: the lookups the handlers share, the cookie test and the two task row updates.
- `Otp`: how a draw becomes a code, and how rows are issued, accepted and consumed.
- `Dashboard`: the filter, the sort by due date and the statistics.
- `Tracker`: the handlers.
- `Scenarios`: whole conversations driven through the handlers and checked from their contracts alone.

Details of the code that the model keeps:
- Codes never start with `0`, because the draw is from 100000..999999. `Otp.GenerateOtpOnto` proves that the codes are exactly the six-digit strings without a leading zero.
- `complete_task` and `delete_task` check neither the session nor the task's owner, and neither do `CompleteTask` and `DeleteTask`.
- The completion rate is computed in floating point; see "Left out".
- `otp_codes.email` is not unique in the schema (`app/models.py:38`). At most one row per email holds only because `save_otp` deletes before it inserts. The model therefore keeps it as an invariant of the handlers (`Otp.OneRowPerEmail`), not as a table constraint.
- A cookie holding the empty string counts as missing, as Python's `if not email` does.
- Redirects built without a status use the framework default, 307. All others use 303.

## Model

| member | source | states |
|---|---|---|
| Models.UniqueEmails | app/models.py:11 | under the unique constraint, two stored users with the same email are the same row |
| Models.UniqueUserIds | app/models.py:10 | under the primary key, two stored users with the same id are the same row |
| Models.UniqueTaskIds | app/models.py:24 | under the primary key, two stored tasks with the same id are the same row |
| Models.OwnersExist | app/models.py:30 | the foreign key holds if and only if every stored task has a stored user whose id is its `owner_id` |
| Models.ValidStoreOwner | app/models.py:10-30 | in a database meeting all the table constraints, every task's id is below the next task id, and its owner is exactly one stored user |
| Models.UsersWithoutId | app/models.py:14-18 | the users left after deleting id `uid` are exactly those with another id |
| Models.TasksWithoutOwner | app/models.py:14-18 | the tasks left by the cascade are exactly those owned by someone else |
| Models.DeleteUser | app/models.py:14-18 | deleting a user removes exactly that user and every task it owns, nothing else |
| Models.DeleteUserKeepsStore | app/models.py:14-18 | thanks to the cascade, deleting a user keeps emails and ids unique and leaves no task with a missing owner |
| Models.UsersWithoutIdUniqueEmails | app/models.py:11 | removing users keeps `users.email` unique |
| Models.UsersWithoutIdUniqueIds | app/models.py:10 | removing users keeps `users.id` unique |
| Models.TasksWithoutOwnerUnique | app/models.py:24 | removing tasks keeps `tasks.id` unique |
| Models.AddUserKeepsStore | app/main.py:84-89 | inserting a user whose email is not yet stored, with the next id, keeps every table constraint |
| Models.AddTaskKeepsStore | app/main.py:199-201 | inserting a task with the next id and an existing owner keeps every table constraint, the non-null owner foreign key included |
| Queries.Present | app/main.py:116 | a cookie counts as missing exactly when it is absent or the empty string, as Python's `if not email` decides; the same test guards main.py:152 and main.py:187 |
| Queries.FindUserByEmail | app/main.py:66 | finds a stored user with exactly that email if there is one, and nothing if and only if no user has it; with unique emails it is that user |
| Queries.CurrentUser | app/main.py:186-192 | a user is signed in if and only if the `user_email` cookie is non-empty and names a stored user, and that user is returned |
| Queries.FindTask | app/main.py:208 | the first position holding a task with that id, or nothing if and only if no task has it |
| Queries.MarkCompleted | app/main.py:206-212 | with unique ids, exactly the task with that id turns Completed and every other task and field stays as it was; an unknown id changes nothing |
| Queries.RemoveTask | app/main.py:215-221 | with unique ids, exactly the task with that id disappears (one fewer task, no others lost); an unknown id changes nothing |
| Queries.MarkCompletedIdempotent | app/main.py:209-211 | completing the same task twice equals completing it once |
| Queries.MarkCompletedKeepsStore | app/main.py:209-211 | completing a task keeps every table constraint |
| Queries.RemoveTaskKeepsStore | app/main.py:218-220 | deleting a task keeps every table constraint |
| Otp.Decimal | app/main.py:26 | `str(n)` is a non-empty digit string, with no leading zero for positive `n` |
| Otp.DecimalRoundTrip | app/main.py:26 | reading back `str(n)` gives `n` |
| Otp.DecimalLength | app/main.py:26 | a number between 10^k and 10^(k+1) is written with k+1 characters |
| Otp.ValueBounds | app/main.py:26 | a digit string without a leading zero denotes a number with exactly that many digits |
| Otp.CanonicalRoundTrip | app/main.py:26 | writing out the number a canonical digit string denotes gives the string back |
| Otp.GenerateOtp | app/main.py:25-26 | every code is six decimal digits with a non-zero first digit and spells the drawn number |
| Otp.GenerateOtpOnto | app/main.py:25-26 | every six-digit string without a leading zero is the code of exactly one draw in 100000..999999 |
| Otp.GenerateOtpInjective | app/main.py:25-26 | different draws give different codes |
| Otp.RowsFor | app/main.py:33 | the rows selected for an email are exactly the stored rows with that email |
| Otp.WithoutRowsFor | app/main.py:33 | the rows left by the delete are exactly the rows with another email |
| Otp.RowsForCount | app/main.py:33 | the selection holds each row with that email exactly as often as the table does, and no other row |
| Otp.WithoutRowsForCount | app/main.py:33 | the delete keeps each row with another email exactly as often as the table holds it, and drops every row with that email |
| Otp.OneRowPerEmailDistinct | app/main.py:32-42 | the invariant that `save_otp` keeps, at most one row per email, holds if and only if the stored rows have pairwise distinct emails |
| Otp.Issue | app/main.py:29-44 | after issuing, the email has exactly one row, holding the new code and expiring five minutes after `now`; every other email's rows are unchanged; at most one row per email is preserved |
| Otp.FindOtp | app/main.py:120-123 | the first row matching both email and code, or nothing if and only if no row matches |
| Otp.Accept | app/main.py:120-129 | an accepted row matches email and code and has `now <= expires_at`; with one row per email, nothing is accepted if and only if no matching row is still live |
| Otp.Consume | app/main.py:131-133 | deleting the matched row removes exactly that row; its email then has no row; other emails keep theirs |
| Otp.IssueThenAccept | app/main.py:120-129 | right after issuing, a code is accepted for the email if and only if it is the new code and `now` is at most five minutes after issue (the boundary included); older codes are dead |
| Otp.ConsumedCodeRejected | app/main.py:131-138 | once the accepted row is consumed, the same code is rejected for that email at any later time |
| Dashboard.OwnedBy | app/main.py:159-161 | the selected tasks are exactly the stored tasks owned by the user |
| Dashboard.OwnedByCount | app/main.py:159-160 | the selection holds each of the user's tasks exactly as often as the table does, and no other task |
| Dashboard.SortByDue | app/main.py:161 | the listed tasks are in ascending due-date order and form a permutation of the selected ones |
| Dashboard.InsertSorted | app/main.py:161 | inserting into a list sorted by due date keeps it sorted |
| Dashboard.CountStatus | app/main.py:165-166 | a status count never exceeds the number of tasks |
| Dashboard.CountsPartition | app/main.py:164-166 | pending and completed counts add up to the total |
| Dashboard.CountSorted | app/main.py:163-166 | counting after the sort gives the same numbers as counting the unsorted selection |
| Dashboard.CompletionRate | app/main.py:167-169 | the rate is 0 with no tasks, otherwise the floor of completed·100/total; it lies in 0..100 and is 100 exactly when every task is completed |
| Dashboard.StatsOf | app/main.py:163-170 | `total` is the number of tasks, `pending` the number of Pending and `completed` the number of Completed ones (together `total`), and the rate is `CompletionRate(completed, total)`, within 0..100 and the floor of the percentage |
| Dashboard.Render | app/main.py:149-175 | no page if and only if no user is signed in; otherwise the signed-in user, exactly their tasks sorted by due date, and the stats of exactly those tasks |
| Tracker.DueDate | app/main.py:194-197 | the stored due date is the parsed date when `strptime` succeeds and the current time when it fails |
| Tracker.EnteredCode | app/main.py:113 | the entered code is the six fields joined in order: its length is the sum of theirs, it starts with the first field, and six one-character fields give exactly those six characters |
| Tracker.TaskTracker.DashboardView | app/main.py:149-175 | for the current cookies: no page if and only if no user is signed in; otherwise that user, their tasks sorted by due date, and the stats of their tasks |
| Tracker.TaskTracker.constructor | app/main.py:16 | an empty database and no cookies satisfy every constraint |
| Tracker.TaskTracker.SaveOtp | app/main.py:29-47 | the table becomes `Otp.Issue` of the old one; nothing else changes; the mail outcome is reported |
| Tracker.TaskTracker.Login | app/main.py:60-75 | an unknown email or a password that is not exactly the stored one changes nothing, issues no code and redirects with "Invalid Credentials"; otherwise a code is issued and `otp_email` is set |
| Tracker.TaskTracker.Register | app/main.py:78-95 | an email already stored changes nothing; otherwise exactly one user is appended with the password verbatim and the next id, a code is issued and `otp_email` is set |
| Tracker.TaskTracker.VerifyOtp | app/main.py:103-138 | the entered code is the six fields joined in order; with no `otp_email`, nothing changes; with no live matching row, nothing changes and the OTP page shows the error; otherwise exactly that row is deleted, `otp_email` is cleared and `user_email` is set to the email |
| Tracker.TaskTracker.Logout | app/main.py:141-145 | `user_email` is cleared and nothing else changes |
| Tracker.TaskTracker.AddTask | app/main.py:179-203 | without a signed-in user nothing changes; otherwise one Pending task owned by that user is appended, due at the parsed date or at `now`, created at `now` |
| Tracker.TaskTracker.CompleteTask | app/main.py:206-212 | the tasks become `Queries.MarkCompleted` of the old ones, whatever the session; nothing else changes |
| Tracker.TaskTracker.DeleteTask | app/main.py:215-221 | the tasks become `Queries.RemoveTask` of the old ones, whatever the session; nothing else changes |
| Scenarios.TypeCode | app/main.py:106-113 | typing the six characters of a code into the six fields verifies exactly that code |
| Scenarios.Registered | app/main.py:78-95 | after registering on an empty database there is one user, one code row for the email and the `otp_email` cookie |
| Scenarios.SignUp | app/main.py:131-138 | registering and typing the mailed code signs the user in |
| Scenarios.LookAtOneTask | app/main.py:159-170 | a user with one task sees stats (1,1,0,0) while it is pending and (1,0,1,100) once completed |
| Scenarios.EndToEnd | app/main.py:149-212 | register, verify, add a task, complete it: the dashboard stats go (0,0,0,0), then (1,1,0,0), then (1,0,1,100) |
| Scenarios.ReplayRejected | app/main.py:131-138 | a code verifies once; a second try has no pending cookie; resending the old cookie finds the row gone |
| Scenarios.ResendCookie | app/main.py:114-129 | a forged `otp_email` cookie with a code that no live row holds is rejected |
| Scenarios.ExpiryBoundary | app/main.py:125 | on two fresh sign-ups, a code is accepted when typed exactly five minutes after issue and rejected when typed one second later |
| Scenarios.WrongPassword | app/main.py:68-69 | logging in with the wrong password leaves the code table exactly as registration left it |

## Left out

- Dashboard.CompletionRate: modelled as integer floor of completed·100/total. The source computes `int((completed / total) * 100)` in floating point, which can be one lower: 29 of 100 gives 28 in Python. Floating point is not modelled.
- Dashboard.SortByDue: tasks with the same due date come out in one fixed order, which the contract does not describe. The database's `ORDER BY` leaves the order of ties unspecified.
- Mail delivery (`app/email_utils.py`, SMTP over SSL) is I/O and is replaced by the `delivered` parameter. When sending fails, the committed user and code rows persist, no cookie is set and the reply is a server error.
- `random.randint` and `datetime.utcnow` are replaced by the parameters `n` and `now`. Time is counted in whole seconds.
- `strptime(due_date, "%Y-%m-%d")` is replaced by the `parsedDue` option. What the library accepts as a date is not modelled.
- FastAPI routing, the Jinja templates and the static mount are left out, along with the two page handlers that only render a template (`login_page`, `otp_page`) and schema creation at startup. Replies are modelled as a redirect location and status, the OTP page with its error, or a server error.
- SQLAlchemy sessions (`SessionLocal`, `commit`, `close`, `get_db`) and `app/database.py` are left out; `app/database.py` is not part of this model. Each handler is one atomic step. The connection that `verify_otp` leaves open on its error path is not modelled.
- The race between deleting and inserting code rows in `save_otp` under concurrent requests is left out: handlers run one at a time.
- Cookies are the two public fields. Only a resent `otp_email` is exercised (`Scenarios.ResendCookie`); general cookie tampering is not.
- Id allocation is modelled as counters that never reuse an id. Which ids the database engine hands out is not modelled.
- `otp_codes.id` is a surrogate key that the application never reads, so it is not modelled. The matched row is identified by its position.
- The framework rejects an empty or missing `Form(...)` field before a handler runs. This validation is not modelled, so `Register`, `Login` and `VerifyOtp` also accept empty strings for the email, the password or a code field.
- `tasks.status` is a two-valued enumeration, because the application writes only "Pending" and "Completed".
