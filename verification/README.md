# GoogleTursoUserSync reconciler, in Dafny

This project models the one-way user synchronisation of GoogleTursoUserSync.
Users are read from Google Workspace: a primary email and a Telegram
identifier, taken from the `MessengerInfo` custom schema and 0 when it is
unset. They are written into the `employees` table of a Turso (libsql)
database. The model covers the reconciler in `internal/database/database.go`:

- `userExistInTursoDB`, the linear search for the first row whose email is
  byte-for-byte the Google user's email;
- `SyncUsers`, which walks the Google users in order. For each user it sends
  an insert, an update or nothing, and counts the outcome in `updated`,
  `created` or `upToDate`;
- `AddUser` and `UpdateUserTgID`, the two store mutations, as changes to an
  abstract table.

Files:

- `google.dfy` (module `Google`): the `int64` type and `GoogleUser`.
- `wrappers.dfy` (module `Wrappers`): `Option`.
- `database.dfy` (module `Database`): the table rows (`TursoUser`), the
  search, the mutations, and the class `Database`. The class holds the rows
  in the field `rows` and has the methods `AddUser`, `UpdateUserTgID` and
  `SyncUsers`. The same module holds the specification functions that
  `SyncUsers` is proved against:
  - `Request`: the statement sent for one Google user;
  - `Count`, `Tally`: the counters;
  - `Applied`, `Perform`: the table afterwards;
  - `Plan`: the statements sent, in order.
- `sync_properties.dfy` (module `SyncProperties`): the lemmas about those
  functions.

How the model treats the store:

- The `employees` table is a sequence of rows held in the class field `rows`.
- Whether the store reports an error for a statement is an input. `AddUser`
  and `UpdateUserTgID` take a `fault` flag. `SyncUsers` takes `faults`, one
  flag per Google user: the outcome of the statement sent for that user. The
  flag is ignored when no statement is sent.
- A statement that fails leaves the table unchanged.
- The ghost field `issued` records every statement sent, failed ones
  included. This lets the contracts say which calls `SyncUsers` makes.
- The snapshot `tursoUsers` is a sequence value, so `SyncUsers` cannot change
  it.

The two failure paths are kept exactly as the code has them. A failed insert
still counts as created (database.go:125-129). A failed update skips every
counter and moves on to the next user (database.go:111-115).

`GoogleUser` declares its identifier field as `tgID` (internal/google/users.go:14).
`database.go` reads it as `gUser.TgID` (lines 54, 108 and 111). The model
treats both names as one field, `tgID`.

## Model

| member | source | states |
|---|---|---|
| Database.UserExistInTursoDBFindsFirst | internal/database/database.go:93-100 | About `UserExistInTursoDB`, the search. It returns found exactly when some row has the user's email (exact string equality), and a found row has that email. If `i` is the lowest index with that email, the result is `(tursoUsers[i], true)`, so later duplicates are ignored. With no match the result is the zero record `TursoUser{}` and false. |
| Database.SetTgID | internal/database/database.go:61-62 | The table after `UPDATE ... SET telegramID = ? WHERE email = ?`: same length. Every row with that email gets the new identifier. Every other row is unchanged. |
| Database.Database.AddUser | internal/database/database.go:53-59 | Records an `AddUserCall(user)`. Returns the store's error flag. On success it appends the row (user's email, user's identifier). On failure the table is unchanged. |
| Database.Database.UpdateUserTgID | internal/database/database.go:61-67 | Records an `UpdateUserTgIDCall(email, tgID)`. Returns the store's error flag. On success the table becomes `SetTgID(rows, email, tgID)`, a no-op when no row has that email. On failure the table is unchanged. |
| Database.Database.SyncUsers | internal/database/database.go:104-134 | The three counters equal `Tally`, the new table equals `Applied` from the old table, and the statements sent equal `Plan`. All three are computed one Google user at a time, in order, from the snapshot and the fault flags. |
| SyncProperties.CaseSensitiveMatch | internal/database/database.go:95 | "A@x.com" does not match the row "a@x.com": the search returns the zero record and false, and an insert is requested. |
| SyncProperties.UserExistAfterAppend | internal/database/database.go:93-100 | After a row is appended, an earlier match still wins. The new row is found only when no earlier row has the email. |
| SyncProperties.UserExistAfterSetTgID | internal/database/database.go:93-100 | After `SetTgID(rows, e, id)`, a search for `e` that found a row now finds `(e, id)`. A search for any other email gives the same result as before. |
| SyncProperties.InsertOnMiss | internal/database/database.go:123-130 | A Google user with no row of that email: `AddUser(user)` is sent and `created` goes up by 1, even when the insert fails. The row (email, tgID) is appended only on success. |
| SyncProperties.UpdateOnMismatch | internal/database/database.go:107-117 | The first matching row has a different identifier: `UpdateUserTgID(email, tgID)` is sent. On success, `updated` goes up by 1 and the table is `SetTgID`'d. On failure, no counter and no row changes. |
| SyncProperties.NoOpOnMatch | internal/database/database.go:118-122 | The first matching row has the same identifier: `upToDate` goes up by 1, no statement is sent and the table is unchanged. |
| SyncProperties.CountersAccountForEveryUser | internal/database/database.go:104-133 | `updated + created + upToDate + failed updates == len(googleUsers)`, so the sum never exceeds `len(googleUsers)`. Each user adds to at most one counter. |
| SyncProperties.SyncKeepsOtherRows | internal/database/database.go:104-133 | No row is deleted, and no row changes its email. A row whose email no Google user has stays unchanged. A changed row carries the identifier of a Google user with that email. Every appended row is some Google user's (email, tgID). |
| SyncProperties.NothingToDo | internal/database/database.go:105-122 | When every Google user's first matching row already has the user's identifier, the counters are `(0, 0, len(googleUsers))`, no statement is sent and the table is unchanged. |
| SyncProperties.SyncSettles | internal/database/database.go:104-133 | After a run with no failures, starting from the snapshot and with distinct Google emails: every Google user is found with its own (email, tgID), and every other email is found exactly as in the snapshot. |
| SyncProperties.ResyncIsUpToDate | internal/database/database.go:104-133 | Idempotence. After a run in which every statement succeeds (distinct Google emails, table equal to the snapshot), a second run against the re-read table reports `(0, 0, len(googleUsers))`, sends nothing and changes nothing. |
| SyncProperties.WorkedExample | internal/database/database.go:104-133 | Google users [a@x.com (1), b@x.com (0)] and table [a@x.com (1)]: the counters are (0, 1, 1), one insert is sent (for b@x.com), and the table gains b@x.com's row. |
| SyncProperties.DuplicateEmailsNeedAnotherRun | internal/database/database.go:93-100 | Two Google users with the same email are both inserted. A second run then counts one up to date and one updated, because the search stops at the first row. This shows why ResyncIsUpToDate requires distinct emails. |

## Left out

- `NewDatabaseConnection`, `Close`, `GetUserByEmail` and `GetAllUsers` (database.go:21-51, 69-91): SQL and driver plumbing over `database/sql` and libsql. The table is an abstract sequence of rows, and store errors are the `fault` inputs.
- The SQL schema itself: column types, and any unique constraint on `email`. The model does not decide when the store rejects a statement; the fault flags do. An insert that succeeds may therefore add a second row with an existing email.
- All `log.Printf` calls inside `SyncUsers`: logging only.
- `internal/google/users.go`: the Google Admin API calls, the JSON decoding of the custom schema and the `PrintAllUsers*` output. `GoogleUser` values are inputs. The rule that an unreadable identifier becomes 0 (users.go:72-75) is taken as given about those inputs.
- `internal/google/service.go` and `main.go`: OAuth client construction, environment and credential loading, and process exit on errors.
- Counters are Go `int`, modelled as unbounded `nat`. They are bounded by the number of Google users, so overflow is not modelled.
- Atomicity across users and crashes mid-run: each statement is applied, or not, on its own, and a run always finishes.
- SyncProperties.SyncSettles: takes the table after a run to be the snapshot's rows in their order, followed by the inserted rows in the order they were sent. `GetAllUsers` (database.go:70) has no ORDER BY, so the store does not promise this order. With duplicate emails in the table, a different row order can change which row the first-match search returns.
- SyncProperties.ResyncIsUpToDate: the table re-read for the second run is assumed to come back in that same order, snapshot rows first and inserted rows last. A store that returns duplicate-email rows in another order can make the second run send updates.
