# nx-health-checker, modelled in Dafny

nx-health-checker is a small HTTP service that polls a list of health-check URLs. It
exports the results as Prometheus metrics and serves a dashboard behind a cookie login.
This project models its sequential core and proves properties of it:

- **Collector** (`collector.dfy`): the `CollectorManager` supervisor. It is a running flag
  plus the list of the current polling tasks' handles. `start`, `stop` and `restart` change
  it in place. The body of one polling task is also modelled: interval normalisation, one
  check per iteration, the three metric writes, and the sliced sleep that ends early once
  the flag drops.
- **Metrics** (`metrics.dfy`): the three Prometheus families as a `Sink` class with three
  maps.
  - `service_status` and `service_latency_seconds` are gauges keyed by (url, name).
  - `service_checks_total` is a counter keyed by (url, name, result).
  - Gauges are set and the counter is only incremented.
  - Each write is specified against a value-level `Registry`. `Observe` is one check and
    `Replay` is a sequence of checks; the lemmas are stated over these two.
- **Auth** (`auth.dfy`): the cookie parser `extract_session_id`, with Rust's `split(';')`,
  `trim` and `starts_with` written out in `text.dfy`. Also `get_session` and `require_auth`
  over the session map, and `HeaderValue::to_str` in `http.dfy`.
- **Handlers** (`handlers.dfy`):
  - the single-service and all-services ad hoc checks;
  - the classification in `perform_health_check`;
  - the partial `update_service`;
  - the session effects of `login` and `logout`;
  - `change_password`, with its validation order.
- **Store** (`store.dfy`): the services and users tables held in memory. The statements of
  the modelled handlers become methods that change a table (`UPDATE`) and functions that
  read one (`SELECT`). Whether a statement fails is an argument.
- **Models** (`models.dfy`): the row and request records, and the effect of a partial update
  on a row.

Everything outside the program is passed in as an argument: the network probe (status code
or transport error, plus the elapsed time), database failures, the clock, fresh session
ids, and the running flag as seen by a polling task (`nat -> bool`, the flag at each
one-second slice boundary).

## Model

| member | source | states |
|---|---|---|
| Http.IsSuccess | src/collector.rs:94 | a status is success-class exactly when its hundreds digit is 2 (200 to 299); 302, 404 and 500 are not |
| Http.HeaderToStr | src/auth.rs:36 | a header value reads as text exactly when every byte is a tab or visible ASCII, and the text has the same characters |
| Http.HeaderRoundTrip | src/auth.rs:36 | printable ASCII text sent as header bytes reads back unchanged |
| Text.IsWhitespace | src/auth.rs:50 | `char::is_whitespace`; among ASCII characters exactly the space and U+0009 to U+000D, and nothing above U+3000 |
| Text.StartsWith | src/auth.rs:51 | the prefix is no longer than the text and agrees with it character by character from the start, and the text is then the prefix followed by the rest |
| Text.TrimStart | src/auth.rs:50 | the result is a suffix of the input, everything dropped is whitespace, and it does not start with whitespace |
| Text.TrimEnd | src/auth.rs:50 | the result is a prefix of the input, everything dropped is whitespace, and it does not end with whitespace |
| Text.Trim | src/auth.rs:50 | the result is no longer than the input, holds only characters of the input, and has no whitespace at either end |
| Text.TrimStripsOnlyWhitespace | src/auth.rs:50 | the trimmed text is, character by character, the input from just after its leading whitespace, and everything before and after it is whitespace; with no whitespace at its own ends, only one result fits |
| Text.TrimStartAt | src/auth.rs:50 | `trim_start` cuts exactly where the leading whitespace ends: any cut with only whitespace before it and no whitespace right after it is its cut |
| Text.TrimEndAt | src/auth.rs:50 | `trim_end` cuts exactly where the trailing whitespace begins, in the same sense |
| Text.TrimStartSkipsWhitespace | src/auth.rs:50 | whitespace put in front of a text disappears under `trim_start` together with the text's own |
| Text.TrimEndSkipsWhitespace | src/auth.rs:50 | whitespace put after a text disappears under `trim_end` together with the text's own |
| Text.TrimStartAppend | src/auth.rs:50 | `trim_start` of a text that is not all whitespace, followed by more, keeps what follows whole |
| Text.TrimStartAllWhitespace | src/auth.rs:50 | whitespace followed by whitespace leaves nothing after `trim_start` |
| Text.TrimIgnoresSurroundingWhitespace | src/auth.rs:50 | whitespace added around a text does not change its trim |
| Text.TrimUntouched | src/auth.rs:50 | text with no whitespace at either end is left as it is |
| Text.Split | src/auth.rs:48 | splitting always yields at least one piece (the empty text gives one empty piece), and no piece contains the separator |
| Text.JoinSplit | src/auth.rs:48 | joining the pieces back with the separator restores the input, so splitting loses nothing |
| Text.SplitWithoutSeparator | src/auth.rs:48 | text without the separator is a single piece |
| Text.SplitAtFirstSeparator | src/auth.rs:48 | the text before the first separator is the first piece, and the rest splits on its own |
| Text.Utf8Len | src/handlers.rs:513 | the byte length `len()` is between one and four times the number of characters |
| Text.Utf8LenAscii | src/handlers.rs:513 | for ASCII text the byte length equals the number of characters |
| Models.Patched | src/handlers.rs:264-310 | each supplied field takes the supplied value and every other field keeps its value; `updated_at` is stamped exactly when at least one field is supplied; id and creation time never change |
| Collector.EffectiveInterval | src/collector.rs:42 | the interval is 30 seconds when the configured duration is zero or negative, and the configured duration otherwise; it is always at least one |
| Collector.PerformCheck | src/collector.rs:87-95 | an error exactly on a transport failure; otherwise whether the status is success-class |
| Collector.CheckStatus | src/collector.rs:46-49 | the label is UP or DOWN, and UP exactly for a success-class answer; an error counts as DOWN |
| Collector.LoopStatusIsSuccess | src/collector.rs:46-49 | a polling task reports UP exactly when the target answered 2xx, and DOWN on a transport error |
| Collector.LoopCheck | src/collector.rs:46-56 | one check writes the service's (url, name) gauges, is UP exactly on a 2xx answer, lands on the counter labelled with that status, and carries the elapsed time |
| Collector.SlicedSleep | src/collector.rs:59-64 | at most `interval` one-second slices; every slice slept began with the flag up; a short sleep ended because the flag was read down; the flag read afterwards is up exactly when it stayed up at every slice boundary |
| Collector.LoopChecks | src/collector.rs:43-56 | the observations of successive iterations, one per round, in order |
| Collector.PollLoop | src/collector.rs:42-66 | a task never begins a check unless the flag it last read was up, and it stops at the first check the flag forbids; the registry afterwards is the old one with exactly the checks performed written in order |
| Collector.LoopHandle.constructor | src/collector.rs:41-69 | a spawned task's handle, for its service, not yet aborted |
| Collector.LoopHandle.Abort | src/collector.rs:79 | one more abort request, and nothing else |
| Collector.Loaded | src/collector.rs:29-35 | a failed service query counts as no services; otherwise the services returned |
| Collector.CollectorManager.constructor | src/collector.rs:17-22 | the flag starts down and there are no handles |
| Collector.CollectorManager.Stop | src/collector.rs:75-80 | the flag is down and the handle list is empty; every handle held before has been aborted exactly once |
| Collector.CollectorManager.Start | src/collector.rs:24-73 | the old generation is stopped (each old handle aborted once) and the flag is up; there is exactly one fresh handle per loaded service, in order, and none after a failed query |
| Collector.CollectorManager.Restart | src/collector.rs:82-84 | the same effect as `start` |
| Metrics.Observe | src/collector.rs:54-56 | one check increments exactly one counter cell, the one labelled with its result, by one; it sets the status gauge to 1 if UP and 0 if DOWN, overwrites the latency gauge, and leaves every other cell alone |
| Metrics.ReplayCount | src/metrics.rs:20-26 | after any checks, each counter cell has grown by exactly the number of those checks that land on it |
| Metrics.CountersOnlyGrow | src/metrics.rs:20-26 | no sequence of checks decreases a counter cell |
| Metrics.ReplayGauges | src/metrics.rs:4-18 | both gauges of a service hold what its last check wrote, not an accumulation; a service not checked keeps its old gauges |
| Metrics.ReplayWellFormed | src/metrics.rs:4-26 | checks keep the registry consistent: both gauges exist for the same services, status is 0 or 1, and every counter cell has result UP or DOWN and belongs to a service with gauges |
| Metrics.Sink.constructor | src/metrics.rs:4-26 | the three families start empty |
| Metrics.Sink.SetLatency | src/collector.rs:54 | the latency cell for (url, name) is overwritten and nothing else changes |
| Metrics.Sink.SetStatus | src/collector.rs:55 | the status cell for (url, name) is overwritten and nothing else changes |
| Metrics.Sink.IncChecks | src/collector.rs:56 | the counter cell is created at 0 if missing and incremented by one; nothing else changes |
| Metrics.Sink.Record | src/collector.rs:54-56 | the three writes of one check, in order, leave the registry at `Observe` of the old one |
| Metrics.Sink.Gather | src/metrics.rs:28-34 | the exposition never fails: it returns whatever the encoder wrote, even if the encoder reported an error |
| Auth.SessionStore.constructor | src/auth.rs:12 | the session map starts empty |
| Auth.SessionPieceIgnoresSpacing | src/auth.rs:50-51 | whitespace around a piece, such as the space after each `;`, changes neither whether the piece carries the session id nor the id found in it |
| Auth.FindSessionId | src/auth.rs:47-56 | there is no id exactly when no piece, once trimmed, starts with `session_id=` |
| Auth.FoundIdAvoids | src/auth.rs:48-52 | an id found in pieces that lack a character also lacks it |
| Auth.ExtractSessionId | src/auth.rs:46-57 | the returned id never contains `;` |
| Auth.NoSessionIdIffNoSessionPiece | src/auth.rs:46-57 | a Cookie header yields no id exactly when none of its `;`-separated pieces, once trimmed, starts with `session_id=` (the match is case-sensitive and anchored at the start) |
| Auth.FirstPieceWins | src/auth.rs:49-52 | when several pieces match, the first one wins, and the id is that piece trimmed, minus its 11-character prefix |
| Auth.SessionCookieRoundTrip | src/auth.rs:51-52 | `session_id=<id>` gives back `id` for any id without `;` or trailing whitespace; in particular a bare `session_id=` gives the empty id |
| Auth.LoginCookie | src/handlers.rs:83 | for an id without `;`, the first piece of the `Set-Cookie` value, the pair a client echoes back, is `session_id=<id>`, and the attributes follow the first `;` |
| Auth.CookieSessionId | src/auth.rs:35-37 | no id without a Cookie header or when its bytes do not read as text; otherwise the parser's result |
| Auth.GetSession | src/auth.rs:31-44 | no session without a session id in the cookie; otherwise the map's entry for that id, which may be missing |
| Auth.SessionFromText | src/auth.rs:35-39 | a header that reads as text and carries an id opens exactly the session stored under that id |
| Auth.RequireAuth | src/auth.rs:59-68 | it succeeds exactly when `get_session` finds a session, and returns that session; otherwise 401 and a redirect to `/login` |
| Store.PatchRow | src/handlers.rs:265-270 | an UPDATE by id patches that row only; an unknown id matches nothing and changes nothing |
| Store.PatchedTwice | src/handlers.rs:264-310 | two updates at the same instant equal one update of their combined fields |
| Store.PatchRowTwice | src/handlers.rs:264-310 | the same for whole tables |
| Store.ServiceTable.Find | src/handlers.rs:345-349 | the row with the requested id, and none exactly when no row has it |
| Store.ServiceTable.Update | src/handlers.rs:265-270 | a failed statement changes nothing; a successful one patches that row only; rows stay filed under their ids |
| Store.FindLogin | src/handlers.rs:60-63 | no user exactly when no row has both the username and the password; otherwise a row with both |
| Store.FindLoginUnique | src/handlers.rs:60-63 | with unique usernames, a login finds that user exactly when the password is theirs |
| Store.PasswordMatches | src/handlers.rs:521-523 | with unique ids the check compares with that one user's stored password, and an id with no user never matches |
| Store.WithPassword | src/handlers.rs:529-532 | the users with that id get the new password and every other row is unchanged |
| Store.WithPasswordEffect | src/handlers.rs:529-532 | after the update the new password matches and no other does; every other user's password check is unchanged; ids and usernames stay unique |
| Store.UserTable.SetPassword | src/handlers.rs:529-533 | a failed statement changes nothing; a successful one performs the password update |
| Handlers.PerformHealthCheck | src/handlers.rs:439-451 | an error exactly on a transport failure; otherwise "UP" exactly for a success-class status and "DOWN" for any other |
| Handlers.ReportedStatus | src/handlers.rs:369-372 | an error from the check is reported as DOWN and a status as itself |
| Handlers.ReportedStatusIsSuccess | src/handlers.rs:369-372 | an ad hoc check reports UP exactly on a 2xx answer and DOWN otherwise, including on a request error |
| Handlers.AdHocAgreesWithLoop | src/handlers.rs:369-379 | an ad hoc check writes the same three cells, with the same values, as a polling task's check of the same service with the same probe |
| Handlers.CheckAndRecord | src/handlers.rs:368-386 | one probe, its three metric writes, and the report carrying the reported status |
| Handlers.CheckServiceHealth | src/handlers.rs:340-387 | a store error is a 500 "Database error" and an unknown id a 404 "Service not found", and neither writes a metric; otherwise exactly one check of that service is written and reported under the requested id |
| Handlers.AdHocChecks | src/handlers.rs:410-422 | one observation per listed service, in order, each with its own probe |
| Handlers.Reports | src/handlers.rs:424-429 | one report per listed service, in order |
| Handlers.CheckEach | src/handlers.rs:408-430 | every service is checked once, in the listed order; the reports match one to one, and the registry is the old one with those checks written in order |
| Handlers.CheckAllServicesHealth | src/handlers.rs:390-436 | a failed listing is a 500 "Failed to fetch services" with no check and no metric write; otherwise one report per service in the fetched order, `total_checked` equal to the number of services, and every check written |
| Handlers.AllChecksCounted | src/handlers.rs:410-422 | after the all-services check, each counter cell has grown by exactly the number of services whose check lands on it |
| Handlers.FirstFailure | src/handlers.rs:264-310 | the failing field reported is supplied, fails, and comes after no other supplied field that fails; there is none exactly when no supplied field fails |
| Handlers.ExecutedFields | src/handlers.rs:264-310 | a field is written exactly when it is supplied and no supplied field up to and including it (in the order name, URL, duration) fails; a written field carries the supplied value |
| Handlers.UpdateService | src/handlers.rs:256-316 | the table ends as the supplied fields up to the first failure applied to that row; the answer is "Service updated successfully" when none fails, otherwise the 500 of the first failing field |
| Handlers.UpdateTouchesOnlySupplied | src/handlers.rs:264-310 | whatever fails, every unsupplied column, the id and the creation time of the service are unchanged, and no row appears or disappears |
| Handlers.Login | src/handlers.rs:55-114 | on a store error or unknown credentials, the failure body and no new session; otherwise exactly one new session for the matching user under the fresh id, "Login successful!", a redirect to `/dashboard` and its cookie |
| Handlers.EchoedCookieIsText | src/handlers.rs:83 | the cookie a browser echoes for a UUID-like id is a header that reads as text |
| Handlers.EchoedCookieCarriesId | src/handlers.rs:83 | the parser gives such an id back from that cookie |
| Handlers.LoginSessionFound | src/handlers.rs:70-83 | a session stored at login is found again from the cookie the browser sends back |
| Handlers.LoggedOut | src/handlers.rs:175-181 | only the cookie's session id, if it has one, is removed; every remaining entry is unchanged |
| Handlers.LogoutEndsSession | src/handlers.rs:175-181 | after logging out, the same cookie no longer opens a session and `require_auth` rejects it |
| Handlers.Logout | src/handlers.rs:170-190 | the session map loses the cookie's session id, if any; the answer is always 302 to `/` with the clearing cookie |
| Handlers.ValidateNewPassword | src/handlers.rs:504-518 | a mismatch with the confirmation is reported before the length, and a new password shorter than 6 bytes is rejected next; it passes exactly when both checks do |
| Handlers.PasswordLengthInBytes | src/handlers.rs:513 | the length counts UTF-8 bytes: six characters always pass, fewer than two never do, two characters of three bytes each pass, and fewer than six ASCII characters never do |
| Handlers.ChangeOwnPassword | src/handlers.rs:504-560 | rejections never touch the store; then a failed verify, a wrong current password or a failed update each give their message; only a successful update changes the table, and only that user's password |
| Handlers.ChangePassword | src/handlers.rs:486-561 | 401 "Unauthorized" without a session and no change; otherwise, for the session's user, the mismatch or too-short message, then the database-error message when the check fails, "Current password is incorrect" when the password does not match, and then the update's failure or success message; only the success message comes with a change, that user's password update |

## Left out

- Concurrency: tokio tasks, the atomic flag's memory orderings, and the mutex around the
  handle list. The collector is modelled one sequential step at a time. A polling task sees
  the flag only through its `running` trace.
- Collector.CollectorManager.Stop: `abort` only requests cancellation and `stop` does not
  await the tasks, so the model records abort requests and claims nothing about tasks having
  ended.
- Collector.PollLoop: covers the finitely many iterations described by its `rounds`
  argument. The real loop is unbounded and ends only through the flag.
- The network: reqwest, its 10-second timeout and DNS/TLS are not modelled. A probe is an
  argument: a status code or a transport error, plus the elapsed time.
- Latency: the elapsed time is an `f64` from `Instant::elapsed`. The model treats it as an
  opaque real supplied with the probe.
- Metrics.Sink.IncChecks: counts with an unbounded natural number. The Prometheus counter is
  an `f64` that stops growing by one beyond 2^53.
- Metrics.Sink.Gather: the Prometheus text encoding itself is not modelled. The encoder is an
  argument that returns the bytes it wrote and whether it failed.
- Persistence: sqlx/SQLite, schema creation, seeding and the admin user
  (`src/database.rs`). The tables are in-memory values, and a statement's failure is an
  argument.
- Listing order: `SELECT ... ORDER BY service_name` is not modelled. The all-services check
  and `start` receive the listing (or the query error) as an argument.
- `get_services` and `delete_service`, which forward the result of one query, and
  `create_service`, which runs an `INSERT` and then `SELECT last_insert_rowid()` and answers
  500 when either fails. None of them touches the sessions, the metrics or the collector.
- Configuration (`src/config.rs`), routing (`src/routes.rs`) and start-up (`src/main.rs`),
  which only read the environment and wire handlers together.
- Page handlers (`index`, `login_page`, `dashboard`, `change_password_page`, `health_check`)
  and `prometheus_metrics`. They read static files, render templates or ping the database.
- `create_session`: it draws a random UUID and reads the clock. Both the fresh id and the time
  are arguments of `Handlers.Login`.
- JSON serialisation of the bodies, and the `checked_at` timestamps, which come from a clock
  argument.
- Strings: Rust strings are UTF-8 bytes, modelled as sequences of Unicode scalar values.
  `len()` is modelled as the UTF-8 byte count (`Text.Utf8Len`), and `trim` uses Unicode's
  White_Space property.
