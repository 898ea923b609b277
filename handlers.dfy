/**
  The HTTP handlers whose effects go beyond rendering a page: the ad hoc health checks,
  the partial service update, login, logout and the password change. Database failures,
  probe outcomes, the clock and fresh session ids are arguments.
 */
module Handlers {
  import opened Wrappers
  import opened Http
  import opened Text
  import opened Models
  import opened Metrics
  import opened Auth
  import opened Store
  import Collector

  /** An error response: a status code and a plain-text body. */
  datatype HttpError = HttpError(status: int, body: string)

  // ---------------------------------------------------------------- health checks

  /** `perform_health_check`: "UP" or "DOWN" from the response status, or the request error. */
  function PerformHealthCheck(p: ProbeOutcome): (r: Result<string, ProbeError>)
    ensures r.Ok? <==> p.Responded?
    ensures r.Ok? ==> (r.value == UP || r.value == DOWN)
    ensures r.Ok? ==> (r.value == UP <==> IsSuccess(p.code))
  {
    match p
    case Responded(code) => if IsSuccess(code) then Ok(UP) else Ok(DOWN)
    case TransportError => Err(RequestFailed)
  }

  /** The status a check handler reports: the classification, or "DOWN" on a request error. */
  function ReportedStatus(r: Result<string, ProbeError>): (status: string)
    ensures r.Err? ==> status == DOWN
    ensures r.Ok? ==> status == r.value
  {
    match r
    case Ok(s) => s
    case Err(_) => DOWN
  }

  /** An ad hoc check reports UP exactly when the target answered with a success-class status. */
  lemma ReportedStatusIsSuccess(p: ProbeOutcome)
    ensures ReportedStatus(PerformHealthCheck(p)) == UP <==> p.Responded? && IsSuccess(p.code)
    ensures ReportedStatus(PerformHealthCheck(p)) == UP || ReportedStatus(PerformHealthCheck(p)) == DOWN
  {
  }

  /** The metric observation of an ad hoc check of `service`. */
  function AdHocCheck(service: Service, probe: Probe): CheckResult {
    var status := ReportedStatus(PerformHealthCheck(probe.outcome));
    CheckResult(service.healthcheckUrl, service.serviceName, status == UP, probe.latency)
  }

  /**
    An ad hoc check and a polling task's check of the same service with the same probe
    write the same three cells with the same values.
   */
  lemma AdHocAgreesWithLoop(service: Service, probe: Probe)
    ensures AdHocCheck(service, probe) == Collector.LoopCheck(service, probe)
  {
    ReportedStatusIsSuccess(probe.outcome);
  }

  /** One entry of a check handler's JSON answer. */
  datatype HealthReport = HealthReport(serviceId: int, serviceName: string, status: string, checkedAt: int)

  /**
    Probe `service`, write its three cells and build its report: the common tail of both
    check handlers.
   */
  method CheckAndRecord(sink: Sink, service: Service, reportedId: int, probe: Probe, checkedAt: int)
    returns (report: HealthReport)
    modifies sink
    ensures report == HealthReport(reportedId, service.serviceName, ReportedStatus(PerformHealthCheck(probe.outcome)), checkedAt)
    ensures sink.Snapshot() == Observe(old(sink.Snapshot()), AdHocCheck(service, probe))
  {
    var status := ReportedStatus(PerformHealthCheck(probe.outcome));
    sink.Record(CheckResult(service.healthcheckUrl, service.serviceName, status == UP, probe.latency));
    report := HealthReport(reportedId, service.serviceName, status, checkedAt);
  }

  /**
    `check_service_health`: a store error is a 500 and an unknown id a 404, neither touching
    the metrics; otherwise the service is probed, its three cells written, and its report
    returned under the requested id.
   */
  method CheckServiceHealth(sink: Sink, table: ServiceTable, serviceId: int, dbFails: bool, probe: Probe, checkedAt: int)
    returns (r: Result<HealthReport, HttpError>)
    requires table.Valid()
    modifies sink
    ensures dbFails ==> r == Err(HttpError(INTERNAL_SERVER_ERROR, "Database error"))
    ensures !dbFails && serviceId !in table.rows ==> r == Err(HttpError(NOT_FOUND, "Service not found"))
    ensures r.Err? ==> sink.Snapshot() == old(sink.Snapshot())
    ensures !dbFails && serviceId in table.rows ==>
      var service := table.rows[serviceId];
      && r == Ok(HealthReport(serviceId, service.serviceName, ReportedStatus(PerformHealthCheck(probe.outcome)), checkedAt))
      && sink.Snapshot() == Observe(old(sink.Snapshot()), AdHocCheck(service, probe))
  {
    if dbFails {
      return Err(HttpError(INTERNAL_SERVER_ERROR, "Database error"));
    }
    var found := table.Find(serviceId);
    if found.None? {
      return Err(HttpError(NOT_FOUND, "Service not found"));
    }
    var report := CheckAndRecord(sink, found.value, serviceId, probe, checkedAt);
    r := Ok(report);
  }

  /** The JSON answer of the all-services check. */
  datatype AllHealthReport = AllHealthReport(services: seq<HealthReport>, totalChecked: nat)

  /** The report for `service` given its probe and the time of the check. */
  function ReportFor(service: Service, probe: Probe, checkedAt: int): HealthReport {
    HealthReport(service.id, service.serviceName, ReportedStatus(PerformHealthCheck(probe.outcome)), checkedAt)
  }

  /** The observations of checking `services` in order, the `i`-th with `probes(i)`. */
  function AdHocChecks(services: seq<Service>, probes: nat -> Probe): (cs: seq<CheckResult>)
    ensures |cs| == |services|
    ensures forall i :: 0 <= i < |services| ==> cs[i] == AdHocCheck(services[i], probes(i))
  {
    seq(|services|, i requires 0 <= i < |services| => AdHocCheck(services[i], probes(i)))
  }

  lemma AdHocChecksStep(services: seq<Service>, probes: nat -> Probe, i: nat)
    requires i < |services|
    ensures AdHocChecks(services[..i + 1], probes) == AdHocChecks(services[..i], probes) + [AdHocCheck(services[i], probes(i))]
  {
    var a := AdHocChecks(services[..i + 1], probes);
    var b := AdHocChecks(services[..i], probes) + [AdHocCheck(services[i], probes(i))];
    assert |a| == |b|;
    forall j | 0 <= j < |a| ensures a[j] == b[j] {
      assert services[..i + 1][j] == services[j];
    }
  }

  /** The reports of checking `services` in order, the `i`-th with `probes(i)` at `clock(i)`. */
  function Reports(services: seq<Service>, probes: nat -> Probe, clock: nat -> int): (rs: seq<HealthReport>)
    ensures |rs| == |services|
    ensures forall i :: 0 <= i < |services| ==> rs[i] == ReportFor(services[i], probes(i), clock(i))
  {
    seq(|services|, i requires 0 <= i < |services| => ReportFor(services[i], probes(i), clock(i)))
  }

  lemma ReportsStep(services: seq<Service>, probes: nat -> Probe, clock: nat -> int, i: nat)
    requires i < |services|
    ensures Reports(services[..i + 1], probes, clock) == Reports(services[..i], probes, clock) + [ReportFor(services[i], probes(i), clock(i))]
  {
    var a := Reports(services[..i + 1], probes, clock);
    var b := Reports(services[..i], probes, clock) + [ReportFor(services[i], probes(i), clock(i))];
    assert |a| == |b|;
    forall j | 0 <= j < |a| ensures a[j] == b[j] {
      assert services[..i + 1][j] == services[j];
    }
  }

  /** The loop of the all-services check: check each service in order and collect the reports. */
  method CheckEach(sink: Sink, services: seq<Service>, probes: nat -> Probe, clock: nat -> int)
    returns (results: seq<HealthReport>)
    modifies sink
    ensures |results| == |services|
    ensures forall i :: 0 <= i < |services| ==> results[i] == ReportFor(services[i], probes(i), clock(i))
    ensures sink.Snapshot() == Replay(old(sink.Snapshot()), AdHocChecks(services, probes))
  {
    results := [];
    ghost var done: seq<CheckResult> := [];
    for i := 0 to |services|
      invariant |results| == i
      invariant results == Reports(services[..i], probes, clock)
      invariant done == AdHocChecks(services[..i], probes)
      invariant sink.Snapshot() == Replay(old(sink.Snapshot()), done)
    {
      var report := CheckAndRecord(sink, services[i], services[i].id, probes(i), clock(i));
      ReplayStep(old(sink.Snapshot()), done, AdHocCheck(services[i], probes(i)));
      AdHocChecksStep(services, probes, i);
      ReportsStep(services, probes, clock, i);
      done := done + [AdHocCheck(services[i], probes(i))];
      results := results + [report];
    }
    assert services[..|services|] == services;
  }

  /**
    `check_all_services_health`: a failed listing is a 500 with no check and no metric write;
    otherwise every listed service is checked once, in the listed order, each check writes its
    three cells, and the answer holds one report per service and their number.
   */
  method CheckAllServicesHealth(sink: Sink, listing: Result<seq<Service>, StoreError>, probes: nat -> Probe, clock: nat -> int)
    returns (r: Result<AllHealthReport, HttpError>)
    modifies sink
    ensures listing.Err? ==> r == Err(HttpError(INTERNAL_SERVER_ERROR, "Failed to fetch services"))
    ensures listing.Err? ==> sink.Snapshot() == old(sink.Snapshot())
    ensures listing.Ok? ==> r.Ok?
    ensures listing.Ok? ==> |r.value.services| == |listing.value| && r.value.totalChecked == |listing.value|
    ensures listing.Ok? ==> forall i :: 0 <= i < |listing.value| ==>
      r.value.services[i] == ReportFor(listing.value[i], probes(i), clock(i))
    ensures listing.Ok? ==> sink.Snapshot() == Replay(old(sink.Snapshot()), AdHocChecks(listing.value, probes))
  {
    if listing.Err? {
      return Err(HttpError(INTERNAL_SERVER_ERROR, "Failed to fetch services"));
    }
    var results := CheckEach(sink, listing.value, probes, clock);
    r := Ok(AllHealthReport(results, |results|));
  }

  /**
    After the all-services check, each counter cell has grown by exactly the number of
    listed services whose check lands on it.
   */
  lemma AllChecksCounted(r: Registry, services: seq<Service>, probes: nat -> Probe, k: CounterKey)
    ensures Count(Replay(r, AdHocChecks(services, probes)), k) == Count(r, k) + Landing(AdHocChecks(services, probes), k)
  {
    ReplayCount(r, AdHocChecks(services, probes), k);
  }

  // ---------------------------------------------------------------- update_service

  /** The three columns a partial update can write, in the order it writes them. */
  datatype Field = Name | Url | Duration

  function Rank(f: Field): nat {
    match f
    case Name => 0
    case Url => 1
    case Duration => 2
  }

  predicate Supplies(req: UpdateServiceRequest, f: Field) {
    match f
    case Name => req.serviceName.Some?
    case Url => req.healthcheckUrl.Some?
    case Duration => req.durationSeconds.Some?
  }

  /** The first supplied field whose statement fails, in writing order. */
  function FirstFailure(req: UpdateServiceRequest, failing: set<Field>): (f: Option<Field>)
    ensures f.Some? ==> Supplies(req, f.value) && f.value in failing
    ensures f.Some? ==> forall g :: Rank(g) < Rank(f.value) && Supplies(req, g) ==> g !in failing
    ensures f.None? <==> forall g :: Supplies(req, g) ==> g !in failing
  {
    if req.serviceName.Some? && Name in failing then Some(Name)
    else if req.healthcheckUrl.Some? && Url in failing then Some(Url)
    else if req.durationSeconds.Some? && Duration in failing then Some(Duration)
    else
      assert forall g :: Supplies(req, g) ==> g !in failing by {
        forall g | Supplies(req, g) ensures g !in failing {
          assert g.Name? || g.Url? || g.Duration?;
        }
      }
      None
  }

  /** Keep the supplied fields of `req` that are written before `stop`, drop the rest. */
  function Before(req: UpdateServiceRequest, stop: Field): UpdateServiceRequest {
    UpdateServiceRequest(
      if Rank(Name) < Rank(stop) then req.serviceName else None,
      if Rank(Url) < Rank(stop) then req.healthcheckUrl else None,
      if Rank(Duration) < Rank(stop) then req.durationSeconds else None)
  }

  /** The fields an update actually writes: all supplied ones, or those before the first failure. */
  function Executed(req: UpdateServiceRequest, failing: set<Field>): UpdateServiceRequest {
    match FirstFailure(req, failing)
    case None => req
    case Some(f) => Before(req, f)
  }

  /**
    A field is written exactly when it is supplied and no supplied field up to and including
    it fails; a written field carries the supplied value.
   */
  lemma ExecutedFields(req: UpdateServiceRequest, failing: set<Field>, f: Field)
    ensures Supplies(Executed(req, failing), f) <==>
      Supplies(req, f) && forall g :: Rank(g) <= Rank(f) && Supplies(req, g) ==> g !in failing
    ensures Executed(req, failing).serviceName.Some? ==> Executed(req, failing).serviceName == req.serviceName
    ensures Executed(req, failing).healthcheckUrl.Some? ==> Executed(req, failing).healthcheckUrl == req.healthcheckUrl
    ensures Executed(req, failing).durationSeconds.Some? ==> Executed(req, failing).durationSeconds == req.durationSeconds
  {
    var ff := FirstFailure(req, failing);
    if ff.Some? {
      if Supplies(req, f) && forall g :: Rank(g) <= Rank(f) && Supplies(req, g) ==> g !in failing {
        assert Rank(f) < Rank(ff.value);
      }
      if Supplies(Executed(req, failing), f) {
        assert Rank(f) < Rank(ff.value);
      }
    }
  }

  /** The message of the 500 an update answers when the statement for `f` fails. */
  function FailureMessage(f: Field): string {
    match f
    case Name => "Failed to update service name"
    case Url => "Failed to update service URL"
    case Duration => "Failed to update service duration"
  }

  /** The JSON body of a successful update. */
  datatype Acknowledgement = Acknowledgement(success: bool, message: string)

  /**
    `update_service`: one statement per supplied field, in the order name, URL, duration,
    each stamping `updated_at`; the first failing statement ends the handler with its 500 and
    leaves the earlier writes in place. An unknown id changes nothing and still succeeds.
   */
  method UpdateService(table: ServiceTable, id: int, req: UpdateServiceRequest, now: int, failing: set<Field>)
    returns (r: Result<Acknowledgement, HttpError>)
    requires table.Valid()
    modifies table
    ensures table.Valid()
    ensures FirstFailure(req, failing).None? ==> r == Ok(Acknowledgement(true, "Service updated successfully"))
    ensures FirstFailure(req, failing).Some? ==>
      r == Err(HttpError(INTERNAL_SERVER_ERROR, FailureMessage(FirstFailure(req, failing).value)))
    ensures table.rows == PatchRow(old(table.rows), id, Executed(req, failing), now)
  {
    var none := UpdateServiceRequest(None, None, None);
    assert old(table.rows) == PatchRow(old(table.rows), id, none, now);
    if req.serviceName.Some? {
      var ok := table.Update(id, UpdateServiceRequest(req.serviceName, None, None), now, Name in failing);
      if !ok {
        return Err(HttpError(INTERNAL_SERVER_ERROR, FailureMessage(Name)));
      }
    }
    var named := UpdateServiceRequest(req.serviceName, None, None);
    PatchRowTwice(old(table.rows), id, none, named, now);
    assert table.rows == PatchRow(old(table.rows), id, named, now);
    if req.healthcheckUrl.Some? {
      var ok := table.Update(id, UpdateServiceRequest(None, req.healthcheckUrl, None), now, Url in failing);
      PatchRowTwice(old(table.rows), id, named, UpdateServiceRequest(None, req.healthcheckUrl, None), now);
      if !ok {
        return Err(HttpError(INTERNAL_SERVER_ERROR, FailureMessage(Url)));
      }
    }
    var located := UpdateServiceRequest(req.serviceName, req.healthcheckUrl, None);
    PatchRowTwice(old(table.rows), id, named, UpdateServiceRequest(None, None, None), now);
    assert table.rows == PatchRow(old(table.rows), id, located, now);
    if req.durationSeconds.Some? {
      var ok := table.Update(id, UpdateServiceRequest(None, None, req.durationSeconds), now, Duration in failing);
      PatchRowTwice(old(table.rows), id, located, UpdateServiceRequest(None, None, req.durationSeconds), now);
      if !ok {
        return Err(HttpError(INTERNAL_SERVER_ERROR, FailureMessage(Duration)));
      }
    }
    assert Combined(located, UpdateServiceRequest(None, None, req.durationSeconds)) == req;
    r := Ok(Acknowledgement(true, "Service updated successfully"));
  }

  /**
    Whatever fails, an update leaves every other service alone and, on the updated one,
    every unsupplied column, the id and the creation time.
   */
  lemma UpdateTouchesOnlySupplied(rows: map<int, Service>, id: int, req: UpdateServiceRequest, now: int, failing: set<Field>)
    requires id in rows
    ensures var rows' := PatchRow(rows, id, Executed(req, failing), now);
      && rows'.Keys == rows.Keys
      && rows'[id].id == rows[id].id && rows'[id].createdAt == rows[id].createdAt
      && (req.serviceName.None? ==> rows'[id].serviceName == rows[id].serviceName)
      && (req.healthcheckUrl.None? ==> rows'[id].healthcheckUrl == rows[id].healthcheckUrl)
      && (req.durationSeconds.None? ==> rows'[id].durationSeconds == rows[id].durationSeconds)
  {
    ExecutedFields(req, failing, Name);
    ExecutedFields(req, failing, Url);
    ExecutedFields(req, failing, Duration);
  }

  // ---------------------------------------------------------------- sessions

  /** What the login handler answers: always 200, a JSON body and possibly a cookie to set. */
  datatype LoginReply = LoginReply(status: int, body: LoginResponse, setCookie: Option<string>)

  /**
    `login`: on a store error or unknown credentials a failure body and no session; otherwise
    a new session under `freshId` for the matching user, created at `now`, and its cookie.
   */
  method Login(store: SessionStore, users: UserTable, req: LoginRequest, dbFails: bool, freshId: string, now: int)
    returns (reply: LoginReply)
    modifies store
    ensures dbFails ==>
      reply == LoginReply(OK, LoginResponse(false, "Database error occurred", None), None)
    ensures !dbFails && FindLogin(users.rows, req.username, req.password).None? ==>
      reply == LoginReply(OK, LoginResponse(false, "Invalid username or password", None), None)
    ensures dbFails || FindLogin(users.rows, req.username, req.password).None? ==>
      store.sessions == old(store.sessions)
    ensures !dbFails && FindLogin(users.rows, req.username, req.password).Some? ==>
      var u := FindLogin(users.rows, req.username, req.password).value;
      && store.sessions == old(store.sessions)[freshId := Session(u.id, u.username, now)]
      && reply == LoginReply(OK, LoginResponse(true, "Login successful!", Some("/dashboard")), Some(LoginCookie(freshId)))
  {
    if dbFails {
      return LoginReply(OK, LoginResponse(false, "Database error occurred", None), None);
    }
    var found := FindLogin(users.rows, req.username, req.password);
    if found.None? {
      return LoginReply(OK, LoginResponse(false, "Invalid username or password", None), None);
    }
    var user := found.value;
    store.sessions := store.sessions[freshId := Session(user.id, user.username, now)];
    reply := LoginReply(OK, LoginResponse(true, "Login successful!", Some("/dashboard")), Some(LoginCookie(freshId)));
  }

  /** A session id made of visible ASCII characters other than space and `;`, as a UUID is. */
  predicate IsTokenText(id: string) {
    forall i :: 0 <= i < |id| ==> '!' <= id[i] <= '~' && id[i] != ';'
  }

  /** The cookie a browser sends back for such an id is a header value that reads as text. */
  lemma EchoedCookieIsText(id: string)
    requires IsTokenText(id)
    ensures HeaderToStr(AsciiBytes(SessionPrefix + id)) == Some(SessionPrefix + id)
  {
    var cookie := SessionPrefix + id;
    forall i | 0 <= i < |cookie|
      ensures 32 <= cookie[i] as int <= 126
    {
      if i >= |SessionPrefix| {
        assert cookie[i] == id[i - |SessionPrefix|];
      }
    }
    HeaderRoundTrip(cookie);
  }

  /** The parser gives such an id back from the echoed cookie. */
  lemma EchoedCookieCarriesId(id: string)
    requires IsTokenText(id)
    ensures ExtractSessionId(SessionPrefix + id) == Some(id)
  {
    assert ';' !in id by {
      forall c | c in id ensures c != ';' {
        var i :| 0 <= i < |id| && id[i] == c;
      }
    }
    SessionCookieRoundTrip(id);
  }

  /** A session stored under such an id at login is found again from the cookie the browser sends back. */
  lemma LoginSessionFound(sessions: map<string, Session>, id: string, s: Session)
    requires IsTokenText(id)
    ensures GetSession(Some(AsciiBytes(SessionPrefix + id)), sessions[id := s]) == Some(s)
  {
    var text := SessionPrefix + id;
    EchoedCookieIsText(id);
    EchoedCookieCarriesId(id);
    SessionFromText(AsciiBytes(text), text, id, sessions[id := s]);
  }

  /** The session map after logging out with this cookie header: its session id, if any, removed. */
  function LoggedOut(sessions: map<string, Session>, cookie: Option<HeaderValue>): (sessions': map<string, Session>)
    ensures sessions'.Keys <= sessions.Keys
    ensures forall id :: id in sessions' ==> sessions'[id] == sessions[id]
    ensures CookieSessionId(cookie).Some? ==> sessions'.Keys == sessions.Keys - {CookieSessionId(cookie).value}
    ensures CookieSessionId(cookie).None? ==> sessions' == sessions
  {
    match CookieSessionId(cookie)
    case Some(id) => sessions - {id}
    case None => sessions
  }

  /** After logging out, the same cookie no longer opens a session. */
  lemma LogoutEndsSession(sessions: map<string, Session>, cookie: Option<HeaderValue>)
    ensures GetSession(cookie, LoggedOut(sessions, cookie)).None?
    ensures RequireAuth(cookie, LoggedOut(sessions, cookie)) == Err(Rejection(UNAUTHORIZED, "/login"))
  {
  }

  /** A redirect response with a cookie to set. */
  datatype Redirect = Redirect(status: int, location: string, setCookie: string)

  /** The cookie that makes the browser drop its session id. */
  const ClearingCookie: string := "session_id=; Path=/; HttpOnly; Max-Age=0"

  /** `logout`: forget the cookie's session, if it names one, and always redirect home clearing the cookie. */
  method Logout(store: SessionStore, cookie: Option<HeaderValue>) returns (reply: Redirect)
    modifies store
    ensures store.sessions == LoggedOut(old(store.sessions), cookie)
    ensures reply == Redirect(FOUND, "/", ClearingCookie)
  {
    var id := CookieSessionId(cookie);
    if id.Some? {
      store.sessions := store.sessions - {id.value};
    }
    reply := Redirect(FOUND, "/", ClearingCookie);
  }

  // ---------------------------------------------------------------- change_password

  /** The least number of UTF-8 bytes a new password must have. */
  const MinPasswordBytes: nat := 6

  const MismatchMessage := "New password and confirmation password do not match"
  const TooShortMessage := "New password must be at least 6 characters long"

  /**
    The validation `change_password` performs before touching the store: the confirmation
    first, then the length in bytes. None when both pass.
   */
  function ValidateNewPassword(newPassword: string, confirmPassword: string): (rejection: Option<string>)
    ensures newPassword != confirmPassword ==> rejection == Some(MismatchMessage)
    ensures newPassword == confirmPassword && Utf8Len(newPassword) < MinPasswordBytes ==> rejection == Some(TooShortMessage)
    ensures rejection.None? <==> newPassword == confirmPassword && Utf8Len(newPassword) >= MinPasswordBytes
  {
    if newPassword != confirmPassword then Some(MismatchMessage)
    else if Utf8Len(newPassword) < MinPasswordBytes then Some(TooShortMessage)
    else None
  }

  /**
    The length check counts bytes, not characters: six characters always pass, fewer than two
    never do, and two characters of three bytes each pass, while five ASCII characters fail.
   */
  lemma PasswordLengthInBytes(p: string)
    ensures |p| >= MinPasswordBytes ==> ValidateNewPassword(p, p).None?
    ensures |p| < 2 ==> ValidateNewPassword(p, p) == Some(TooShortMessage)
    ensures (forall i :: 0 <= i < |p| ==> p[i] as int < 0x80) && |p| < MinPasswordBytes ==>
      ValidateNewPassword(p, p) == Some(TooShortMessage)
    ensures |p| == 2 && (forall i :: 0 <= i < |p| ==> 0x800 <= p[i] as int < 0x10000) ==>
      ValidateNewPassword(p, p).None?
  {
    if |p| == 2 {
      assert p[1..][1..] == [];
      assert Utf8Len(p) == Utf8Width(p[0]) + Utf8Width(p[1]);
    }
    if forall i :: 0 <= i < |p| ==> p[i] as int < 0x80 {
      Utf8LenAscii(p);
    }
  }

  const Changed := ChangePasswordResponse(true, "Password changed successfully!")
  const VerifyFailed := ChangePasswordResponse(false, "Database error occurred. Please try again.")
  const WrongCurrent := ChangePasswordResponse(false, "Current password is incorrect")
  const UpdateFailed := ChangePasswordResponse(false, "Failed to update password. Please try again.")

  /**
    What `change_password` does once the caller is authenticated as `userId`: a validation
    message without touching the store, then the current-password check and the update,
    each of which may fail. Only a successful update changes the table, and only that
    user's password.
   */
  method ChangeOwnPassword(users: UserTable, userId: int, req: ChangePasswordRequest, verifyFails: bool, updateFails: bool)
    returns (resp: ChangePasswordResponse)
    requires users.Valid()
    modifies users
    ensures users.Valid()
    ensures ValidateNewPassword(req.newPassword, req.confirmPassword).Some? ==>
      resp == ChangePasswordResponse(false, ValidateNewPassword(req.newPassword, req.confirmPassword).value)
    ensures ValidateNewPassword(req.newPassword, req.confirmPassword).None? ==>
      && (verifyFails ==> resp == VerifyFailed)
      && (!verifyFails && !PasswordMatches(old(users.rows), userId, req.currentPassword) ==> resp == WrongCurrent)
      && (!verifyFails && PasswordMatches(old(users.rows), userId, req.currentPassword) ==>
            resp == if updateFails then UpdateFailed else Changed)
    ensures resp == Changed ==> users.rows == WithPassword(old(users.rows), userId, req.newPassword)
    ensures resp != Changed ==> users.rows == old(users.rows)
  {
    var rejection := ValidateNewPassword(req.newPassword, req.confirmPassword);
    if rejection.Some? {
      return ChangePasswordResponse(false, rejection.value);
    }
    if verifyFails {
      return VerifyFailed;
    }
    if !PasswordMatches(users.rows, userId, req.currentPassword) {
      return WrongCurrent;
    }
    var ok := users.SetPassword(userId, req.newPassword, updateFails);
    resp := if ok then Changed else UpdateFailed;
  }

  /**
    `change_password`: 401 without a session; otherwise the response of the change for the
    session's user, in the order the handler checks: validation, then the current password,
    then the update. The table changes only when the response is the success message.
   */
  method ChangePassword(store: SessionStore, users: UserTable, cookie: Option<HeaderValue>, req: ChangePasswordRequest,
                        verifyFails: bool, updateFails: bool)
    returns (r: Result<ChangePasswordResponse, HttpError>)
    requires users.Valid()
    modifies users
    ensures users.Valid()
    ensures RequireAuth(cookie, store.sessions).Err? ==>
      r == Err(HttpError(UNAUTHORIZED, "Unauthorized")) && users.rows == old(users.rows)
    ensures RequireAuth(cookie, store.sessions).Ok? ==> r.Ok?
    ensures RequireAuth(cookie, store.sessions).Ok? ==>
      var userId := RequireAuth(cookie, store.sessions).value.userId;
      var rejection := ValidateNewPassword(req.newPassword, req.confirmPassword);
      && (rejection.Some? ==> r == Ok(ChangePasswordResponse(false, rejection.value)))
      && (rejection.None? && verifyFails ==> r == Ok(VerifyFailed))
      && (rejection.None? && !verifyFails && !PasswordMatches(old(users.rows), userId, req.currentPassword) ==>
            r == Ok(WrongCurrent))
      && (rejection.None? && !verifyFails && PasswordMatches(old(users.rows), userId, req.currentPassword) ==>
            r == Ok(if updateFails then UpdateFailed else Changed))
    ensures r == Ok(Changed) ==>
      users.rows == WithPassword(old(users.rows), RequireAuth(cookie, store.sessions).value.userId, req.newPassword)
    ensures r != Ok(Changed) ==> users.rows == old(users.rows)
  {
    var auth := RequireAuth(cookie, store.sessions);
    if auth.Err? {
      return Err(HttpError(UNAUTHORIZED, "Unauthorized"));
    }
    var resp := ChangeOwnPassword(users, auth.value.userId, req, verifyFails, updateFails);
    r := Ok(resp);
  }
}
