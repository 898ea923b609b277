/**
  The records the handlers and the collector pass around: rows of the services and
  users tables and the request and response bodies. Timestamps are plain integers
  supplied by the caller, since the clock is outside the model.
 */
module Models {
  import opened Wrappers

  /** One row of the services table. */
  datatype Service = Service(
    id: int,
    serviceName: string,
    healthcheckUrl: string,
    durationSeconds: int,
    createdAt: int,
    updatedAt: int)

  /** The body of a partial service update: each field is changed only when it is present. */
  datatype UpdateServiceRequest = UpdateServiceRequest(
    serviceName: Option<string>,
    healthcheckUrl: Option<string>,
    durationSeconds: Option<int>)

  /** One row of the users table. */
  datatype User = User(id: int, username: string, password: string, createdAt: int)

  datatype LoginRequest = LoginRequest(username: string, password: string)

  datatype LoginResponse = LoginResponse(success: bool, message: string, redirectUrl: Option<string>)

  datatype ChangePasswordRequest = ChangePasswordRequest(
    currentPassword: string,
    newPassword: string,
    confirmPassword: string)

  datatype ChangePasswordResponse = ChangePasswordResponse(success: bool, message: string)

  /** A failed query against the store. */
  datatype StoreError = QueryFailed

  /** Whether the request supplies at least one field. */
  predicate SuppliesAny(req: UpdateServiceRequest) {
    req.serviceName.Some? || req.healthcheckUrl.Some? || req.durationSeconds.Some?
  }

  /**
    A service row after the supplied fields of `req` were written in the order name, URL,
    duration, each write also stamping `updated_at` with `now`.
   */
  function Patched(s: Service, req: UpdateServiceRequest, now: int): (t: Service)
    ensures t.id == s.id && t.createdAt == s.createdAt
    ensures t.serviceName == (if req.serviceName.Some? then req.serviceName.value else s.serviceName)
    ensures t.healthcheckUrl == (if req.healthcheckUrl.Some? then req.healthcheckUrl.value else s.healthcheckUrl)
    ensures t.durationSeconds == (if req.durationSeconds.Some? then req.durationSeconds.value else s.durationSeconds)
    ensures t.updatedAt == (if SuppliesAny(req) then now else s.updatedAt)
    ensures !SuppliesAny(req) ==> t == s
  {
    var named := match req.serviceName
      case Some(name) => s.(serviceName := name, updatedAt := now)
      case None => s;
    var located := match req.healthcheckUrl
      case Some(url) => named.(healthcheckUrl := url, updatedAt := now)
      case None => named;
    match req.durationSeconds
    case Some(seconds) => located.(durationSeconds := seconds, updatedAt := now)
    case None => located
  }
}
