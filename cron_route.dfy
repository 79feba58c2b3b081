/** The scheduled membership-status job's endpoint
    (app/api/cron/memberships/status/route.ts): find the caller's token,
    compare it with the configured secret and, when they match, run the
    refresher. GET and POST share the one handler. */
module CronRoute {
  import opened Wrappers
  import opened Text
  import opened AccessModel
  import opened MembershipStatus

  /** The parts of a request the endpoint reads: the `authorization` and
      `x-cron-secret` headers and the `token` and `secret` query
      parameters, each absent or present (possibly empty). */
  datatype CronRequest = CronRequest(
    authorization: Option<string>,
    cronSecretHeader: Option<string>,
    tokenParam: Option<string>,
    secretParam: Option<string>)

  /** A present value that is not the empty string (JavaScript truthiness
      of a string). */
  predicate Truthy(v: Option<string>) { v.Some? && v.value != "" }

  /** `auth.split(' ')` read as `[scheme, value]`: the bearer value when the
      scheme is "bearer" in any letter case and the value is non-empty. */
  function BearerValue(auth: string): (r: Option<string>)
    ensures r.Some? ==> r.value != "" && ' ' !in r.value
  {
    var parts := Split(auth, ' ');
    if ToLower(parts[0]) == "bearer" && |parts| > 1 && parts[1] != "" then Some(parts[1]) else None
  }

  /** `extractToken`: a usable `Authorization: Bearer` value first, then a
      non-empty `x-cron-secret` header, then `?token`, or `?secret` when
      `token` is absent; each winner is trimmed. */
  function ExtractToken(req: CronRequest): (r: Option<string>)
    ensures r.None? <==> (&& !(Truthy(req.authorization) && BearerValue(req.authorization.value).Some?)
                          && !Truthy(req.cronSecretHeader)
                          && !Truthy(if req.tokenParam.Some? then req.tokenParam else req.secretParam))
  {
    if Truthy(req.authorization) && BearerValue(req.authorization.value).Some? then
      Some(Trim(BearerValue(req.authorization.value).value))
    else if Truthy(req.cronSecretHeader) then
      Some(Trim(req.cronSecretHeader.value))
    else
      var queryToken := if req.tokenParam.Some? then req.tokenParam else req.secretParam;
      if Truthy(queryToken) then Some(Trim(queryToken.value)) else None
  }

  /** `Bearer <v>`, in any letter case of the scheme and with a value that
      has no space, wins over every other source. */
  lemma BearerWins(req: CronRequest, scheme: string, v: string)
    requires ToLower(scheme) == "bearer" && v != "" && ' ' !in v
    requires req.authorization == Some(scheme + " " + v)
    ensures ExtractToken(req) == Some(Trim(v))
  {
    SplitPrefix(scheme, v, ' ');
    SplitNoSeparator(v, ' ');
    assert scheme + [' '] + v == scheme + " " + v;
  }

  /** A `token` parameter that is present but empty hides `secret`: the
      query yields no token at all. */
  lemma EmptyTokenHidesSecret(req: CronRequest)
    requires !Truthy(req.authorization) && !Truthy(req.cronSecretHeader)
    requires req.tokenParam == Some("")
    ensures ExtractToken(req) == None
  {
  }

  /** The configured secret: `MEMBERSHIP_STATUS_CRON_SECRET`, else
      `CRON_SECRET`, else empty. */
  function ExpectedSecret(statusSecret: Option<string>, cronSecret: Option<string>): (s: string)
    ensures statusSecret.Some? ==> s == statusSecret.value
    ensures statusSecret.None? && cronSecret.Some? ==> s == cronSecret.value
    ensures statusSecret.None? && cronSecret.None? ==> s == ""
  {
    if statusSecret.Some? then statusSecret.value else cronSecret.GetOr("")
  }

  /** The endpoint's answers. */
  datatype CronResponse =
    | Refused(code: int, error: string)
    | Refreshed(result: RefreshResult)
    | RefreshFailed(error: string)
  {
    function Status(): int {
      match this
      case Refused(code, _) => code
      case Refreshed(_) => 200
      case RefreshFailed(_) => 500
    }
  }

  const NOT_CONFIGURED: string := "Cron secret not configured."
  const UNAUTHORIZED: string := "Unauthorized"

  /** The authorisation decision: None lets the refresher run. */
  function Gate(req: CronRequest, expected: string): (r: Option<CronResponse>)
    ensures expected == "" ==> r == Some(Refused(500, NOT_CONFIGURED))
    ensures expected != "" ==> (r.None? <==> ExtractToken(req) == Some(expected))
    ensures r.Some? && expected != "" ==> r.value == Refused(401, UNAUTHORIZED)
  {
    if expected == "" then Some(Refused(500, NOT_CONFIGURED))
    else
      var provided := ExtractToken(req);
      if provided.None? || provided.value == "" || provided.value != expected then Some(Refused(401, UNAUTHORIZED))
      else None
  }

  /** `handler` (and so `GET` and `POST`). The refresher runs with no
      options, so its time zone comes from `timeZoneEnv` or defaults to
      UTC; `referenceIso` is the current instant's ISO text and `today` its
      day number in that zone. */
  method Handler(req: CronRequest, statusSecret: Option<string>, cronSecret: Option<string>,
                 rows: array<Membership>, today: int, referenceIso: string, timeZoneEnv: Option<string>,
                 expireFault: Option<string>, activateFault: Option<string>)
    returns (resp: CronResponse)
    modifies rows
    ensures var gate := Gate(req, ExpectedSecret(statusSecret, cronSecret));
            && (gate.Some? ==> resp == gate.value && rows[..] == old(rows[..]))
            && (gate.None? ==>
                  var reply := RefreshReply(old(rows[..]), today, referenceIso, EffectiveTimeZone(None, timeZoneEnv), expireFault, activateFault);
                  && rows[..] == RefreshedRows(old(rows[..]), today, expireFault, activateFault)
                  && resp == (if reply.Ok? then Refreshed(reply.value) else RefreshFailed(reply.error)))
  {
    var expected := ExpectedSecret(statusSecret, cronSecret);
    if expected == "" {
      return Refused(500, NOT_CONFIGURED);
    }
    var provided := ExtractToken(req);
    if provided.None? || provided.value == "" || provided.value != expected {
      return Refused(401, UNAUTHORIZED);
    }
    var result := RefreshMembershipStatuses(rows, today, referenceIso, EffectiveTimeZone(None, timeZoneEnv), expireFault, activateFault);
    if result.Err? {
      return RefreshFailed(result.error);
    }
    resp := Refreshed(result.value);
  }
}
