/** The login audit endpoint (app/api/logs/login/route.ts): the browser
    reports each sign-in attempt; the body is sanitised, the `success`
    flag is required, and one row goes into the `login_logs` table with
    the client's address and user agent. */
module LoginLogRoute {
  import opened Wrappers
  import opened Text

  /** A JSON value found under a key of the body: absent, a string, a
      boolean, or anything else (null, a number, an object). */
  datatype Field = Absent | Str(s: string) | Bool(b: bool) | OtherValue

  datatype Body = Body(email: Field, success: Field, userId: Field, failureReason: Field, userAgent: Field)

  /** What `req.json()` yields: text that is not JSON (read as `{}`), the
      JSON `null` (whose fields cannot be read), an object, or another
      JSON value (a number, a string, an array: every field absent). */
  datatype Payload = Unreadable | JsonNull | JsonObject(body: Body) | OtherJson

  /** The fields read from the payload; None for the null body. */
  function FieldsOf(p: Payload): Option<Body> {
    match p
    case JsonNull => None
    case JsonObject(body) => Some(body)
    case _ => Some(Body(Absent, Absent, Absent, Absent, Absent))
  }

  function StringOf(f: Field): Option<string> {
    if f.Str? then Some(f.s) else None
  }

  lemma LowerKeepsEdges(t: string)
    requires HasNoLeadingSpace(t) && HasNoTrailingSpace(t)
    ensures HasNoLeadingSpace(ToLower(t)) && HasNoTrailingSpace(ToLower(t))
  {
    if t != [] {
      LowerCharSpace(t[0]);
      LowerCharSpace(t[|t| - 1]);
    }
  }

  /** `email`: a string is trimmed and lower-cased; anything else is null. */
  function Email(f: Field): (r: Option<string>)
    ensures r.Some? <==> f.Str?
    ensures r.Some? ==> HasNoLeadingSpace(r.value) && HasNoTrailingSpace(r.value)
    ensures r.Some? ==> forall i :: 0 <= i < |r.value| ==> !IsUpperAscii(r.value[i])
  {
    if f.Str? then
      LowerKeepsEdges(Trim(f.s));
      Some(ToLower(Trim(f.s)))
    else None
  }

  /** `userId`: only a non-empty string counts. */
  function UserId(f: Field): (r: Option<string>)
    ensures r.Some? <==> f.Str? && f.s != ""
    ensures r.Some? ==> r.value == f.s
  {
    if f.Str? && f.s != "" then Some(f.s) else None
  }

  /** The client address: the first entry of `x-forwarded-for`, trimmed;
      null when the header is missing or empty. */
  function ClientIp(forwardedFor: Option<string>): (r: Option<string>)
    ensures r.Some? <==> forwardedFor.Some? && forwardedFor.value != ""
    ensures r.Some? ==> ',' !in r.value && HasNoLeadingSpace(r.value) && HasNoTrailingSpace(r.value)
  {
    if forwardedFor.None? || forwardedFor.value == "" then None
    else
      var first := Split(forwardedFor.value, ',')[0];
      TrimIsSlice(first);
      Some(Trim(first))
  }

  /** A list of addresses gives its first one: "203.0.113.7, 10.0.0.1"
      gives "203.0.113.7". */
  lemma FirstForwardedAddress(first: string, rest: string)
    requires ',' !in first && first != ""
    requires HasNoLeadingSpace(first) && HasNoTrailingSpace(first)
    ensures ClientIp(Some(first + "," + rest)) == Some(first)
  {
    SplitPrefix(first, rest, ',');
    assert first + "," + rest == first + [','] + rest;
    TrimNoop(first);
  }

  /** The user agent: the body's, when it is a string (even empty), else
      the request header's, else null. */
  function UserAgent(fromBody: Field, header: Option<string>): (r: Option<string>)
    ensures fromBody.Str? ==> r == Some(fromBody.s)
    ensures !fromBody.Str? ==> r == header
  {
    if fromBody.Str? then Some(fromBody.s) else header
  }

  /** One row of `login_logs`. */
  datatype LoginLog = LoginLog(
    email: Option<string>,
    success: bool,
    userId: Option<string>,
    failureReason: Option<string>,
    ipAddress: Option<string>,
    userAgent: Option<string>)

  /** The row a readable body with a boolean `success` gives. */
  function RowOf(body: Body, forwardedFor: Option<string>, uaHeader: Option<string>): (row: LoginLog)
    requires body.success.Bool?
    ensures row.success == body.success.b
    ensures row.email == Email(body.email) && row.userId == UserId(body.userId)
    ensures row.failureReason == StringOf(body.failureReason)
    ensures row.ipAddress == ClientIp(forwardedFor) && row.userAgent == UserAgent(body.userAgent, uaHeader)
  {
    LoginLog(Email(body.email), body.success.b, UserId(body.userId), StringOf(body.failureReason),
             ClientIp(forwardedFor), UserAgent(body.userAgent, uaHeader))
  }

  /** The `login_logs` table: rows are only ever appended. */
  class LoginLogTable {
    var rows: seq<LoginLog>

    constructor()
      ensures rows == []
    {
      rows := [];
    }

    /** `insert(row)`: appends the row, or reports the store's failure
        (with its message, if it has one) and changes nothing. */
    method Insert(row: LoginLog, failure: Option<Option<string>>) returns (r: Option<Option<string>>)
      modifies this
      ensures r == failure
      ensures failure.Some? ==> rows == old(rows)
      ensures failure.None? ==> rows == old(rows) + [row]
    {
      if failure.Some? {
        return failure;
      }
      rows := rows + [row];
      return None;
    }
  }

  const SUCCESS_REQUIRED: string := "Parámetro \"success\" es requerido."
  const MISSING_ENV: string := "Faltan variables de entorno de Supabase para registrar logins."
  const DEFAULT_ERROR: string := "No se pudo registrar el login"

  /** The answers: 200 `{ok: true}`, 400 for a missing `success`, and 500
      with a message. */
  datatype LoginReply = Logged | BadRequest(error: string) | ServerError(error: string)

  /** The message of a failure that may have none. */
  function MessageOf(message: Option<string>): string {
    message.GetOr(DEFAULT_ERROR)
  }

  /** `POST`. `configured` says whether the store's environment is set,
      `nullBodyMessage` is the host's message for reading a field of a
      null body, and `insertFailure` the store's failure, if any. */
  method Post(table: LoginLogTable, payload: Payload, forwardedFor: Option<string>, uaHeader: Option<string>,
              configured: bool, nullBodyMessage: string, insertFailure: Option<Option<string>>)
    returns (reply: LoginReply)
    modifies table
    ensures payload.JsonNull? ==> reply == ServerError(nullBodyMessage) && table.rows == old(table.rows)
    ensures FieldsOf(payload).Some? && !FieldsOf(payload).value.success.Bool? ==>
              reply == BadRequest(SUCCESS_REQUIRED) && table.rows == old(table.rows)
    ensures FieldsOf(payload).Some? && FieldsOf(payload).value.success.Bool? ==>
              var row := RowOf(FieldsOf(payload).value, forwardedFor, uaHeader);
              && (!configured ==> reply == ServerError(MISSING_ENV) && table.rows == old(table.rows))
              && (configured && insertFailure.Some? ==>
                    reply == ServerError(MessageOf(insertFailure.value)) && table.rows == old(table.rows))
              && (configured && insertFailure.None? ==> reply == Logged && table.rows == old(table.rows) + [row])
  {
    var fields := FieldsOf(payload);
    if fields.None? {
      return ServerError(nullBodyMessage);
    }
    var body := fields.value;
    var email := Email(body.email);
    var success := if body.success.Bool? then Some(body.success.b) else None;
    var userId := UserId(body.userId);
    var failureReason := StringOf(body.failureReason);
    var uaFromBody := StringOf(body.userAgent);
    if success.None? {
      return BadRequest(SUCCESS_REQUIRED);
    }
    if !configured {
      return ServerError(MISSING_ENV);
    }
    var ip := ClientIp(forwardedFor);
    var userAgent := if uaFromBody.Some? then uaFromBody else uaHeader;
    var error := table.Insert(LoginLog(email, success.value, userId, failureReason, ip, userAgent), insertFailure);
    if error.Some? {
      return ServerError(MessageOf(error.value));
    }
    return Logged;
  }
}
