/** The API request logger (lib/logger.ts): one line per handled request,
    appended to the file of the request's local day when logging is
    switched on, with write failures swallowed; and the wrapper that logs
    a handler's response or error and passes it on, unless a detail
    callback throws. */
module ApiLogger {
  import opened Wrappers
  import opened Text
  import opened DailyLog
  import CardLogger

  /** `isLoggingEnabled`: `ENABLE_LOGS`, lower-cased, is exactly "true";
      an unset or empty variable switches logging off. It is the card
      logger's switch. */
  function IsLoggingEnabled(flag: Option<string>): (enabled: bool)
    ensures enabled <==> flag.Some? && ToLower(flag.value) == "true"
    ensures enabled == CardLogger.LogsEnabled(flag)
  {
    if flag.None? || flag.value == "" then false else ToLower(flag.value) == "true"
  }

  /** The directory setting: `LOGS_DIR` when it is not blank, otherwise
      the default "logs" under the working directory (None here). */
  function LogDirSetting(customDir: Option<string>): (dir: Option<string>)
    ensures dir.Some? <==> customDir.Some? && Trim(customDir.value) != ""
    ensures dir.Some? ==> dir.value == customDir.value
  {
    if customDir.Some? && Trim(customDir.value) != "" then customDir else None
  }

  predicate IsLineBreak(c: char) { c == '\r' || c == '\n' }

  /** `sanitizeDetails`: every run of CR and LF characters becomes one
      space, then the text is trimmed. */
  function SanitizeDetails(details: string): (r: string)
    ensures HasNoLeadingSpace(r) && HasNoTrailingSpace(r)
    ensures (forall i :: 0 <= i < |details| ==> !IsLineBreak(details[i])) ==> r == Trim(details)
  {
    Trim(CollapseRuns(details, IsLineBreak, ' '))
  }

  /** Sanitised details hold no line break, so an entry stays on one line. */
  lemma SanitizedHasNoBreak(details: string)
    ensures forall i :: 0 <= i < |SanitizeDetails(details)| ==> !IsLineBreak(SanitizeDetails(details)[i])
  {
    var collapsed := CollapseRuns(details, IsLineBreak, ' ');
    var a := TrimKeepsChars(collapsed);
    var t := Trim(collapsed);
    forall i | 0 <= i < |t|
      ensures !IsLineBreak(t[i])
    {
      assert t[i] == collapsed[a + i];
    }
  }

  /** Sanitising twice is sanitising once. */
  lemma SanitizeIdempotent(details: string)
    ensures SanitizeDetails(SanitizeDetails(details)) == SanitizeDetails(details)
  {
    SanitizedHasNoBreak(details);
    TrimIdempotent(CollapseRuns(details, IsLineBreak, ' '));
  }

  /** `getRequestMethod`: the method upper-cased, "UNKNOWN" when it is
      missing or empty. */
  function RequestMethod(httpMethod: Option<string>): (r: string)
    ensures r != ""
    ensures forall i :: 0 <= i < |r| ==> !IsLowerAscii(r[i])
    ensures httpMethod.Some? && httpMethod.value != "" ==> r == ToUpper(httpMethod.value)
  {
    var m := httpMethod.GetOr("");
    if m == "" then "UNKNOWN" else ToUpper(m)
  }

  /** `getRequestPath`: the `nextUrl` path when the request has one, else
      the path of its parsed `url` (`urlPath`, None when the URL does not
      parse), else "/unknown". */
  function RequestPath(nextUrlPath: Option<string>, urlPath: Option<string>): (r: string)
    ensures nextUrlPath.Some? ==> r == nextUrlPath.value
    ensures nextUrlPath.None? && urlPath.Some? ==> r == urlPath.value
    ensures nextUrlPath.None? && urlPath.None? ==> r == "/unknown"
  {
    if nextUrlPath.Some? then nextUrlPath.value else urlPath.GetOr("/unknown")
  }

  /** What `logApiAction` is given. */
  datatype LogEntry = LogEntry(httpMethod: string, path: string, statusCode: int, details: string)

  /** `[YYYY-MM-DD HH:MM:SS] METHOD path status details`, without its
      newline. */
  function EntryLine(wall: int, e: LogEntry): string {
    "[" + LocalDate(wall) + " " + LocalTime(wall) + "] " + ToUpper(e.httpMethod) + " " + e.path + " "
    + IntToString(e.statusCode) + " " + SanitizeDetails(e.details)
  }

  /** The directory after `logApiAction`: one more line in the file of the
      entry's local day when logging is on and the write succeeds;
      unchanged otherwise. */
  function ActionLogged(files: map<string, seq<string>>, enabled: bool, wall: int, e: LogEntry, writeFails: bool)
    : (r: map<string, seq<string>>)
    ensures !enabled || writeFails ==> r == files
    ensures enabled && !writeFails ==> Lines(r, FileName(wall)) == Lines(files, FileName(wall)) + [EntryLine(wall, e)]
    ensures forall other :: other != FileName(wall) ==> Lines(r, other) == Lines(files, other)
  {
    if enabled && !writeFails then Appended(files, FileName(wall), EntryLine(wall, e)) else files
  }

  /** `logApiAction`. `wall` is the entry's local timestamp; `writeFails`
      says whether creating the directory or appending fails, which is
      reported on the console and otherwise ignored: the call never fails. */
  method LogApiAction(dir: LogDirectory, enabled: bool, wall: int, e: LogEntry, writeFails: bool)
    modifies dir
    ensures dir.files == ActionLogged(old(dir.files), enabled, wall, e, writeFails)
  {
    if !enabled {
      return;
    }
    if writeFails {
      return;
    }
    var line := "[" + LocalDate(wall) + " " + LocalTime(wall) + "] " + ToUpper(e.httpMethod) + " " + e.path + " "
                + IntToString(e.statusCode) + " " + SanitizeDetails(e.details);
    dir.Append(FileName(wall), line);
  }

  // ---------------------------------------------------------------- the wrapper

  /** A value a handler throws: an `Error` (with its message), a string,
      another object, or anything else; `status` is its numeric `status`
      property, if it has one. */
  datatype Thrown =
    | ErrorInstance(message: string, status: Option<int>)
    | StringValue(text: string)
    | OtherObject(status: Option<int>)
    | OtherValue

  /** `extractStatusCode`: the thrown object's numeric `status`, else 500.
      A string has no such property. */
  function ExtractStatusCode(e: Thrown): (code: int)
    ensures (e.ErrorInstance? || e.OtherObject?) && e.status.Some? ==> code == e.status.value
    ensures !((e.ErrorInstance? || e.OtherObject?) && e.status.Some?) ==> code == 500
  {
    match e
    case ErrorInstance(_, Some(s)) => s
    case OtherObject(Some(s)) => s
    case _ => 500
  }

  /** A handler's response: its status; `ok` is a 2xx status. */
  datatype Response = Response(status: int, body: string)
  {
    predicate Ok() { 200 <= status <= 299 }
  }

  /** What a handler does: return a response or throw. */
  datatype Outcome = Returned(response: Response) | Threw(error: Thrown)

  /** What a detail callback does when the wrapper calls it for this
      request: it returns a text, or it throws. */
  datatype Detail = Gave(text: string) | Raised(error: Thrown)

  /** The `successMessage` option: fixed text, or a callback (given here by
      what it does for this request). */
  datatype SuccessOption = FixedText(text: string) | Callback(call: Detail)

  /** `getSuccessDetail`. An empty fixed text is falsy and so gives the
      default text too; only a callback can throw. */
  function SuccessDetail(option: Option<SuccessOption>, response: Response, durationMs: nat): (r: Detail)
    ensures option.Some? && option.value.Callback? ==> r == option.value.call
    ensures r.Raised? ==> option.Some? && option.value.Callback?
    ensures option.Some? && option.value.FixedText? && option.value.text != "" ==> r == Gave(option.value.text)
    ensures option.None? || option == Some(FixedText("")) ==>
              r == Gave((if response.Ok() then "Request completed successfully"
                         else "Response sent with status " + IntToString(response.status))
                        + " in " + NatToString(durationMs) + "ms")
  {
    if option.None? || option == Some(FixedText("")) then
      var base := if response.Ok() then "Request completed successfully"
                  else "Response sent with status " + IntToString(response.status);
      Gave(base + " in " + NatToString(durationMs) + "ms")
    else
      match option.value
      case FixedText(text) => Gave(text)
      case Callback(call) => call
  }

  /** The message the default error detail names. */
  function ErrorMessage(e: Thrown): string {
    match e
    case ErrorInstance(message, _) => message
    case StringValue(text) => text
    case _ => "Unexpected error"
  }

  /** `getErrorDetail`; `callback` is what the `errorMessage` callback does
      when it is called, None when there is no callback. */
  function ErrorDetail(callback: Option<Detail>, e: Thrown, durationMs: nat): (r: Detail)
    ensures callback.Some? ==> r == callback.value
    ensures callback.None? ==> r == Gave("Error after " + NatToString(durationMs) + "ms: " + ErrorMessage(e))
  {
    match callback
    case Some(call) => call
    case None => Gave("Error after " + NatToString(durationMs) + "ms: " + ErrorMessage(e))
  }

  /** The error that reaches the wrapper's catch block: the handler's own,
      or the one its success-detail callback throws; None when the handler
      returns and its detail is resolved. */
  function Caught(outcome: Outcome, successOption: Option<SuccessOption>, durationMs: nat): (c: Option<Thrown>)
    ensures outcome.Threw? ==> c == Some(outcome.error)
    ensures outcome.Returned? ==>
              (c.None? <==> SuccessDetail(successOption, outcome.response, durationMs).Gave?)
    ensures c.Some? && outcome.Returned? ==>
              successOption.Some? && successOption.value == Callback(Raised(c.value))
  {
    match outcome
    case Threw(error) => Some(error)
    case Returned(response) =>
      match SuccessDetail(successOption, response, durationMs)
      case Gave(_) => None
      case Raised(error) => Some(error)
  }

  /** The entry `withApiLogging` logs for a request and its outcome; None
      when the error-detail callback throws in the catch block, which then
      logs nothing. */
  function EntryFor(httpMethod: Option<string>, path: string, outcome: Outcome,
                    successOption: Option<SuccessOption>, errorCallback: Option<Detail>, durationMs: nat)
    : (e: Option<LogEntry>)
    ensures e.Some? ==> e.value.httpMethod == RequestMethod(httpMethod) && e.value.path == path
    ensures Caught(outcome, successOption, durationMs).None? ==>
              e == Some(LogEntry(RequestMethod(httpMethod), path, outcome.response.status,
                                 SuccessDetail(successOption, outcome.response, durationMs).text))
    ensures Caught(outcome, successOption, durationMs).Some? ==>
              var caught := Caught(outcome, successOption, durationMs).value;
              (e.None? <==> ErrorDetail(errorCallback, caught, durationMs).Raised?) &&
              (e.Some? ==> e.value.statusCode == ExtractStatusCode(caught) &&
                           e.value.details == ErrorDetail(errorCallback, caught, durationMs).text)
    ensures outcome.Threw? && errorCallback.None? ==>
              e.Some? && e.value.statusCode == ExtractStatusCode(outcome.error) &&
              e.value.details == "Error after " + NatToString(durationMs) + "ms: " + ErrorMessage(outcome.error)
  {
    match Caught(outcome, successOption, durationMs)
    case None =>
      var details := SuccessDetail(successOption, outcome.response, durationMs).text;
      Some(LogEntry(RequestMethod(httpMethod), path, outcome.response.status, details))
    case Some(caught) =>
      match ErrorDetail(errorCallback, caught, durationMs)
      case Raised(_) => None
      case Gave(details) => Some(LogEntry(RequestMethod(httpMethod), path, ExtractStatusCode(caught), details))
  }

  /** `withApiLogging` applied to a handler and called: `outcome` is what
      the handler does, `durationMs` how long it took and `wall` the local
      time of logging. A returned response is passed on after its entry is
      logged. An error that reaches the catch block -- the handler's, or
      one its success-detail callback throws -- is logged with its status
      and thrown again (here: returned as `Threw`); but when the
      error-detail callback itself throws, that error is thrown instead and
      nothing is logged. */
  method WithApiLogging(dir: LogDirectory, enabled: bool, wall: int, httpMethod: Option<string>, path: string,
                        outcome: Outcome, successOption: Option<SuccessOption>, errorCallback: Option<Detail>,
                        durationMs: nat, writeFails: bool)
    returns (result: Outcome)
    modifies dir
    // The handler's outcome passes through whenever the callbacks called return.
    ensures Caught(outcome, successOption, durationMs).None? ==> result == outcome
    ensures outcome.Threw? && ErrorDetail(errorCallback, outcome.error, durationMs).Gave? ==> result == outcome
    // A throwing success-detail callback turns the response into that error.
    ensures outcome.Returned? && SuccessDetail(successOption, outcome.response, durationMs).Raised? ==>
              var thrown := SuccessDetail(successOption, outcome.response, durationMs).error;
              (ErrorDetail(errorCallback, thrown, durationMs).Gave? ==> result == Threw(thrown))
    // A throwing error-detail callback replaces the error, and nothing is logged.
    ensures Caught(outcome, successOption, durationMs).Some? &&
            ErrorDetail(errorCallback, Caught(outcome, successOption, durationMs).value, durationMs).Raised? ==>
              result == Threw(ErrorDetail(errorCallback, Caught(outcome, successOption, durationMs).value, durationMs).error) &&
              dir.files == old(dir.files)
    ensures EntryFor(httpMethod, path, outcome, successOption, errorCallback, durationMs).Some? ==>
              dir.files == ActionLogged(old(dir.files), enabled, wall,
                                        EntryFor(httpMethod, path, outcome, successOption, errorCallback, durationMs).value,
                                        writeFails)
  {
    var caught: Thrown;
    match outcome {
      case Returned(response) =>
        var success := SuccessDetail(successOption, response, durationMs);
        match success {
          case Gave(details) =>
            LogApiAction(dir, enabled, wall, LogEntry(RequestMethod(httpMethod), path, response.status, details), writeFails);
            return outcome;
          case Raised(error) =>
            caught := error;
        }
      case Threw(error) =>
        caught := error;
    }
    var statusCode := ExtractStatusCode(caught);
    var failure := ErrorDetail(errorCallback, caught, durationMs);
    match failure {
      case Raised(error) =>
        return Threw(error);
      case Gave(details) =>
        LogApiAction(dir, enabled, wall, LogEntry(RequestMethod(httpMethod), path, statusCode, details), writeFails);
        return Threw(caught);
    }
  }
}
