# fitnessclub access control: a Dafny model

This project models the core of a gym's RFID access-control web application.
A kiosk reads a member's card number. The server then does the following:

- It cleans and checks the number.
- It looks the card up among the active cards.
- It decides from the member's memberships whether the door opens: `allowed`, `expired`, `denied` or `unknown_card`.
- It appends one row to the access log and writes card events to a daily log file.

Around that pipeline the model covers these parts:

- the scheduled job that expires and reactivates memberships, and its secret-checked endpoint;
- the page guard, and role extraction from a user's metadata;
- the CSV writer;
- the three administrator reports: the monthly summary, membership movements, and memberships about to expire;
- the API request logger and the card event logger;
- the helpers that name athlete photos and image files;
- the endpoint that records sign-in attempts;
- Chile local time under a fixed numeric offset.

## Modelling conventions

- The database, clock, environment variables and host parsers are parameters:
  - A table is a `seq` of rows.
  - A failing query or insert is an `Option` error message.
  - "Now" is an integer of epoch milliseconds.
  - A calendar date is an integer day number counted from 1970-01-01.
- State updated in place keeps its form:
  - the access and login log tables are classes whose `rows` field only grows;
  - the memberships table of the status job is an `array` updated by two loops;
  - a log directory is a class holding a map from file name to lines.
- Each method is proved against a function that specifies it. The properties are proved about that function.

## Model

| member | source | states |
|---|---|---|
| CardValidation.NormalizeCardUID | lib/kiosk/cardValidation.ts:8-10 | a missing value gives ""; otherwise the result is the input with surrounding whitespace removed, starting and ending with no space |
| CardValidation.CanonicalizeCardUID | lib/kiosk/cardValidation.ts:12-22 | the result holds only digits; it is "" exactly when the input has no digit; it is "0" or has no leading zero; it denotes the same number as the input's digits |
| CardValidation.StrippedValue | lib/kiosk/cardValidation.ts:20 | stripping leading zeros from a digit string keeps it all digits and keeps its numeric value |
| CardValidation.CanonicalizeIdempotent | lib/kiosk/cardValidation.ts:12-22 | canonicalising twice equals canonicalising once |
| CardValidation.CanonicalizeAllZeros | lib/kiosk/cardValidation.ts:20-21 | digits that are all zeros canonicalise to "0" |
| CardValidation.CanonicalizePadded | lib/kiosk/cardValidation.ts:20-21 | any number of leading zeros before a digit string without a leading zero is removed |
| CardValidation.CanonicalizeExample | lib/kiosk/cardValidation.ts:20-21 | "0000123456" canonicalises to "123456" |
| CardValidation.CanonicalizeNoDigits | lib/kiosk/cardValidation.ts:15-18 | text holding no digit at all canonicalises to "" |
| CardValidation.CanonicalizeInteriorNonDigit | lib/kiosk/cardValidation.ts:15 | a non-digit between digits is dropped and the digits around it are kept in order: "12a3" gives "123" |
| CardValidation.ValidateCardUIDFormat | lib/kiosk/cardValidation.ts:24-38 | no issue exactly when the text has 10 characters that are all digits; `empty_value` exactly for ""; `length_mismatch:<n>` exactly for other lengths; `invalid_characters` exactly for 10 characters with a non-digit |
| CardValidation.ValidateExample | lib/kiosk/cardValidation.ts:29-37 | "abc" reports `length_mismatch:3`; a 10-character text with a letter reports invalid characters; "0000123456" passes |
| CardValidation.WellFormedCanonical | lib/kiosk/cardValidation.ts:12-38 | a uid that passes the format check canonicalises to a non-empty digit string of the same numeric value |
| LegacyCardUid.NormalizeCardUID | lib/cardUID.ts:1-3 | the result has no surrounding whitespace, no lower-case letter and is no longer than the input |
| LegacyCardUid.AllZerosNormalizeEmpty | lib/cardUID.ts:2 | a string made only of zeros normalises to "" |
| LegacyCardUid.WhitespaceShieldsZeros | lib/cardUID.ts:2 | zeros are stripped before trimming, so one leading space keeps the zeros behind it (" 007" gives "007") |
| LegacyCardUid.ZerosBeforeSpace | lib/cardUID.ts:2 | zeros in front of a leading space are dropped and the rest is normalised as if they were absent |
| LegacyCardUid.NotIdempotent | lib/cardUID.ts:2 | "0 0" normalises to "0", and "0" normalises to "": normalising is not idempotent |
| LegacyCardUid.FixedPoint | lib/cardUID.ts:2 | a trimmed string with no lower-case letter and no leading zero is its own normal form |
| AccessModel.TodayUtc | lib/access/validateCardAccess.ts:57-60 | today is the UTC day whose 24 hours contain the current instant |
| AccessModel.ActiveCardsWithUid | lib/access/validateCardAccess.ts:104-109 | the cards kept are exactly those with the given uid that are active |
| AccessModel.FindActiveCard | lib/access/validateCardAccess.ts:104-109 | no row exactly when no active card has the uid; exactly one active match is found and returned; an error, always the multiple-rows error, exactly when two or more active cards have the uid |
| AccessModel.ActiveCardsSingle | lib/access/validateCardAccess.ts:104-108 | when exactly one position holds an active card with the uid, the filtered cards are that card alone |
| AccessModel.OneActiveCardFound | lib/access/validateCardAccess.ts:104-109 | one active card with the uid, and no other, is the card found |
| AccessModel.DuplicateCardsFail | lib/access/validateCardAccess.ts:109 | two distinct active cards with the same uid make the single-row lookup fail |
| AccessModel.MembershipsOf | lib/access/validateCardAccess.ts:154-157 | the fetched memberships are exactly the table's rows for the athlete |
| AccessModel.InsertByStartPermutes | lib/access/validateCardAccess.ts:159-163 | one insertion step of the sort adds exactly the inserted row to the multiset |
| AccessModel.InsertByStartBounded | lib/access/validateCardAccess.ts:159-163 | insertion keeps every start key under a common bound |
| AccessModel.InsertByStartSorted | lib/access/validateCardAccess.ts:159-163 | inserting into a list sorted latest start first keeps it sorted |
| AccessModel.SortByStartDescCorrect | lib/access/validateCardAccess.ts:159-163 | the sorted list is ordered by start date, latest first with a missing start counted as the epoch, and is a permutation of the input |
| AccessModel.SortByStartDescSameElements | lib/access/validateCardAccess.ts:159-163 | sorting keeps exactly the same elements |
| AccessModel.FirstMax | lib/access/validateCardAccess.ts:193 | the index returned holds the greatest key, and every earlier element's key is strictly smaller |
| AccessModel.Filter | lib/access/validateCardAccess.ts:169-170 | the elements kept are exactly those satisfying the test |
| AccessModel.FilterNone | lib/access/validateCardAccess.ts:187-191 | when no element passes, the filter is empty |
| AccessModel.FilterSorted | lib/access/validateCardAccess.ts:169-170 | filtering a list sorted by start date leaves it sorted |
| AccessModel.FindFirst | lib/access/validateCardAccess.ts:171-176 | the index found passes the test and no earlier element does; none is found exactly when no element passes |
| AccessModel.AccessLogTable.Insert | lib/access/validateCardAccess.ts:229-237 | a failed insert returns its error and leaves the table as it was; otherwise the row is appended and its id is the old row count |
| AccessEngine.Decide | lib/access/validateCardAccess.ts:167-217 | the cascade never yields `unknown_card`; a reported membership is one of the inputs |
| AccessEngine.FirstFoundIsLatest | lib/access/validateCardAccess.ts:171-176 | in a list sorted by start date, the first element passing a test has the latest start among all that pass |
| AccessEngine.FoundFirst | lib/access/validateCardAccess.ts:171-176 | no element before the one found passes the test |
| AccessEngine.DecideAllowed | lib/access/validateCardAccess.ts:171-185 | over a sorted list, `allowed` holds exactly when an active-status membership covers today; the one reported covers today and has the latest start among those that do |
| AccessEngine.AllowedIffCovering | lib/access/validateCardAccess.ts:159-185 | for memberships in any order, `allowed` holds exactly when some active-status membership (status lower-cased, missing counted as active) has both dates and start <= today <= end; it reports such a membership, echoed with status default "active" |
| AccessEngine.ExpiredByEndedMembership | lib/access/validateCardAccess.ts:187-199 | with nothing covering today but some active-status membership ended before today, the result is `expired` and reports the ended membership with the latest end date |
| AccessEngine.SoldFallback | lib/access/validateCardAccess.ts:200-217 | with no covering or ended active-status membership, any `sold` row gives `expired` and reports the sold row latest by end date (else start date); with no sold row the result is `denied`, with no membership |
| AccessEngine.SoldNeverAllows | lib/access/validateCardAccess.ts:169-217 | memberships that are all `sold` give `expired`, never `allowed` |
| AccessEngine.Lookup | lib/access/validateCardAccess.ts:46-158 | succeeds exactly when the store is configured, the card query answers with at most one active card and, for a found card, the membership query answers; otherwise the error is the missing-configuration message, the card query's message, the multiple-rows message or the membership query's message, in that order; an unknown card means no active card has the uid and fetches no memberships; a found card is the uid's only active card and fetches exactly its athlete's memberships |
| AccessEngine.EvaluateCases | lib/access/validateCardAccess.ts:131-163 | `unknown_card` exactly when no card matched; the note is non-empty exactly for `unknown_card`; an unknown card has no athlete, no membership and `UNRECOGNIZED`/`not_found_in_db`; a known card echoes its athlete and its memberships sorted and permuted |
| AccessEngine.LogRowAthlete | lib/access/validateCardAccess.ts:221-227 | the log row names an athlete exactly when a card matched, and carries the card uid looked up |
| AccessEngine.ResponseOf | lib/access/validateCardAccess.ts:239-251 | `ok` is true exactly when the result is `allowed` |
| AccessEngine.Reply | lib/access/validateCardAccess.ts:62-252 | a reply exists exactly when every store query answers and the insert succeeds; otherwise it is the lookup's error or, after a good lookup, the insert's message; it carries the new row's id, the normalised uid (the card uid when none is given), `ok` exactly for `allowed`, unknown_card exactly when no active card has the uid, and for a found card the decision over its athlete's memberships |
| AccessEngine.AppendedRows | lib/access/validateCardAccess.ts:221-237 | at most one row is appended, exactly when every store query answers and the insert succeeds; it has the card uid and the timestamp, unknown_card exactly when no card is found, and for a found card its athlete and the decision over that athlete's memberships |
| AccessEngine.QueryFaultsRaised | lib/access/validateCardAccess.ts:46-158 | missing configuration, a failed card query, two active cards with the uid and a failed membership query each give an error with its own message and append no row |
| AccessEngine.ReplyMatchesRow | lib/access/validateCardAccess.ts:221-251 | the reply and the appended row report the same result and name an athlete together; `unknown_card` exactly with `UNRECOGNIZED` |
| AccessEngine.ValidateCardAccess | lib/access/validateCardAccess.ts:62-252 | the reply is the specified reply and the access log grows by exactly the specified rows, so a store failure is raised with its message and writes no row, and an answered request writes exactly one |
| AccessRoute.RouteDecide | app/api/access/validate/route.ts:126-154 | a reported membership is one of the inputs |
| AccessRoute.RouteDecideCases | app/api/access/validate/route.ts:126-154 | `allowed` exactly when a membership whose status is exactly "active" (or missing) covers today; otherwise `expired` exactly when such a membership ended before today, reporting the latest end; `denied` exactly when none is reported |
| AccessRoute.SameStatusTests | app/api/access/validate/route.ts:126 | for a lower-case status other than `sold`, the route's exact test and the engine's case-folding test agree, and the engine sees no sold row |
| AccessRoute.AgreeWhenExpired | app/api/access/validate/route.ts:139-150 | where both tests agree, a route `expired` is an engine `expired` |
| AccessRoute.AgreeWhenDenied | app/api/access/validate/route.ts:151-154 | where both tests agree, a route `denied` is an engine `denied` |
| AccessRoute.AgreeOnAllowed | app/api/access/validate/route.ts:127-138 | where both tests agree, the route allows exactly when the engine does |
| AccessRoute.AgreesWithEngine | app/api/access/validate/route.ts:126-154 | when every status is lower-case and none is `sold`, the route and the engine decide the same result |
| AccessRoute.Shown | app/api/access/validate/route.ts:53-54 | a uid is shown as itself, and an empty one as "(vacío)" |
| AccessRoute.NoteEndsWithUid | app/api/access/validate/route.ts:137-153 | for every outcome of a known card, the note ends with the normalised-uid tail naming the shown cleaned uid |
| AccessRoute.Post | app/api/access/validate/route.ts:45-189 | missing configuration gives 500; an empty cleaned uid gives 400 `cardUID requerido` and no row; a failed card query gives 500 with its message, a second matching active card 500 with the multiple-rows message, and a failed membership query for a found card 500 with its message, each with no row; otherwise exactly one row is appended; a failed insert gives 500 with result and uid; success is 200 with `ok` exactly for `allowed`; any non-200 answer leaves the log unchanged |
| KioskRead.Screen | app/api/kiosk/read/route.ts:17-58 | empty exactly for an empty normalised uid; well formed exactly when the format check passes, with a non-empty canonical uid; otherwise malformed with the check's issue |
| KioskRead.KioskOutcome | app/api/kiosk/read/route.ts:14-76 | exactly two card events are emitted, and the first is the READ event of the input |
| KioskRead.KioskOutcomeCases | app/api/kiosk/read/route.ts:14-76 | READ comes first, with status OK exactly for a non-empty normalised uid; 400 exactly for an empty one (`empty_value`); 422 exactly for a format issue, with the digits-only or the length message; 200 or 500 only after both checks, as the engine answers or fails; the VALIDATE event is UNRECOGNIZED exactly when the validation is or the card is unknown; an engine failure logs ERROR with its message |
| KioskRead.EngineEvent | app/api/kiosk/read/route.ts:60-68 | for a well-formed uid, the VALIDATE event is UNRECOGNIZED exactly when the engine reports `unknown_card`; it names the normalised uid, and the engine's log row names the canonical one |
| KioskRead.EngineUnused | app/api/kiosk/read/route.ts:22-58 | an input rejected by either check gets the same outcome whatever the engine would have answered |
| KioskRead.Reject | app/api/kiosk/read/route.ts:22-58 | a rejected input gets the specified reply, and its VALIDATE event is appended to the card log |
| KioskRead.AskEngine | app/api/kiosk/read/route.ts:60-75 | a well-formed input is passed to the engine with the canonical, raw and normalised uids; the reply, the card event and the access-log growth are the specified ones |
| KioskRead.Post | app/api/kiosk/read/route.ts:14-76 | the reply is the specified outcome; the card log gets the READ and the VALIDATE events in that order; the access log grows only when both checks pass |
| CardLogger.CardText | lib/logging/cardLogger.ts:46 | the card is the trimmed number, or `<unknown-card>` (the constant of cardLogger.ts:5) when that is blank; never empty and never padded |
| CardLogger.DetailsShape | lib/logging/cardLogger.ts:47 | the details are never empty and never padded, their only whitespace is single spaces, and no two whitespace characters are adjacent |
| CardLogger.CleanDetailsKept | lib/logging/cardLogger.ts:47 | details without whitespace are kept as they are |
| CardLogger.Logged | lib/logging/cardLogger.ts:34-52 | when disabled nothing changes; otherwise the event's line is appended to the file of its day and every other file is unchanged |
| CardLogger.LogCardEvent | lib/logging/cardLogger.ts:34-52 | the log directory becomes the specified one |
| DailyLog.Pad | lib/logging/cardLogger.ts:8-10 | the text is all digits with at least two characters, denotes the value, and has exactly two characters below 100 |
| DailyLog.DateOf | lib/logging/cardLogger.ts:21 | a date with a four-digit year is written in 10 characters |
| DailyLog.TimeOf | lib/logging/cardLogger.ts:22 | a time of day is written in 8 characters |
| DailyLog.DateFields | lib/logging/cardLogger.ts:21 | the date text holds the year, then the zero-padded month and day at fixed places |
| DailyLog.DateOfInjective | lib/logging/cardLogger.ts:21 | two dates with four-digit years are written alike only when they are the same date |
| DailyLog.SameFileIffSameDay | lib/logging/cardLogger.ts:50 | two instants go to the same file exactly when they fall on the same day |
| DailyLog.FileText | lib/logging/cardLogger.ts:51 | an empty file has no text; any other ends with a newline |
| DailyLog.FileTextJoin | lib/logging/cardLogger.ts:51 | a file holds its entries joined by newlines, with a final newline |
| DailyLog.Appended | lib/logging/cardLogger.ts:51 | appending adds the line to the end of the named file only, creating the file when missing |
| DailyLog.AppendedText | lib/logging/cardLogger.ts:51 | the file's text grows by the line and a newline |
| DailyLog.TwoAppends | lib/logger.ts:147 | two appends on the same day leave the earlier text, then both lines in order |
| DailyLog.LogDirectory.Append | lib/logging/cardLogger.ts:51 | the directory becomes the one with the line appended |
| ApiLogger.IsLoggingEnabled | lib/logger.ts:42-46 | logging is on exactly when the flag is present and, lower-cased, equals "true"; the card logger reads the flag the same way |
| ApiLogger.LogDirSetting | lib/logger.ts:48-54 | a custom directory is used exactly when it is not blank after trimming |
| ApiLogger.SanitizeDetails | lib/logger.ts:78-80 | the result is never padded, and details without line breaks are only trimmed |
| ApiLogger.SanitizedHasNoBreak | lib/logger.ts:78-80 | the sanitised details contain no CR or LF |
| ApiLogger.SanitizeIdempotent | lib/logger.ts:78-80 | sanitising twice equals sanitising once |
| ApiLogger.RequestMethod | lib/logger.ts:82-85 | the method is never empty and never lower-case; a present method is upper-cased, and a missing one is "UNKNOWN" |
| ApiLogger.RequestPath | lib/logger.ts:87-98 | the framework's path name first, then the parsed URL's path name, else "/unknown" |
| ApiLogger.ActionLogged | lib/logger.ts:135-151 | when disabled or when the write fails, nothing changes; otherwise the entry's line is appended to the file of its day and every other file is unchanged |
| ApiLogger.LogApiAction | lib/logger.ts:135-151 | the log directory becomes the specified one, and a write failure is swallowed |
| ApiLogger.ExtractStatusCode | lib/logger.ts:153-164 | an object's numeric `status` is the code; anything else gives 500 |
| ApiLogger.SuccessDetail | lib/logger.ts:100-116 | a callback's result (its text, or what it throws) wins, and only a callback can throw; a non-empty fixed text is used as it is; otherwise the default names success or the status, and the duration |
| ApiLogger.ErrorDetail | lib/logger.ts:118-133 | a callback's result (its text, or what it throws) wins; otherwise "Error after <n>ms: " and the error's message |
| ApiLogger.Caught | lib/logger.ts:172-192 | the error reaching the catch block is the handler's own, or, for a returned response, exactly the error its success-detail callback throws; none when the success detail is resolved |
| ApiLogger.EntryFor | lib/logger.ts:166-211 | the entry carries the request's method and path; a resolved response logs its status and success detail; a caught error logs its extracted status and error detail, and nothing is logged exactly when the error-detail callback throws |
| ApiLogger.WithApiLogging | lib/logger.ts:166-211 | the handler's outcome passes through when the callbacks called return; a throwing success-detail callback makes the wrapper throw that error; a throwing error-detail callback replaces the error and leaves the log unchanged; otherwise exactly the specified entry is logged |
| MembershipStatus.EffectiveTimeZone | lib/memberships/status.ts:19 | the option's time zone, else the environment's, else "UTC" |
| MembershipStatus.Expire | lib/memberships/status.ts:32-37 | a matching row only has its status set to `expired`; any other row is unchanged |
| MembershipStatus.Activate | lib/memberships/status.ts:43-49 | a matching row only has its status set to `active`; any other row is unchanged |
| MembershipStatus.ExpireAll | lib/memberships/status.ts:32-37 | the expire update applies to each row independently and keeps the table's length |
| MembershipStatus.ActivateAll | lib/memberships/status.ts:43-49 | the activate update applies to each row independently and keeps the table's length |
| MembershipStatus.CountToExpire | lib/memberships/status.ts:59 | the expire count is at most the table's size |
| MembershipStatus.CountToActivate | lib/memberships/status.ts:60 | the activate count is at most the table's size |
| MembershipStatus.CountToExpireZero | lib/memberships/status.ts:32-37 | the expire count is zero exactly when no row matches |
| MembershipStatus.CountToActivateZero | lib/memberships/status.ts:43-49 | the activate count is zero exactly when no row matches |
| MembershipStatus.DisjointUpdates | lib/memberships/status.ts:32-49 | no row is changed by both updates, and a row the activate update matches was left alone by the expire update |
| MembershipStatus.RunSettles | lib/memberships/status.ts:32-49 | after a run, no active or sold row has ended before today, and no expired or sold row covers today |
| MembershipStatus.RunIdempotent | lib/memberships/status.ts:32-49 | a second run on the same date marks no row and changes nothing |
| MembershipStatus.ExpireLapsed | lib/memberships/status.ts:32-41 | the table becomes the expired table, and the count is the number of rows matched |
| MembershipStatus.ActivateCurrent | lib/memberships/status.ts:43-53 | the table becomes the activated table, and the count is the number of rows matched |
| MembershipStatus.RefreshReply | lib/memberships/status.ts:27-62 | a failed expire update is reported first, then a failed activate update, and with neither a report is given; a report carries the reference date, the day and time zone used, `markedExpired` as the number of lapsed rows the expire step updates and `markedActive` as the number of current rows the activate step then updates |
| MembershipStatus.RefreshedRows | lib/memberships/status.ts:27-62 | a run changes no field but the status, and keeps the table's length |
| MembershipStatus.RefreshMembershipStatuses | lib/memberships/status.ts:27-62 | expire runs before activate; the reply and the table are the specified ones, so a failed expire leaves the table as it was and activate never runs |
| CronRoute.BearerValue | app/api/cron/memberships/status/route.ts:13-14 | a bearer value is non-empty and has no space |
| CronRoute.ExtractToken | app/api/cron/memberships/status/route.ts:10-31 | no token exactly when there is no usable bearer value, no non-empty secret header, and no non-empty `token` (or `secret` when `token` is absent) |
| CronRoute.BearerWins | app/api/cron/memberships/status/route.ts:11-16 | `Bearer <v>`, with the scheme in any letter case, wins over every other source, trimmed |
| CronRoute.EmptyTokenHidesSecret | app/api/cron/memberships/status/route.ts:25-28 | an empty `token` parameter hides `secret`: no token is found |
| CronRoute.ExpectedSecret | app/api/cron/memberships/status/route.ts:34 | the status job's secret, else the general cron secret, else "" |
| CronRoute.Gate | app/api/cron/memberships/status/route.ts:33-48 | an empty secret gives 500 before any token check; otherwise the job runs exactly when the token equals the secret, and any other case is 401 |
| CronRoute.Handler | app/api/cron/memberships/status/route.ts:33-65 | a refused request leaves the table unchanged; an accepted one runs the refresher with no options and answers with its result or its error |
| ChileTime.Shifted | lib/chileTime.ts:40 | the shifted instant is the instant plus the offset in minutes |
| ChileTime.OffsetIgnoresInstant | lib/chileTime.ts:67-71 | with a numeric override, the offset is the override for every instant |
| ChileTime.OffsetToStringShape | lib/chileTime.ts:85-91 | the sign is '-' for an offset of at most 0 and '+' otherwise; then floor(abs/60) hours and abs mod 60 minutes, zero-padded, separated by ':' |
| ChileTime.DateNumbers | lib/chileTime.ts:115 | one number per dash-separated part |
| ChileTime.ChileMidnight | lib/chileTime.ts:120-123 | the instant is UTC midnight of the date, less the offset |
| ChileTime.FromChileDateOnlyCases | lib/chileTime.ts:114-124 | an error exactly when a part is not a number, with the message naming the text; otherwise the local midnight of the first three parts; an Invalid Date when a part is missing |
| ChileTime.IsoText | lib/chileTime.ts:97 | the ISO text starts with its date part |
| ChileTime.Prefix | lib/chileTime.ts:101 | the prefix is the first n characters, or all of a shorter text |
| ChileTime.DayEndFrom | lib/chileTime.ts:109-112 | an error is passed on; otherwise the end is the start plus one day minus 1 ms, when that is a valid time |
| ChileTime.IsoOf | lib/chileTime.ts:127-128 | an error is passed on, and an Invalid Date raises a range error |
| ChileTime.ChileDateRange | lib/chileTime.ts:126-130 | each absent or empty bound is null; a given `from` is the ISO text of its local midnight; a given `to` is the ISO text of the end of its local day; the range fails exactly when a given bound cannot be converted, with the `from` error reported first |
| ChileTime.ToDateCases | lib/chileTime.ts:7-13 | a Date is copied, and a `YYYY-MM-DD` string is read as a Chile date |
| ChileTime.ChileDateStringIsPrefix | lib/chileTime.ts:100-107 | the date string is a prefix of at most 10 characters of the ISO string, and the start of day is the local midnight of that date string |
| ChileTime.DateOnlySplit | lib/chileTime.ts:115 | a `YYYY-MM-DD` text splits into its year, month and day parts |
| ChileTime.DateOnlyNumbers | lib/chileTime.ts:115-118 | a `YYYY-MM-DD` text gives three numbers, none NaN: its year, month and day |
| ChileTime.DateTextShape | lib/chileTime.ts:42-44 | a date's text is a zero-padded 4-digit year and 2-digit month and day joined by dashes, and it matches the date-only pattern |
| ChileTime.DashedShape | lib/chileTime.ts:9 | three digit groups of widths 4, 2 and 2 joined by dashes match the date-only pattern and can be read back |
| ChileTime.DateOnlyFields | lib/chileTime.ts:9 | the fields read from a date-only text are within four and two digits |
| ChileTime.DateOnlyFieldsDetermine | lib/chileTime.ts:9 | two date-only texts with the same fields are equal |
| ChileTime.MidnightOfValid | lib/chileTime.ts:120-123 | for a valid date, the local midnight is the day number in milliseconds less the offset |
| ChileTime.UtcMidnight | lib/chileTime.ts:122 | UTC midnight of a valid date is its day number times one day |
| ChileTime.FromDateFields | lib/chileTime.ts:114-124 | a valid date-only text gives the local midnight of its date |
| ChileTime.MidnightOfFields | lib/chileTime.ts:120-123 | the local midnight of valid fields is the day number in milliseconds less the offset |
| ChileTime.DateOnlyMidnight | lib/chileTime.ts:114-124 | a date-only text gives the local midnight of its fields |
| ChileTime.FromThreeNumbers | lib/chileTime.ts:114-124 | three numeric parts give the local midnight of those numbers |
| ChileTime.DayBounds | lib/chileTime.ts:120-122 | the day number of a date with a four-digit year lies in a fixed range |
| ChileTime.LocalDateFields | lib/chileTime.ts:39-49 | the local date string of an instant within a local day is a date-only text naming that day |
| ChileTime.DateTextFields | lib/chileTime.ts:42-44 | a date's text reads back as that date |
| ChileTime.DateOnlyRoundTrip | lib/chileTime.ts:100-124 | under an override, the date string of a valid date-only text with a year of 100 or more is the text itself |
| ChileTime.TwoDigitYearShift | lib/chileTime.ts:120-122 | a date-only text with a year below 100 comes back with 1900 added to its year, and the same month and day |
| ChileTime.SameMonthDay | lib/chileTime.ts:9 | date-only texts with the same month and day agree after the year |
| ChileTime.DateOnlyInstant | lib/chileTime.ts:7-13 | a date-only string denotes the local midnight of its date |
| ChileTime.DateOnlyToDate | lib/chileTime.ts:9-11 | a date-only string denotes what reading it as a Chile date gives |
| ChileTime.DateStringOfInput | lib/chileTime.ts:100-102 | the date string of an input is the local date of the instant it denotes |
| ChileTime.LocalDateOf | lib/chileTime.ts:39-49 | an instant within a local day has that day's text as its date string |
| ChileTime.PadIntNat | lib/chileTime.ts:42-48 | padding a non-negative number as a JavaScript number or as a natural gives the same text |
| ChileTime.DayContainsInstant | lib/chileTime.ts:104-107 | the start of an instant's local day is that day's local midnight, at most the instant and less than one day before it |
| ChileTime.EndFromStart | lib/chileTime.ts:109-112 | the end of a day is its start plus one day minus 1 ms |
| ChileTime.StartOfLocalDay | lib/chileTime.ts:104-107 | the start of an instant's local day is that day's local midnight |
| ChileTime.StartOfDateOnly | lib/chileTime.ts:114-124 | a valid date-only text gives its local midnight |
| Calendar.YearStartStep | lib/chileTime.ts:120-122 | each year starts one year length after the one before |
| Calendar.YearStartMonotonic | lib/chileTime.ts:120-122 | later years start later, by at least 365 days |
| Calendar.FindYear | lib/chileTime.ts:42 | the year found is the one whose span contains the day |
| Calendar.FindMonth | lib/chileTime.ts:43 | the month found is the one whose span contains the day of the year |
| Calendar.CivilFromDays | lib/chileTime.ts:42-44 | every day number gives a valid date that maps back to it |
| Calendar.YearUnique | lib/chileTime.ts:42 | a day number lies in only one year |
| Calendar.MonthUnique | lib/chileTime.ts:43-44 | a day of the year lies in only one month and day |
| Calendar.DayInYear | lib/chileTime.ts:42-44 | a valid date's day number lies within its year |
| Calendar.CivilRoundTrip | lib/chileTime.ts:42-44 | converting a valid date to its day number and back gives the date |
| Calendar.MakeDayOfValid | lib/chileTime.ts:122 | `Date.UTC` of a valid date gives its day number |
| Calendar.UtcPartsOf | lib/chileTime.ts:42-48 | the UTC fields of an instant form a valid date and time of day |
| Calendar.UtcDateOfDayStart | lib/chileTime.ts:42-44 | the UTC date of a day's midnight is that day |
| Calendar.ToIsoString | app/api/admin/reports/memberships/expiring/route.ts:21 | the ISO text exists exactly for a valid time value, and it has at least 24 characters |
| JsNumber.SignedDigits | lib/chileTime.ts:115 | the decimal-integer part of `Number()`: a digit string reads as its value, and a text it reads starts with a digit or a sign |
| JsNumber.ToNumber | lib/chileTime.ts:115 | blank text is 0; trimmed decimal digits read as their value; a `0x`/`0o`/`0b` literal reads in its base; a sign followed by anything but digits is NaN; every text the model reads starts with a digit or a sign |
| JsNumber.ToNumberRadix | lib/chileTime.ts:115 | a radix literal has no surrounding space and reads as its value in its base |
| JsNumber.RadixValueDecimal | lib/chileTime.ts:115 | decimal digits read in base 10 give the decimal value |
| JsNumber.ToNumberHex | lib/chileTime.ts:115 | `0x10` is 16 and `0X7E8` is 2024 |
| JsNumber.ToNumberOctalBinary | lib/chileTime.ts:115 | `0o17` is 15 and `0b101` is 5 |
| JsNumber.ToNumberRadixNaN | lib/chileTime.ts:115 | `-0x10`, `0x` and `0b2` are NaN |
| JsNumber.ToNumberTrim | lib/chileTime.ts:115 | surrounding whitespace does not change the number |
| JsNumber.ToNumberDigits | lib/chileTime.ts:115 | a digit string reads as its value |
| JsNumber.ToNumberPadNat | lib/chileTime.ts:115 | a zero-padded natural reads back as itself |
| JsNumber.DigitPrefix | app/api/admin/reports/memberships/expiring/route.ts:7 | the longest digit prefix: it is all digits and ends before a non-digit or at the end |
| JsNumber.ParseInt | app/api/admin/reports/memberships/expiring/route.ts:7 | a number is read exactly when the text, after leading whitespace, starts with a digit or a sign followed by a digit |
| JsNumber.ParseIntDigits | app/api/admin/reports/memberships/expiring/route.ts:7 | a digit string reads as its value |
| JsNumber.ParseIntStopsAtNonDigit | app/api/admin/reports/memberships/expiring/route.ts:7 | reading stops at the first non-digit |
| JsNumber.DigitPrefixStops | app/api/admin/reports/memberships/expiring/route.ts:7 | the digit prefix of digits followed by a non-digit is those digits |
| Roles.NormalizedWellFormed | lib/auth/roles.ts:13-15 | a value that is not blank becomes a trimmed, lower-case, non-empty role |
| Roles.ItemRolesWellFormed | lib/auth/roles.ts:16-20 | every role an array value contributes is trimmed, lower-case and non-empty |
| Roles.UserRoles | lib/auth/roles.ts:30-44 | a missing user has no role; a user's roles are the union of both metadata sources |
| Roles.ValueRolesWellFormed | lib/auth/roles.ts:12-21 | every role a metadata value contributes is well formed |
| Roles.SourceRolesWellFormed | lib/auth/roles.ts:3-28 | every role a metadata source contributes is well formed |
| Roles.UserRolesWellFormed | lib/auth/roles.ts:30-44 | every role of a user is well formed |
| Roles.PushValue | lib/auth/roles.ts:12-21 | the collected set grows by exactly the value's roles |
| Roles.PushItems | lib/auth/roles.ts:16-20 | the collected set grows by exactly the roles of the array's items |
| Roles.CollectRoles | lib/auth/roles.ts:3-28 | the set collected is exactly the source's roles from `role`, `roles` and `permissions`; missing metadata gives none |
| Roles.AddAll | lib/auth/roles.ts:40-41 | the set grows by exactly the added roles |
| Roles.GetUserRoles | lib/auth/roles.ts:30-44 | the set returned is exactly the user's roles |
| Roles.UserHasRole | lib/auth/roles.ts:46-56 | true exactly when some required role, lower-cased, is among the user's roles; false for an empty list or a missing user |
| Roles.PaddedRoleGrants | lib/auth/roles.ts:13-15 | a padded " Admin " role satisfies a required "ADMIN" |
| Middleware.SessionRole | middleware.ts:43-48 | the app metadata's string role, else the user metadata's, lower-cased; no role otherwise |
| Middleware.Guard | middleware.ts:5-62 | a request passes exactly when its path is unguarded, or there is a session whose role suits the section; a refusal without a session goes to login with its own path, and one with a session with the section's entry path |
| Middleware.PrefixGuardsSiblings | middleware.ts:8-9 | the guard function, were it invoked on "/administrator", would redirect it like an admin page; the matcher at middleware.ts:66-68 never invokes it there |
| Middleware.GuardAdminHasRole | middleware.ts:50-54 | whoever the guard lets into an admin page holds the admin role |
| Middleware.PaddedAdminRefused | middleware.ts:43-54 | a padded " Admin " role is refused by the guard, though the role check accepts it |
| Csv.DoubleQuotes | lib/csv.ts:9 | the result is never shorter, and a text without quotes is unchanged |
| Csv.Cell | lib/csv.ts:6-12 | a cell needing no quotes is emitted as it is, null as ""; otherwise it is wrapped in quotes |
| Csv.ToCsv | lib/csv.ts:1-18 | the BOM is prepended unless it is disabled, followed by the content |
| Csv.PlainCell | lib/csv.ts:11 | an unquoted cell stops at a comma, a line feed or the end |
| Csv.QuotedBodyOfDoubled | lib/csv.ts:9 | a quoted body with its quotes doubled reads back as the original text |
| Csv.PlainCellOf | lib/csv.ts:11 | a cell without a comma or a line feed reads back as itself |
| Csv.QuotedCellReads | lib/csv.ts:8-9 | a quoted, doubled cell reads back as its value |
| Csv.PlainCellReads | lib/csv.ts:11 | a cell needing no quotes reads back as its value |
| Csv.CellRoundTrip | lib/csv.ts:6-12 | every escaped cell reads back as its value, null as "" |
| Csv.RowRoundTrip | lib/csv.ts:4-13 | a row joined with commas reads back as its cells' values |
| Csv.ContentRoundTrip | lib/csv.ts:3-15 | rows joined with line feeds read back as every row's values |
| Csv.CarriageReturnUnquoted | lib/csv.ts:8 | a lone carriage return does not trigger quoting |
| SummaryReport.Ym | app/api/admin/reports/summary/route.ts:39-42 | the period is the local date string cut to at most 7 characters |
| SummaryReport.YmOfLocalDay | app/api/admin/reports/summary/route.ts:39-42 | a date whose instant lies on local day c (years 0 to 9999) falls in period `YYYY-MM` of c |
| SummaryReport.AccessKindAsWritten | app/api/admin/reports/summary/route.ts:90-101 | as written: a result named like an inherited object member selects no counter |
| SummaryReport.PrototypeResultCountsNowhere | app/api/admin/reports/summary/route.ts:100 | "constructor" selects no counter as written; the corrected mapping counts it as unknown |
| SummaryReport.AccessKind | app/api/admin/reports/summary/route.ts:90-101 | ok exactly for `allowed`; not ok exactly for `denied` and `expired`; unknown for anything else, a missing result included |
| SummaryReport.AccessTicks | app/api/admin/reports/summary/route.ts:97-102 | one tick per access log |
| SummaryReport.AthleteTicks | app/api/admin/reports/summary/route.ts:104 | one tick per athlete |
| SummaryReport.MembershipTicks | app/api/admin/reports/summary/route.ts:106-109 | one tick per membership |
| SummaryReport.Count | app/api/admin/reports/summary/route.ts:97-109 | a counter never exceeds the number of rows |
| SummaryReport.CountOutside | app/api/admin/reports/summary/route.ts:76-88 | a period that no row falls in counts zero |
| SummaryReport.PeriodsSnoc | app/api/admin/reports/summary/route.ts:76-88 | each row adds its own period |
| SummaryReport.TallyMeaning | app/api/admin/reports/summary/route.ts:75-109 | the dictionary holds a row for exactly the periods rows fell in, and each row's counters count that period's rows of each kind |
| SummaryReport.OneCounterPerAccess | app/api/admin/reports/summary/route.ts:97-102 | each access log lands in its month and on exactly one of the three access counters |
| SummaryReport.OccursOnce | app/api/admin/reports/summary/route.ts:111 | in a list without repeats, a period occurs once or not at all |
| SummaryReport.SumOverSnoc | app/api/admin/reports/summary/route.ts:97-102 | a further row adds one to its own period's counter |
| SummaryReport.SumOverAll | app/api/admin/reports/summary/route.ts:97-111 | summing over all periods, each once, counts every row of the kind |
| SummaryReport.SumOverEmpty | app/api/admin/reports/summary/route.ts:97-111 | no rows sum to zero |
| SummaryReport.CountKindAppend | app/api/admin/reports/summary/route.ts:97-109 | kind counts add over concatenation |
| SummaryReport.CountKindNone | app/api/admin/reports/summary/route.ts:97-109 | a kind no row has counts zero |
| SummaryReport.AccessKindsCover | app/api/admin/reports/summary/route.ts:97-102 | rows that are all accesses are counted once among the three access counters |
| SummaryReport.AccessTotalOfRows | app/api/admin/reports/summary/route.ts:97-111 | the access total of the rows is the sum of the three counters over their periods |
| SummaryReport.RowsCoverPeriods | app/api/admin/reports/summary/route.ts:75-111 | a summary's periods have no repeats and include every row's period |
| SummaryReport.AccessCountsOfPrefix | app/api/admin/reports/summary/route.ts:97-109 | access rows followed by non-access rows give the number of access rows as the access total |
| SummaryReport.AccessTickTotal | app/api/admin/reports/summary/route.ts:97-109 | the three access counters together count every access log once |
| SummaryReport.AccessTotalsMatch | app/api/admin/reports/summary/route.ts:97-111 | in the final table, ok + not ok + unknown over all rows equals the number of access logs |
| SummaryReport.InsertRow | app/api/admin/reports/summary/route.ts:111 | inserting a new period keeps the rows ascending, and adds exactly that row and that period |
| SummaryReport.InsertedAscending | app/api/admin/reports/summary/route.ts:111 | inserting at the first later period keeps the order |
| SummaryReport.InsertedPeriods | app/api/admin/reports/summary/route.ts:111 | an insertion adds exactly one row and its period |
| SummaryReport.PeriodSetOfElements | app/api/admin/reports/summary/route.ts:111 | the periods of the rows are those of their elements |
| SummaryReport.SortedRows | app/api/admin/reports/summary/route.ts:111 | the dictionary's values come out ascending by period, one per key, each the dictionary's row |
| SummaryReport.RowsOfGrown | app/api/admin/reports/summary/route.ts:111 | adding a dictionary row keeps every row a dictionary value |
| SummaryReport.TallyStep | app/api/admin/reports/summary/route.ts:97-109 | one more row updates the dictionary by one lazy ensure and increment |
| SummaryReport.TallyEnds | app/api/admin/reports/summary/route.ts:97-109 | the loop starts with nothing added and ends with every row added |
| SummaryReport.CountAccess | app/api/admin/reports/summary/route.ts:98-101 | one access log creates its period if needed and bumps its counter |
| SummaryReport.TallyAccesses | app/api/admin/reports/summary/route.ts:97-102 | the access loop adds every access log to the dictionary |
| SummaryReport.CountNewAthlete | app/api/admin/reports/summary/route.ts:104 | one athlete creates its period if needed and bumps `nuevos_socios` |
| SummaryReport.CountMembership | app/api/admin/reports/summary/route.ts:107-108 | one membership creates its period, and bumps the counter only when it is not active |
| SummaryReport.TallyAthletes | app/api/admin/reports/summary/route.ts:104 | the athlete loop adds every athlete |
| SummaryReport.TallyMemberships | app/api/admin/reports/summary/route.ts:106-109 | the membership loop adds every membership |
| SummaryReport.Summarize | app/api/admin/reports/summary/route.ts:75-111 | the rows returned are the summary of all fetched rows |
| SummaryReport.SummaryCsvReadsBack | app/api/admin/reports/summary/route.ts:18-30 | the non-empty table reads back as the header and every row's values |
| SummaryReport.QuotedReadsBack | app/api/admin/reports/summary/route.ts:124 | the quoted error message reads back as the message |
| SummaryReport.ErrorLineReadsBack | app/api/admin/reports/summary/route.ts:124 | the error line reads back as "true" and the message |
| SummaryReport.ErrorHeaderReadsBack | app/api/admin/reports/summary/route.ts:124 | the error header reads back as its two names |
| SummaryReport.ErrorCsvReadsBack | app/api/admin/reports/summary/route.ts:122-128 | every error message, however quoted, reads back exactly from the error table |
| SummaryReport.FileName | app/api/admin/reports/summary/route.ts:112 | the download's name starts with `reporte_resumen_mensual` and ends with `.csv`; without bounds it is exactly `reporte_resumen_mensual.csv` |
| SummaryReport.Get | app/api/admin/reports/summary/route.ts:45-129 | a failed range or query gives the error table with its message, checked in the source's order; otherwise the file, named after the bounds, holds the BOM and the summary's table |
| MembershipsReport.Limit | app/api/admin/reports/memberships/route.ts:52 | the limit is at most 50000; a missing, NaN or zero parameter gives 10000; any other number is capped at 50000 |
| MembershipsReport.LimitOfDigits | app/api/admin/reports/memberships/route.ts:52 | a digit parameter gives its value, 10000 for zero, capped at 50000 |
| MembershipsReport.MovementOf | app/api/admin/reports/memberships/route.ts:82-97 | never `Otro`; `Nueva` exactly for the first membership; a different plan or a missing date gives a plan change; an error only comes from reading the dates |
| MembershipsReport.RenewalMeaning | app/api/admin/reports/memberships/route.ts:85-94 | a renewal exactly when the plan is the same and the new start is one local day after the previous end's day |
| MembershipsReport.RowFor | app/api/admin/reports/memberships/route.ts:82-111 | the row carries the movement, the new plan, the previous plan, the status shown (missing as `active`), and `Activa` exactly for an `active` status |
| MembershipsReport.RowsOf | app/api/admin/reports/memberships/route.ts:80-113 | one result per membership of an athlete |
| MembershipsReport.CollectStep | app/api/admin/reports/memberships/route.ts:81-113 | one more membership either raises its error or adds its row |
| MembershipsReport.CollectErrorSticks | app/api/admin/reports/memberships/route.ts:81-113 | once an error is raised, later memberships do not change it |
| MembershipsReport.CollectMeaning | app/api/admin/reports/memberships/route.ts:81-113 | success exactly when every row succeeds, and then the rows come in order; an error is the first failing row's |
| MembershipsReport.ClassifiedRows | app/api/admin/reports/memberships/route.ts:80-113 | each membership's row is classified against the membership before it |
| MembershipsReport.ClassifiedMovements | app/api/admin/reports/memberships/route.ts:80-113 | an athlete's first row is `Nueva` with no previous plan; each later one names the previous plan and is a renewal or a plan change |
| MembershipsReport.ClassifiedFields | app/api/admin/reports/memberships/route.ts:99-111 | each row copies its membership's plan and status, and the `estado_actual` follows the status |
| MembershipsReport.ClassifiedFails | app/api/admin/reports/memberships/route.ts:85-94 | a failure comes from a later same-plan membership whose dates had to be read |
| MembershipsReport.BuildRow | app/api/admin/reports/memberships/route.ts:82-111 | the row built is the specified row |
| MembershipsReport.ClassifyAthlete | app/api/admin/reports/memberships/route.ts:80-113 | the athlete's loop, with `prev` moved along, gives the specified rows |
| MembershipsReport.GroupStep | app/api/admin/reports/memberships/route.ts:71-75 | one more membership adds its athlete at the end of the key order when new, and goes to the end of its athlete's list |
| MembershipsReport.UnlistedHasNone | app/api/admin/reports/memberships/route.ts:70-75 | an athlete not among the keys has no membership |
| MembershipsReport.AthleteOrderDistinct | app/api/admin/reports/memberships/route.ts:70-78 | each athlete key appears once |
| MembershipsReport.AthleteOrderListsOwners | app/api/admin/reports/memberships/route.ts:70-78 | the keys are exactly the athletes that own a fetched membership |
| MembershipsReport.Push | app/api/admin/reports/memberships/route.ts:72-74 | the grouping stays exact after one more membership |
| MembershipsReport.GroupByAthlete | app/api/admin/reports/memberships/route.ts:70-75 | the keys come in first-appearance order, and each athlete's list is its memberships in fetch order |
| MembershipsReport.ConcatStep | app/api/admin/reports/memberships/route.ts:78-114 | one more athlete either raises its error or adds its rows |
| MembershipsReport.ConcatErrorSticks | app/api/admin/reports/memberships/route.ts:78-114 | an error stops the rows of later athletes |
| MembershipsReport.ClassifyAll | app/api/admin/reports/memberships/route.ts:77-114 | the nested loop gives the specified rows, or the first error |
| MembershipsReport.ConcatSize | app/api/admin/reports/memberships/route.ts:78-114 | the rows number the memberships of the athletes visited |
| MembershipsReport.GroupSizesSnoc | app/api/admin/reports/memberships/route.ts:70-75 | one more membership adds one to its athlete's group |
| MembershipsReport.GroupsCoverAll | app/api/admin/reports/memberships/route.ts:70-78 | the groups together hold every fetched membership |
| MembershipsReport.OneRowPerMembership | app/api/admin/reports/memberships/route.ts:70-114 | every fetched membership yields exactly one row |
| MembershipsReport.WithKeyAppend | app/api/admin/reports/memberships/route.ts:117-121 | the rows with one key split over concatenation |
| MembershipsReport.WithKeyNone | app/api/admin/reports/memberships/route.ts:117-121 | rows with smaller keys hold none with a given key |
| MembershipsReport.InsertByKeyKeeps | app/api/admin/reports/memberships/route.ts:117-121 | one insertion adds exactly the inserted row |
| MembershipsReport.InsertByKeyBounded | app/api/admin/reports/memberships/route.ts:117-121 | insertion keeps every key under a common bound |
| MembershipsReport.InsertByKeySorted | app/api/admin/reports/memberships/route.ts:117-121 | inserting keeps the rows newest first |
| MembershipsReport.InsertByKeyStable | app/api/admin/reports/memberships/route.ts:117-121 | the inserted row goes after the rows with its key: insertion is stable |
| MembershipsReport.SortNewestFirstFacts | app/api/admin/reports/memberships/route.ts:117-121 | the final rows are newest first by creation (missing as 0), a permutation of the input, and keep the input order among equal keys |
| MembershipsReport.MembershipsCsvReadsBack | app/api/admin/reports/memberships/route.ts:23-35 | the non-empty table reads back as the header and every row's values |
| MembershipsReport.FileName | app/api/admin/reports/memberships/route.ts:124 | the download's name starts with `reporte_membresias` and ends with `_<date field>.csv` |
| MembershipsReport.Get | app/api/admin/reports/memberships/route.ts:45-140 | the query uses the date field, the range and the clamped limit; a failed range, query or date reading gives the error table; otherwise the file holds the BOM and the sorted rows' table |
| ExpiringReport.ParseDays | app/api/admin/reports/memberships/expiring/route.ts:5-10 | absent, empty, unreadable or non-positive gives the default; otherwise the number read, capped at 90 |
| ExpiringReport.WindowBounded | app/api/admin/reports/memberships/expiring/route.ts:5-10 | the window is between 1 and 90 days |
| ExpiringReport.DaysOfDigits | app/api/admin/reports/memberships/expiring/route.ts:5-10 | a digit parameter gives its value, 14 for zero, capped at 90 |
| ExpiringReport.FormatDate | app/api/admin/reports/memberships/expiring/route.ts:20-22 | a date exists exactly for a valid time value, and it is exactly the first 10 characters of the ISO text |
| ExpiringReport.NormalizeStatus | app/api/admin/reports/memberships/expiring/route.ts:24-27 | missing or empty gives `desconocido`; otherwise the lower-cased status |
| ExpiringReport.ActiveStatusMeaning | app/api/admin/reports/memberships/expiring/route.ts:24-29 | a status passes exactly when, lower-cased, it is `active` or `activo` |
| ExpiringReport.CeilDiv | app/api/admin/reports/memberships/expiring/route.ts:81 | the quotient is rounded up |
| ExpiringReport.Line | app/api/admin/reports/memberships/expiring/route.ts:83-93 | a line has the header's width, with a missing athlete, plan, date or status as "" |
| ExpiringReport.Lines | app/api/admin/reports/memberships/expiring/route.ts:75-94 | every data line has the header's width |
| ExpiringReport.KeptMeaning | app/api/admin/reports/memberships/expiring/route.ts:75-78 | the rows kept, in order, are exactly those with an end date and an active status |
| ExpiringReport.LinesOfKept | app/api/admin/reports/memberships/expiring/route.ts:75-94 | the lines are the kept rows' lines, in fetch order |
| ExpiringReport.LinesKeepOrder | app/api/admin/reports/memberships/expiring/route.ts:56-94 | lines from rows fetched in ascending end date stay in ascending end date |
| ExpiringReport.BuildRows | app/api/admin/reports/memberships/expiring/route.ts:63-94 | the table is the fixed header followed by the kept rows' lines |
| ExpiringReport.ReportReadsBack | app/api/admin/reports/memberships/expiring/route.ts:96 | the CSV body reads back as the header and the lines |
| ExpiringReport.Window | app/api/admin/reports/memberships/expiring/route.ts:41-43 | the window runs from today's UTC date to the date `days` days later |
| ExpiringReport.Between | app/api/admin/reports/memberships/expiring/route.ts:54-55 | a window exists exactly when both dates do |
| ExpiringReport.WindowDefined | app/api/admin/reports/memberships/expiring/route.ts:41-43 | for every clock reading that is a valid time value 90 days ahead, the window exists |
| ExpiringReport.Get | app/api/admin/reports/memberships/expiring/route.ts:31-108 | without configuration the answer is 503 and no query runs; a query error gives 500 with its message; otherwise the file named after today holds the header and the lines |
| ImageHelpers.KeepExtensionChars | lib/imageHelpers.ts:3 | the result holds only lower-case letters and digits, and a clean text is unchanged |
| ImageHelpers.SanitizeExtension | lib/imageHelpers.ts:1-5 | nothing exactly when the value is absent or has no letter or digit left; otherwise the trimmed, lower-cased, stripped value |
| ImageHelpers.SanitizeKeepsExtension | lib/imageHelpers.ts:1-5 | a clean extension is its own sanitised form |
| ImageHelpers.SanitizeIdempotent | lib/imageHelpers.ts:1-5 | sanitising twice equals sanitising once |
| ImageHelpers.ShortJpeg | lib/imageHelpers.ts:10 | "jpeg" becomes "jpg", and anything else is unchanged |
| ImageHelpers.InferImageExtension | lib/imageHelpers.ts:7-17 | always a clean extension other than "jpeg": the name's extension first, then the type's, else "jpg" |
| ImageHelpers.ExtensionOfName | lib/imageHelpers.ts:8-10 | a name ending in a dot and a clean extension gives that extension, with `jpeg` shortened to `jpg`, whatever the file's type |
| ImageHelpers.ResolveImageContentType | lib/imageHelpers.ts:19-35 | the file's own type whenever it has one; otherwise jpg and jpeg give `image/jpeg`, png, webp and gif give `image/<extension>`, and any other extension gives `application/octet-stream` |
| ImageHelpers.ExtensionOfImageType | lib/imageHelpers.ts:12-14 | an image type gives the extension after its slash |
| ImageHelpers.ContentTypeRoundTrip | lib/imageHelpers.ts:7-35 | a file whose name has no usable extension, given the type chosen for a known extension, is inferred back to that extension |
| AthletePhotos.DropEdgeDashes | lib/athletePhotos.ts:15 | dropping edge dashes never lengthens the text |
| AthletePhotos.CollapsedShape | lib/athletePhotos.ts:12-14 | after the first two replacements only name characters remain, with no two dashes in a row |
| AthletePhotos.EdgesDropped | lib/athletePhotos.ts:15 | dropping the edge dashes then leaves a clean name |
| AthletePhotos.SanitizeFileName | lib/athletePhotos.ts:10-16 | the result holds only a-z, 0-9, '.' and '-', has no "--", and has no dash at either end |
| AthletePhotos.CleanNameKept | lib/athletePhotos.ts:10-16 | a clean name is its own cleaned form |
| AthletePhotos.SanitizeIdempotent | lib/athletePhotos.ts:10-16 | cleaning twice equals cleaning once |
| AthletePhotos.Extension | lib/athletePhotos.ts:19 | the extension is non-empty and has no dot |
| AthletePhotos.BaseName | lib/athletePhotos.ts:20 | the base is a clean name |
| AthletePhotos.PathParts | lib/athletePhotos.ts:18-23 | the path starts with the athlete's folder, and its extension reads back after the last dot |
| AthletePhotos.NameWithDot | lib/athletePhotos.ts:19-20 | the text after the last dot gives the extension, and the text before it the base, with "foto" when that is empty |
| AthletePhotos.NameWithoutDot | lib/athletePhotos.ts:19-20 | a name without a dot is all extension, and its base is the cleaned "foto" |
| AthletePhotos.IndexOf | lib/athletePhotos.ts:29 | the first occurrence at or after the start, or none when there is none |
| AthletePhotos.ExtractPathFromUrl | lib/athletePhotos.ts:25-37 | an absent or empty URL gives null; a URL that does not parse falls back to the raw text; a path name without the public prefix gives null; with the prefix, the rest after its first occurrence is decoded, and a decoding failure falls back to the raw text |
| AthletePhotos.PublicUrlGivesPath | lib/athletePhotos.ts:25-32 | the public URL of a stored path gives that path back |
| LoginLogRoute.Email | app/api/logs/login/route.ts:24 | present exactly for a string, which is trimmed and has no upper-case letter |
| LoginLogRoute.UserId | app/api/logs/login/route.ts:26 | kept exactly when it is a non-empty string |
| LoginLogRoute.ClientIp | app/api/logs/login/route.ts:35-36 | present exactly when the header is present and not empty; the address has no comma and is trimmed |
| LoginLogRoute.FirstForwardedAddress | app/api/logs/login/route.ts:36 | a list of addresses gives its first one |
| LoginLogRoute.UserAgent | app/api/logs/login/route.ts:28-37 | the body's string wins over the header |
| LoginLogRoute.RowOf | app/api/logs/login/route.ts:39-46 | the row carries the flag and each sanitised field |
| LoginLogRoute.LoginLogTable.Insert | app/api/logs/login/route.ts:39-48 | a failure is reported and leaves the table as it was; otherwise the row is appended |
| LoginLogRoute.Post | app/api/logs/login/route.ts:21-56 | a non-boolean `success` gives 400 and inserts nothing; missing configuration or a failed insert gives 500 with its message and inserts nothing; otherwise exactly the sanitised row is appended and the answer is `{ok: true}` |
| LexOrder.LexIrreflexive | app/api/admin/reports/summary/route.ts:111 | no period sorts before itself |
| LexOrder.LexAsymmetric | app/api/admin/reports/summary/route.ts:111 | two periods never sort before each other |
| LexOrder.LexTotal | app/api/admin/reports/summary/route.ts:111 | of two distinct periods, one sorts first |
| LexOrder.LexTransitive | app/api/admin/reports/summary/route.ts:111 | the string order is transitive |
| LexOrder.MonthKeysInOrder | app/api/admin/reports/summary/route.ts:111 | "2024-02" sorts before "2024-10", which sorts before "2025-01": zero-padded month keys sort in calendar order |
| Text.TrimIdempotent | lib/kiosk/cardValidation.ts:9 | trimming twice equals trimming once |
| Text.TrimEmptyIffAllSpace | lib/kiosk/cardValidation.ts:9 | trimming gives "" exactly for all-whitespace text |
| Text.StripLeadingZeros | lib/kiosk/cardValidation.ts:20 | the result has no leading zero |
| Text.KeepDigits | lib/kiosk/cardValidation.ts:15 | only digits remain, and nothing remains exactly when the text has no digit |
| Text.KeepDigitsChar | lib/kiosk/cardValidation.ts:15 | one character is kept exactly when it is a digit |
| Text.KeepDigitsAppend | lib/kiosk/cardValidation.ts:15 | the digits of a concatenation are the digits of each part in order, so every non-digit is dropped wherever it stands |
| Text.JoinSplit | lib/chileTime.ts:115 | joining the split parts with the separator gives the text back |
| Text.PadNatLength | lib/logging/cardLogger.ts:9 | a number with fewer digits than the width is padded to exactly that width |

## Left out

- Host time zones: only the numeric-offset path of the Chile time helpers is modelled. The IANA time-zone database path of `getZonedParts` is not modelled (lib/chileTime.ts:15-25,51-64). Neither are `formatChileDateTime` (lib/chileTime.ts:132-157) and the refresher's `Intl.DateTimeFormat` date (lib/memberships/status.ts:21-22). The effective date reaches the refresher as a day number.
- The global override store (lib/timeSettings.ts) is not part of this model; the offset is a parameter.
- ApiLogger.WithApiLogging: a detail callback is taken by what it does for the one call the wrapper makes (returns a text or throws), not as a function of its context. The catch block measures the duration again after a success-detail callback throws; the model passes one duration to both detail resolvers (lib/logger.ts:174,191).
- Date parsing: `new Date(text)` for text that is not `YYYY-MM-DD` arrives as a parameter. This covers the `to` bound of the date range, the expiring report's `endInstant`, and the parsed creation time in the memberships report.
- Store dates: a database date column is an integer day number; its ISO text is written `YYYY-MM-DD`.
- The Supabase client, its configuration and its queries are parameters. A table is a sequence, and a query or insert failure is an error message.
- The photo-column fallback retry and public-URL resolution are not modelled. The photo URL is an opaque optional value.
- `path.resolve` and `path.join` are not modelled. The directory is a setting and a file is named by its date.
- Case mapping is ASCII only. `toLowerCase`/`toUpperCase` outside A-Z are not modelled.
- Whitespace is the JavaScript set for `trim`, limited to the characters a `char` holds.
- CardValidation.ValidateCardUIDFormat: the length is counted in characters, not UTF-16 code units. Nine digits and a character outside the Basic Multilingual Plane give `invalid_characters` in the model but `length_mismatch:11` in the source.
- LexOrder.LexLess: characters are compared as Unicode scalar values, not UTF-16 code units. The order differs from JavaScript's `<` only when a character outside the Basic Multilingual Plane meets one from U+E000 to U+FFFF.
- URL parsing and `decodeURIComponent` are parameters of `AthletePhotos.ExtractPathFromUrl`.
- `uploadAthletePhoto` and `deleteAthletePhoto` (lib/athletePhotos.ts:39-56) are storage calls around the modelled path functions. They are not modelled.
- Card logger file-system failures are not modelled: the card log always accepts a line. An API logger write failure is a parameter, and it is swallowed.
- AccessEngine.ExpiredByEndedMembership: the source's expired-row comparator never returns 0, so its choice among several rows with the same latest end depends on the sort algorithm. The model reports the first row with the latest end.
- AccessRoute.RouteDecideCases: the same applies to the route's expired comparator. Among rows with equal end dates, the model reports the first.
- The middleware's cookie adapter and matcher configuration are not modelled. Only the routing decision is.
- MembershipsReport.ClassifyAll: the per-athlete in-memory re-sort by `start_date` is not modelled. The query already orders by athlete and start date.
- MembershipsReport.GroupByAthlete: `Object.keys` order is first appearance. The ordering of integer-like athlete keys is not modelled.
- MembershipsReport.SortNewestFirstFacts: the sort key is the creation time in milliseconds. A NaN from `Date.parse` of the locale-formatted creation text is not modelled.
- JsNumber.ToNumber: exponent numerals (`1e3`), numerals with a decimal point (`.5`, `5.`, `1.5`) and `Infinity` are read as NaN, where `Number()` gives a number. Only decimal and `0x`/`0o`/`0b` integer numerals are modelled.
- JsNumber.SignedDigits: the same limit applies. A text it reads starts with a digit or a sign, which `Number()` does not promise for `.5` or `Infinity`.
- ChileTime.DateNumbers: a date part written as an exponent, a decimal fraction or `Infinity` reads as NaN. The source reads it as a number, so `Infinity-01-01` is an Invalid Date there rather than an error.
- ChileTime.FromChileDateOnlyCases: the same date parts give an error in the model and not in the source.
- MembershipsReport.Limit: a `limit` of `1e3`, a fraction or `Infinity` gives the default 10000 in the model, where the source takes that number. A negative limit is modelled as the source does it.
- ExpiringReport.DaysLeft: the day count uses integer milliseconds. An Invalid Date end gives "NaN".
- ExpiringReport.Get: a window date that is an Invalid Date is an uncaught error, with no response body modelled.
- LoginLogRoute.Post: the host's error for reading a field of a JSON `null` body is a parameter.
- KioskRead.Post: a card-log write that throws is not modelled, matching the card logger.
- Calendar: the proleptic Gregorian calendar is used over the whole integer range. The model clips only at the ±8.64e15 ms time-value limit.

## Findings

| source | as written | input that shows it | evidently intended | confidence | as-written member | corrected member |
|---|---|---|---|---|---|---|
| app/api/admin/reports/summary/route.ts:100 | the counter is looked up in an object literal, so a result named like an inherited member (`constructor`, `toString`, …) finds that member, which is truthy, and the `\|\| 'accesos_unknown_card'` default never applies | an access log whose `result` is "constructor" | every result other than allowed/denied/expired counts as an unknown card, so the three access counters total the number of access logs; as written, the increment also creates a NaN property, which becomes an extra CSV column (route.ts:20) when it lands on the first period's row | low, not executed; the column is normally one of four values | SummaryReport.AccessKindAsWritten, SummaryReport.PrototypeResultCountsNowhere | SummaryReport.AccessKind, SummaryReport.AccessTotalsMatch |
