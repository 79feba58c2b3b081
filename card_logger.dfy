/** The kiosk's card-event log (lib/logging/cardLogger.ts): one line per
    event, appended to the file of the event's local day when logging is
    switched on. */
module CardLogger {
  import opened Wrappers
  import opened Text
  import opened AccessModel
  import opened DailyLog

  /** Written in place of a card number that is missing or blank. */
  const CARD_PLACEHOLDER: string := "<unknown-card>"

  /** The two kinds of card event. */
  datatype CardAction = Read | Validate
  {
    function Label(): string {
      match this
      case Read => "READ"
      case Validate => "VALIDATE"
    }
  }

  /** One event as the kiosk reports it. */
  datatype CardEvent = CardEvent(card: Option<string>, action: CardAction, status: EventStatus, details: string)

  /** `ENABLE_LOGS`, lower-cased, must be exactly "true"; an unset
      variable counts as "". */
  predicate LogsEnabled(flag: Option<string>) {
    ToLower(flag.GetOr("")) == "true"
  }

  /** The card number trimmed, or the placeholder when nothing is left. */
  function CardText(card: Option<string>): (r: string)
    ensures r != ""
    ensures HasNoLeadingSpace(r) && HasNoTrailingSpace(r)
    ensures Trim(card.GetOr("")) != "" ==> r == Trim(card.GetOr(""))
    ensures Trim(card.GetOr("")) == "" ==> r == CARD_PLACEHOLDER
  {
    var trimmed := Trim(card.GetOr(""));
    if trimmed == "" then CARD_PLACEHOLDER else trimmed
  }

  /** The details with every whitespace run made one space, trimmed, or
      "-" when nothing is left. */
  function DetailsText(details: string): string {
    var collapsed := Trim(CollapseRuns(details, IsSpace, ' '));
    if collapsed == "" then "-" else collapsed
  }

  /** The details of a line are never empty, hold no whitespace other than
      single inner spaces, and so never break the line. */
  lemma DetailsShape(details: string)
    ensures var r := DetailsText(details);
            && r != ""
            && HasNoLeadingSpace(r) && HasNoTrailingSpace(r)
            && (forall i :: 0 <= i < |r| ==> !IsSpace(r[i]) || r[i] == ' ')
            && (forall i :: 0 <= i < |r| - 1 ==> !(IsSpace(r[i]) && IsSpace(r[i + 1])))
  {
    var collapsed := CollapseRuns(details, IsSpace, ' ');
    var a := TrimKeepsChars(collapsed);
    var t := Trim(collapsed);
    forall i | 0 <= i < |t|
      ensures !IsSpace(t[i]) || t[i] == ' '
    {
      assert t[i] == collapsed[a + i];
    }
    forall i | 0 <= i < |t| - 1
      ensures !(IsSpace(t[i]) && IsSpace(t[i + 1]))
    {
      assert t[i] == collapsed[a + i] && t[i + 1] == collapsed[a + i + 1];
    }
  }

  /** Details already in that shape are written unchanged. */
  lemma CleanDetailsKept(details: string)
    requires details != ""
    requires forall i :: 0 <= i < |details| ==> !IsSpace(details[i])
    ensures DetailsText(details) == details
  {
    TrimNoSpaces(details);
  }

  /** `[YYYY-MM-DD HH:MM:SS] card ACTION STATUS details`, without its
      newline. */
  function EventLine(wall: int, e: CardEvent): string {
    "[" + LocalDate(wall) + " " + LocalTime(wall) + "] " + CardText(e.card) + " "
    + e.action.Label() + " " + e.status.Label() + " " + DetailsText(e.details)
  }

  /** The log directory after `logCardEvent`: unchanged when logging is
      off, otherwise one more line in the file of the event's local day. */
  function Logged(files: map<string, seq<string>>, enabled: bool, wall: int, e: CardEvent)
    : (r: map<string, seq<string>>)
    ensures !enabled ==> r == files
    ensures enabled ==> Lines(r, FileName(wall)) == Lines(files, FileName(wall)) + [EventLine(wall, e)]
    ensures forall other :: other != FileName(wall) ==> Lines(r, other) == Lines(files, other)
  {
    if enabled then Appended(files, FileName(wall), EventLine(wall, e)) else files
  }

  /** `logCardEvent`. `wall` is the local time at which the event is
      written. */
  method LogCardEvent(dir: LogDirectory, enabled: bool, wall: int, e: CardEvent)
    modifies dir
    ensures dir.files == Logged(old(dir.files), enabled, wall, e)
  {
    if !enabled {
      return;
    }
    var line := "[" + LocalDate(wall) + " " + LocalTime(wall) + "] " + CardText(e.card) + " "
                + e.action.Label() + " " + e.status.Label() + " " + DetailsText(e.details);
    dir.Append(FileName(wall), line);
  }
}
