/** The storage paths of athletes' photos (lib/athletePhotos.ts): a file
    name is cleaned down to lower-case letters, digits, dots and single
    inner dashes; an upload goes to `<athlete>/<stamp>-<base>.<ext>`; and
    a stored photo's path is recovered from its public URL. */
module AthletePhotos {
  import opened Wrappers
  import opened Text

  const BUCKET: string := "athlete-photos"
  const PUBLIC_PREFIX: string := "/storage/v1/object/public/athlete-photos/"

  // ---------------------------------------------------------------- file names

  predicate IsNameChar(c: char) { IsLowerAscii(c) || IsDigit(c) || c == '.' || c == '-' }

  predicate NotNameChar(c: char) { !IsNameChar(c) }

  predicate IsDash(c: char) { c == '-' }

  /** What a cleaned name looks like: only name characters, never two
      dashes in a row, no dash at either end. */
  predicate IsCleanName(s: string) {
    && (forall i :: 0 <= i < |s| ==> IsNameChar(s[i]))
    && (forall i :: 0 <= i < |s| - 1 ==> !(s[i] == '-' && s[i + 1] == '-'))
    && (s == [] || (s[0] != '-' && s[|s| - 1] != '-'))
  }

  /** `replace(/^-|-$/g, '')`: one dash off the front, then one off the
      back. */
  function DropEdgeDashes(s: string): (r: string)
    ensures |r| <= |s|
  {
    var t := if s != [] && s[0] == '-' then s[1..] else s;
    if t != [] && t[|t| - 1] == '-' then t[..|t| - 1] else t
  }

  /** The first two replacements: lower-case, every run of other
      characters made one dash, then runs of dashes made one. */
  function Collapsed(name: string): string {
    CollapseRuns(CollapseRuns(ToLower(name), NotNameChar, '-'), IsDash, '-')
  }

  lemma CollapsedShape(name: string)
    ensures var s := Collapsed(name);
            && (forall i :: 0 <= i < |s| ==> IsNameChar(s[i]))
            && (forall i :: 0 <= i < |s| - 1 ==> !(s[i] == '-' && s[i + 1] == '-'))
  {
    var s1 := CollapseRuns(ToLower(name), NotNameChar, '-');
    CollapseRunsChars(s1, IsDash, '-');
  }

  lemma EdgesDropped(s: string)
    requires forall i :: 0 <= i < |s| ==> IsNameChar(s[i])
    requires forall i :: 0 <= i < |s| - 1 ==> !(s[i] == '-' && s[i + 1] == '-')
    ensures IsCleanName(DropEdgeDashes(s))
  {
    var t := if s != [] && s[0] == '-' then s[1..] else s;
    assert forall i :: 0 <= i < |t| - 1 ==> !(t[i] == '-' && t[i + 1] == '-');
    if t != [] && t[|t| - 1] == '-' {
      var u := t[..|t| - 1];
      assert u != [] ==> u[|u| - 1] == t[|t| - 2];
    }
  }

  /** `sanitizeFileName`: lower-cased, every run of other characters made
      one dash, runs of dashes made one, and a dash at either end
      dropped. */
  function SanitizeFileName(name: string): (r: string)
    ensures IsCleanName(r)
  {
    CollapsedShape(name);
    EdgesDropped(Collapsed(name));
    DropEdgeDashes(Collapsed(name))
  }

  /** A clean name is its own cleaned form. */
  lemma CleanNameKept(s: string)
    requires IsCleanName(s)
    ensures SanitizeFileName(s) == s
  {
    assert ToLower(s) == s;
    assert CollapseRuns(s, NotNameChar, '-') == s;
    CollapseRunsFixed(s, IsDash, '-');
  }

  /** Cleaning twice is cleaning once. */
  lemma SanitizeIdempotent(name: string)
    ensures SanitizeFileName(SanitizeFileName(name)) == SanitizeFileName(name)
  {
    CleanNameKept(SanitizeFileName(name));
  }

  // ---------------------------------------------------------------- upload paths

  /** The extension: the text after the last dot, lower-cased, "jpg" when
      that is empty. A name without a dot is its own extension. */
  function Extension(fileName: string): (ext: string)
    ensures ext != [] && '.' !in ext
  {
    var e := ToLower(LastPart(fileName, '.'));
    assert forall i :: 0 <= i < |e| ==> e[i] != '.';
    if e == "" then "jpg" else e
  }

  /** The base: the text before the last dot, "foto" when that is empty,
      cleaned. */
  function BaseName(fileName: string): (base: string)
    ensures IsCleanName(base)
  {
    var stem := BeforeLast(fileName, '.');
    SanitizeFileName(if stem == "" then "foto" else stem)
  }

  /** `buildPath`; `stamp` is the clock reading `Date.now()`. */
  function BuildPath(athleteId: string, fileName: string, stamp: int): string {
    athleteId + "/" + IntToString(stamp) + "-" + BaseName(fileName) + "." + Extension(fileName)
  }

  /** The path is the athlete's folder followed by a file name whose
      extension, read back after its last dot, is the extension chosen. */
  lemma PathParts(athleteId: string, fileName: string, stamp: int)
    ensures var path := BuildPath(athleteId, fileName, stamp);
            && |path| > |athleteId| && path[..|athleteId| + 1] == athleteId + "/"
            && LastPart(path, '.') == Extension(fileName)
  {
    var path := BuildPath(athleteId, fileName, stamp);
    var front := athleteId + "/" + IntToString(stamp) + "-" + BaseName(fileName);
    assert path == front + ['.'] + Extension(fileName);
    SplitAtLastOf(front, Extension(fileName), '.');
  }

  /** A name with a dot: what follows the last dot gives the extension and
      what precedes it the base; "Mi Foto.PNG" gives "mi-foto" and "png". */
  lemma NameWithDot(stem: string, ext: string)
    requires '.' !in ext
    ensures Extension(stem + "." + ext) == (if ext == "" then "jpg" else ToLower(ext))
    ensures BaseName(stem + "." + ext) == SanitizeFileName(if stem == "" then "foto" else stem)
  {
    SplitAtLastOf(stem, ext, '.');
  }

  /** A name without a dot is all extension, and the base is "foto":
      "perfil" becomes ".../<stamp>-foto.perfil". */
  lemma NameWithoutDot(fileName: string)
    requires fileName != "" && '.' !in fileName
    ensures Extension(fileName) == ToLower(fileName)
    ensures BaseName(fileName) == SanitizeFileName("foto")
  {
    SplitAtLast(fileName, '.');
  }

  // ---------------------------------------------------------------- paths from URLs

  predicate OccursAt(s: string, pat: string, j: nat) {
    j + |pat| <= |s| && s[j..j + |pat|] == pat
  }

  /** The first place at or after `from` where `pat` occurs in `s`. */
  function IndexOf(s: string, pat: string, from: nat): (r: Option<nat>)
    ensures r.Some? ==> from <= r.value && OccursAt(s, pat, r.value)
    ensures r.Some? ==> forall j: nat :: from <= j < r.value ==> !OccursAt(s, pat, j)
    ensures r.None? ==> forall j: nat :: from <= j ==> !OccursAt(s, pat, j)
    decreases |s| - from
  {
    if from + |pat| > |s| then None
    else if OccursAt(s, pat, from) then Some(from)
    else IndexOf(s, pat, from + 1)
  }

  /** `s.split(pat)[1]`: the text between the first and the second
      occurrence of `pat` (or the end), None when `pat` does not occur. */
  function SecondPiece(s: string, pat: string): Option<string> {
    match IndexOf(s, pat, 0)
    case None => None
    case Some(k) =>
      var rest := s[k + |pat|..];
      match IndexOf(rest, pat, 0)
      case None => Some(rest)
      case Some(e) => Some(rest[..e])
  }

  /** How the host reads the URL: its path name, or a parse error. */
  datatype UrlReading = Pathname(path: string) | NotAUrl

  /** The outcomes: no path (null), a path, or an uncaught URIError. */
  datatype Extraction = NoPath | PathOf(path: string) | Throws

  /** The fallback after a failure: the piece after the prefix in the raw
      text, decoded, or null when there is none; a decoding error here is
      not caught. */
  function Fallback(url: string, decode: string -> Option<string>): (r: Extraction) {
    var piece := SecondPiece(url, PUBLIC_PREFIX);
    if piece.None? || piece.value == "" then NoPath
    else match decode(piece.value)
      case None => Throws
      case Some(d) => PathOf(d)
  }

  /** `extractPathFromUrl`. `reading` is the host's parse of the URL and
      `decode` is `decodeURIComponent` (None where it throws). */
  function ExtractPathFromUrl(url: Option<string>, reading: UrlReading, decode: string -> Option<string>)
    : (r: Extraction)
    ensures url.None? || url == Some("") ==> r == NoPath
    ensures url.Some? && url.value != "" && reading.NotAUrl? ==> r == Fallback(url.value, decode)
    ensures url.Some? && url.value != "" && reading.Pathname? && IndexOf(reading.path, PUBLIC_PREFIX, 0).None? ==>
              r == NoPath
    ensures url.Some? && url.value != "" && reading.Pathname? && IndexOf(reading.path, PUBLIC_PREFIX, 0).Some? ==>
              var rest := reading.path[IndexOf(reading.path, PUBLIC_PREFIX, 0).value + |PUBLIC_PREFIX|..];
              r == match decode(rest)
                   case Some(d) => PathOf(d)
                   case None => Fallback(url.value, decode)
  {
    if url.None? || url.value == "" then NoPath
    else match reading
      case NotAUrl => Fallback(url.value, decode)
      case Pathname(pathname) =>
        match IndexOf(pathname, PUBLIC_PREFIX, 0)
        case None => NoPath
        case Some(idx) =>
          match decode(pathname[idx + |PUBLIC_PREFIX|..])
          case Some(d) => PathOf(d)
          case None => Fallback(url.value, decode)
  }

  /** The public URL of a stored path gives the path back: a URL whose
      path name is the public prefix and `path`, which decodes to itself. */
  lemma PublicUrlGivesPath(url: string, path: string, decode: string -> Option<string>)
    requires url != ""
    requires decode(path) == Some(path)
    ensures ExtractPathFromUrl(Some(url), Pathname(PUBLIC_PREFIX + path), decode) == PathOf(path)
  {
    var pathname := PUBLIC_PREFIX + path;
    assert OccursAt(pathname, PUBLIC_PREFIX, 0);
    assert pathname[|PUBLIC_PREFIX|..] == path;
  }
}
