/** The image upload helpers (lib/imageHelpers.ts): cleaning an extension,
    choosing one from the file's name or its MIME type, and choosing the
    content type to store the image with. */
module ImageHelpers {
  import opened Wrappers
  import opened Text

  predicate IsExtensionChar(c: char) { IsLowerAscii(c) || IsDigit(c) }

  predicate IsExtension(s: string) {
    s != [] && forall i :: 0 <= i < |s| ==> IsExtensionChar(s[i])
  }

  /** `replace(/[^a-z0-9]/g, '')`. */
  function KeepExtensionChars(s: string): (r: string)
    ensures forall i :: 0 <= i < |r| ==> IsExtensionChar(r[i])
    ensures (forall i :: 0 <= i < |s| ==> IsExtensionChar(s[i])) ==> r == s
    decreases |s|
  {
    if s == [] then []
    else
      var rest := KeepExtensionChars(s[1..]);
      if IsExtensionChar(s[0]) then [s[0]] + rest else rest
  }

  /** `sanitizeExtension`: trimmed, lower-cased, stripped of everything
      but lower-case letters and digits; undefined when that leaves
      nothing or there was nothing. */
  function SanitizeExtension(raw: Option<string>): (r: Option<string>)
    ensures r.Some? ==> IsExtension(r.value)
    ensures r.Some? ==> raw.Some? && r.value == KeepExtensionChars(ToLower(Trim(raw.value)))
    ensures r.None? <==> raw.None? || KeepExtensionChars(ToLower(Trim(raw.value))) == ""
  {
    if raw.None? || raw.value == "" then None
    else
      var value := KeepExtensionChars(ToLower(Trim(raw.value)));
      if value == "" then None else Some(value)
  }

  /** A clean extension is its own sanitised form. */
  lemma SanitizeKeepsExtension(s: string)
    requires IsExtension(s)
    ensures SanitizeExtension(Some(s)) == Some(s)
  {
    assert !IsSpace(s[0]) && !IsSpace(s[|s| - 1]);
    TrimNoop(s);
    assert ToLower(s) == s;
  }

  /** Sanitising twice is sanitising once. */
  lemma SanitizeIdempotent(raw: Option<string>)
    ensures SanitizeExtension(SanitizeExtension(raw)) == SanitizeExtension(raw)
  {
    if SanitizeExtension(raw).Some? {
      SanitizeKeepsExtension(SanitizeExtension(raw).value);
    }
  }

  /** "jpeg" is written "jpg". */
  function ShortJpeg(ext: string): (r: string)
    ensures r != "jpeg"
    ensures ext != "jpeg" ==> r == ext
  {
    if ext == "jpeg" then "jpg" else ext
  }

  /** The extension the name gives: the text after its last dot, when it
      has a dot. */
  function ExtensionFromName(name: string): Option<string> {
    SanitizeExtension(if '.' in name then Some(LastPart(name, '.')) else None)
  }

  /** The extension the MIME type gives: the text after its last slash,
      when it has a slash. */
  function ExtensionFromType(mimeType: string): Option<string> {
    SanitizeExtension(if '/' in mimeType then Some(LastPart(mimeType, '/')) else None)
  }

  /** `inferImageExtension`: from the name, else from the type, else
      "jpg"; "jpeg" always becomes "jpg". */
  function InferImageExtension(name: string, mimeType: string): (r: string)
    ensures IsExtension(r) && r != "jpeg"
    ensures ExtensionFromName(name).Some? ==> r == ShortJpeg(ExtensionFromName(name).value)
    ensures ExtensionFromName(name).None? && ExtensionFromType(mimeType).Some? ==>
              r == ShortJpeg(ExtensionFromType(mimeType).value)
    ensures ExtensionFromName(name).None? && ExtensionFromType(mimeType).None? ==> r == "jpg"
  {
    var fromName := ExtensionFromName(name);
    if fromName.Some? then ShortJpeg(fromName.value)
    else
      var fromType := ExtensionFromType(mimeType);
      if fromType.Some? then ShortJpeg(fromType.value) else "jpg"
  }

  /** A name ending in a dot and a clean extension gives that extension:
      "Foto.de.perfil.png" gives "png" and "IMG_1.jpeg" gives "jpg". */
  lemma ExtensionOfName(stem: string, ext: string, mimeType: string)
    requires IsExtension(ext)
    ensures InferImageExtension(stem + "." + ext, mimeType) == ShortJpeg(ext)
  {
    assert '.' !in ext;
    SplitAtLastOf(stem, ext, '.');
    assert (stem + "." + ext)[|stem|] == '.';
    SanitizeKeepsExtension(ext);
  }

  /** `resolveImageContentType`: the file's own type when it has one,
      otherwise the type of the extension, "application/octet-stream" for
      an extension it does not know. */
  function ResolveImageContentType(mimeType: string, extension: string): (r: string)
    ensures mimeType != "" ==> r == mimeType
    ensures mimeType == "" && (extension == "jpg" || extension == "jpeg") ==> r == "image/jpeg"
    ensures mimeType == "" && extension in {"png", "webp", "gif"} ==> r == "image/" + extension
    ensures mimeType == "" && extension !in {"jpg", "jpeg", "png", "webp", "gif"} ==> r == "application/octet-stream"
  {
    if mimeType != "" then mimeType
    else if extension == "jpg" || extension == "jpeg" then "image/jpeg"
    else if extension == "png" then "image/png"
    else if extension == "webp" then "image/webp"
    else if extension == "gif" then "image/gif"
    else "application/octet-stream"
  }

  /** An image type names its extension after the slash. */
  lemma ExtensionOfImageType(sub: string)
    requires IsExtension(sub)
    ensures ExtensionFromType("image/" + sub) == Some(sub)
  {
    assert '/' !in sub;
    assert "image/" + sub == "image" + "/" + sub;
    SplitAtLastOf("image", sub, '/');
    assert ("image/" + sub)[5] == '/';
    SanitizeKeepsExtension(sub);
  }

  /** The type chosen for a known extension gives that extension back:
      a file with no usable name stored as "image/png" is inferred to be a
      "png". */
  lemma ContentTypeRoundTrip(name: string, ext: string)
    requires ext in {"jpg", "png", "webp", "gif"}
    requires ExtensionFromName(name).None?
    ensures InferImageExtension(name, ResolveImageContentType("", ext)) == ext
  {
    var sub := if ext == "jpg" then "jpeg" else ext;
    assert IsExtension(sub) by {
      assert forall i :: 0 <= i < |sub| ==> IsLowerAscii(sub[i]);
    }
    assert ResolveImageContentType("", ext) == "image/" + sub;
    ExtensionOfImageType(sub);
  }
}
