/** Card UID handling at the kiosk (lib/kiosk/cardValidation.ts): the raw
    reader input is trimmed, checked against the fixed-width numeric format
    and reduced to a canonical lookup key. */
module CardValidation {
  import opened Wrappers
  import opened Text

  /** Number of digits a reader emits for one card. */
  const CARD_UID_LENGTH: nat := 10

  /** The three distinct format problems; each has its own reason text. */
  datatype ValidationIssue = EmptyValue | LengthMismatch(actual: nat) | InvalidCharacters
  {
    function Reason(): string {
      match this
      case EmptyValue => "empty_value"
      case LengthMismatch(n) => "length_mismatch:" + NatToString(n)
      case InvalidCharacters => "invalid_characters"
    }
  }

  /** Absent input becomes the empty string; otherwise surrounding
      whitespace is removed and nothing else. */
  function NormalizeCardUID(value: Option<string>): (r: string)
    ensures value == None ==> r == ""
    ensures HasNoLeadingSpace(r) && HasNoTrailingSpace(r)
    ensures value.Some? ==> exists a, b :: TrimmedAt(value.value, a, b) && r == value.value[a..b]
  {
    var s := value.GetOr("");
    TrimIsSlice(s);
    Trim(s)
  }

  /** Digits only, leading zeros removed; no digit at all gives "" and a
      run of zeros gives "0". */
  function CanonicalizeCardUID(uid: string): (r: string)
    ensures AllDigits(r)
    ensures r == "" <==> KeepDigits(uid) == ""
    ensures r == "" || r == "0" || r[0] != '0'
    ensures r != "" ==> DigitsValue(r) == DigitsValue(KeepDigits(uid))
  {
    if uid == "" then ""
    else
      var digits := KeepDigits(uid);
      if digits == "" then ""
      else
        var withoutLeadingZeros := StripLeadingZeros(digits);
        StrippedValue(digits);
        if withoutLeadingZeros == "" then "0" else withoutLeadingZeros
  }

  /** Stripping leading zeros keeps the value; stripping every digit means
      the value was zero. */
  lemma StrippedValue(s: string)
    requires AllDigits(s)
    ensures AllDigits(StripLeadingZeros(s))
    ensures DigitsValue(StripLeadingZeros(s)) == DigitsValue(s)
  {
    var r := StripLeadingZeros(s);
    var k := |s| - |r|;
    StripLeadingZerosDropsZeros(s);
    assert s == Repeat('0', k) + r;
    ZeroPaddedValue(k, r);
  }

  /** Canonicalising a canonical UID changes nothing. */
  lemma CanonicalizeIdempotent(uid: string)
    ensures CanonicalizeCardUID(CanonicalizeCardUID(uid)) == CanonicalizeCardUID(uid)
  {
    var r := CanonicalizeCardUID(uid);
    KeepDigitsOfDigits(r);
    if r != "" && r != "0" {
      assert StripLeadingZeros(r) == r;
    }
  }

  /** A digit run made only of zeros canonicalises to "0". */
  lemma CanonicalizeAllZeros(uid: string)
    requires KeepDigits(uid) != ""
    requires forall i :: 0 <= i < |KeepDigits(uid)| ==> KeepDigits(uid)[i] == '0'
    ensures CanonicalizeCardUID(uid) == "0"
  {
    StripLeadingZerosDropsZeros(KeepDigits(uid));
  }

  /** Zero padding in front of a digit string without a leading zero is
      dropped, and nothing else changes. */
  lemma CanonicalizePadded(k: nat, s: string)
    requires AllDigits(s) && s != [] && s[0] != '0'
    ensures CanonicalizeCardUID(Repeat('0', k) + s) == s
  {
    ZeroPaddedValue(k, s);
    KeepDigitsOfDigits(Repeat('0', k) + s);
    StripZeroPadding(k, s);
  }

  /** The documented scenario: a zero-padded ten-digit read. */
  lemma CanonicalizeExample()
    ensures CanonicalizeCardUID("0000123456") == "123456"
  {
    CanonicalizePadded(4, "123456");
    assert Repeat('0', 4) + "123456" == "0000123456";
  }

  /** Text with no digit at all canonicalises to "", whatever it holds. */
  lemma CanonicalizeNoDigits(uid: string)
    requires forall i :: 0 <= i < |uid| ==> !IsDigit(uid[i])
    ensures CanonicalizeCardUID(uid) == ""
  {
  }

  /** A non-digit between digits is dropped and the digits on both sides
      are kept, in order. */
  lemma CanonicalizeInteriorNonDigit()
    ensures CanonicalizeCardUID("12a3") == "123"
  {
    assert "12a3" == "12" + "a3";
    KeepDigitsAppend("12", "a3");
    KeepDigitsOfDigits("12");
    assert "a3" == "a" + "3";
    KeepDigitsAppend("a", "3");
    KeepDigitsChar('a');
    KeepDigitsChar('3');
    assert KeepDigits("12a3") == "123";
  }

  /** Empty, then wrong length, then non-digit characters: the first
      problem found is reported; None means the input is well formed.
      The length counts characters, where JavaScript counts UTF-16 code
      units. */
  function ValidateCardUIDFormat(uid: string): (r: Option<ValidationIssue>)
    ensures r == None <==> |uid| == CARD_UID_LENGTH && AllDigits(uid)
    ensures r == Some(EmptyValue) <==> uid == ""
    ensures r == Some(LengthMismatch(|uid|)) <==> uid != "" && |uid| != CARD_UID_LENGTH
    ensures r == Some(InvalidCharacters) <==> |uid| == CARD_UID_LENGTH && !AllDigits(uid)
  {
    if uid == "" then Some(EmptyValue)
    else if |uid| != CARD_UID_LENGTH then Some(LengthMismatch(|uid|))
    else if !AllDigits(uid) then Some(InvalidCharacters)
    else None
  }

  /** The length check comes before the character check. */
  lemma ValidateExample()
    ensures ValidateCardUIDFormat("abc") == Some(LengthMismatch(3))
    ensures ValidateCardUIDFormat("abc").value.Reason() == "length_mismatch:3"
    ensures ValidateCardUIDFormat("12345678x0") == Some(InvalidCharacters)
    ensures ValidateCardUIDFormat("0000123456") == None
  {
    assert !IsDigit("12345678x0"[8]);
  }

  /** A well-formed UID canonicalises to a non-empty key with the same
      numeric value. */
  lemma WellFormedCanonical(uid: string)
    requires ValidateCardUIDFormat(uid) == None
    ensures CanonicalizeCardUID(uid) != ""
    ensures DigitsValue(CanonicalizeCardUID(uid)) == DigitsValue(uid)
  {
    KeepDigitsOfDigits(uid);
  }
}
