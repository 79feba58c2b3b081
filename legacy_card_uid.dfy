/** The older card-UID normaliser (lib/cardUID.ts): leading '0's are
    stripped first, then whitespace is trimmed, then letters are
    upper-cased. The same chain is inlined by the access-validation
    endpoint. */
module LegacyCardUid {
  import opened Text

  function NormalizeCardUID(uid: string): (r: string)
    ensures HasNoLeadingSpace(r) && HasNoTrailingSpace(r)
    ensures forall i :: 0 <= i < |r| ==> !IsLowerAscii(r[i])
    ensures |r| <= |uid|
  {
    var t := Trim(StripLeadingZeros(uid));
    UpperKeepsEnds(t);
    ToUpper(t)
  }

  lemma UpperKeepsEnds(t: string)
    requires HasNoLeadingSpace(t) && HasNoTrailingSpace(t)
    ensures HasNoLeadingSpace(ToUpper(t)) && HasNoTrailingSpace(ToUpper(t))
  {
    if t != [] {
      UpperCharSpace(t[0]);
      UpperCharSpace(t[|t| - 1]);
    }
  }

  /** A string of zeros normalises to the empty string. */
  lemma AllZerosNormalizeEmpty(uid: string)
    requires forall i :: 0 <= i < |uid| ==> uid[i] == '0'
    ensures NormalizeCardUID(uid) == ""
  {
    var z := StripLeadingZeros(uid);
    StripLeadingZerosDropsZeros(uid);
    assert |z| == 0;
    assert Trim(z) == [];
    assert ToUpper([]) == [];
  }

  /** Zeros are stripped before trimming, so whitespace in front of them
      shields them. */
  lemma WhitespaceShieldsZeros(s: string)
    requires |s| >= 2 && IsSpace(s[0])
    requires HasNoLeadingSpace(s[1..]) && HasNoTrailingSpace(s[1..])
    requires forall i :: 1 <= i < |s| ==> !IsLowerAscii(s[i])
    ensures NormalizeCardUID(s) == s[1..]
  {
    var t := s[1..];
    assert StripLeadingZeros(s) == s;
    assert TrimStart(s) == TrimStart(t);
    TrimStartNoop(t);
    TrimEndNoop(t);
    assert ToUpper(t) == t by {
      forall i | 0 <= i < |t| ensures ToUpper(t)[i] == t[i] {
        assert !IsLowerAscii(s[i + 1]);
      }
    }
  }

  /** Zeros in front of whitespace are stripped, and the whitespace is
      then trimmed. */
  lemma ZerosBeforeSpace(k: nat, s: string)
    requires s != [] && IsSpace(s[0])
    ensures NormalizeCardUID(Repeat('0', k) + s) == NormalizeCardUID(s)
  {
    StripZeroPadding(k, s);
    assert StripLeadingZeros(s) == s;
  }

  /** The normaliser is not idempotent: a zero uncovered by trimming is
      stripped by a second application. */
  lemma NotIdempotent()
    ensures NormalizeCardUID("0 0") == "0"
    ensures NormalizeCardUID("0") == ""
  {
    ZerosBeforeSpace(1, " 0");
    assert Repeat('0', 1) + " 0" == "0 0";
    WhitespaceShieldsZeros(" 0");
    assert " 0"[1..] == "0";
    AllZerosNormalizeEmpty("0");
  }

  /** A trimmed string without lower-case letters and without a leading
      zero is left as it is. */
  lemma FixedPoint(uid: string)
    requires HasNoLeadingSpace(uid) && HasNoTrailingSpace(uid)
    requires forall i :: 0 <= i < |uid| ==> !IsLowerAscii(uid[i])
    requires uid == "" || uid[0] != '0'
    ensures NormalizeCardUID(uid) == uid
  {
    assert StripLeadingZeros(uid) == uid;
    TrimNoop(uid);
    var u := ToUpper(uid);
    assert forall i :: 0 <= i < |uid| ==> u[i] == uid[i];
    assert u == uid;
  }
}
