/**
  The age check `isNaN(Number(input))`. `Number` applied to a string follows the
  StringNumericLiteral grammar of section 7.1.4.1 of ECMA-262 (StringToNumber): surrounding
  white space is ignored, an empty or all-blank string is 0, and otherwise the text must be a
  signed decimal literal (with optional fraction and exponent, or `Infinity`) or an unsigned
  `0x`/`0o`/`0b` integer. Anything else is NaN. Only ASCII input is modelled.
 */
module Numbers {
  import opened Text

  predicate IsDigit(c: char) { '0' <= c <= '9' }

  predicate IsHexDigit(c: char) { IsDigit(c) || 'a' <= c <= 'f' || 'A' <= c <= 'F' }

  predicate IsOctalDigit(c: char) { '0' <= c <= '7' }

  predicate IsBinaryDigit(c: char) { c == '0' || c == '1' }

  predicate IsSign(c: char) { c == '+' || c == '-' }

  /** Number of consecutive decimal digits of `s` starting at position `i`. */
  function Digits(s: string, i: nat): (n: nat)
    requires i <= |s|
    ensures i + n <= |s|
    ensures forall k :: i <= k < i + n ==> IsDigit(s[k])
    ensures i + n < |s| ==> !IsDigit(s[i + n])
    decreases |s| - i
  {
    if i < |s| && IsDigit(s[i]) then 1 + Digits(s, i + 1) else 0
  }

  /** `s[i..]` is empty or an ExponentPart: `e` or `E`, an optional sign, one or more digits. */
  predicate ExponentRest(s: string, i: nat)
    requires i <= |s|
  {
    i == |s| ||
    ((s[i] == 'e' || s[i] == 'E') &&
     var j := if i + 1 < |s| && IsSign(s[i + 1]) then i + 2 else i + 1;
     j <= |s| && var n := Digits(s, j); n >= 1 && j + n == |s|)
  }

  /** `s[i..]` is a StrUnsignedDecimalLiteral: `Infinity`, or digits with an optional `.` and
      fraction (at least one digit on some side of the point), then an optional exponent. */
  predicate UnsignedDecimalFrom(s: string, i: nat)
    requires i <= |s|
  {
    s[i..] == "Infinity" ||
    var n := Digits(s, i);
    var j := i + n;
    if j < |s| && s[j] == '.' then
      var m := Digits(s, j + 1);
      n + m >= 1 && ExponentRest(s, j + 1 + m)
    else
      n >= 1 && ExponentRest(s, j)
  }

  /** A StrDecimalLiteral: an optional `+` or `-`, then an unsigned decimal literal. */
  predicate IsDecimalLiteral(s: string) {
    if |s| > 0 && IsSign(s[0]) then UnsignedDecimalFrom(s, 1) else UnsignedDecimalFrom(s, 0)
  }

  /** A NonDecimalIntegerLiteral: `0x`/`0X` and hex digits, `0o`/`0O` and octal digits, or
      `0b`/`0B` and binary digits. No sign is allowed in front of these. */
  predicate IsNonDecimalLiteral(s: string) {
    |s| >= 3 && s[0] == '0' &&
    (((s[1] == 'x' || s[1] == 'X') && forall k :: 2 <= k < |s| ==> IsHexDigit(s[k])) ||
     ((s[1] == 'o' || s[1] == 'O') && forall k :: 2 <= k < |s| ==> IsOctalDigit(s[k])) ||
     ((s[1] == 'b' || s[1] == 'B') && forall k :: 2 <= k < |s| ==> IsBinaryDigit(s[k])))
  }

  /** `!isNaN(Number(s))`: the trimmed text is empty or a numeric literal. */
  predicate IsNumeric(s: string) {
    var t := Trim(s);
    |t| == 0 || IsDecimalLiteral(t) || IsNonDecimalLiteral(t)
  }

  // ---------------------------------------------------------------------------
  // What the grammar accepts

  /** The characters a numeric string can contain: white space, digits, signs, the point, the
      exponent marks, the radix marks, hex letters and the letters of `Infinity`. */
  predicate IsNumberChar(c: char) {
    IsSpace(c) || IsHexDigit(c) || IsSign(c) || c == '.' || c == 'e' || c == 'E' ||
    c == 'x' || c == 'X' || c == 'o' || c == 'O' || c == 'b' || c == 'B' ||
    c == 'I' || c == 'n' || c == 'i' || c == 't' || c == 'y'
  }

  /** An unsigned decimal literal from `i` on uses only number characters. */
  lemma UnsignedDecimalChars(s: string, i: nat)
    requires i <= |s| && UnsignedDecimalFrom(s, i)
    ensures forall k :: i <= k < |s| ==> IsNumberChar(s[k])
  {
    if s[i..] == "Infinity" {
      forall k | i <= k < |s| ensures IsNumberChar(s[k]) {
        assert s[k] == s[i..][k - i];
      }
    }
  }

  /** A numeric literal consists of number characters only. */
  lemma LiteralChars(t: string)
    requires IsDecimalLiteral(t) || IsNonDecimalLiteral(t)
    ensures forall k :: 0 <= k < |t| ==> IsNumberChar(t[k])
  {
    if IsDecimalLiteral(t) {
      UnsignedDecimalChars(t, if |t| > 0 && IsSign(t[0]) then 1 else 0);
    }
  }

  /** Every string `Number` accepts consists of number characters only. */
  lemma NumericChars(s: string)
    ensures IsNumeric(s) ==> forall k :: 0 <= k < |s| ==> IsNumberChar(s[k])
  {
    var t := Trim(s);
    TrimSpec(s);
    var a := Span(s, Whitespace, true);
    if IsNumeric(s) {
      if |t| > 0 {
        LiteralChars(t);
      }
      forall k | 0 <= k < |s| ensures IsNumberChar(s[k]) {
        if a <= k < a + |t| {
          assert s[k] == t[k - a];
        }
      }
    }
  }

  /** So a letter such as `g` or `s` anywhere in the answer makes it NaN. */
  lemma OtherCharRejected(s: string, k: nat)
    requires k < |s| && !IsNumberChar(s[k])
    ensures !IsNumeric(s)
  {
    NumericChars(s);
  }

  /** A non-empty run of decimal digits is a number. */
  lemma DigitsAreNumeric(s: string)
    requires |s| > 0 && forall k :: 0 <= k < |s| ==> IsDigit(s[k])
    ensures IsNumeric(s)
  {
    TrimUnchanged(s);
    assert Digits(s, 0) == |s| by { AllDigits(s, 0); }
  }

  lemma {:induction false} AllDigits(s: string, i: nat)
    requires i <= |s| && forall k :: i <= k < |s| ==> IsDigit(s[k])
    ensures Digits(s, i) == |s| - i
    decreases |s| - i
  {
    if i < |s| {
      AllDigits(s, i + 1);
    }
  }

  /** Putting white space around a string does not change whether it is a number. */
  lemma NumericIgnoresPadding(pre: string, s: string, post: string)
    requires forall k :: 0 <= k < |pre| ==> IsSpace(pre[k])
    requires forall k :: 0 <= k < |post| ==> IsSpace(post[k])
    ensures IsNumeric(pre + s + post) <==> IsNumeric(s)
  {
    TrimPadding(pre, s, post);
  }

  // ---------------------------------------------------------------------------
  // Answers to the age question

  lemma TwentyFiveIsNumeric()
    ensures IsNumeric("25")
  {
    DigitsAreNumeric("25");
  }

  lemma PaddedAgeIsNumeric()
    ensures IsNumeric(" 25 ")
  {
    DigitsAreNumeric("25");
    NumericIgnoresPadding(" ", "25", " ");
    assert " " + "25" + " " == " 25 ";
  }

  lemma WordIsNotNumeric()
    ensures !IsNumeric("abc")
  {
    var s := "abc";
    TrimUnchanged(s);
    assert s[0] == 'a' && |s| == 3;
    assert s[0..] != "Infinity";
    assert Digits(s, 0) == 0;
    assert !UnsignedDecimalFrom(s, 0);
  }

  lemma AgeWithUnitIsNotNumeric()
    ensures !IsNumeric("25 years")
  {
    OtherCharRejected("25 years", 6);
  }

  lemma FractionIsNumeric()
    ensures IsNumeric("2.5e1")
  {
    var s := "2.5e1";
    TrimUnchanged(s);
    assert s[0] == '2' && s[1] == '.' && s[2] == '5' && s[3] == 'e' && s[4] == '1';
    assert Digits(s, 0) == 1 by { assert Digits(s, 1) == 0; }
    assert Digits(s, 2) == 1 by { assert Digits(s, 3) == 0; }
    assert Digits(s, 4) == 1 by { assert Digits(s, 5) == 0; }
    assert ExponentRest(s, 3);
    assert UnsignedDecimalFrom(s, 0);
  }

  lemma LonePointIsNotNumeric()
    ensures !IsNumeric(".")
  {
    TrimUnchanged(".");
  }

  lemma HexIsNumeric()
    ensures IsNumeric("0x1F")
  {
    TrimUnchanged("0x1F");
  }

  lemma SignedHexIsNotNumeric()
    ensures !IsNumeric("-0x1F")
  {
    TrimUnchanged("-0x1F");
    assert Digits("-0x1F", 1) == 1;
  }

  lemma InfinityIsNumeric()
    ensures IsNumeric("Infinity")
  {
    TrimUnchanged("Infinity");
  }
}
