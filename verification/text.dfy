/**
  ASCII string primitives with the semantics of the JavaScript and Python built-ins the
  source relies on: `toLowerCase`, `trim`, `includes`, `startsWith`/`endsWith`,
  `split(/\s+/)`, `split(' ')` and `join`. Strings are `seq<char>`; only the ASCII part of
  each built-in is modelled (no Unicode case mapping, no non-ASCII whitespace).
 */
module Text {

  /** The character classes the source's regular expressions and trimming use. */
  datatype CharClass =
    | Whitespace          // ECMAScript `\s` restricted to ASCII: what `trim()` removes
    | CommaOrWhitespace   // the regex class `[,\s]`
    | SentencePunct       // the regex class `[.,!?]`
    | PyWhitespace        // Python `str.isspace` restricted to ASCII: what `strip()` removes

  predicate IsSpace(c: char) {
    c == ' ' || c == '\t' || c == '\n' || c == '\r' || c == '\U{000B}' || c == '\U{000C}'
  }

  /** Python also counts the four ASCII separators (file, group, record, unit) as white space. */
  predicate IsPySpace(c: char) {
    IsSpace(c) || '\U{001C}' <= c <= '\U{001F}'
  }

  predicate In(c: char, cls: CharClass) {
    match cls
    case Whitespace => IsSpace(c)
    case CommaOrWhitespace => c == ',' || IsSpace(c)
    case SentencePunct => c == '.' || c == ',' || c == '!' || c == '?'
    case PyWhitespace => IsPySpace(c)
  }

  /** No character of `s` is whitespace: `s` is a single `\s`-free word. */
  predicate NoSpace(s: string) {
    forall k :: 0 <= k < |s| ==> !IsSpace(s[k])
  }

  predicate IsUpper(c: char) { 'A' <= c <= 'Z' }

  function LowerChar(c: char): char {
    if IsUpper(c) then (c as int + 32) as char else c
  }

  function UpperChar(c: char): char {
    if 'a' <= c <= 'z' then (c as int - 32) as char else c
  }

  /** `s.toLowerCase()` on ASCII text. */
  function ToLower(s: string): (r: string)
    ensures |r| == |s|
    ensures forall k :: 0 <= k < |s| ==> r[k] == LowerChar(s[k])
  {
    if |s| == 0 then "" else [LowerChar(s[0])] + ToLower(s[1..])
  }

  /** `s` has no upper-case ASCII letter, i.e. it is its own lower-case form. */
  predicate IsLowerCase(s: string) {
    forall k :: 0 <= k < |s| ==> !IsUpper(s[k])
  }

  lemma ToLowerIsLowerCase(s: string)
    ensures IsLowerCase(ToLower(s))
    ensures ToLower(ToLower(s)) == ToLower(s)
  {
  }

  lemma ToLowerOfLowerCase(s: string)
    requires IsLowerCase(s)
    ensures ToLower(s) == s
  {
  }

  lemma ToLowerAppend(a: string, b: string)
    ensures ToLower(a + b) == ToLower(a) + ToLower(b)
  {
  }

  /** A character above U+FFFF is a surrogate pair in JavaScript's UTF-16 strings. */
  predicate IsAstral(c: char) {
    c as int > 0xFFFF
  }

  /** `s.length` in JavaScript: UTF-16 code units, two for each character above U+FFFF. */
  function Utf16Length(s: string): (n: nat)
    ensures |s| <= n <= 2 * |s|
  {
    UnitsFrom(s, 0)
  }

  /** The UTF-16 code units of `s[i..]`, counted by position so that no slice is built. */
  function UnitsFrom(s: string, i: nat): (n: nat)
    requires i <= |s|
    ensures |s| - i <= n <= 2 * (|s| - i)
    decreases |s| - i
  {
    if i == |s| then 0 else (if IsAstral(s[i]) then 2 else 1) + UnitsFrom(s, i + 1)
  }

  /** The UTF-16 length depends only on which characters lie above U+FFFF. */
  lemma Utf16LengthPointwise(s: string, t: string)
    requires |s| == |t| && forall k :: 0 <= k < |s| ==> IsAstral(s[k]) == IsAstral(t[k])
    ensures Utf16Length(s) == Utf16Length(t)
  {
    UnitsFromPointwise(s, t, 0);
  }

  lemma {:induction false} UnitsFromPointwise(s: string, t: string, i: nat)
    requires i <= |s| == |t| && forall k :: 0 <= k < |s| ==> IsAstral(s[k]) == IsAstral(t[k])
    ensures UnitsFrom(s, i) == UnitsFrom(t, i)
    decreases |s| - i
  {
    if i < |s| {
      UnitsFromPointwise(s, t, i + 1);
    }
  }

  /** On text within the Basic Multilingual Plane the UTF-16 length is the character count. */
  lemma Utf16LengthOfBmp(s: string)
    requires forall k :: 0 <= k < |s| ==> !IsAstral(s[k])
    ensures Utf16Length(s) == |s|
  {
    UnitsFromBmp(s, 0);
  }

  lemma {:induction false} UnitsFromBmp(s: string, i: nat)
    requires i <= |s| && forall k :: 0 <= k < |s| ==> !IsAstral(s[k])
    ensures UnitsFrom(s, i) == |s| - i
    decreases |s| - i
  {
    if i < |s| {
      UnitsFromBmp(s, i + 1);
    }
  }

  // ---------------------------------------------------------------------------
  // Prefixes, suffixes, substrings

  /** `n[k..]` matches `h` from position `i + k` on, compared character by character. */
  predicate AgreesFrom(h: string, n: string, i: nat, k: nat)
    decreases |n| - k
  {
    k >= |n| || (i + k < |h| && n[k] == h[i + k] && AgreesFrom(h, n, i, k + 1))
  }

  /** `s.startsWith(p)`. */
  predicate IsPrefix(p: string, s: string) {
    AgreesFrom(s, p, 0, 0)
  }

  /** `s.endsWith(p)`. */
  predicate IsSuffix(p: string, s: string) {
    |p| <= |s| && AgreesFrom(s, p, |s| - |p|, 0)
  }

  /** `n[k..]` matches `h` from position `i + k` on when `h` is lower-cased first: the
      comparison a regular expression with the `i` flag makes against a lower-case pattern. */
  predicate AgreesLowerFrom(h: string, n: string, i: nat, k: nat)
    decreases |n| - k
  {
    k >= |n| || (i + k < |h| && n[k] == LowerChar(h[i + k]) && AgreesLowerFrom(h, n, i, k + 1))
  }

  /** `/^p/i.test(s)` for a lower-case `p`. */
  predicate StartsWithIgnoringCase(p: string, s: string) {
    AgreesLowerFrom(s, p, 0, 0)
  }

  /** `/p$/i.test(s)` for a lower-case `p`. */
  predicate EndsWithIgnoringCase(p: string, s: string) {
    |p| <= |s| && AgreesLowerFrom(s, p, |s| - |p|, 0)
  }

  /** `n` occurs in `h` at position `i` or later. */
  predicate ContainsFrom(h: string, n: string, i: nat)
    decreases |h| - i
  {
    i + |n| <= |h| && (AgreesFrom(h, n, i, 0) || ContainsFrom(h, n, i + 1))
  }

  /** `h.includes(n)` (JavaScript) and `n in h` (Python) on strings. */
  predicate Contains(h: string, n: string) {
    ContainsFrom(h, n, 0)
  }

  /** `n` occurs in `h` starting at index `i`. */
  predicate OccursAt(h: string, n: string, i: int) {
    0 <= i && i + |n| <= |h| && h[i..i + |n|] == n
  }

  /** The character-by-character comparison agrees with slice equality. */
  lemma {:induction false} AgreesFromIffSlice(h: string, n: string, i: nat, k: nat)
    requires k <= |n|
    ensures AgreesFrom(h, n, i, k) <==> k == |n| || (i + |n| <= |h| && h[i + k..i + |n|] == n[k..])
    decreases |n| - k
  {
    if k < |n| {
      AgreesFromIffSlice(h, n, i, k + 1);
      assert n[k..] == [n[k]] + n[k + 1..];
      if i + |n| <= |h| {
        assert h[i + k..i + |n|] == [h[i + k]] + h[i + k + 1..i + |n|];
      }
    }
  }

  lemma IsPrefixIffSlice(p: string, s: string)
    ensures IsPrefix(p, s) <==> |p| <= |s| && s[..|p|] == p
  {
    AgreesFromIffSlice(s, p, 0, 0);
  }

  lemma IsSuffixIffSlice(p: string, s: string)
    ensures IsSuffix(p, s) <==> |p| <= |s| && s[|s| - |p|..] == p
  {
    if |p| <= |s| {
      AgreesFromIffSlice(s, p, |s| - |p|, 0);
    }
  }

  /** Comparing against `h` ignoring case is comparing against `l`, its lower-cased form. */
  lemma {:induction false} AgreesLowerFromIff(h: string, l: string, n: string, i: nat, k: nat)
    requires |l| == |h| && forall j :: 0 <= j < |h| ==> l[j] == LowerChar(h[j])
    ensures AgreesLowerFrom(h, n, i, k) <==> AgreesFrom(l, n, i, k)
    decreases |n| - k
  {
    if k < |n| {
      AgreesLowerFromIff(h, l, n, i, k + 1);
    }
  }

  /** Matching a lower-case pattern ignoring case is matching it against the lower-cased text. */
  lemma StartsWithIgnoringCaseIff(p: string, s: string)
    ensures StartsWithIgnoringCase(p, s) <==> IsPrefix(p, ToLower(s))
  {
    var l := ToLower(s);
    AgreesLowerFromIff(s, l, p, 0, 0);
  }

  /** A case-blind suffix is the lower-cased end slice. */
  lemma EndsWithIgnoringCaseSlice(p: string, s: string)
    requires EndsWithIgnoringCase(p, s)
    ensures |p| <= |s| && ToLower(s[|s| - |p|..]) == p
  {
    EndsWithIgnoringCaseIff(p, s);
    IsSuffixIffSlice(p, ToLower(s));
    ToLowerSlice(s, |s| - |p|, |s|);
    assert s[|s| - |p|..] == s[|s| - |p|..|s|];
  }

  lemma EndsWithIgnoringCaseIff(p: string, s: string)
    ensures EndsWithIgnoringCase(p, s) <==> IsSuffix(p, ToLower(s))
  {
    var l := ToLower(s);
    EndsWithLowerIff(p, s, l);
  }

  lemma EndsWithLowerIff(p: string, s: string, l: string)
    requires |l| == |s| && forall j :: 0 <= j < |s| ==> l[j] == LowerChar(s[j])
    ensures EndsWithIgnoringCase(p, s) <==> IsSuffix(p, l)
  {
    if |p| <= |s| {
      AgreesLowerFromIff(s, l, p, |s| - |p|, 0);
    }
  }

  /** `s.startsWith(p + c)`: `s` starts with `p` and has `c` right after it. */
  lemma PrefixThenChar(p: string, c: char, s: string)
    ensures IsPrefix(p + [c], s) <==> |p| < |s| && IsPrefix(p, s) && s[|p|] == c
  {
    IsPrefixIffSlice(p + [c], s);
    IsPrefixIffSlice(p, s);
    if |p| < |s| {
      assert s[..|p| + 1] == s[..|p|] + [s[|p|]];
    }
  }

  /** `s.endsWith(c + p)`: `s` ends with `p` and has `c` right before it. */
  lemma CharThenSuffix(c: char, p: string, s: string)
    ensures IsSuffix([c] + p, s) <==> |p| < |s| && IsSuffix(p, s) && s[|s| - |p| - 1] == c
  {
    IsSuffixIffSlice([c] + p, s);
    IsSuffixIffSlice(p, s);
    if |p| < |s| {
      assert s[|s| - |p| - 1..] == [s[|s| - |p| - 1]] + s[|s| - |p|..];
    }
  }

  lemma {:induction false} ContainsFromIffOccurs(h: string, n: string, i: nat)
    ensures ContainsFrom(h, n, i) <==> exists j :: i <= j && OccursAt(h, n, j)
    decreases |h| - i
  {
    if i + |n| <= |h| {
      AgreesFromIffSlice(h, n, i, 0);
      ContainsFromIffOccurs(h, n, i + 1);
      if AgreesFrom(h, n, i, 0) {
        assert OccursAt(h, n, i);
      }
    } else {
      forall j | i <= j ensures !OccursAt(h, n, j) {
      }
    }
  }

  /** The recursive `Contains` agrees with the positional definition of a substring. */
  lemma ContainsIffOccurs(h: string, n: string)
    ensures Contains(h, n) <==> exists i :: OccursAt(h, n, i)
  {
    ContainsFromIffOccurs(h, n, 0);
  }

  lemma OccursAtContains(h: string, n: string, i: int)
    requires OccursAt(h, n, i)
    ensures Contains(h, n)
  {
    ContainsIffOccurs(h, n);
  }

  /** Every string contains itself (so JavaScript's `===` test is subsumed by `includes`). */
  lemma ContainsSelf(s: string)
    ensures Contains(s, s)
  {
    assert OccursAt(s, s, 0);
    OccursAtContains(s, s, 0);
  }

  /** Every string contains the empty string. */
  lemma ContainsEmpty(s: string)
    ensures Contains(s, "")
  {
    assert OccursAt(s, "", 0);
    OccursAtContains(s, "", 0);
  }

  /** Containment is preserved by widening the haystack on either side. */
  lemma ContainsWithin(a: string, h: string, b: string, n: string)
    requires Contains(h, n)
    ensures Contains(a + h + b, n)
  {
    ContainsIffOccurs(h, n);
    var i :| OccursAt(h, n, i);
    assert (a + h + b)[|a| + i..|a| + i + |n|] == h[i..i + |n|];
    OccursAtContains(a + h + b, n, |a| + i);
  }

  /** A needle longer than `h` does not occur in it. */
  lemma LongerNotContained(h: string, n: string)
    requires |n| > |h|
    ensures !Contains(h, n)
  {
  }

  /** A character absent from `h` rules out every needle that has it. */
  lemma MissingCharNotContained(h: string, n: string, c: char)
    requires c in n && c !in h
    ensures !Contains(h, n)
  {
    var k :| 0 <= k < |n| && n[k] == c;
    forall i | 0 <= i && i + |n| <= |h| ensures !OccursAt(h, n, i) {
      assert h[i..i + |n|][k] == h[i + k] != c;
    }
    ContainsIffOccurs(h, n);
  }

  // ---------------------------------------------------------------------------
  // Runs of a character class, trimming

  /** Length of the longest prefix of `s` whose characters are (`inside`) or are not in `cls`. */
  function Span(s: string, cls: CharClass, inside: bool): (n: nat)
    ensures n <= |s|
    ensures forall k :: 0 <= k < n ==> In(s[k], cls) == inside
    ensures n < |s| ==> In(s[n], cls) != inside
  {
    if |s| > 0 && In(s[0], cls) == inside then 1 + Span(s[1..], cls, inside) else 0
  }

  /** `Span` is determined by its contract: the first position whose character changes side. */
  lemma SpanUnique(s: string, cls: CharClass, inside: bool, n: nat)
    requires n <= |s|
    requires forall k :: 0 <= k < n ==> In(s[k], cls) == inside
    requires n < |s| ==> In(s[n], cls) != inside
    ensures Span(s, cls, inside) == n
  {
    var p := Span(s, cls, inside);
    assert p < |s| ==> In(s[p], cls) != inside;
    assert !(p < n);
    assert !(n < p);
  }

  /** Length of the longest suffix of `s` whose characters are all in `cls`. */
  function SpanEnd(s: string, cls: CharClass): (n: nat)
    ensures n <= |s|
    ensures forall k :: |s| - n <= k < |s| ==> In(s[k], cls)
    ensures n < |s| ==> !In(s[|s| - n - 1], cls)
  {
    if |s| > 0 && In(s[|s| - 1], cls) then 1 + SpanEnd(s[..|s| - 1], cls) else 0
  }

  /** `s` with its longest all-`cls` suffix removed (`s.replace(/[cls]+$/, '')`). */
  function DropEnd(s: string, cls: CharClass): string {
    s[..|s| - SpanEnd(s, cls)]
  }

  /** What `DropEnd` keeps: a prefix, after which everything is in the class, and which does
      not itself end in the class. */
  lemma DropEndSpec(s: string, cls: CharClass)
    ensures var r := DropEnd(s, cls);
      && |r| <= |s| && r == s[..|r|]
      && (forall k :: |r| <= k < |s| ==> In(s[k], cls))
      && (|r| > 0 ==> !In(r[|r| - 1], cls))
  {
    var n := SpanEnd(s, cls);
    var r := DropEnd(s, cls);
    if |r| > 0 {
      assert r[|r| - 1] == s[|s| - n - 1];
    }
  }

  /** `s.trim()`. */
  function Trim(s: string): string {
    var t := s[Span(s, Whitespace, true)..];
    DropEnd(t, Whitespace)
  }

  /** Python's `s.strip()`: like `trim()`, but with Python's set of white-space characters. */
  function Strip(s: string): string {
    var t := s[Span(s, PyWhitespace, true)..];
    DropEnd(t, PyWhitespace)
  }

  /** `strip()` leaves nothing exactly when every character is Python white space. */
  lemma StripBlankIff(s: string)
    ensures Strip(s) == "" <==> forall k :: 0 <= k < |s| ==> IsPySpace(s[k])
  {
    var a := Span(s, PyWhitespace, true);
    var t := s[a..];
    if exists k :: 0 <= k < |s| && !IsPySpace(s[k]) {
      var k :| 0 <= k < |s| && !IsPySpace(s[k]);
      assert a <= k;
      assert t[0] == s[a] && !In(t[0], PyWhitespace);
      assert SpanEnd(t, PyWhitespace) < |t|;
    } else {
      SpanUnique(s, PyWhitespace, true, |s|);
    }
  }

  /** What `strip()` keeps is a slice of the text that neither starts nor ends with Python
      white space. */
  lemma StripEdges(s: string)
    ensures var r := Strip(s);
      && |r| <= |s|
      && (|r| > 0 ==> !IsPySpace(r[0]) && !IsPySpace(r[|r| - 1]))
  {
    var a := Span(s, PyWhitespace, true);
    var t := s[a..];
    DropEndSpec(t, PyWhitespace);
    var r := Strip(s);
    if |r| > 0 {
      assert r[0] == t[0] == s[a];
      assert In(r[|r| - 1], PyWhitespace) == IsPySpace(r[|r| - 1]);
    }
  }

  /** `strip()` removes a unit separator that `trim()` keeps. */
  lemma UnitSeparatorStripped()
    ensures Strip("\U{001F}") == ""
    ensures Trim("\U{001F}") == "\U{001F}"
  {
    StripBlankIff("\U{001F}");
    TrimUnchanged("\U{001F}");
  }

  /** `r` is the slice of `s` from `a` on, preceded and followed only by whitespace, with no
      whitespace at either of its ends. */
  predicate TrimmedSlice(s: string, a: nat, r: string) {
    && a + |r| <= |s|
    && r == s[a..a + |r|]
    && (|r| > 0 ==> !IsSpace(r[0]) && !IsSpace(r[|r| - 1]))
    && (|r| > 0 ==> !IsSpace(s[a]) && !IsSpace(s[a + |r| - 1]))
    && (forall k :: 0 <= k < a ==> IsSpace(s[k]))
    && (forall k :: a + |r| <= k < |s| ==> IsSpace(s[k]))
  }

  /** What `trim()` returns: a slice of `s`, cut only at whitespace, with no whitespace at either end. */
  lemma TrimSpec(s: string)
    ensures |Trim(s)| <= |s|
    ensures TrimmedSlice(s, Span(s, Whitespace, true), Trim(s))
  {
    var a := Span(s, Whitespace, true);
    var t := s[a..];
    var r := Trim(s);
    assert r == DropEnd(t, Whitespace);
    DropEndSpec(t, Whitespace);
    TrimSlice(s, a, t, r);
  }

  /** The facts of `TrimSpec` for a leading cut `a` and a trailing cut `r` of `t == s[a..]`. */
  lemma TrimSlice(s: string, a: nat, t: string, r: string)
    requires a <= |s| && t == s[a..]
    requires forall k :: 0 <= k < a ==> IsSpace(s[k])
    requires a < |s| ==> !IsSpace(s[a])
    requires |r| <= |t| && r == t[..|r|]
    requires forall k :: |r| <= k < |t| ==> In(t[k], Whitespace)
    requires |r| > 0 ==> !In(r[|r| - 1], Whitespace)
    ensures TrimmedSlice(s, a, r)
  {
    if |r| > 0 {
      assert r[0] == s[a];
      assert r[|r| - 1] == s[a + |r| - 1];
    }
    forall k | a + |r| <= k < |s| ensures IsSpace(s[k]) {
      assert t[k - a] == s[k];
      assert In(t[k - a], Whitespace);
    }
  }

  /** What `trim()` returns starts and ends with a non-white character. */
  lemma TrimEdges(s: string)
    ensures var r := Trim(s); |r| > 0 ==> !IsSpace(r[0]) && !IsSpace(r[|r| - 1])
  {
    TrimSpec(s);
  }

  /** Trimming a string with no whitespace at its ends changes nothing. */
  lemma TrimUnchanged(s: string)
    requires |s| > 0 ==> !IsSpace(s[0]) && !IsSpace(s[|s| - 1])
    ensures Trim(s) == s
  {
  }

  /** A string of whitespace only trims to the empty string. */
  lemma TrimAllSpace(s: string)
    requires forall k :: 0 <= k < |s| ==> IsSpace(s[k])
    ensures Trim(s) == ""
  {
  }

  /** A text with a non-white character does not trim to nothing. */
  lemma TrimNotEmpty(s: string)
    requires exists k :: 0 <= k < |s| && !IsSpace(s[k])
    ensures Trim(s) != ""
  {
    TrimSpec(s);
  }

  /** `trim()` is determined by where the first and last non-white characters are: the slice
      between them, or nothing when there are none. */
  lemma TrimUnique(s: string, a: nat, b: nat)
    requires a <= b <= |s|
    requires forall k :: 0 <= k < a ==> IsSpace(s[k])
    requires forall k :: b <= k < |s| ==> IsSpace(s[k])
    requires a < b ==> !IsSpace(s[a]) && !IsSpace(s[b - 1])
    ensures Trim(s) == s[a..b]
  {
    TrimSpec(s);
    var r := Trim(s);
    if a < b {
      SpanUnique(s, Whitespace, true, a);
      assert b - 1 < a + |r| by {
        assert !IsSpace(s[b - 1]);
      }
      assert r[|r| - 1] == s[a + |r| - 1];
      assert a + |r| - 1 < b by {
        assert !IsSpace(s[a + |r| - 1]);
      }
    } else {
      TrimAllSpace(s);
    }
  }

  /** White space added at either end is removed again by `trim()`. */
  lemma TrimPadding(pre: string, s: string, post: string)
    requires forall k :: 0 <= k < |pre| ==> IsSpace(pre[k])
    requires forall k :: 0 <= k < |post| ==> IsSpace(post[k])
    ensures Trim(pre + s + post) == Trim(s)
  {
    var ps := pre + s;
    var u := ps + post;
    var r := Trim(s);
    TrimSpec(s);
    var a := Span(s, Whitespace, true);
    var i, j := |pre| + a, |pre| + a + |r|;
    forall k | 0 <= k < |u| ensures |pre| <= k < |ps| ==> u[k] == s[k - |pre|] {
      if k < |ps| { assert u[k] == ps[k]; }
    }
    forall k | 0 <= k < i ensures IsSpace(u[k]) {
      if k < |pre| { assert u[k] == ps[k] == pre[k]; }
    }
    forall k | j <= k < |u| ensures IsSpace(u[k]) {
      if k >= |ps| { assert u[k] == post[k - |ps|]; }
    }
    assert u[i..j] == r by {
      forall k | 0 <= k < |r| ensures u[i..j][k] == r[k] {
        assert r[k] == s[a + k];
      }
    }
    if i < j {
      assert u[i] == r[0] && u[j - 1] == r[|r| - 1];
    }
    TrimUnique(u, i, j);
  }

  /** Trimming the lower-cased text `l` of `s` cuts it where trimming `s` itself does, from
      `a` to `b`. */
  lemma TrimOfLower(s: string, l: string, a: nat, b: nat)
    requires |l| == |s| && forall k :: 0 <= k < |s| ==> l[k] == LowerChar(s[k])
    requires a == Span(s, Whitespace, true) && b == a + |Trim(s)|
    ensures b <= |l| && Trim(l) == l[a..b]
  {
    TrimSpec(s);
    assert TrimmedSlice(s, a, Trim(s));
    forall k | 0 <= k < |s| ensures IsSpace(l[k]) == IsSpace(s[k]) {
      assert l[k] == LowerChar(s[k]);
    }
    SameSpacesSameTrimBounds(s, l, a, b);
  }

  /** Two texts with white space at the same positions are trimmed at the same positions. */
  lemma SameSpacesSameTrimBounds(s: string, l: string, a: nat, b: nat)
    requires |l| == |s| && forall k :: 0 <= k < |s| ==> IsSpace(l[k]) == IsSpace(s[k])
    requires a <= b <= |s|
    requires forall k :: 0 <= k < a ==> IsSpace(s[k])
    requires forall k :: b <= k < |s| ==> IsSpace(s[k])
    requires a < b ==> !IsSpace(s[a]) && !IsSpace(s[b - 1])
    ensures Trim(l) == l[a..b]
  {
    TrimUnique(l, a, b);
  }

  /** Lower-casing and trimming commute, so `lower(trim(s)) == trim(lower(s))`. */
  lemma TrimToLowerCommute(s: string)
    ensures Trim(ToLower(s)) == ToLower(Trim(s))
  {
    var l := ToLower(s);
    var a := Span(s, Whitespace, true);
    var b := a + |Trim(s)|;
    TrimOfLower(s, l, a, b);
    TrimIsSlice(s, a, b);
    ToLowerSlice(s, a, b);
  }

  /** `trim()` cuts `s` from `a` to `b`. */
  lemma TrimIsSlice(s: string, a: nat, b: nat)
    requires a == Span(s, Whitespace, true) && b == a + |Trim(s)|
    ensures b <= |s| && Trim(s) == s[a..b]
  {
    TrimSpec(s);
    assert TrimmedSlice(s, a, Trim(s));
  }

  /** Lower-casing a slice is slicing the lower-cased string. */
  lemma ToLowerSlice(s: string, i: nat, j: nat)
    requires i <= j <= |s|
    ensures ToLower(s[i..j]) == ToLower(s)[i..j]
  {
  }

  // ---------------------------------------------------------------------------
  // Joining and splitting

  /** `parts.join(sep)`. */
  function Join(parts: seq<string>, sep: string): string {
    if |parts| == 0 then ""
    else if |parts| == 1 then parts[0]
    else parts[0] + sep + Join(parts[1..], sep)
  }

  /** `s.split(/\s+/)`: the pieces between maximal whitespace runs, keeping the empty piece
      before leading or after trailing whitespace, and `[""]` for the empty string. */
  function Split(s: string): (r: seq<string>)
    ensures |r| >= 1
    ensures forall i :: 0 <= i < |r| ==> NoSpace(r[i])
    decreases |s|
  {
    var n := Span(s, Whitespace, false);
    if n == |s| then [s]
    else
      var m := n + Span(s[n..], Whitespace, true);
      [s[..n]] + Split(s[m..])
  }

  /** `s.split(c)` for a one-character separator: the pieces between consecutive `c`s. */
  function SplitOn(s: string, c: char): (r: seq<string>)
    ensures |r| >= 1
    ensures forall i :: 0 <= i < |r| ==> c !in r[i]
    ensures Join(r, [c]) == s
    decreases |s|
  {
    var n := IndexOf(s, c);
    if n == |s| then [s]
    else
      var rest := SplitOn(s[n + 1..], c);
      assert Join([s[..n]] + rest, [c]) == s[..n] + [c] + Join(rest, [c]);
      assert s == s[..n] + [c] + s[n + 1..];
      [s[..n]] + rest
  }

  /** Index of the first `c` in `s`, or `|s|` when there is none. */
  function IndexOf(s: string, c: char): (n: nat)
    ensures n <= |s|
    ensures c !in s[..n]
    ensures n < |s| ==> s[n] == c
  {
    if |s| == 0 then 0
    else if s[0] == c then 0
    else
      var n := 1 + IndexOf(s[1..], c);
      assert s[..n] == [s[0]] + s[1..][..n - 1];
      n
  }

  /** Splitting on a separator undoes joining with it, when no part contains the separator. */
  lemma {:induction false} SplitOnJoin(parts: seq<string>, c: char)
    requires |parts| >= 1
    requires forall i :: 0 <= i < |parts| ==> c !in parts[i]
    ensures SplitOn(Join(parts, [c]), c) == parts
    decreases |parts|
  {
    var s := Join(parts, [c]);
    if |parts| == 1 {
      assert IndexOf(s, c) == |s|;
    } else {
      var w := parts[0];
      var rest := Join(parts[1..], [c]);
      assert s == w + [c] + rest;
      var n := IndexOf(s, c);
      assert s[|w|] == c && s[..|w|] == w;
      assert n <= |w| ==> c !in s[..n] && s[..n] == w[..n];
      assert n == |w|;
      assert s[n + 1..] == rest;
      SplitOnJoin(parts[1..], c);
      assert parts == [w] + parts[1..];
    }
  }

  /** A word, one space and a text that starts with no whitespace split into the word and
      the pieces of the text. */
  lemma SplitCons(w: string, rest: string)
    requires |w| > 0 && NoSpace(w)
    requires |rest| > 0 && !In(rest[0], Whitespace)
    ensures Split(w + " " + rest) == [w] + Split(rest)
  {
    var a := w + " ";
    var s := a + rest;
    var n := |w|;
    assert s[..n] == w by {
      assert s[..|a|] == a;
      assert a[..n] == w;
    }
    assert s[n + 1..] == rest;
    forall k | 0 <= k < n ensures !In(s[k], Whitespace) {
      assert s[k] == w[k];
    }
    assert s[n] == ' ';
    SpanUnique(s, Whitespace, false, n);
    var u := s[n..];
    assert u[0] == ' ' && u[1] == rest[0];
    assert !In(u[1], Whitespace);
    SpanUnique(u, Whitespace, true, 1);
    assert Split(s) == [s[..n]] + Split(s[n + 1..]);
  }

  /** Splitting on whitespace undoes joining non-empty single words with one space. */
  lemma {:induction false} SplitJoin(ws: seq<string>)
    requires |ws| >= 1
    requires forall i :: 0 <= i < |ws| ==> |ws[i]| > 0 && NoSpace(ws[i])
    ensures Split(Join(ws, " ")) == ws
    decreases |ws|
  {
    if |ws| == 1 {
      var s := Join(ws, " ");
      assert forall k :: 0 <= k < |s| ==> !In(s[k], Whitespace);
      assert Span(s, Whitespace, false) == |s|;
    } else {
      var rest := Join(ws[1..], " ");
      assert Join(ws, " ") == ws[0] + " " + rest;
      assert |rest| > 0 && rest[0] == ws[1][0] by {
        JoinStartsWithFirst(ws[1..], " ");
      }
      SplitCons(ws[0], rest);
      SplitJoin(ws[1..]);
      assert ws == [ws[0]] + ws[1..];
    }
  }

  lemma JoinStartsWithFirst(ws: seq<string>, sep: string)
    requires |ws| >= 1
    ensures var j := Join(ws, sep); |ws[0]| <= |j| && j[..|ws[0]|] == ws[0]
  {
  }

  lemma {:induction false} JoinEndsWithLast(ws: seq<string>, sep: string)
    requires |ws| >= 1
    ensures var j, last := Join(ws, sep), ws[|ws| - 1];
      |last| <= |j| && j[|j| - |last|..] == last
    decreases |ws|
  {
    if |ws| >= 2 {
      JoinEndsWithLast(ws[1..], sep);
      var rest := Join(ws[1..], sep);
      assert Join(ws, sep) == (ws[0] + sep) + rest;
    }
  }

  /** Joining two non-empty lists is joining each and putting the separator between. */
  lemma {:induction false} JoinAppend(a: seq<string>, b: seq<string>, sep: string)
    requires |a| >= 1 && |b| >= 1
    ensures Join(a + b, sep) == Join(a, sep) + sep + Join(b, sep)
    decreases |a|
  {
    if |a| >= 2 {
      assert (a + b)[1..] == a[1..] + b;
      JoinAppend(a[1..], b, sep);
    }
  }

  /** Every word of `ws` is already lower-case, so lower-casing the list changes nothing. */
  lemma LowerAllOfLowerCase(ws: seq<string>)
    requires forall i :: 0 <= i < |ws| ==> IsLowerCase(ws[i])
    ensures LowerAll(ws) == ws
  {
    forall i | 0 <= i < |ws| ensures LowerAll(ws)[i] == ws[i] {
      ToLowerOfLowerCase(ws[i]);
    }
  }

  /** Single words joined by single spaces have no whitespace to trim. */
  lemma TrimJoinUnchanged(ws: seq<string>)
    requires |ws| >= 1
    requires forall i :: 0 <= i < |ws| ==> |ws[i]| > 0 && NoSpace(ws[i])
    ensures Trim(Join(ws, " ")) == Join(ws, " ")
  {
    var s := Join(ws, " ");
    JoinStartsWithFirst(ws, " ");
    JoinEndsWithLast(ws, " ");
    assert s[0] == ws[0][0];
    var last := ws[|ws| - 1];
    assert s[|s| - 1] == last[|last| - 1];
    TrimUnchanged(s);
  }

  /** Lower-casing distributes over joining. */
  lemma {:induction false} ToLowerJoin(ws: seq<string>, sep: string)
    ensures ToLower(Join(ws, sep)) == Join(LowerAll(ws), ToLower(sep))
    decreases |ws|
  {
    if |ws| >= 2 {
      ToLowerAppend(ws[0] + sep, Join(ws[1..], sep));
      ToLowerAppend(ws[0], sep);
      ToLowerJoin(ws[1..], sep);
      assert LowerAll(ws)[1..] == LowerAll(ws[1..]);
    }
  }

  /** Every string of `ws` lower-cased. */
  function LowerAll(ws: seq<string>): (r: seq<string>)
    ensures |r| == |ws|
    ensures forall i :: 0 <= i < |ws| ==> r[i] == ToLower(ws[i])
  {
    if |ws| == 0 then [] else [ToLower(ws[0])] + LowerAll(ws[1..])
  }
}
