/**
  The answer to the name question in `handleUserInfo` (src/App.tsx): the test for an answer
  that is only a greeting, the four regular-expression replacements that strip a leading
  greeting, a self-introduction, a trailing greeting and trailing punctuation, and the
  capitalisation of each space-separated word of what is left.
 */
module Names {
  import opened Options
  import opened Text

  /** `greetingWords`, which is also the alternation of both greeting patterns, in order. */
  const Greetings: seq<string> := ["hi", "hello", "hey", "good morning", "good afternoon", "good evening"]

  /** The alternation of `iAmPattern`, in order. */
  const Intros: seq<string> := ["i am", "i'm", "my name is", "this is", "it's", "its"]

  // ---------------------------------------------------------------------------
  // Greeting-only answers

  /** `s.replace(c, '')` with a one-character string pattern: only the first `c` is removed. */
  function RemoveFirst(s: string, c: char): (r: string)
    ensures c !in s ==> r == s
    ensures c in s ==> exists i :: 0 <= i < |s| && s[i] == c && c !in s[..i] && r == s[..i] + s[i + 1..]
  {
    var i := IndexOf(s, c);
    if i == |s| then s else s[..i] + s[i + 1..]
  }

  /** One greeting's test inside `isOnlyGreeting`, on the lower-cased, trimmed answer `u`:
      `u` is the greeting, starts with it and a space, ends with a space and it, or is the
      greeting with its first space removed. */
  predicate GreetingOnly(u: string, g: string) {
    u == g ||
    (|g| < |u| && IsPrefix(g, u) && u[|g|] == ' ') ||
    (|g| < |u| && IsSuffix(g, u) && u[|u| - |g| - 1] == ' ') ||
    u == RemoveFirst(g, ' ')
  }

  /** The tests above are `u === g`, `u.startsWith(g + ' ')`, `u.endsWith(' ' + g)` and
      `u === g.replace(' ', '')`. */
  lemma GreetingOnlyIff(u: string, g: string)
    ensures GreetingOnly(u, g) <==>
      u == g || IsPrefix(g + " ", u) || IsSuffix(" " + g, u) || u == RemoveFirst(g, ' ')
  {
    PrefixThenChar(g, ' ', u);
    CharThenSuffix(' ', g, u);
  }

  /** `gs.some(g => GreetingOnly(u, g))`. */
  predicate AnyGreetingOnly(u: string, gs: seq<string>)
    decreases |gs|
  {
    |gs| > 0 && (GreetingOnly(u, gs[0]) || AnyGreetingOnly(u, gs[1..]))
  }

  /** `isOnlyGreeting` for the raw answer. */
  predicate IsOnlyGreeting(answer: string) {
    AnyGreetingOnly(Trim(ToLower(answer)), Greetings)
  }

  lemma {:induction false} AnyGreetingOnlyIff(u: string, gs: seq<string>)
    ensures AnyGreetingOnly(u, gs) <==> exists i :: 0 <= i < |gs| && GreetingOnly(u, gs[i])
    decreases |gs|
  {
    if |gs| > 0 {
      AnyGreetingOnlyIff(u, gs[1..]);
      if AnyGreetingOnly(u, gs[1..]) {
        var i :| 0 <= i < |gs[1..]| && GreetingOnly(u, gs[1..][i]);
        assert GreetingOnly(u, gs[i + 1]);
      }
      forall i | 1 <= i < |gs| && GreetingOnly(u, gs[i]) ensures AnyGreetingOnly(u, gs[1..]) {
        assert gs[1..][i - 1] == gs[i];
      }
    }
  }

  /** The answer is only a greeting iff one of the six greetings passes one of its four tests. */
  lemma IsOnlyGreetingIff(answer: string)
    ensures IsOnlyGreeting(answer) <==>
      exists i :: 0 <= i < |Greetings| && GreetingOnly(Trim(ToLower(answer)), Greetings[i])
  {
    AnyGreetingOnlyIff(Trim(ToLower(answer)), Greetings);
  }

  // ---------------------------------------------------------------------------
  // The regular-expression replacements

  /** Where an alternative of a pattern has to sit in the text. */
  datatype Anchor =
    | Leading          // `^(...)`
    | LeadingThenSpace // `^(...)\s+`
    | Trailing         // `(...)$`

  /** Alternative `a` matches `s` at the anchor, ignoring case (every pattern has the `i` flag). */
  predicate Fits(s: string, a: string, anchor: Anchor) {
    match anchor
    case Leading => StartsWithIgnoringCase(a, s)
    case LeadingThenSpace => StartsWithIgnoringCase(a, s) && |a| < |s| && IsSpace(s[|a|])
    case Trailing => EndsWithIgnoringCase(a, s)
  }

  /** The first alternative from position `from` on that fits: the alternative the regular
      expression engine commits to, since it tries them in order. */
  function FirstFit(s: string, alts: seq<string>, anchor: Anchor, from: nat): (r: Option<nat>)
    requires from <= |alts|
    ensures r.Some? ==> from <= r.value < |alts| && Fits(s, alts[r.value], anchor)
    ensures r.Some? ==> forall j :: from <= j < r.value ==> !Fits(s, alts[j], anchor)
    ensures r.None? ==> forall j :: from <= j < |alts| ==> !Fits(s, alts[j], anchor)
    decreases |alts| - from
  {
    if from == |alts| then None
    else if Fits(s, alts[from], anchor) then Some(from)
    else FirstFit(s, alts, anchor, from + 1)
  }

  /** `s.replace(/^(hi|hello|hey|good morning|good afternoon|good evening)[,\s]*\/i, '')`. */
  function StripLeadingGreeting(s: string): (r: string)
    ensures |r| <= |s| && r == s[|s| - |r|..]
  {
    match FirstFit(s, Greetings, Leading, 0)
    case None => s
    case Some(i) =>
      StartsWithIgnoringCaseIff(Greetings[i], s);
      IsPrefixIffSlice(Greetings[i], ToLower(s));
      var rest := s[|Greetings[i]|..];
      rest[Span(rest, CommaOrWhitespace, true)..]
  }

  /** `s.replace(/^(i am|i'm|my name is|this is|it's|its)\s+/i, '')`. */
  function StripIntro(s: string): (r: string)
    ensures |r| < |s| || r == s
    ensures r == s[|s| - |r|..]
  {
    match FirstFit(s, Intros, LeadingThenSpace, 0)
    case None => s
    case Some(i) =>
      var rest := s[|Intros[i]|..];
      rest[Span(rest, Whitespace, true)..]
  }

  /** `s.replace(/[,\s]*(hi|hello|hey|good morning|good afternoon|good evening)$/i, '')`.
      The leftmost match begins at the start of the longest comma/white-space run in front of
      the greeting, so that whole run goes with it. */
  function StripTrailingGreeting(s: string): (r: string)
    ensures |r| <= |s| && r == s[..|r|]
  {
    match FirstFit(s, Greetings, Trailing, 0)
    case None => s
    case Some(i) =>
      var body := s[..|s| - |Greetings[i]|];
      DropEnd(body, CommaOrWhitespace)
  }

  /** The greeting the leading pattern removes, when there is one. */
  function LeadingGreeting(s: string): Option<string> {
    match FirstFit(s, Greetings, Leading, 0)
    case None => None
    case Some(i) => Some(Greetings[i])
  }

  /** What the leading replacement removes: a greeting (in any case) and then the longest run
      of commas and white space; without a greeting nothing changes. */
  lemma StripLeadingGreetingSpec(s: string)
    ensures var r := StripLeadingGreeting(s);
      match LeadingGreeting(s)
      case None => r == s && forall j :: 0 <= j < |Greetings| ==> !StartsWithIgnoringCase(Greetings[j], s)
      case Some(g) =>
        && |g| + |r| <= |s|
        && ToLower(s[..|g|]) == g
        && (forall k :: |g| <= k < |s| - |r| ==> In(s[k], CommaOrWhitespace))
        && (|r| > 0 ==> !In(r[0], CommaOrWhitespace))
  {
    match FirstFit(s, Greetings, Leading, 0)
    case None =>
    case Some(i) =>
      var g := Greetings[i];
      StartsWithIgnoringCaseIff(g, s);
      IsPrefixIffSlice(g, ToLower(s));
      assert ToLower(s)[..|g|] == ToLower(s[..|g|]);
      var rest := s[|g|..];
      var n := Span(rest, CommaOrWhitespace, true);
      forall k | |g| <= k < |g| + n ensures In(s[k], CommaOrWhitespace) {
        assert s[k] == rest[k - |g|];
      }
  }

  /** What the introduction replacement removes: a phrase (in any case) and then the longest
      run of white space, which must not be empty; otherwise nothing changes. */
  lemma StripIntroSpec(s: string)
    ensures var r := StripIntro(s);
      match FirstFit(s, Intros, LeadingThenSpace, 0)
      case None => r == s
      case Some(i) =>
        var p := Intros[i];
        && |p| < |s| - |r|
        && ToLower(s[..|p|]) == p
        && (forall k :: |p| <= k < |s| - |r| ==> IsSpace(s[k]))
        && (|r| > 0 ==> !IsSpace(r[0]))
  {
    match FirstFit(s, Intros, LeadingThenSpace, 0)
    case None =>
    case Some(i) =>
      var p := Intros[i];
      StartsWithIgnoringCaseIff(p, s);
      IsPrefixIffSlice(p, ToLower(s));
      assert ToLower(s)[..|p|] == ToLower(s[..|p|]);
      var rest := s[|p|..];
      var n := Span(rest, Whitespace, true);
      assert rest[0] == s[|p|];
      forall k | |p| <= k < |p| + n ensures IsSpace(s[k]) {
        assert s[k] == rest[k - |p|];
      }
  }

  /** What the trailing replacement removes: the longest run of commas and white space and
      then a greeting (in any case) that ends the text; without one nothing changes. */
  lemma StripTrailingGreetingSpec(s: string)
    ensures var r := StripTrailingGreeting(s);
      match FirstFit(s, Greetings, Trailing, 0)
      case None => r == s
      case Some(i) =>
        var g := Greetings[i];
        && |r| + |g| <= |s|
        && ToLower(s[|s| - |g|..]) == g
        && (forall k :: |r| <= k < |s| - |g| ==> In(s[k], CommaOrWhitespace))
        && (|r| > 0 ==> !In(r[|r| - 1], CommaOrWhitespace))
  {
    match FirstFit(s, Greetings, Trailing, 0)
    case None =>
    case Some(i) =>
      var g := Greetings[i];
      assert StripTrailingGreeting(s) == DropEnd(s[..|s| - |g|], CommaOrWhitespace);
      TrailingGreetingCut(s, g);
  }

  /** Removing the greeting `g` that ends `s` and then the commas and white space before it. */
  lemma TrailingGreetingCut(s: string, g: string)
    requires EndsWithIgnoringCase(g, s)
    ensures var r := DropEnd(s[..|s| - |g|], CommaOrWhitespace);
      && |r| + |g| <= |s|
      && ToLower(s[|s| - |g|..]) == g
      && (forall k :: |r| <= k < |s| - |g| ==> In(s[k], CommaOrWhitespace))
      && (|r| > 0 ==> !In(r[|r| - 1], CommaOrWhitespace))
  {
    EndsWithIgnoringCaseSlice(g, s);
    var body := s[..|s| - |g|];
    DropEndSpec(body, CommaOrWhitespace);
    var r := DropEnd(body, CommaOrWhitespace);
    forall k | |r| <= k < |body| ensures In(s[k], CommaOrWhitespace) {
      assert s[k] == body[k];
    }
  }

  // ---------------------------------------------------------------------------
  // Capitalisation

  /** `word.charAt(0).toUpperCase() + word.slice(1).toLowerCase()`. */
  function TitleWord(w: string): (r: string)
    ensures |r| == |w|
  {
    if |w| == 0 then w else [UpperChar(w[0])] + ToLower(w[1..])
  }

  function TitleAll(ws: seq<string>): (r: seq<string>)
    ensures |r| == |ws|
    ensures forall i :: 0 <= i < |ws| ==> r[i] == TitleWord(ws[i])
  {
    if |ws| == 0 then [] else [TitleWord(ws[0])] + TitleAll(ws[1..])
  }

  /** `s.split(' ').map(TitleWord).join(' ')`. */
  function TitleCase(s: string): string {
    Join(TitleAll(SplitOn(s, ' ')), " ")
  }

  /** The character of the capitalised text at position `k`: upper-cased at the start of the
      text and after a space, lower-cased everywhere else. */
  function TitleChar(s: string, k: nat): char
    requires k < |s|
  {
    if k == 0 || s[k - 1] == ' ' then UpperChar(s[k]) else LowerChar(s[k])
  }

  /** A text without spaces is one word. */
  lemma TitleCaseOneWord(s: string)
    requires ' ' !in s
    ensures TitleCase(s) == TitleWord(s)
  {
    assert SplitOn(s, ' ') == [s];
  }

  /** Capitalising text with a space at `n` capitalises the word before it and the text after. */
  lemma TitleCaseSplit(s: string, n: nat)
    requires n == IndexOf(s, ' ') < |s|
    ensures TitleCase(s) == TitleWord(s[..n]) + " " + TitleCase(s[n + 1..])
  {
    var rest := s[n + 1..];
    var tail := TitleAll(SplitOn(rest, ' '));
    assert SplitOn(s, ' ') == [s[..n]] + SplitOn(rest, ' ');
    assert TitleAll(SplitOn(s, ' ')) == [TitleWord(s[..n])] + tail;
  }

  lemma TitleWordChars(w: string)
    ensures forall k :: 0 < k < |w| ==> TitleWord(w)[k] == LowerChar(w[k])
    ensures |w| > 0 ==> TitleWord(w)[0] == UpperChar(w[0])
  {
  }

  /** Capitalisation works character by character: it keeps the length and the spaces and
      changes each character according to what precedes it. */
  lemma {:induction false} TitleCaseChars(s: string)
    ensures |TitleCase(s)| == |s|
    ensures forall k :: 0 <= k < |s| ==> TitleCase(s)[k] == TitleChar(s, k)
    decreases |s|
  {
    var n := IndexOf(s, ' ');
    if n == |s| {
      TitleCaseOneWord(s);
      TitleWordChars(s);
      assert s[..n] == s;
    } else {
      var rest := s[n + 1..];
      var first := s[..n];
      TitleCaseChars(rest);
      TitleCaseSplit(s, n);
      TitleWordChars(first);
      forall k | 0 < k < n ensures TitleWord(first)[k] == LowerChar(s[k]) {
        assert first[k] == s[k];
      }
      TitleCharsAfterSpace(s, n, TitleWord(first), TitleCase(rest), TitleCase(s));
    }
  }

  /** The inductive step of `TitleCaseChars`, position by position: `t` is the capitalised
      first word `w`, a space, and the capitalised rest `tr`. */
  lemma TitleCharsAfterSpace(s: string, n: nat, w: string, tr: string, t: string)
    requires n < |s| && s[n] == ' ' && ' ' !in s[..n]
    requires t == w + " " + tr && |w| == n && |tr| == |s| - n - 1
    requires forall k :: 0 <= k < |tr| ==> tr[k] == TitleChar(s[n + 1..], k)
    requires forall k :: 0 < k < n ==> w[k] == LowerChar(s[k])
    requires n > 0 ==> w[0] == UpperChar(s[0])
    ensures forall k :: 0 <= k < |s| ==> t[k] == TitleChar(s, k)
  {
    forall k | 0 <= k < n ensures t[k] == TitleChar(s, k) {
      if k > 0 {
        assert s[k - 1] == s[..n][k - 1];
      }
    }
    forall k | n < k < |s| ensures t[k] == TitleChar(s, k) {
      assert t[k] == tr[k - n - 1];
      assert s[k] == s[n + 1..][k - n - 1];
      if k > n + 1 {
        assert s[k - 1] == s[n + 1..][k - n - 2];
      }
    }
  }

  /** The capitalised text: every word starts with a character that is not a lower-case
      letter and goes on with characters that are not upper-case letters. */
  predicate IsTitled(s: string) {
    forall k :: 0 <= k < |s| ==> TitledAt(s, k)
  }

  predicate TitledAt(s: string, k: nat)
    requires k < |s|
  {
    if k == 0 || s[k - 1] == ' ' then !('a' <= s[k] <= 'z') else !IsUpper(s[k])
  }

  lemma TitleCaseIsTitled(s: string)
    ensures IsTitled(TitleCase(s))
  {
    TitleCaseChars(s);
    var t := TitleCase(s);
    forall j | 0 <= j < |s| ensures (t[j] == ' ') == (s[j] == ' ') {
    }
  }

  /** Capitalising twice is capitalising once. */
  lemma TitleCaseIdempotent(s: string)
    ensures TitleCase(TitleCase(s)) == TitleCase(s)
  {
    var t := TitleCase(s);
    TitleCaseChars(s);
    TitleCaseChars(t);
    TitleCharsStable(s, t, TitleCase(t));
  }

  lemma TitleCharsStable(s: string, t: string, u: string)
    requires |t| == |s| == |u|
    requires forall k :: 0 <= k < |s| ==> t[k] == TitleChar(s, k)
    requires forall k :: 0 <= k < |t| ==> u[k] == TitleChar(t, k)
    ensures u == t
  {
    forall k | 0 <= k < |s| ensures u[k] == t[k] {
      if k > 0 {
        assert (t[k - 1] == ' ') == (s[k - 1] == ' ');
      }
    }
  }

  // ---------------------------------------------------------------------------
  // The whole answer

  /** The trimmed answer after the four replacements, in the order the source applies them. */
  function Replaced(answer: string): string {
    var a := StripLeadingGreeting(Trim(answer));
    var b := StripIntro(a);
    var c := StripTrailingGreeting(b);
    DropEnd(c, SentencePunct)
  }

  /** What is left to become the name: the replaced text, trimmed again. */
  function Stripped(answer: string): string {
    Trim(Replaced(answer))
  }

  /** The stripped text has no white space at either end. */
  lemma StrippedEdges(answer: string)
    ensures var d := Stripped(answer); |d| > 0 ==> !IsSpace(d[0]) && !IsSpace(d[|d| - 1])
  {
    TrimEdges(Replaced(answer));
  }

  /** Capitalisation keeps white space where it was. */
  lemma TitleCaseKeepsSpace(s: string)
    ensures |TitleCase(s)| == |s|
    ensures forall k :: 0 <= k < |s| ==> IsSpace(TitleCase(s)[k]) == IsSpace(s[k])
  {
    TitleCaseChars(s);
  }

  /** The stored name, or `None` when fewer than two characters survive (the re-prompt). */
  function ExtractName(answer: string): (r: Option<string>)
    ensures r.None? <==> Utf16Length(Stripped(answer)) < 2
    ensures r.Some? ==> IsNameFor(Stripped(answer), r.value)
  {
    var d := Stripped(answer);
    if Utf16Length(d) < 2 then None
    else
      StrippedEdges(answer);
      NameFacts(d);
      Some(TitleCase(d))
  }

  /** `name` is what the app stores for the stripped text `d`: `d` capitalised character by
      character, as long as `d`, at least two UTF-16 code units long, titled, and with no white
      space at either end. */
  predicate IsNameFor(d: string, name: string) {
    && |name| == |d| > 0
    && Utf16Length(name) >= 2
    && IsTitled(name)
    && !IsSpace(name[0]) && !IsSpace(name[|name| - 1])
    && forall k :: 0 <= k < |name| ==> name[k] == TitleChar(d, k)
  }

  /** Capitalising `d` gives a name for it when `d` is long enough and has no white space at
      either end, as the stripped answer has not. */
  lemma NameFacts(d: string)
    requires Utf16Length(d) >= 2 && (|d| > 0 ==> !IsSpace(d[0]) && !IsSpace(d[|d| - 1]))
    ensures IsNameFor(d, TitleCase(d))
  {
    TitleCaseChars(d);
    TitleCaseKeepsSpace(d);
    TitleCaseIsTitled(d);
    TitleCaseKeepsUnits(d);
  }

  /** Capitalisation changes only ASCII letters, so it keeps the UTF-16 length. */
  lemma TitleCaseKeepsUnits(s: string)
    ensures Utf16Length(TitleCase(s)) == Utf16Length(s)
  {
    TitleCaseChars(s);
    var t := TitleCase(s);
    forall k | 0 <= k < |s| ensures IsAstral(t[k]) == IsAstral(s[k]) {
      assert t[k] == TitleChar(s, k);
    }
    Utf16LengthPointwise(t, s);
  }

  /** The name question's outcome: `None` is a re-prompt with nothing stored, `Some(name)`
      stores `name` and moves on to the age question. */
  function NameAnswer(answer: string): (r: Option<string>)
    ensures IsOnlyGreeting(answer) ==> r.None?
    ensures !IsOnlyGreeting(answer) ==> r == ExtractName(answer)
  {
    if IsOnlyGreeting(answer) then None else ExtractName(answer)
  }
}
