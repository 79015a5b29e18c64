/**
  Worked answers to the name question, each checked step by step through the pipeline of
  `handleUserInfo` in src/App.tsx: the greeting-only test, the three greeting and introduction
  replacements, the punctuation strip and the capitalisation.
 */
module NameExamples {
  import opened Options
  import opened Text
  import opened Names

  // ---------------------------------------------------------------------------
  // "hi, john": the greeting and the comma go, the rest is capitalised

  lemma HiJohnNotGreeting0()
    ensures !GreetingOnly("hi, john", "hi")
  {
  }

  lemma HiJohnNotGreeting1()
    ensures !GreetingOnly("hi, john", "hello")
  {
  }

  lemma HiJohnNotGreeting2()
    ensures !GreetingOnly("hi, john", "hey")
  {
  }

  lemma HiJohnNotGreeting3()
    ensures !GreetingOnly("hi, john", "good morning")
  {
  }

  lemma HiJohnNotGreeting4()
    ensures !GreetingOnly("hi, john", "good afternoon")
  {
  }

  lemma HiJohnNotGreeting5()
    ensures !GreetingOnly("hi, john", "good evening")
  {
  }

  lemma HiJohnLowered(a: string)
    requires a == "hi, john"
    ensures Trim(ToLower(a)) == "hi, john"
  {
    assert ToLower(a) == a;
    HiJohnTrimmed();
  }

  /** "hi, john" is not just a greeting. */
  lemma HiJohnNotOnlyGreeting(a: string)
    requires a == "hi, john"
    ensures !IsOnlyGreeting(a)
  {
    HiJohnLowered(a);
    IsOnlyGreetingIff(a);
    HiJohnNotGreeting0(); HiJohnNotGreeting1(); HiJohnNotGreeting2(); HiJohnNotGreeting3(); HiJohnNotGreeting4(); HiJohnNotGreeting5();
  }

  lemma HiJohnTrimmed()
    ensures Trim("hi, john") == "hi, john"
  {
    TrimUnchanged("hi, john");
  }

  lemma HiJohnLeading()
    ensures StripLeadingGreeting("hi, john") == "john"
  {
    assert FirstFit("hi, john", Greetings, Leading, 0) == Some(0);
    assert "hi, john"[2..] == ", john";
    assert Span(", john", CommaOrWhitespace, true) == 2;
    assert ", john"[2..] == "john";
  }

  lemma HiJohnRest()
    ensures StripIntro("john") == "john"
    ensures StripTrailingGreeting("john") == "john"
  {
    HiJohnNoIntro();
    HiJohnNoTrailing();
  }

  lemma HiJohnNoIntro()
    ensures StripIntro("john") == "john"
  {
  }

  lemma HiJohnNoTrailing()
    ensures StripTrailingGreeting("john") == "john"
  {
  }

  lemma HiJohnPunctuation()
    ensures Trim(DropEnd("john", SentencePunct)) == "john"
  {
  }

  lemma HiJohnTitle()
    ensures TitleCase("john") == "John"
  {
    TitleCaseOneWord("john");
  }

  /** The greeting and the comma after it are removed and the name is capitalised. */
  lemma HiJohnName(a: string)
    requires a == "hi, john"
    ensures NameAnswer(a) == Some("John")
  {
    HiJohnNotOnlyGreeting(a);
    HiJohnTrimmed();
    HiJohnLeading();
    HiJohnRest();
    HiJohnPunctuation();
    HiJohnTitle();
  }

  // ---------------------------------------------------------------------------
  // "my name is JANE doe": the introduction goes, each word is capitalised

  lemma JaneNotGreeting0()
    ensures !GreetingOnly("my name is jane doe", "hi")
  {
  }

  lemma JaneNotGreeting1()
    ensures !GreetingOnly("my name is jane doe", "hello")
  {
  }

  lemma JaneNotGreeting2()
    ensures !GreetingOnly("my name is jane doe", "hey")
  {
  }

  lemma JaneNotGreeting3()
    ensures !GreetingOnly("my name is jane doe", "good morning")
  {
  }

  lemma JaneNotGreeting4()
    ensures !GreetingOnly("my name is jane doe", "good afternoon")
  {
  }

  lemma JaneNotGreeting5()
    ensures !GreetingOnly("my name is jane doe", "good evening")
  {
  }

  lemma JaneLowered(a: string)
    requires a == "my name is JANE doe"
    ensures Trim(ToLower(a)) == "my name is jane doe"
  {
    JaneLowerCase(a);
    JaneTrimmedLower();
  }

  lemma JaneLowerCase(a: string)
    requires a == "my name is JANE doe"
    ensures ToLower(a) == "my name is jane doe"
  {
  }

  lemma JaneTrimmedLower()
    ensures Trim("my name is jane doe") == "my name is jane doe"
  {
    TrimUnchanged("my name is jane doe");
  }

  /** "my name is JANE doe" is not just a greeting. */
  lemma JaneNotOnlyGreeting(a: string)
    requires a == "my name is JANE doe"
    ensures !IsOnlyGreeting(a)
  {
    JaneLowered(a);
    IsOnlyGreetingIff(a);
    JaneNotGreeting0(); JaneNotGreeting1(); JaneNotGreeting2(); JaneNotGreeting3(); JaneNotGreeting4(); JaneNotGreeting5();
  }

  lemma JaneTrimmed()
    ensures Trim("my name is JANE doe") == "my name is JANE doe"
  {
    TrimUnchanged("my name is JANE doe");
  }

  lemma JaneNoLeading()
    ensures StripLeadingGreeting("my name is JANE doe") == "my name is JANE doe"
  {
    assert FirstFit("my name is JANE doe", Greetings, Leading, 0) == None;
  }

  lemma JaneNotIAm()
    ensures !Fits("my name is JANE doe", "i am", LeadingThenSpace)
  {
  }

  lemma JaneNotIm()
    ensures !Fits("my name is JANE doe", "i'm", LeadingThenSpace)
  {
  }

  lemma JaneMyNameIs(s: string)
    requires s == "my name is JANE doe"
    ensures Fits(s, "my name is", LeadingThenSpace)
  {
    JaneLowerCase(s);
    StartsWithIgnoringCaseIff("my name is", s);
    IsPrefixIffSlice("my name is", ToLower(s));
    assert ToLower(s)[..10] == "my name is";
  }

  /** The third introduction is the first one that fits. */
  lemma JaneIntroFits(s: string)
    requires s == "my name is JANE doe"
    ensures FirstFit(s, Intros, LeadingThenSpace, 0) == Some(2)
  {
    JaneNotIAm();
    JaneNotIm();
    JaneMyNameIs(s);
  }

  lemma JaneAfterIntro()
    ensures "my name is JANE doe"[10..] == " JANE doe"
  {
  }

  lemma JaneGap()
    ensures Span(" JANE doe", Whitespace, true) == 1
  {
  }

  lemma JaneIntro(s: string)
    requires s == "my name is JANE doe"
    ensures StripIntro(s) == "JANE doe"
  {
    JaneIntroFits(s);
    JaneAfterIntro();
    JaneGap();
    assert " JANE doe"[1..] == "JANE doe";
  }

  lemma JaneNoTrailing()
    ensures StripTrailingGreeting("JANE doe") == "JANE doe"
  {
    assert FirstFit("JANE doe", Greetings, Trailing, 0) == None;
  }

  lemma JanePunctuation()
    ensures Trim(DropEnd("JANE doe", SentencePunct)) == "JANE doe"
  {
  }

  lemma JaneFirstSpace()
    ensures IndexOf("JANE doe", ' ') == 4
  {
  }

  lemma JaneFirstWord()
    ensures TitleWord("JANE") == "Jane"
  {
  }

  lemma JaneLastWord()
    ensures TitleCase("doe") == "Doe"
  {
    TitleCaseOneWord("doe");
    assert TitleWord("doe") == "Doe";
  }

  lemma JaneWords(s: string)
    requires s == "JANE doe"
    ensures TitleCase(s) == TitleWord("JANE") + " " + TitleCase("doe")
  {
    JaneFirstSpace();
    JaneSlices(s);
    TitleCaseSplit(s, 4);
  }

  lemma JaneSlices(s: string)
    requires s == "JANE doe"
    ensures s[..4] == "JANE" && s[5..] == "doe"
  {
  }

  lemma JaneTitle(s: string)
    requires s == "JANE doe"
    ensures TitleCase(s) == "Jane Doe"
  {
    JaneWords(s);
    JaneFirstWord();
    JaneLastWord();
  }

  /** The introduction phrase is removed and every word is capitalised, the rest of it lower-cased. */
  lemma JaneName(a: string)
    requires a == "my name is JANE doe"
    ensures NameAnswer(a) == Some("Jane Doe")
  {
    JaneNotOnlyGreeting(a);
    JaneTrimmed();
    JaneNoLeading();
    JaneIntro(a);
    JaneNoTrailing();
    JanePunctuation();
    JaneTitle("JANE doe");
  }

  // ---------------------------------------------------------------------------
  // "Hilary": the leading pattern has no word boundary, so "Hi" is taken for a greeting

  lemma HilaryNotGreeting0()
    ensures !GreetingOnly("hilary", "hi")
  {
  }

  lemma HilaryNotGreeting1()
    ensures !GreetingOnly("hilary", "hello")
  {
  }

  lemma HilaryNotGreeting2()
    ensures !GreetingOnly("hilary", "hey")
  {
  }

  lemma HilaryNotGreeting3()
    ensures !GreetingOnly("hilary", "good morning")
  {
  }

  lemma HilaryNotGreeting4()
    ensures !GreetingOnly("hilary", "good afternoon")
  {
  }

  lemma HilaryNotGreeting5()
    ensures !GreetingOnly("hilary", "good evening")
  {
  }

  lemma HilaryLowered(a: string)
    requires a == "Hilary"
    ensures Trim(ToLower(a)) == "hilary"
  {
    HilaryLowerCase(a);
    HilaryTrimmedLower();
  }

  lemma HilaryLowerCase(a: string)
    requires a == "Hilary"
    ensures ToLower(a) == "hilary"
  {
  }

  lemma HilaryTrimmedLower()
    ensures Trim("hilary") == "hilary"
  {
    TrimUnchanged("hilary");
  }

  /** "Hilary" is not just a greeting. */
  lemma HilaryNotOnlyGreeting(a: string)
    requires a == "Hilary"
    ensures !IsOnlyGreeting(a)
  {
    HilaryLowered(a);
    IsOnlyGreetingIff(a);
    HilaryNotGreeting0(); HilaryNotGreeting1(); HilaryNotGreeting2(); HilaryNotGreeting3(); HilaryNotGreeting4(); HilaryNotGreeting5();
  }

  lemma HilaryTrimmed()
    ensures Trim("Hilary") == "Hilary"
  {
    TrimUnchanged("Hilary");
  }

  lemma HilaryLeading()
    ensures StripLeadingGreeting("Hilary") == "lary"
  {
    assert FirstFit("Hilary", Greetings, Leading, 0) == Some(0);
    assert "Hilary"[2..] == "lary";
  }

  lemma HilaryNoIntro()
    ensures StripIntro("lary") == "lary"
  {
  }

  lemma HilaryNoTrailing()
    ensures StripTrailingGreeting("lary") == "lary"
  {
  }

  lemma HilaryPunctuation()
    ensures Trim(DropEnd("lary", SentencePunct)) == "lary"
  {
  }

  lemma HilaryTitle()
    ensures TitleCase("lary") == "Lary"
  {
    TitleCaseOneWord("lary");
  }

  /** The name loses its first two letters. */
  lemma HilaryName(a: string)
    requires a == "Hilary"
    ensures NameAnswer(a) == Some("Lary")
  {
    HilaryNotOnlyGreeting(a);
    HilaryTrimmed();
    HilaryLeading();
    HilaryNoIntro();
    HilaryNoTrailing();
    HilaryPunctuation();
    HilaryTitle();
  }

  // ---------------------------------------------------------------------------
  // "Sachi": the trailing pattern has no word boundary either, so "hi" at the end goes

  lemma SachiNotGreeting0()
    ensures !GreetingOnly("sachi", "hi")
  {
  }

  lemma SachiNotGreeting1()
    ensures !GreetingOnly("sachi", "hello")
  {
  }

  lemma SachiNotGreeting2()
    ensures !GreetingOnly("sachi", "hey")
  {
  }

  lemma SachiNotGreeting3()
    ensures !GreetingOnly("sachi", "good morning")
  {
  }

  lemma SachiNotGreeting4()
    ensures !GreetingOnly("sachi", "good afternoon")
  {
  }

  lemma SachiNotGreeting5()
    ensures !GreetingOnly("sachi", "good evening")
  {
  }

  lemma SachiLowered(a: string)
    requires a == "Sachi"
    ensures Trim(ToLower(a)) == "sachi"
  {
    SachiLowerCase(a);
    SachiTrimmedLower();
  }

  lemma SachiLowerCase(a: string)
    requires a == "Sachi"
    ensures ToLower(a) == "sachi"
  {
  }

  lemma SachiTrimmedLower()
    ensures Trim("sachi") == "sachi"
  {
    TrimUnchanged("sachi");
  }

  /** "Sachi" is not just a greeting. */
  lemma SachiNotOnlyGreeting(a: string)
    requires a == "Sachi"
    ensures !IsOnlyGreeting(a)
  {
    SachiLowered(a);
    IsOnlyGreetingIff(a);
    SachiNotGreeting0(); SachiNotGreeting1(); SachiNotGreeting2(); SachiNotGreeting3(); SachiNotGreeting4(); SachiNotGreeting5();
  }

  lemma SachiTrimmed()
    ensures Trim("Sachi") == "Sachi"
  {
    TrimUnchanged("Sachi");
  }

  lemma SachiNoLeading()
    ensures StripLeadingGreeting("Sachi") == "Sachi"
  {
    assert FirstFit("Sachi", Greetings, Leading, 0) == None;
  }

  lemma SachiNoIntro()
    ensures StripIntro("Sachi") == "Sachi"
  {
    assert FirstFit("Sachi", Intros, LeadingThenSpace, 0) == None;
  }

  lemma SachiTrailing()
    ensures StripTrailingGreeting("Sachi") == "Sac"
  {
    assert FirstFit("Sachi", Greetings, Trailing, 0) == Some(0);
    assert "Sachi"[..3] == "Sac";
  }

  lemma SachiPunctuation()
    ensures Trim(DropEnd("Sac", SentencePunct)) == "Sac"
  {
  }

  lemma SachiTitle()
    ensures TitleCase("Sac") == "Sac"
  {
    TitleCaseOneWord("Sac");
  }

  /** The name loses its last two letters. */
  lemma SachiName(a: string)
    requires a == "Sachi"
    ensures NameAnswer(a) == Some("Sac")
  {
    SachiNotOnlyGreeting(a);
    SachiTrimmed();
    SachiNoLeading();
    SachiNoIntro();
    SachiTrailing();
    SachiPunctuation();
    SachiTitle();
  }

  // ---------------------------------------------------------------------------
  // "new": at the name question it is a name, not the reset command

  lemma NewNotGreeting0()
    ensures !GreetingOnly("new", "hi")
  {
  }

  lemma NewNotGreeting1()
    ensures !GreetingOnly("new", "hello")
  {
  }

  lemma NewNotGreeting2()
    ensures !GreetingOnly("new", "hey")
  {
  }

  lemma NewNotGreeting3()
    ensures !GreetingOnly("new", "good morning")
  {
  }

  lemma NewNotGreeting4()
    ensures !GreetingOnly("new", "good afternoon")
  {
  }

  lemma NewNotGreeting5()
    ensures !GreetingOnly("new", "good evening")
  {
  }

  lemma NewLowered(a: string)
    requires a == "new"
    ensures Trim(ToLower(a)) == "new"
  {
    assert ToLower(a) == a;
    NewTrimmed();
  }

  /** "new" is not just a greeting. */
  lemma NewNotOnlyGreeting(a: string)
    requires a == "new"
    ensures !IsOnlyGreeting(a)
  {
    NewLowered(a);
    IsOnlyGreetingIff(a);
    NewNotGreeting0(); NewNotGreeting1(); NewNotGreeting2(); NewNotGreeting3(); NewNotGreeting4(); NewNotGreeting5();
  }

  lemma NewTrimmed()
    ensures Trim("new") == "new"
  {
    TrimUnchanged("new");
  }

  lemma NewUnchanged()
    ensures StripLeadingGreeting("new") == "new"
    ensures StripIntro("new") == "new"
    ensures StripTrailingGreeting("new") == "new"
  {
    NewNoLeading();
    NewNoIntro();
    NewNoTrailing();
  }

  lemma NewNoLeading()
    ensures StripLeadingGreeting("new") == "new"
  {
    assert FirstFit("new", Greetings, Leading, 0) == None;
  }

  lemma NewNoIntro()
    ensures StripIntro("new") == "new"
  {
  }

  lemma NewNoTrailing()
    ensures StripTrailingGreeting("new") == "new"
  {
    assert FirstFit("new", Greetings, Trailing, 0) == None;
  }

  lemma NewPunctuation()
    ensures Trim(DropEnd("new", SentencePunct)) == "new"
  {
  }

  lemma NewTitle()
    ensures TitleCase("new") == "New"
  {
    TitleCaseOneWord("new");
  }

  /** The answer "new" is stored as the name "New". */
  lemma NewName(a: string)
    requires a == "new"
    ensures NameAnswer(a) == Some("New")
  {
    NewNotOnlyGreeting(a);
    NewTrimmed();
    NewUnchanged();
    NewPunctuation();
    NewTitle();
  }

  // ---------------------------------------------------------------------------
  // "\U{1F600}": one character, two UTF-16 code units

  /** The emoji answer is not just a greeting: lower-cased and trimmed it is no greeting. */
  lemma EmojiNotOnlyGreeting(a: string)
    requires a == "\U{1F600}"
    ensures !IsOnlyGreeting(a)
  {
    assert ToLower(a) == a;
    TrimUnchanged(a);
    IsOnlyGreetingIff(a);
    forall g | g in Greetings ensures !GreetingOnly(a, g) {
      assert 'h' in g || 'g' in g;
    }
  }

  lemma EmojiUnchanged(a: string)
    requires a == "\U{1F600}"
    ensures Stripped(a) == a
  {
    EmojiTrimmed();
    EmojiNoLeading();
    EmojiNoIntro();
    EmojiNoTrailing();
    EmojiPunctuation();
  }

  lemma EmojiTrimmed()
    ensures Trim("\U{1F600}") == "\U{1F600}"
  {
    TrimUnchanged("\U{1F600}");
  }

  lemma EmojiNoLeading()
    ensures StripLeadingGreeting("\U{1F600}") == "\U{1F600}"
  {
    assert FirstFit("\U{1F600}", Greetings, Leading, 0) == None;
  }

  lemma EmojiNoIntro()
    ensures StripIntro("\U{1F600}") == "\U{1F600}"
  {
  }

  lemma EmojiNoTrailing()
    ensures StripTrailingGreeting("\U{1F600}") == "\U{1F600}"
  {
    assert FirstFit("\U{1F600}", Greetings, Trailing, 0) == None;
  }

  lemma EmojiPunctuation()
    ensures Trim(DropEnd("\U{1F600}", SentencePunct)) == "\U{1F600}"
  {
  }

  lemma EmojiUnits()
    ensures Utf16Length("\U{1F600}") == 2
  {
    assert IsAstral('\U{1F600}');
    assert "\U{1F600}"[1..] == "";
  }

  lemma EmojiTitle()
    ensures TitleCase("\U{1F600}") == "\U{1F600}"
  {
    TitleCaseOneWord("\U{1F600}");
  }

  /** A single character above U+FFFF has `length` 2 in JavaScript, so it is accepted as a
      name, unchanged by capitalisation. */
  lemma EmojiName(a: string)
    requires a == "\U{1F600}"
    ensures Utf16Length(a) == 2
    ensures NameAnswer(a) == Some(a)
  {
    EmojiNotOnlyGreeting(a);
    EmojiUnchanged(a);
    EmojiUnits();
    EmojiTitle();
  }

  // ---------------------------------------------------------------------------
  // Answers that are only a greeting: re-prompt, nothing stored

  lemma HelloJohnGreeting()
    ensures GreetingOnly("hello john", "hello")
  {
    assert "hello john"[..5] == "hello";
  }

  lemma HelloJohnLowered(a: string)
    requires a == "hello John"
    ensures Trim(ToLower(a)) == "hello john"
  {
    HelloJohnLowerCase(a);
    HelloJohnTrimmedLower();
  }

  lemma HelloJohnLowerCase(a: string)
    requires a == "hello John"
    ensures ToLower(a) == "hello john"
  {
  }

  lemma HelloJohnTrimmedLower()
    ensures Trim("hello john") == "hello john"
  {
    TrimUnchanged("hello john");
  }

  /** "hello John" starts with a greeting and a space. */
  lemma HelloJohnRejected(a: string)
    requires a == "hello John"
    ensures NameAnswer(a) == None
  {
    HelloJohnLowered(a);
    HelloJohnGreeting();
    IsOnlyGreetingIff(a);
    assert Greetings[1] == "hello";
  }

  lemma DrSmithGreeting()
    ensures GreetingOnly("dr. smith hi", "hi")
  {
    assert "dr. smith hi"[10..] == "hi";
  }

  lemma DrSmithLowered(a: string)
    requires a == "DR. SMITH HI"
    ensures Trim(ToLower(a)) == "dr. smith hi"
  {
    DrSmithLowerCase(a);
    DrSmithTrimmedLower();
  }

  lemma DrSmithLowerCase(a: string)
    requires a == "DR. SMITH HI"
    ensures ToLower(a) == "dr. smith hi"
  {
  }

  lemma DrSmithTrimmedLower()
    ensures Trim("dr. smith hi") == "dr. smith hi"
  {
    TrimUnchanged("dr. smith hi");
  }

  /** "DR. SMITH HI" ends with a space and a greeting. */
  lemma DrSmithRejected(a: string)
    requires a == "DR. SMITH HI"
    ensures NameAnswer(a) == None
  {
    DrSmithLowered(a);
    DrSmithGreeting();
    IsOnlyGreetingIff(a);
    assert Greetings[0] == "hi";
  }

}
