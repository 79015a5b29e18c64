/**
  What a turn of the conversation does, branch by branch, and the invariant every reachable
  session keeps.
 */
module ConversationLemmas {
  import opened Options
  import opened Text
  import opened Numbers
  import opened Names
  import opened Catalog
  import opened Conversation

  /** The reply the bot gives in a turn that was not ignored. */
  function LastReply(r: Session): Reply
    requires |r.transcript| > 0
  {
    match r.transcript[|r.transcript| - 1]
    case BotSaid(reply) => reply
    case UserSaid(_) => AskName
  }

  // ---------------------------------------------------------------------------
  // The order of the checks

  /** In the name, age and gender states every non-blank input is answered by `handleUserInfo`
      and nothing else: "new" is not a reset there and "hi" is not a greeting. */
  lemma IntakeAnswersEverything(db: seq<SymptomEntry>, s: Session, input: string)
    requires s.question.IsIntake() && Trim(input) != ""
    ensures HandleUserInfo(s.info, s.question, input).Some?
    ensures var r := Submit(db, s, input);
      var a := HandleUserInfo(s.info, s.question, input).value;
      && r.info == a.info && r.question == a.question && r.symptoms == s.symptoms
      && LastReply(r) == a.reply
  {
    var a := HandleUserInfo(s.info, s.question, input);
    assert a.Some?;
    assert Route(s, input) == ByIntake(a.value);
    assert Respond(db, s, input) == Outcome(a.value.info, a.value.question, s.symptoms, a.value.reply);
    SubmitShape(db, s, input);
  }

  /** A non-blank turn takes the user record, the question, the log and the reply from
      `Respond`. */
  lemma SubmitShape(db: seq<SymptomEntry>, s: Session, input: string)
    requires Trim(input) != ""
    ensures var r, o := Submit(db, s, input), Respond(db, s, input);
      && r.info == o.info && r.question == o.question && r.symptoms == o.symptoms
      && LastReply(r) == o.reply
  {
  }

  /** In the symptom states an input containing "new" anywhere, in any case, starts over. */
  lemma NewStartsOver(db: seq<SymptomEntry>, s: Session, input: string)
    requires !s.question.IsIntake() && Trim(input) != ""
    requires Contains(ToLower(input), "new")
    ensures var r := Submit(db, s, input);
      && r.info == Initial.info && r.question == Initial.question && r.symptoms == Initial.symptoms
      && LastReply(r) == Restarting
  {
    assert HandleUserInfo(s.info, s.question, input).None?;
    assert Route(s, input) == ByReset;
    SubmitShape(db, s, input);
  }

  /** Otherwise an input containing "hi" or "hello" anywhere is a greeting: nothing changes. */
  lemma GreetingChangesNothing(db: seq<SymptomEntry>, s: Session, input: string)
    requires !s.question.IsIntake() && Trim(input) != ""
    requires !Contains(ToLower(input), "new")
    requires Contains(ToLower(input), "hi") || Contains(ToLower(input), "hello")
    ensures var r := Submit(db, s, input);
      && r.info == s.info && r.question == s.question && r.symptoms == s.symptoms
      && LastReply(r) == Greeting(s.info.name)
  {
    assert HandleUserInfo(s.info, s.question, input).None?;
    assert Route(s, input) == ByGreeting;
    SubmitShape(db, s, input);
  }

  /** Any other input in the symptom states is a description: it joins the log, the whole log
      is matched, and the conversation moves on to additional symptoms. */
  lemma DescriptionIsAnalysed(db: seq<SymptomEntry>, s: Session, input: string)
    requires !s.question.IsIntake()
    requires exists k :: 0 <= k < |input| && !IsSpace(input[k])
    requires !Contains(ToLower(input), "new")
    requires !Contains(ToLower(input), "hi") && !Contains(ToLower(input), "hello")
    ensures var r := Submit(db, s, input);
      && r.info == s.info && r.question == AdditionalSymptoms && r.symptoms == s.symptoms + [input]
      && LastReply(r) == Advice(Match(db, Join(s.symptoms + [input], ". ")))
  {
    TrimNotEmpty(input);
    AnalysisRoute(s, input);
    AnalysisOutcome(db, s, input);
    SubmitShape(db, s, input);
  }

  /** A description in a symptom state without the reset or greeting words is analysed. */
  lemma AnalysisRoute(s: Session, input: string)
    requires !s.question.IsIntake()
    requires !Contains(ToLower(input), "new")
    requires !Contains(ToLower(input), "hi") && !Contains(ToLower(input), "hello")
    ensures Route(s, input) == ByAnalysis
  {
    assert HandleUserInfo(s.info, s.question, input).None?;
  }

  /** What the analysis branch leaves behind. */
  lemma AnalysisOutcome(db: seq<SymptomEntry>, s: Session, input: string)
    requires Route(s, input) == ByAnalysis
    ensures Respond(db, s, input) ==
      Outcome(s.info, AdditionalSymptoms, s.symptoms + [input], Advice(Match(db, Join(s.symptoms + [input], ". "))))
  {
    var a := HandleSymptomAnalysis(db, s.symptoms, input);
    assert a.log == s.symptoms + [input];
  }

  // ---------------------------------------------------------------------------
  // The intake questions

  /** A name is stored, and the age asked for, exactly when one survives the stripping; the
      stored name is the capitalised stripped answer `NameAnswer` gives, so it is at least two
      UTF-16 code units long and has no white space at either end. An answer that is only a greeting
      is never stored. */
  lemma NameQuestion(db: seq<SymptomEntry>, s: Session, input: string)
    requires s.question == Name && Trim(input) != ""
    ensures var r := Submit(db, s, input);
      && (r.question == Age <==> NameAnswer(input).Some?)
      && (r.question == Age ==>
            r.info == s.info.(name := NameAnswer(input).value)
            && Utf16Length(r.info.name) >= 2 && |r.info.name| > 0 && IsTitled(r.info.name)
            && !IsSpace(r.info.name[0]) && !IsSpace(r.info.name[|r.info.name| - 1])
            && LastReply(r) == NiceToMeet(r.info.name))
      && (r.question != Age ==> r.question == Name && r.info == s.info && LastReply(r) == AskName)
      && (IsOnlyGreeting(input) ==> r.question == Name && r.info == s.info)
  {
  }

  /** The age is accepted exactly when `Number` reads a number in it, and then it is stored as
      typed, white space included. */
  lemma AgeQuestion(db: seq<SymptomEntry>, s: Session, input: string)
    requires s.question == Age && Trim(input) != ""
    ensures var r := Submit(db, s, input);
      && (r.question == Gender <==> IsNumeric(input))
      && (r.question == Gender ==> r.info == s.info.(age := input) && LastReply(r) == AskGender)
      && (r.question != Gender ==> r.question == Age && r.info == s.info && LastReply(r) == AgeRetry)
  {
  }

  /** The gender is accepted exactly when the trimmed, lower-cased answer is "male" or
      "female", and that form is stored. */
  lemma GenderQuestion(db: seq<SymptomEntry>, s: Session, input: string)
    requires s.question == Gender && Trim(input) != ""
    ensures var r := Submit(db, s, input);
      var g := Trim(ToLower(input));
      && (r.question == Symptoms <==> g == "male" || g == "female")
      && (r.question == Symptoms ==> r.info == s.info.(gender := g) && LastReply(r) == AskSymptoms(s.info.name))
      && (r.question != Symptoms ==> r.question == Gender && r.info == s.info && LastReply(r) == GenderRetry)
  {
  }

  // ---------------------------------------------------------------------------
  // The invariant of reachable sessions

  /** What holds in every session reachable from `Initial`: the welcome opens the transcript,
      each answer stored so far passed its check and the later ones are still empty, and the
      symptom log is non-empty exactly in the additional-symptoms state. */
  predicate Valid(s: Session) {
    && |s.transcript| > 0 && s.transcript[0] == BotSaid(Welcome)
    && (s.question == Name ==> s.info == NoInfo)
    && (s.question != Name ==> Utf16Length(s.info.name) >= 2 && |s.info.name| > 0 && IsTitled(s.info.name))
    && (s.question == Age ==> s.info.age == "" && s.info.gender == "")
    && (s.question == Gender ==> IsNumeric(s.info.age) && s.info.gender == "")
    && (!s.question.IsIntake() ==> IsNumeric(s.info.age) && (s.info.gender == "male" || s.info.gender == "female"))
    && (s.question == AdditionalSymptoms <==> |s.symptoms| > 0)
  }

  lemma InitialIsValid()
    ensures Valid(Initial)
  {
  }

  /** Every turn keeps the invariant. */
  lemma SubmitKeepsValid(db: seq<SymptomEntry>, s: Session, input: string)
    requires Valid(s)
    ensures Valid(Submit(db, s, input))
  {
    if Trim(input) != "" {
      match Route(s, input)
      case ByIntake(a) =>
        if s.question == Name { NameQuestion(db, s, input); }
        else if s.question == Age { AgeQuestion(db, s, input); }
        else { GenderQuestion(db, s, input); }
      case ByReset =>
      case ByGreeting =>
      case ByAnalysis =>
        var a := HandleSymptomAnalysis(db, s.symptoms, input);
        assert a.log == s.symptoms + [input];
    }
  }

  /** So does every sequence of turns. */
  lemma {:induction false} RunKeepsValid(db: seq<SymptomEntry>, s: Session, inputs: seq<string>)
    requires Valid(s)
    ensures Valid(Run(db, s, inputs))
    decreases |inputs|
  {
    if |inputs| > 0 {
      SubmitKeepsValid(db, s, inputs[0]);
      RunKeepsValid(db, Submit(db, s, inputs[0]), inputs[1..]);
    }
  }

  /** In a reachable symptom state the user has a name, so a greeting is answered by name and
      the nameless greeting is never given. */
  lemma GreetingUsesName(s: Session)
    requires Valid(s) && !s.question.IsIntake()
    ensures Words(Greeting(s.info.name)) == HelloHead + s.info.name + HelloTail
  {
    assert |s.info.name| > 0;
  }
}
