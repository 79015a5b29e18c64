/**
  Single turns of the conversation on concrete answers.
 */
module ConversationExamples {
  import opened Options
  import opened Text
  import opened Numbers
  import opened Names
  import opened NameExamples
  import opened Catalog
  import opened Conversation
  import opened ConversationLemmas

  // ---------------------------------------------------------------------------
  // The name question

  /** "new" is not a reset while the name is asked for: it is taken as the name "New". */
  lemma NewIsAName(db: seq<SymptomEntry>, s: Session, input: string)
    requires s.question == Name && input == "new"
    ensures var r := Submit(db, s, input);
      r.question == Age && r.info.name == "New" && LastReply(r) == NiceToMeet("New")
  {
    NewTrimmed();
    NewName(input);
    NameQuestion(db, s, input);
  }

  lemma HelloJohnNotBlank()
    ensures Trim("hello John") != ""
  {
    TrimUnchanged("hello John");
  }

  /** "hello John" starts with a greeting and is not stripped, so the name is asked again. */
  lemma HelloJohnAskedAgain(db: seq<SymptomEntry>, s: Session, input: string)
    requires s.question == Name && input == "hello John"
    ensures var r := Submit(db, s, input);
      r.question == Name && r.info == s.info && LastReply(r) == AskName
  {
    HelloJohnNotBlank();
    HelloJohnRejected(input);
    NameQuestion(db, s, input);
  }

  // ---------------------------------------------------------------------------
  // The age question

  lemma AgeWithUnitNotBlank()
    ensures Trim("25 years") != ""
  {
    TrimUnchanged("25 years");
  }

  /** "25 years" is not a number, so the age is asked again. */
  lemma AgeWithUnitAskedAgain(db: seq<SymptomEntry>, s: Session, input: string)
    requires s.question == Age && input == "25 years"
    ensures var r := Submit(db, s, input);
      r.question == Age && r.info == s.info && LastReply(r) == AgeRetry
  {
    AgeWithUnitNotBlank();
    AgeWithUnitIsNotNumeric();
    AgeQuestion(db, s, input);
  }

  lemma PaddedAgeNotBlank()
    ensures Trim(" 25 ") == "25"
  {
    TrimPadding(" ", "25", " ");
    assert " " + "25" + " " == " 25 ";
    TrimUnchanged("25");
  }

  /** " 25 " is a number; it is stored with its spaces. */
  lemma PaddedAgeStoredAsTyped(db: seq<SymptomEntry>, s: Session, input: string)
    requires s.question == Age && input == " 25 "
    ensures var r := Submit(db, s, input);
      r.question == Gender && r.info.age == " 25 " && LastReply(r) == AskGender
  {
    PaddedAgeNotBlank();
    PaddedAgeIsNumeric();
    AgeQuestion(db, s, input);
  }

  // ---------------------------------------------------------------------------
  // The gender question

  lemma FemaleLowered()
    ensures ToLower(" Female ") == " female "
  {
  }

  lemma FemaleTrimmed()
    ensures Trim(" female ") == "female"
  {
    TrimPadding(" ", "female", " ");
    assert " " + "female" + " " == " female ";
    TrimUnchanged("female");
  }

  lemma FemaleNotBlank()
    ensures Trim(" Female ") != ""
  {
    TrimPadding(" ", "Female", " ");
    assert " " + "Female" + " " == " Female ";
    TrimUnchanged("Female");
  }

  /** " Female " is accepted and stored as "female". */
  lemma PaddedGenderNormalised(db: seq<SymptomEntry>, s: Session, input: string)
    requires s.question == Gender && input == " Female "
    ensures var r := Submit(db, s, input);
      r.question == Symptoms && r.info.gender == "female" && LastReply(r) == AskSymptoms(s.info.name)
  {
    FemaleNotBlank();
    FemaleLowered();
    FemaleTrimmed();
    GenderQuestion(db, s, input);
  }

  lemma MaleWordNotBlank()
    ensures Trim("man") != "" && Trim(ToLower("man")) == "man"
  {
    TrimUnchanged("man");
  }

  /** "man" is neither "male" nor "female", so the gender is asked again. */
  lemma ManAskedAgain(db: seq<SymptomEntry>, s: Session, input: string)
    requires s.question == Gender && input == "man"
    ensures var r := Submit(db, s, input);
      r.question == Gender && r.info == s.info && LastReply(r) == GenderRetry
  {
    MaleWordNotBlank();
    GenderQuestion(db, s, input);
  }

  // ---------------------------------------------------------------------------
  // The symptom questions

  lemma ChillsNotBlank()
    ensures Trim("chills") != "" && ToLower("chills") == "chills"
  {
    TrimUnchanged("chills");
  }

  lemma ChillsHasHi(h: string)
    requires h == "chills"
    ensures Contains(h, "hi")
  {
    assert OccursAt(h, "hi", 1);
    OccursAtContains(h, "hi", 1);
  }

  lemma ChillsHasNoNew(h: string)
    requires h == "chills"
    ensures !Contains(h, "new")
  {
    MissingCharNotContained(h, "new", 'n');
  }

  /** "chills" contains "hi", so describing chills is taken as a greeting and not analysed. */
  lemma ChillsIsAGreeting(db: seq<SymptomEntry>, s: Session, input: string)
    requires !s.question.IsIntake() && input == "chills"
    ensures var r := Submit(db, s, input);
      && r.info == s.info && r.question == s.question && r.symptoms == s.symptoms
      && LastReply(r) == Greeting(s.info.name)
  {
    ChillsNotBlank();
    ChillsHasHi(input);
    ChillsHasNoNew(input);
    GreetingChangesNothing(db, s, input);
  }

  lemma NewPainNotBlank()
    ensures Trim("I have NEW pain") != ""
  {
    TrimUnchanged("I have NEW pain");
  }

  lemma NewPainLowered(a: string)
    requires a == "I have NEW pain"
    ensures ToLower(a) == "i have new pain"
  {
  }

  lemma NewPainHasNew(h: string)
    requires h == "i have new pain"
    ensures Contains(h, "new")
  {
    assert h == "i have " + "new" + " pain";
    ContainsSelf("new");
    ContainsWithin("i have ", "new", " pain", "new");
  }

  /** "I have NEW pain" mentions "new", so the consultation starts over. */
  lemma NewPainStartsOver(db: seq<SymptomEntry>, s: Session, input: string)
    requires !s.question.IsIntake() && input == "I have NEW pain"
    ensures var r := Submit(db, s, input);
      r.question == Name && r.info == NoInfo && r.symptoms == [] && LastReply(r) == Restarting
  {
    NewPainNotBlank();
    NewPainLowered(input);
    NewPainHasNew(ToLower(input));
    NewStartsOver(db, s, input);
  }

  lemma FeverFacts()
    ensures ToLower("fever") == "fever"
    ensures !Contains("fever", "new") && !Contains("fever", "hi") && !Contains("fever", "hello")
  {
    MissingCharNotContained("fever", "new", 'n');
    MissingCharNotContained("fever", "hi", 'h');
    MissingCharNotContained("fever", "hello", 'h');
  }

  /** The first description is matched on its own. */
  lemma FirstDescription(db: seq<SymptomEntry>, s: Session, input: string)
    requires s.question == Symptoms && s.symptoms == [] && input == "fever"
    ensures var r := Submit(db, s, input);
      r.question == AdditionalSymptoms && LastReply(r) == Advice(Match(db, "fever"))
  {
    FeverFacts();
    assert !IsSpace(input[0]);
    DescriptionIsAnalysed(db, s, input);
    assert Join([input], ". ") == "fever";
  }

  lemma CoughFacts()
    ensures ToLower("cough") == "cough"
    ensures !Contains("cough", "new") && !Contains("cough", "hi") && !Contains("cough", "hello")
  {
    MissingCharNotContained("cough", "new", 'n');
    MissingCharNotContained("cough", "hi", 'i');
    MissingCharNotContained("cough", "hello", 'e');
  }

  lemma FeverCoughJoined(first: string, second: string, text: string)
    requires first == "fever" && second == "cough" && text == "fever. cough"
    ensures first + ". " + second == text
  {
  }

  /** A further description is matched together with the earlier ones, joined by ". ". */
  lemma SecondDescription(db: seq<SymptomEntry>, s: Session, input: string, text: string)
    requires s.question == AdditionalSymptoms && s.symptoms == ["fever"] && input == "cough"
    requires text == "fever. cough"
    ensures var r := Submit(db, s, input);
      r.question == AdditionalSymptoms && LastReply(r) == Advice(Match(db, text))
  {
    CoughFacts();
    assert !IsSpace(input[0]);
    DescriptionIsAnalysed(db, s, input);
    JoinAppend(s.symptoms, [input], ". ");
    FeverCoughJoined(s.symptoms[0], input, text);
  }
}
