/**
  One turn of the web app's conversation (src/App.tsx): `handleSubmit` with the body of its
  timer callback, `handleUserInfo`, `analyzeSymptoms`, `handleSymptomAnalysis` and
  `startNewConsultation`. The React state (the transcript, the user record, the current
  question and the symptom log) is a `Session` value and a turn is a pure function from the
  session and the typed text to the next session.

  The bot's replies are kept as `Reply` values and `Words` spells each one out word for word,
  so that the state machine and the wording can be reasoned about separately. The symptom
  catalog is a parameter `db`; the app uses `db == SymptomDatabase`.
 */
module Conversation {
  import opened Options
  import opened Text
  import opened Numbers
  import opened Names
  import opened Catalog
  import opened Matcher

  // ---------------------------------------------------------------------------
  // State

  /** `currentQuestion`. */
  datatype Question = Name | Age | Gender | Symptoms | AdditionalSymptoms {
    /** The three questions `handleUserInfo` answers; the other two are the symptom states. */
    predicate IsIntake() {
      this == Name || this == Age || this == Gender
    }
  }

  /** `UserInfo` of src/types.ts: three strings, empty until answered. */
  datatype UserInfo = UserInfo(name: string, age: string, gender: string)

  const NoInfo: UserInfo := UserInfo("", "", "")

  /** Everything the bot says. */
  datatype Reply =
    | Welcome
    | AskName
    | NiceToMeet(name: string)
    | AgeRetry
    | AskGender
    | GenderRetry
    | AskSymptoms(name: string)
    | Advice(matched: Option<string>)
    | Restarting
    | Greeting(name: string)
    | NotUnderstood(question: Question)

  /** A line of the transcript: what the user typed, or a reply. */
  datatype Entry = UserSaid(text: string) | BotSaid(reply: Reply)

  /** The four pieces of component state a turn reads and writes. */
  datatype Session = Session(transcript: seq<Entry>, info: UserInfo, question: Question, symptoms: seq<string>)

  /** The state the component starts in. */
  const Initial: Session := Session([BotSaid(Welcome)], NoInfo, Name, [])

  // ---------------------------------------------------------------------------
  // The intake questions

  /** What `handleUserInfo` decides: its reply and the user record and question it leaves. */
  datatype Answer = Answer(reply: Reply, info: UserInfo, question: Question)

  /** `handleUserInfo(input)`; `None` is its `null` for the symptom states. */
  function HandleUserInfo(info: UserInfo, q: Question, input: string): (r: Option<Answer>)
    ensures r.Some? <==> q.IsIntake()
  {
    match q
    case Name =>
      (match NameAnswer(input)
       case None => Some(Answer(AskName, info, Name))
       case Some(name) => Some(Answer(NiceToMeet(name), info.(name := name), Age)))
    case Age =>
      if !IsNumeric(input) then Some(Answer(AgeRetry, info, Age))
      else Some(Answer(AskGender, info.(age := input), Gender))
    case Gender =>
      var answer := Trim(ToLower(input));
      if answer != "male" && answer != "female" then Some(Answer(GenderRetry, info, Gender))
      else Some(Answer(AskSymptoms(info.name), info.(gender := answer), Symptoms))
    case _ => None
  }

  // ---------------------------------------------------------------------------
  // The symptom questions

  /** `if (matchedSpecialist)`: a match counts only when it is a non-empty string, since the
      empty string is falsy. */
  predicate Recommends(matched: Option<string>) {
    matched.Some? && matched.value != ""
  }

  /** The label the analysis recommends for a match result: the matched specialist when the
      match counts, otherwise the general physician. The label is never empty. */
  function Label(matched: Option<string>): (r: string)
    ensures |r| > 0
    ensures Recommends(matched) ==> r == matched.value
    ensures !Recommends(matched) ==> r == FallbackRecommendation
  {
    if Recommends(matched) then matched.value else FallbackRecommendation
  }

  /** `SymptomMatcher.matchSymptoms` against the catalog `db`. */
  function Match(db: seq<SymptomEntry>, symptoms: string): Option<string> {
    MatchWords(db, Tokenize(symptoms))
  }

  /** The symptom log after one more description, and the reply to it. */
  datatype Analysis = Analysis(log: seq<string>, reply: Reply)

  /** `handleSymptomAnalysis`: the description joins the log, and the whole log, joined with
      ". ", is matched as one text. */
  function HandleSymptomAnalysis(db: seq<SymptomEntry>, log: seq<string>, input: string): (r: Analysis)
    ensures |r.log| == |log| + 1 && r.log[..|log|] == log && r.log[|log|] == input
    ensures r.reply.Advice? && r.reply.matched == Match(db, Join(r.log, ". "))
  {
    var updated := log + [input];
    Analysis(updated, Advice(Match(db, Join(updated, ". "))))
  }

  // ---------------------------------------------------------------------------
  // One turn

  /** Which branch of the timer callback answers. */
  datatype Branch =
    | ByIntake(answer: Answer) // `handleUserInfo` gave a non-empty reply
    | ByReset                  // the text contains "new"
    | ByGreeting               // the text contains "hi" or "hello"
    | ByAnalysis               // a symptom description
    | ByFallback               // "I'm sorry, I didn't understand that."

  /** The checks of the callback in the order the code makes them. The first is
      `handleUserInfo(input) || ''` being non-empty, which holds exactly when `handleUserInfo`
      answers, since no reply is empty (`RepliesHaveWords`). Every intake answer gets a reply
      that way, so the reset and the greeting are reached only in the symptom states, and the
      last branch never. */
  function Route(s: Session, input: string): (b: Branch)
    ensures b.ByIntake? <==> s.question.IsIntake()
    ensures b.ByIntake? ==> Some(b.answer) == HandleUserInfo(s.info, s.question, input)
    ensures !b.ByFallback?
  {
    var answered := HandleUserInfo(s.info, s.question, input);
    var lower := ToLower(input);
    if s.question.IsIntake() && answered.Some? then ByIntake(answered.value)
    else if Contains(lower, "new") then ByReset
    else if Contains(lower, "hi") || Contains(lower, "hello") then ByGreeting
    else if !s.question.IsIntake() then ByAnalysis
    else ByFallback
  }

  /** What a turn leaves behind, apart from the transcript. */
  datatype Outcome = Outcome(info: UserInfo, question: Question, symptoms: seq<string>, reply: Reply)

  /** `startNewConsultation`. */
  function StartNewConsultation(): (o: Outcome)
    ensures o.info == Initial.info && o.question == Initial.question && o.symptoms == Initial.symptoms
  {
    Outcome(NoInfo, Name, [], Restarting)
  }

  /** The body of the timer callback for a non-blank input. */
  function Respond(db: seq<SymptomEntry>, s: Session, input: string): (o: Outcome)
    ensures o.symptoms == s.symptoms || o.symptoms == [] || o.symptoms == s.symptoms + [input]
  {
    match Route(s, input)
    case ByIntake(a) => Outcome(a.info, a.question, s.symptoms, a.reply)
    case ByReset => StartNewConsultation()
    case ByGreeting => Outcome(s.info, s.question, s.symptoms, Greeting(s.info.name))
    case ByAnalysis =>
      var a := HandleSymptomAnalysis(db, s.symptoms, input);
      assert a.log == s.symptoms + [input];
      Outcome(s.info, AdditionalSymptoms, a.log, a.reply)
    case ByFallback => Outcome(s.info, s.question, s.symptoms, NotUnderstood(s.question))
  }

  /** `handleSubmit`: blank input is ignored; otherwise the typed text and the reply join the
      transcript and the outcome of the turn becomes the new state. */
  function Submit(db: seq<SymptomEntry>, s: Session, input: string): (r: Session)
    ensures Trim(input) == "" ==> r == s
    ensures Trim(input) != "" ==> |r.transcript| == |s.transcript| + 2 && r.transcript[..|s.transcript|] == s.transcript
    ensures Trim(input) != "" ==> r.transcript[|s.transcript|] == UserSaid(input)
  {
    if Trim(input) == "" then s
    else
      var o := Respond(db, s, input);
      Session(s.transcript + [UserSaid(input), BotSaid(o.reply)], o.info, o.question, o.symptoms)
  }

  /** A sequence of turns. */
  function Run(db: seq<SymptomEntry>, s: Session, inputs: seq<string>): Session
    decreases |inputs|
  {
    if |inputs| == 0 then s else Run(db, Submit(db, s, inputs[0]), inputs[1..])
  }

  // ---------------------------------------------------------------------------
  // The wording of the replies. Each fixed piece is a constant; replies that quote the user
  // or the match are assembled from them.

  const WelcomeText: string :=
    "Hi! I'm Medi Wizard, your AI health assistant. Before we begin, could you please tell me your name?"

  const AskNameText: string := "Could you please tell me your name?"

  const NiceToMeetHead: string := "Nice to meet you, "

  const NiceToMeetTail: string := "! Could you please tell me your age?"

  const AgeRetryText: string := "I'm sorry, I didn't catch that. Could you please enter your age as a number?"

  const AskGenderText: string := "Thank you! And what is your gender? Please enter 'Male' or 'Female'."

  const GenderRetryText: string :=
    "I'm sorry, I didn't understand that. Please enter either 'Male' or 'Female' for your gender."

  const AskSymptomsHead: string := "Thank you "

  const AskSymptomsTail: string :=
    "! Now, please describe your symptoms in detail. I'll analyze them and recommend the most appropriate specialist for you."

  const Link: string := "https://symptoms.webmd.com/"

  const MatchedHead: string := "Based on your symptoms, I recommend consulting a "

  const MatchedTail: string :=
    ".\n\nThis recommendation is based on matching your symptoms with our medical database. The specialist(s) mentioned are best equipped to diagnose and treat your specific condition."

  const UnmatchedHead: string := "Based on your symptoms, I recommend starting with a "

  const UnmatchedTail: string :=
    ". They can provide an initial assessment and refer you to a specialist if needed.\n\nIf your symptoms are severe or worsening, please seek immediate medical attention."

  const BoldMark: string := "**"

  const DisclaimerHead: string :=
    "\n\n**Important:** This is not a substitute for professional medical advice. Always consult with healthcare professionals for proper diagnosis and treatment.\n\nFor additional symptom information, you can visit:\n"

  const DisclaimerTail: string :=
    "\n\n**What would you like to do next?**\n\U{2022} Tell me about **additional symptoms** you're experiencing\n\U{2022} Type **'new'** to start a fresh consultation"

  const RestartingText: string := "Starting a new consultation. Could you please tell me your name?"

  const HelloHead: string := "Hello "

  const HelloTail: string :=
    "! How can I help you today? You can tell me about additional symptoms or type 'new' to start a fresh consultation."

  const HelloStranger: string := "Hello! Could you please tell me your name to get started?"

  const SorryHead: string := "I'm sorry, I didn't understand that. "

  const SorryTail: string := "\n\nFor more detailed information, you can visit:\n"

  /** Markdown bold, as the transcript shows it. */
  function Bold(s: string): string {
    BoldMark + s + BoldMark
  }

  /** `analyzeSymptoms`, given the match result. */
  function AnalyzeSymptoms(matched: Option<string>): (r: string)
    ensures Contains(r, Bold(Label(matched)))
    ensures Recommends(matched) ==> Contains(r, Bold(matched.value))
    ensures !Recommends(matched) ==> Contains(r, Bold(FallbackRecommendation))
  {
    var head := if Recommends(matched) then MatchedHead else UnmatchedHead;
    var tail := if Recommends(matched) then MatchedTail else UnmatchedTail;
    ContainsSelf(Bold(Label(matched)));
    ContainsWithin(head, Bold(Label(matched)), tail, Bold(Label(matched)));
    head + Bold(Label(matched)) + tail
  }

  /** A matched empty label is falsy, so it gets the same text as no match at all. */
  lemma EmptyMatchFallsBack()
    ensures AnalyzeSymptoms(Some("")) == AnalyzeSymptoms(None)
    ensures Label(Some("")) == FallbackRecommendation
  {
  }

  /** With a catalog whose labels are all non-empty, every match is recommended as such. */
  lemma MatchRecommends(db: seq<SymptomEntry>, symptoms: string)
    requires forall i :: 0 <= i < |db| ==> db[i].specialist != ""
    ensures Recommends(Match(db, symptoms)) <==> Match(db, symptoms).Some?
  {
  }

  /** The shipped catalog has no empty label, so its matches are always recommended. */
  lemma ShippedMatchRecommends(symptoms: string)
    ensures Recommends(Match(SymptomDatabase, symptoms)) <==> Match(SymptomDatabase, symptoms).Some?
  {
    LabelsNonEmpty();
    MatchRecommends(SymptomDatabase, symptoms);
  }

  /** `handleSymptomAnalysis`'s reply: the analysis and then the disclaimer with the link. */
  function AdviceWords(matched: Option<string>): string {
    AnalyzeSymptoms(matched) + DisclaimerHead + Link + DisclaimerTail
  }

  /** The question the last branch of the dispatch asks again. */
  function Clarify(q: Question): string {
    match q
    case Name => AskNameText
    case Age => "Could you please tell me your age?"
    case Gender => "Could you please tell me your gender (Male or Female)?"
    case _ => "Could you please provide more details about your symptoms?"
  }

  /** The words of a reply, as the transcript shows them. */
  function Words(r: Reply): string {
    match r
    case Welcome => WelcomeText
    case AskName => AskNameText
    case NiceToMeet(name) => NiceToMeetHead + name + NiceToMeetTail
    case AgeRetry => AgeRetryText
    case AskGender => AskGenderText
    case GenderRetry => GenderRetryText
    case AskSymptoms(name) => AskSymptomsHead + name + AskSymptomsTail
    case Advice(matched) => AdviceWords(matched)
    case Restarting => RestartingText
    case Greeting(name) => if name != "" then HelloHead + name + HelloTail else HelloStranger
    case NotUnderstood(q) => SorryHead + Clarify(q) + SorryTail + Link
  }

  /** Every reply says something, so `handleUserInfo`'s reply always ends the turn. */
  lemma RepliesHaveWords(r: Reply)
    ensures |Words(r)| > 0
  {
  }

  /** Text that contains `n` still does after more text is put behind it, and the whole
      contains the link that is put behind it. */
  lemma FollowedByLink(text: string, head: string, link: string, tail: string, n: string)
    requires Contains(text, n)
    ensures Contains(text + head + link + tail, n)
    ensures Contains(text + head + link + tail, link)
  {
    ContainsSelf(link);
    ContainsWithin(text + head, link, tail, link);
    ContainsWithin([], text, head + link + tail, n);
    assert [] + text + (head + link + tail) == text + head + link + tail;
  }

  /** The reply to a symptom description names the recommended specialist in bold and always
      carries the link. */
  lemma AdviceNamesSpecialist(matched: Option<string>)
    ensures Contains(AdviceWords(matched), Bold(Label(matched)))
    ensures Contains(AdviceWords(matched), Link)
  {
    FollowedByLink(AnalyzeSymptoms(matched), DisclaimerHead, Link, DisclaimerTail, Bold(Label(matched)));
  }

  /** What the transcript shows for one of its lines (`Message` of src/types.ts). */
  datatype Sender = User | Bot

  datatype Message = Message(text: string, sender: Sender)

  function Render(e: Entry): Message {
    match e
    case UserSaid(t) => Message(t, User)
    case BotSaid(r) => Message(Words(r), Bot)
  }
}
