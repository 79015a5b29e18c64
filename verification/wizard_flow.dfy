/**
  The question cursor of the desktop assistant: `process_user_input` stores the answer to the
  question last asked, opens follow-up sections after the first answer, and
  `ask_next_question` asks the next question of the section, moves to the next section, or
  gives the recommendation.
 */
module WizardFlow {
  import opened Options
  import opened Text
  import opened WizardData
  import opened WizardAnalysis

  /** The state of one consultation. */
  datatype Wizard = Wizard(
    responses: Responses,
    section: Option<string>, // `current_question_type`; None once the questions have run out
    index: nat,              // `question_index`: how many questions of the section were asked
    gender: Option<string>)  // `user_profile["gender"]`, which starts as None

  const Start: Wizard := Wizard(map[], Some("initial"), 0, None)

  /** The section name set once the recommendation is given. */
  const NewConsultation: string := "new_consultation"

  /** Python truthiness of `current_question_type`. */
  predicate Active(section: Option<string>) {
    section.Some? && section.value != ""
  }

  // ---------------------------------------------------------------------------
  // Storing an answer

  /** `get_current_question` as written: the question before `index` in the section, but only
      while `index` is below the section's length. At index 0 Python's `[-1]` picks the last
      question. */
  function GetCurrentQuestion(section: Option<string>, index: nat): (q: Option<string>)
    ensures q.Some? <==> Active(section) && index < |Questions(section.value)|
    ensures q.Some? ==> q.value in Questions(section.value)
  {
    if !Active(section) then None
    else
      var qs := Questions(section.value);
      if index >= |qs| then None
      else if index == 0 then Some(qs[|qs| - 1])
      else Some(qs[index - 1])
  }

  /** `get_current_question` with the bound the caller needs: the question asked last, which
      is the one before `index`, for every `index` from 1 to the section's length. */
  function AnsweredQuestion(section: Option<string>, index: nat): (q: Option<string>)
    ensures q.Some? <==> Active(section) && 0 < index <= |Questions(section.value)|
    ensures q.Some? ==> q.value in Questions(section.value)
  {
    if !Active(section) then None
    else
      var qs := Questions(section.value);
      if index == 0 || index > |qs| then None else Some(qs[index - 1])
  }

  /** Giving a section an empty entry adds no answer. */
  lemma AnswersOfEmptyEntry(responses: Responses, t: string)
    requires t !in responses
    ensures Answers(responses[t := map[]]) == Answers(responses)
  {
    var r := responses[t := map[]];
    forall a | a in Answers(r) ensures a in Answers(responses) {
      var t', q :| t' in r && q in r[t'] && r[t'][q] == a;
    }
    forall a | a in Answers(responses) ensures a in Answers(r) {
      var t', q :| t' in responses && q in responses[t'] && responses[t'][q] == a;
      assert r[t'][q] == a;
    }
  }

  /** Lines 302-308: when a section is active and has asked something, the section gets an
      entry, and the answer is recorded under `question` if there is one. */
  function Store(w: Wizard, input: string, question: Option<string>): (r: Responses)
    ensures Active(w.section) && w.index > 0 ==> r.Keys == w.responses.Keys + {w.section.value}
    ensures !(Active(w.section) && w.index > 0) ==> r == w.responses
    ensures Active(w.section) && w.index > 0 && question.Some? ==>
      question.value in r[w.section.value] && r[w.section.value][question.value] == Some(input)
    ensures forall t, q :: t in w.responses && q in w.responses[t] ==>
      (!(Active(w.section) && w.index > 0 && question.Some? && t == w.section.value && q == question.value)
       ==> t in r && q in r[t] && r[t][q] == w.responses[t][q])
    ensures question.None? ==> Answers(r) == Answers(w.responses)
  {
    if Active(w.section) && w.index > 0 then
      var t := w.section.value;
      var entered := if t in w.responses then w.responses else w.responses[t := map[]];
      assert Answers(entered) == Answers(w.responses) by {
        if t !in w.responses { AnswersOfEmptyEntry(w.responses, t); }
      }
      if question.Some? then entered[t := entered[t][question.value := Some(input)]] else entered
    else w.responses
  }

  // ---------------------------------------------------------------------------
  // Follow-up sections

  /** `add_question_type`: a known section gets an empty entry unless it has one; an unknown
      name changes nothing. */
  function AddQuestionType(responses: Responses, t: string): (r: Responses)
    ensures IsQuestionType(t) ==> r.Keys == responses.Keys + {t}
    ensures !IsQuestionType(t) ==> r == responses
    ensures forall k :: k in responses ==> r[k] == responses[k]
    ensures t in r && t !in responses ==> r[t] == map[]
  {
    if !IsQuestionType(t) then responses
    else if t !in responses then responses[t := map[]]
    else responses
  }

  /** Some trigger word of section `t` occurs in `text`. */
  predicate Triggered(t: string, text: string) {
    exists i :: 0 <= i < |Triggers(t)| && Contains(text, Triggers(t)[i])
  }

  /** `any(term in text for term in words)`, term by term. */
  function AnyIn(words: seq<string>, text: string): (b: bool)
    ensures b <==> exists i :: 0 <= i < |words| && Contains(text, words[i])
  {
    if |words| == 0 then false
    else Contains(text, words[0]) || AnyIn(words[1..], text)
  }

  /** Opens each of `sections`, in order, whose trigger words occur in `text`. */
  function OpenTriggered(responses: Responses, sections: seq<string>, text: string): (r: Responses)
    requires forall i :: 0 <= i < |sections| ==> IsQuestionType(sections[i])
    ensures forall i :: 0 <= i < |sections| ==>
      (sections[i] in r <==> sections[i] in responses || Triggered(sections[i], text))
    ensures forall k :: k in responses ==> k in r && r[k] == responses[k]
    ensures forall k :: k in r && k !in responses ==> k in sections && r[k] == map[]
    decreases |sections|
  {
    if |sections| == 0 then responses
    else
      var t := sections[0];
      var next := if AnyIn(Triggers(t), text) then AddQuestionType(responses, t) else responses;
      var r := OpenTriggered(next, sections[1..], text);
      assert forall i :: 1 <= i < |sections| ==> sections[i] == sections[1..][i - 1];
      r
  }

  /** Lines 314-328: the follow-up sections whose trigger words the first answer contains,
      lower-cased, are opened; nothing already recorded changes. */
  function OpenFollowUps(responses: Responses, answer: string): (r: Responses)
    ensures forall i :: 0 <= i < |FollowUpOrder| ==>
      (FollowUpOrder[i] in r <==> FollowUpOrder[i] in responses || Triggered(FollowUpOrder[i], ToLower(answer)))
    ensures forall k :: k in responses ==> k in r && r[k] == responses[k]
    ensures forall k :: k in r && k !in responses ==> k in FollowUpOrder && r[k] == map[]
  {
    OpenTriggered(responses, FollowUpOrder, ToLower(answer))
  }

  /** Records each of `qs` without an answer. */
  function Unanswered(m: map<string, Option<string>>, qs: seq<string>): (r: map<string, Option<string>>)
    ensures r.Keys == m.Keys + set q | q in qs
    ensures forall q :: q in r ==> r[q] == if q in qs then None else m[q]
    decreases |qs|
  {
    if |qs| == 0 then m else Unanswered(m[qs[0] := None], qs[1..])
  }

  /** `add_gender_specific_questions`: the questions of the lower-cased gender are recorded in
      the initial section without an answer. */
  function AddGenderSpecific(responses: Responses, gender: string): (r: Responses)
    ensures var qs := GenderSpecific(ToLower(gender));
      && (|qs| == 0 ==> r == responses)
      && (|qs| > 0 ==> r.Keys == responses.Keys + {"initial"} && "initial" in r
                       && forall q :: q in qs ==> q in r["initial"] && r["initial"][q] == None)
  {
    var qs := GenderSpecific(ToLower(gender));
    if |qs| == 0 then responses
    else
      var initial := if "initial" in responses then responses["initial"] else map[];
      responses["initial" := Unanswered(initial, qs)]
  }

  /** Lines 331-332 for a known gender: one containing "female" gets its own questions. Only
      the pregnancy question of the initial section can change. */
  function GenderCheck(responses: Responses, gender: string): (r: Responses)
    ensures r.Keys == responses.Keys || r.Keys == responses.Keys + {"initial"}
    ensures forall t, q :: t in responses && q in responses[t] ==>
      (!(t == "initial" && q == PregnancyQuestion) ==> q in r[t] && r[t][q] == responses[t][q])
  {
    if Contains(ToLower(gender), "female") then AddGenderSpecific(responses, gender) else responses
  }

  // ---------------------------------------------------------------------------
  // Asking the next question

  datatype Prompt = Ask(question: string) | Recommend

  datatype Asked = Asked(wizard: Wizard, prompt: Prompt)

  /** The section has a recorded answer to one of its questions. */
  predicate Started(responses: Responses, t: string) {
    t in responses && exists i :: 0 <= i < |Questions(t)| && Questions(t)[i] in responses[t]
  }

  /** Lines 370-390: after the initial section any opened follow-up section may come next;
      after a follow-up section, only another one that has no answer yet. */
  predicate Eligible(w: Wizard, t: string) {
    t in w.responses && (w.section == Some("initial") || (Some(t) != w.section && !Started(w.responses, t)))
  }

  /** The position in `FollowUpOrder`, from `i` on, of the first eligible section, or the
      length of the order when there is none. */
  function FirstEligible(w: Wizard, i: nat): (j: nat)
    requires i <= |FollowUpOrder|
    ensures i <= j <= |FollowUpOrder|
    ensures j < |FollowUpOrder| ==> Eligible(w, FollowUpOrder[j])
    ensures forall k :: i <= k < j ==> !Eligible(w, FollowUpOrder[k])
    decreases |FollowUpOrder| - i
  {
    if i == |FollowUpOrder| || Eligible(w, FollowUpOrder[i]) then i else FirstEligible(w, i + 1)
  }

  /** Lines 368-390: a section whose questions are all asked gives way to the first eligible
      follow-up section, or to none. */
  function NextSection(w: Wizard): (r: Wizard)
    ensures r.responses == w.responses && r.gender == w.gender
  {
    if Active(w.section) && w.index >= |Questions(w.section.value)| then
      var j := FirstEligible(w, 0);
      if j < |FollowUpOrder| then w.(section := Some(FollowUpOrder[j]), index := 0)
      else w.(section := None)
    else w
  }

  /** `ask_next_question`: the next question of the (possibly new) section is asked and
      counted; when there is none the recommendation is given and the section becomes
      "new_consultation". */
  function AskNextQuestion(w: Wizard): (r: Asked)
    ensures r.wizard.responses == w.responses && r.wizard.gender == w.gender
    ensures r.prompt.Ask? ==>
      && Active(r.wizard.section) && 0 < r.wizard.index <= |Questions(r.wizard.section.value)|
      && r.prompt.question == Questions(r.wizard.section.value)[r.wizard.index - 1]
    ensures r.prompt.Recommend? ==> r.wizard.section == Some(NewConsultation)
  {
    var moved := NextSection(w);
    if Active(moved.section) && moved.index < |Questions(moved.section.value)| then
      Asked(moved.(index := moved.index + 1), Ask(Questions(moved.section.value)[moved.index]))
    else
      Asked(moved.(section := Some(NewConsultation)), Recommend)
  }

  // ---------------------------------------------------------------------------
  // One turn

  datatype Turn =
    | Ignored                            // blank input: nothing happens
    | Raised(wizard: Wizard)             // an exception ended the handler; its changes stay
    | Prompted(wizard: Wizard, prompt: Prompt)

  function Continue(w: Wizard): Turn {
    var a := AskNextQuestion(w);
    Prompted(a.wizard, a.prompt)
  }

  /** `process_user_input` as written. `user_profile["gender"]` is None, so the `.lower()` of
      line 331 raises once the first answer is in. */
  function ProcessUserInputAsWritten(w: Wizard, raw: string): (t: Turn)
    ensures Strip(raw) == "" <==> t.Ignored?
    ensures t.Ignored? <==> forall k :: 0 <= k < |raw| ==> IsPySpace(raw[k])
  {
    var input := Strip(raw);
    StripBlankIff(raw);
    if input == "" then Ignored
    else
      var stored := w.(responses := Store(w, input, GetCurrentQuestion(w.section, w.index)));
      if w.section == Some("initial") && w.index == 1 then
        var followed := stored.(responses := OpenFollowUps(stored.responses, input));
        match w.gender
        case None => Raised(followed)
        case Some(g) => Continue(followed.(responses := GenderCheck(followed.responses, g)))
      else Continue(stored)
  }

  /** `process_user_input` with only the gender lookup of line 331 repaired: a missing gender
      reads as "", while the answer is still looked up with `get_current_question`. */
  function ProcessUserInputGenderFixed(w: Wizard, raw: string): (t: Turn)
    ensures t.Ignored? <==> forall k :: 0 <= k < |raw| ==> IsPySpace(raw[k])
    ensures !t.Raised?
  {
    var input := Strip(raw);
    StripBlankIff(raw);
    if input == "" then Ignored
    else
      var stored := w.(responses := Store(w, input, GetCurrentQuestion(w.section, w.index)));
      if w.section == Some("initial") && w.index == 1 then
        var followed := stored.(responses := OpenFollowUps(stored.responses, input));
        Continue(followed.(responses := GenderCheck(followed.responses, w.gender.GetOr(""))))
      else Continue(stored)
  }

  /** `process_user_input` with both defects repaired: the answer to the last question of a
      section is stored, and a missing gender reads as "". */
  function ProcessUserInput(w: Wizard, raw: string): (t: Turn)
    ensures Strip(raw) == "" <==> t.Ignored?
    ensures t.Ignored? <==> forall k :: 0 <= k < |raw| ==> IsPySpace(raw[k])
    ensures !t.Raised?
  {
    var input := Strip(raw);
    StripBlankIff(raw);
    if input == "" then Ignored
    else
      var stored := w.(responses := Store(w, input, AnsweredQuestion(w.section, w.index)));
      if w.section == Some("initial") && w.index == 1 then
        var followed := stored.(responses := OpenFollowUps(stored.responses, input));
        Continue(followed.(responses := GenderCheck(followed.responses, w.gender.GetOr(""))))
      else Continue(stored)
  }

  /** The state after a turn. */
  function After(w: Wizard, t: Turn): Wizard {
    match t
    case Ignored => w
    case Raised(next) => next
    case Prompted(next, _) => next
  }

  /** `greet_user`: the greeting is followed by the first question. */
  function Greet(): Asked {
    AskNextQuestion(Start)
  }

  /** A sequence of turns, as written. */
  function RunAsWritten(w: Wizard, inputs: seq<string>): Wizard
    decreases |inputs|
  {
    if |inputs| == 0 then w else RunAsWritten(After(w, ProcessUserInputAsWritten(w, inputs[0])), inputs[1..])
  }

  /** A sequence of turns with only the gender lookup repaired. */
  function RunGenderFixed(w: Wizard, inputs: seq<string>): Wizard
    decreases |inputs|
  {
    if |inputs| == 0 then w else RunGenderFixed(After(w, ProcessUserInputGenderFixed(w, inputs[0])), inputs[1..])
  }
}
