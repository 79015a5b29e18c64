/**
  Properties of the desktop assistant's question cursor, and the two defects of
  `process_user_input` next to their repairs.
 */
module WizardLemmas {
  import opened Options
  import opened Text
  import opened WizardData
  import opened WizardAnalysis
  import opened WizardFlow

  // ---------------------------------------------------------------------------
  // Sections

  /** Opening a section twice is opening it once. */
  lemma AddQuestionTypeIdempotent(responses: Responses, t: string)
    ensures AddQuestionType(AddQuestionType(responses, t), t) == AddQuestionType(responses, t)
  {
  }

  /** Inside a section the question at `index` is asked and `index` goes up by one. */
  lemma AskWithinSection(w: Wizard)
    requires Active(w.section) && w.index < |Questions(w.section.value)|
    ensures AskNextQuestion(w) == Asked(w.(index := w.index + 1), Ask(Questions(w.section.value)[w.index]))
  {
  }

  /** When the initial questions are used up, the first opened follow-up section in the
      order pain, stomach, breathing, dizziness, mental is started at its first question; with
      none opened the recommendation is given. */
  lemma InitialExhausted(w: Wizard)
    requires w.section == Some("initial") && w.index >= |Questions("initial")|
    ensures var r := AskNextQuestion(w);
      && ((exists i :: 0 <= i < |FollowUpOrder| && FollowUpOrder[i] in w.responses) ==>
            exists j :: 0 <= j < |FollowUpOrder| && FollowUpOrder[j] in w.responses
              && (forall k :: 0 <= k < j ==> FollowUpOrder[k] !in w.responses)
              && r == Asked(w.(section := Some(FollowUpOrder[j]), index := 1), Ask(Questions(FollowUpOrder[j])[0])))
      && ((forall i :: 0 <= i < |FollowUpOrder| ==> FollowUpOrder[i] !in w.responses) ==>
            r == Asked(w.(section := Some(NewConsultation)), Recommend))
  {
    var j := FirstEligible(w, 0);
    if j < |FollowUpOrder| {
      assert IsQuestionType(FollowUpOrder[j]);
    }
  }

  /** When a follow-up section is used up, the next is the first other opened follow-up section
      with no answer yet (that is what `Eligible` means outside the initial section); with none
      left the recommendation is given. */
  lemma FollowUpExhausted(w: Wizard)
    requires Active(w.section) && w.section.value in FollowUpOrder
    requires w.index >= |Questions(w.section.value)|
    ensures var r := AskNextQuestion(w);
      && ((exists i :: 0 <= i < |FollowUpOrder| && Eligible(w, FollowUpOrder[i])) ==>
            exists j :: 0 <= j < |FollowUpOrder| && Eligible(w, FollowUpOrder[j])
              && (forall k :: 0 <= k < j ==> !Eligible(w, FollowUpOrder[k]))
              && r == Asked(w.(section := Some(FollowUpOrder[j]), index := 1), Ask(Questions(FollowUpOrder[j])[0])))
      && ((forall i :: 0 <= i < |FollowUpOrder| ==> !Eligible(w, FollowUpOrder[i])) ==>
            r == Asked(w.(section := Some(NewConsultation)), Recommend))
  {
    var j := FirstEligible(w, 0);
    if j < |FollowUpOrder| {
      assert IsQuestionType(FollowUpOrder[j]);
    }
  }

  /** The first answer opens exactly the follow-up sections whose trigger words it contains. */
  lemma FirstAnswerOpensSections(w: Wizard, raw: string)
    requires w.section == Some("initial") && w.index == 1 && Strip(raw) != ""
    ensures var t := ProcessUserInput(w, raw);
      forall i :: 0 <= i < |FollowUpOrder| ==>
        (FollowUpOrder[i] in t.wizard.responses <==>
         FollowUpOrder[i] in w.responses || Triggered(FollowUpOrder[i], ToLower(Strip(raw))))
  {
    var input := Strip(raw);
    var stored := Store(w, input, AnsweredQuestion(w.section, w.index));
    var followed := OpenFollowUps(stored, input);
    var checked := GenderCheck(followed, w.gender.GetOr(""));
    FirstAnswerResponses(w, raw);
    SectionsKept(w.responses, stored, followed, checked, ToLower(input));
  }

  /** Adding the initial section before and after opening follow-up sections does not change
      which follow-up sections are open. */
  lemma SectionsKept(before: Responses, stored: Responses, followed: Responses, checked: Responses, text: string)
    requires stored.Keys == before.Keys + {"initial"}
    requires forall i :: 0 <= i < |FollowUpOrder| ==>
      (FollowUpOrder[i] in followed <==> FollowUpOrder[i] in stored || Triggered(FollowUpOrder[i], text))
    requires checked.Keys == followed.Keys || checked.Keys == followed.Keys + {"initial"}
    ensures forall i :: 0 <= i < |FollowUpOrder| ==>
      (FollowUpOrder[i] in checked <==> FollowUpOrder[i] in before || Triggered(FollowUpOrder[i], text))
  {
    FollowUpsAreSections();
  }

  lemma FirstAnswerResponses(w: Wizard, raw: string)
    requires w.section == Some("initial") && w.index == 1 && Strip(raw) != ""
    ensures ProcessUserInput(w, raw).wizard.responses ==
      GenderCheck(OpenFollowUps(Store(w, Strip(raw), AnsweredQuestion(w.section, w.index)), Strip(raw)), w.gender.GetOr(""))
  {
  }

  // ---------------------------------------------------------------------------
  // The last answer of a section

  /** As written, the question just asked is found again by `get_current_question` unless it
      was the last of its section. */
  lemma CurrentQuestionAfterAsking(w: Wizard)
    requires AskNextQuestion(w).prompt.Ask?
    ensures var r := AskNextQuestion(w);
      && (r.wizard.index < |Questions(r.wizard.section.value)| ==>
            GetCurrentQuestion(r.wizard.section, r.wizard.index) == Some(r.prompt.question))
      && (r.wizard.index == |Questions(r.wizard.section.value)| ==>
            GetCurrentQuestion(r.wizard.section, r.wizard.index) == None)
  {
  }

  /** So the answer to the last question of a section is never stored: the turn leaves the
      stored answers, and with them the advice, as they were. */
  lemma LastAnswerDropped(w: Wizard, raw: string)
    requires Active(w.section) && 0 < w.index == |Questions(w.section.value)|
    requires Strip(raw) != ""
    ensures var t := ProcessUserInputAsWritten(w, raw);
      t.Prompted? && Answers(t.wizard.responses) == Answers(w.responses)
  {
  }

  /** The dropped answer is latent as written, since the first answer already raises (see
      `StuckAtFirstQuestion`). With only the gender lookup repaired, each non-blank answer to an
      initial question moves the cursor one question on. */
  lemma GenderFixedAdvances(w: Wizard, raw: string)
    requires w.section == Some("initial") && 0 < w.index < |InitialQuestions|
    requires Strip(raw) != ""
    ensures var t := ProcessUserInputGenderFixed(w, raw);
      t.Prompted? && t.wizard.section == Some("initial") && t.wizard.index == w.index + 1
  {
    var input := Strip(raw);
    var stored := w.(responses := Store(w, input, GetCurrentQuestion(w.section, w.index)));
    assert |Questions("initial")| == |InitialQuestions|;
    if w.index == 1 {
      var followed := stored.(responses := OpenFollowUps(stored.responses, input));
      ContinueInSection(followed.(responses := GenderCheck(followed.responses, w.gender.GetOr(""))));
    } else {
      ContinueInSection(stored);
    }
  }

  /** So from the question at `w.index`, non-blank answers walk through the initial questions. */
  lemma {:induction false} GenderFixedWalks(w: Wizard, inputs: seq<string>)
    requires w.section == Some("initial") && 0 < w.index && w.index + |inputs| <= |InitialQuestions|
    requires forall i :: 0 <= i < |inputs| ==> Strip(inputs[i]) != ""
    ensures var r := RunGenderFixed(w, inputs);
      r.section == Some("initial") && r.index == w.index + |inputs|
    decreases |inputs|
  {
    if |inputs| > 0 {
      GenderFixedAdvances(w, inputs[0]);
      var next := After(w, ProcessUserInputGenderFixed(w, inputs[0]));
      assert forall i :: 0 <= i < |inputs[1..]| ==> Strip(inputs[1..][i]) != "" by {
        forall i | 0 <= i < |inputs[1..]| ensures Strip(inputs[1..][i]) != "" {
          assert inputs[1..][i] == inputs[i + 1];
        }
      }
      GenderFixedWalks(next, inputs[1..]);
    }
  }

  /** Once the gender lookup is repaired the defect shows: from the first initial question,
      where the greeting leaves the consultation (`GreetAsksFirst`), seven non-blank answers
      lead to the eighth question, and its answer is not stored. */
  lemma LatentLastAnswerDropped(w: Wizard, inputs: seq<string>, raw: string)
    requires w.section == Some("initial") && w.index == 1
    requires |inputs| == |InitialQuestions| - 1
    requires forall i :: 0 <= i < |inputs| ==> Strip(inputs[i]) != ""
    requires Strip(raw) != ""
    ensures var last := RunGenderFixed(w, inputs);
      var t := ProcessUserInputGenderFixed(last, raw);
      && last.section == Some("initial") && last.index == |InitialQuestions|
      && t.Prompted? && Answers(t.wizard.responses) == Answers(last.responses)
  {
    GenderFixedWalks(w, inputs);
    var last := RunGenderFixed(w, inputs);
    assert |Questions("initial")| == |InitialQuestions|;
    GenderFixedAgrees(last, raw);
    LastAnswerDropped(last, raw);
  }

  /** Away from the first answer, repairing the gender lookup changes nothing. */
  lemma GenderFixedAgrees(w: Wizard, raw: string)
    requires !(w.section == Some("initial") && w.index == 1)
    ensures ProcessUserInputGenderFixed(w, raw) == ProcessUserInputAsWritten(w, raw)
  {
  }

  /** Repaired, the question just asked is always the one an answer is stored under. */
  lemma AnsweredAfterAsking(w: Wizard)
    requires AskNextQuestion(w).prompt.Ask?
    ensures var r := AskNextQuestion(w);
      AnsweredQuestion(r.wizard.section, r.wizard.index) == Some(r.prompt.question)
  {
  }

  /** Repaired, every answer to an asked question is stored under it, the last of a section
      included. */
  lemma EveryAnswerStored(w: Wizard, raw: string)
    requires Active(w.section) && 0 < w.index <= |Questions(w.section.value)|
    requires Strip(raw) != ""
    ensures var t := ProcessUserInput(w, raw);
      var s, q := w.section.value, Questions(w.section.value)[w.index - 1];
      t.Prompted? && s in t.wizard.responses && q in t.wizard.responses[s]
      && t.wizard.responses[s][q] == Some(Strip(raw))
  {
    var s, q := w.section.value, Questions(w.section.value)[w.index - 1];
    var input := Strip(raw);
    var stored := Store(w, input, AnsweredQuestion(w.section, w.index));
    assert stored[s][q] == Some(input);
    TurnResponses(w, raw);
    if s == "initial" && w.index == 1 {
      assert |PregnancyQuestion| != |InitialQuestions[0]|;
      var followed := OpenFollowUps(stored, input);
      assert followed[s][q] == Some(input);
      var checked := GenderCheck(followed, w.gender.GetOr(""));
      assert checked[s][q] == Some(input);
    }
  }

  /** What a non-blank turn leaves in `responses`: the stored answer, plus for the first answer
      the opened follow-up sections and the gender check. */
  lemma TurnResponses(w: Wizard, raw: string)
    requires Strip(raw) != ""
    ensures var t, input := ProcessUserInput(w, raw), Strip(raw);
      var stored := Store(w, input, AnsweredQuestion(w.section, w.index));
      && t.Prompted?
      && t.wizard.responses ==
        if w.section == Some("initial") && w.index == 1
        then GenderCheck(OpenFollowUps(stored, input), w.gender.GetOr(""))
        else stored
  {
    var input := Strip(raw);
    var stored := w.(responses := Store(w, input, AnsweredQuestion(w.section, w.index)));
    if w.section == Some("initial") && w.index == 1 {
      var followed := stored.(responses := OpenFollowUps(stored.responses, input));
      var checked := followed.(responses := GenderCheck(followed.responses, w.gender.GetOr("")));
      assert ProcessUserInput(w, raw) == Continue(checked);
    } else {
      assert ProcessUserInput(w, raw) == Continue(stored);
    }
  }

  // ---------------------------------------------------------------------------
  // The missing gender

  /** `greet_user` asks the first initial question. */
  lemma GreetAsksFirst()
    ensures Greet() == Asked(Start.(index := 1), Ask(InitialQuestions[0]))
  {
  }

  /** As written, the first answer makes line 331 call `.lower()` on None: the handler raises
      before any question is asked, and the cursor stays where it was. The answer is still
      stored under the first question, so each later answer overwrites it. */
  lemma FirstAnswerRaises(w: Wizard, raw: string)
    requires w.section == Some("initial") && w.index == 1 && w.gender.None?
    requires Strip(raw) != ""
    ensures var t := ProcessUserInputAsWritten(w, raw);
      && t.Raised? && t.wizard.section == w.section && t.wizard.index == 1 && t.wizard.gender.None?
      && "initial" in t.wizard.responses && InitialQuestions[0] in t.wizard.responses["initial"]
      && t.wizard.responses["initial"][InitialQuestions[0]] == Some(Strip(raw))
  {
    var input := Strip(raw);
    var stored := Store(w, input, GetCurrentQuestion(w.section, w.index));
    assert GetCurrentQuestion(w.section, w.index) == Some(InitialQuestions[0]);
    assert stored["initial"][InitialQuestions[0]] == Some(input);
    assert OpenFollowUps(stored, input)["initial"] == stored["initial"];
  }

  /** So, as written, the consultation never gets past the first question. */
  lemma {:induction false} StuckAtFirstQuestion(w: Wizard, inputs: seq<string>)
    requires w.section == Some("initial") && w.index == 1 && w.gender.None?
    ensures var r := RunAsWritten(w, inputs);
      r.section == Some("initial") && r.index == 1 && r.gender.None?
    decreases |inputs|
  {
    if |inputs| > 0 {
      if Strip(inputs[0]) != "" {
        FirstAnswerRaises(w, inputs[0]);
      }
      StuckAtFirstQuestion(After(w, ProcessUserInputAsWritten(w, inputs[0])), inputs[1..]);
    }
  }

  /** Repaired, the first answer leads to the second initial question. */
  lemma FirstAnswerAdvances(w: Wizard, raw: string)
    requires w.section == Some("initial") && w.index == 1 && w.gender.None?
    requires Strip(raw) != ""
    ensures var t := ProcessUserInput(w, raw);
      t.Prompted? && t.prompt == Ask(InitialQuestions[1])
      && t.wizard.section == Some("initial") && t.wizard.index == 2
  {
    var input := Strip(raw);
    var c := w.(responses := GenderCheck(OpenFollowUps(Store(w, input, AnsweredQuestion(w.section, w.index)), input), ""));
    FirstAnswerStored(w, raw);
    assert |Questions("initial")| == 8;
    ContinueInSection(c);
    assert Questions("initial")[1] == InitialQuestions[1];
  }

  /** The first answer is stored, the follow-up sections it mentions are opened and the
      gender check runs with "" before the next question is asked. */
  lemma FirstAnswerStored(w: Wizard, raw: string)
    requires w.section == Some("initial") && w.index == 1 && w.gender.None?
    requires Strip(raw) != ""
    ensures var input := Strip(raw);
      ProcessUserInput(w, raw) ==
        Continue(w.(responses := GenderCheck(OpenFollowUps(Store(w, input, AnsweredQuestion(w.section, w.index)), input), "")))
  {
  }

  /** While the section has questions left, the next one is asked and counted. */
  lemma ContinueInSection(w: Wizard)
    requires Active(w.section) && w.index < |Questions(w.section.value)|
    ensures Continue(w) == Prompted(w.(index := w.index + 1), Ask(Questions(w.section.value)[w.index]))
  {
    assert NextSection(w) == w;
  }
}
