/**
  `analyze_symptoms` of the desktop assistant: every stored answer is lower-cased and searched
  for the phrases of `symptom_doctor_map`; the doctor codes of every phrase found are collected
  in a set, "general" stands in when none is found, and each code is looked up in
  `doctor_recommendations`.
 */
module WizardAnalysis {
  import opened Options
  import opened Text
  import opened WizardData

  /** `user_responses`: section to question to answer. An answer is None for a question that
      was recorded without one (the gender-specific questions). */
  type Responses = map<string, map<string, Option<string>>>

  /** Every answer stored in any section. */
  function Answers(responses: Responses): set<Option<string>> {
    set t, q | t in responses && q in responses[t] :: responses[t][q]
  }

  /** The answer is present and non-empty, and lower-cased it contains `phrase`. */
  predicate Hit(answer: Option<string>, phrase: string) {
    answer.Some? && answer.value != "" && Contains(ToLower(answer.value), phrase)
  }

  /** The strings of a sequence, as a set. */
  function Elements(s: seq<string>): set<string> {
    set c | c in s
  }

  /** Every code some rule lists. */
  function CodesOf(table: seq<Rule>): set<string>
    decreases |table|
  {
    if |table| == 0 then {} else CodesOf(table[..|table| - 1]) + Elements(table[|table| - 1].codes)
  }

  /** The codes of the rules whose phrase `answer` contains, rule by rule. */
  function HitCodes(table: seq<Rule>, answer: Option<string>): (found: set<string>)
    ensures found <= CodesOf(table)
    decreases |table|
  {
    if |table| == 0 then {}
    else
      var last := table[|table| - 1];
      HitCodes(table[..|table| - 1], answer) + if Hit(answer, last.phrase) then Elements(last.codes) else {}
  }

  /** A code comes from an answer exactly when some rule lists it and its phrase is in the
      answer. */
  lemma {:induction false} HitCodesIff(table: seq<Rule>, answer: Option<string>, code: string)
    ensures code in HitCodes(table, answer) <==>
      exists k :: 0 <= k < |table| && code in table[k].codes && Hit(answer, table[k].phrase)
    decreases |table|
  {
    if |table| > 0 {
      var init := table[..|table| - 1];
      HitCodesIff(init, answer, code);
      if exists k :: 0 <= k < |table| && code in table[k].codes && Hit(answer, table[k].phrase) {
        var k :| 0 <= k < |table| && code in table[k].codes && Hit(answer, table[k].phrase);
        if k < |init| {
          assert init[k] == table[k];
        }
      }
      if code in HitCodes(init, answer) {
        var k :| 0 <= k < |init| && code in init[k].codes && Hit(answer, init[k].phrase);
        assert init[k] == table[k];
      }
    }
  }

  /** The codes found in some answer of `answers`. */
  function Mentioned(table: seq<Rule>, answers: set<Option<string>>): set<string> {
    set c | c in CodesOf(table) && exists a :: a in answers && c in HitCodes(table, a)
  }

  lemma MentionedAdd(table: seq<Rule>, answers: set<Option<string>>, a: Option<string>)
    ensures Mentioned(table, answers + {a}) == Mentioned(table, answers) + HitCodes(table, a)
  {
  }

  /** Unanswered and empty answers are skipped: they add no code. */
  lemma EmptyAnswersIgnored(table: seq<Rule>, answers: set<Option<string>>)
    ensures Codes(table, answers + {None, Some("")}) == Codes(table, answers)
  {
    NoHitCodes(table, None);
    NoHitCodes(table, Some(""));
    MentionedAdd(table, answers, None);
    MentionedAdd(table, answers + {None}, Some(""));
    assert answers + {None} + {Some("")} == answers + {None, Some("")};
  }

  /** The codes the advice is about: those found, or "general" when none is. */
  function Codes(table: seq<Rule>, answers: set<Option<string>>): (codes: set<string>)
    ensures codes != {}
  {
    var found := Mentioned(table, answers);
    if found == {} then {"general"} else found
  }

  /** A code is advised exactly when a non-empty answer contains a phrase listing it, or it is
      "general" and no answer contains any phrase. */
  lemma CodesIff(table: seq<Rule>, answers: set<Option<string>>, code: string)
    ensures code in Codes(table, answers) <==>
      (exists a, k :: a in answers && 0 <= k < |table| && code in table[k].codes && Hit(a, table[k].phrase))
      || (code == "general" &&
          forall a, k :: a in answers && 0 <= k < |table| && table[k].codes != [] ==> !Hit(a, table[k].phrase))
  {
    var found := Mentioned(table, answers);
    forall a | a in answers {
      HitCodesIff(table, a, code);
    }
    if found == {} {
      forall a, k | a in answers && 0 <= k < |table| && table[k].codes != []
        ensures !Hit(a, table[k].phrase)
      {
        var c := table[k].codes[0];
        assert c !in found;
        assert c !in HitCodes(table, a);
        HitCodesIff(table, a, c);
      }
    } else {
      var c :| c in found;
      var a :| a in answers && c in HitCodes(table, a);
      HitCodesIff(table, a, c);
      var k :| 0 <= k < |table| && c in table[k].codes && Hit(a, table[k].phrase);
      assert table[k].codes != [];
    }
  }

  /** The codes one answer contributes, collected rule by rule as the loop over
      `symptom_doctor_map` does. */
  method AnswerCodes(table: seq<Rule>, answer: Option<string>) returns (found: set<string>)
    ensures found == HitCodes(table, answer)
  {
    found := {};
    if answer.None? || answer.value == "" {
      assert forall k :: 0 <= k <= |table| ==> HitCodes(table[..k], answer) == {} by {
        forall k | 0 <= k <= |table| ensures HitCodes(table[..k], answer) == {} {
          NoHitCodes(table[..k], answer);
        }
      }
      assert table[..|table|] == table;
      return;
    }
    var lowered := ToLower(answer.value);
    var k := 0;
    while k < |table|
      invariant 0 <= k <= |table|
      invariant found == HitCodes(table[..k], answer)
    {
      assert table[..k + 1][..k] == table[..k];
      if Contains(lowered, table[k].phrase) {
        var j := 0;
        while j < |table[k].codes|
          invariant 0 <= j <= |table[k].codes|
          invariant found == HitCodes(table[..k], answer) + Elements(table[k].codes[..j])
        {
          assert table[k].codes[..j + 1] == table[k].codes[..j] + [table[k].codes[j]];
          found := found + {table[k].codes[j]};
          j := j + 1;
        }
        assert table[k].codes[..j] == table[k].codes;
      }
      k := k + 1;
    }
    assert table[..k] == table;
  }

  lemma {:induction false} NoHitCodes(table: seq<Rule>, answer: Option<string>)
    requires answer.None? || answer.value == ""
    ensures HitCodes(table, answer) == {}
    decreases |table|
  {
    if |table| > 0 {
      NoHitCodes(table[..|table| - 1], answer);
    }
  }

  /** The loops of `analyze_symptoms` over the stored answers: the codes found, with
      "general" standing in when none is. */
  method FindCodes(table: seq<Rule>, responses: Responses) returns (found: set<string>)
    ensures found == Codes(table, Answers(responses))
  {
    var answers := Answers(responses);
    found := {};
    var rest := answers;
    while rest != {}
      invariant rest <= answers
      invariant found == Mentioned(table, answers - rest)
      decreases |rest|
    {
      var a :| a in rest;
      var codes := AnswerCodes(table, a);
      MentionedAdd(table, answers - rest, a);
      assert answers - (rest - {a}) == (answers - rest) + {a};
      found := found + codes;
      rest := rest - {a};
    }
    assert answers - rest == answers;
    if found == {} {
      found := {"general"};
    }
  }

  /** The final list comprehension: one doctor per code, in the iteration order of the set,
      which the model leaves open. */
  method DoctorList(names: map<string, string>, codes: set<string>) returns (doctors: seq<string>)
    ensures |doctors| == |codes|
    ensures forall c :: c in codes ==> DoctorName(names, c) in doctors
    ensures forall i :: 0 <= i < |doctors| ==> exists c :: c in codes && doctors[i] == DoctorName(names, c)
    ensures (forall a, b :: a in codes && b in codes && a != b ==> DoctorName(names, a) != DoctorName(names, b)) ==>
      forall i, j :: 0 <= i < j < |doctors| ==> doctors[i] != doctors[j]
  {
    ghost var distinct := forall a, b :: a in codes && b in codes && a != b ==> DoctorName(names, a) != DoctorName(names, b);
    var left := codes;
    doctors := [];
    while left != {}
      invariant left <= codes
      invariant |doctors| + |left| == |codes|
      invariant forall c :: c in codes - left ==> DoctorName(names, c) in doctors
      invariant forall i :: 0 <= i < |doctors| ==> exists c :: c in codes - left && doctors[i] == DoctorName(names, c)
      invariant distinct ==> forall i, j :: 0 <= i < j < |doctors| ==> doctors[i] != doctors[j]
      decreases |left|
    {
      var c :| c in left;
      doctors := doctors + [DoctorName(names, c)];
      left := left - {c};
    }
  }

  lemma {:induction false} CodesOfKnown(table: seq<Rule>, names: map<string, string>)
    requires CodesKnown(table, names)
    ensures CodesOf(table) <= names.Keys
    decreases |table|
  {
    if |table| > 0 {
      var init := table[..|table| - 1];
      assert forall k :: 0 <= k < |init| ==> init[k] == table[k];
      CodesOfKnown(init, names);
    }
  }

  /** `analyze_symptoms`: one doctor per advised code, never none, and no doctor twice when the
      tables are consistent. */
  method AnalyzeSymptoms(table: seq<Rule>, names: map<string, string>, responses: Responses)
    returns (doctors: seq<string>)
    ensures |doctors| == |Codes(table, Answers(responses))| > 0
    ensures forall c :: c in Codes(table, Answers(responses)) ==> DoctorName(names, c) in doctors
    ensures forall i :: 0 <= i < |doctors| ==>
      exists c :: c in Codes(table, Answers(responses)) && doctors[i] == DoctorName(names, c)
    ensures CodesKnown(table, names) && NamesDistinct(names) ==>
      forall i, j :: 0 <= i < j < |doctors| ==> doctors[i] != doctors[j]
  {
    var codes := FindCodes(table, responses);
    if CodesKnown(table, names) && NamesDistinct(names) && codes != {"general"} {
      CodesOfKnown(table, names);
      assert codes <= CodesOf(table);
    }
    doctors := DoctorList(names, codes);
  }

  /** With the shipped tables every advised code has a doctor of its own, so the fallback
      "general physician" of the lookup is never what names a doctor. */
  lemma ShippedCodesHaveDoctors(answers: set<Option<string>>)
    ensures forall c :: c in Codes(SymptomDoctorMap, answers) ==> c in DoctorRecommendations
  {
    ShippedCodesKnown();
    CodesOfKnown(SymptomDoctorMap, DoctorRecommendations);
    assert "general" in DoctorRecommendations;
  }
}
