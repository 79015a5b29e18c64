# Medi-Wizard in Dafny

Medi-Wizard is a symptom assistant that comes in two forms.

- **The web app.** A React chat, `src/App.tsx`, asks for the user's name, age and gender. It
  then takes free-text symptom descriptions and recommends a specialist. To do that it matches
  the words against a fixed catalog of ten symptom entries (`src/data/symptoms.ts`) with
  `SymptomMatcher` (`src/utils/symptomMatcher.ts`).
- **The desktop assistant.** `medi_wizard.py` asks a fixed list of initial questions. The first
  answer opens follow-up sections (pain, stomach, breathing, dizziness, mental). At the end it
  maps the stored answers to doctors through two lookup tables.

The model keeps the logic of both and leaves out the user interface.

- **Text helpers** (`Text`, `Splitting`, `Numbers`): `toLowerCase`, `trim`, `split(/\s+/)`,
  `join`, `includes`, Python's `strip`, and the `isNaN(Number(s))` test of the age answer. That test follows the
  StringNumericLiteral grammar of section 7.1.4.1 of ECMA-262.
- **The catalog** (`Catalog`): the ten entries, verbatim, and facts about them.
- **The matcher** (`Matcher`):
  - `countMatches` and `matchSymptoms`. The winner is the first entry that reaches the best
    score, and that score must be at least 2.
  - `getAllSpecialists` and the fallback recommendation.
  - Worked examples are in `MatcherExamples`.
- **The name answer** (`Names`): the greeting test, the four regular-expression replacements
  and the title-casing of `handleUserInfo`. Concrete names are in `NameExamples`.
- **The chat turn** (`Conversation`, `ConversationLemmas`, `ConversationExamples`):
  - The React state is a `Session` value, and `handleSubmit` with its timer callback is a pure
    function `Submit`.
  - Every branch of the callback is characterised.
  - An invariant covers every reachable session.
- **The desktop assistant** (`WizardData`, `WizardAnalysis`, `WizardFlow`, `WizardLemmas`):
  - the tables of `load_medical_data`;
  - `analyze_symptoms`;
  - the storing of answers and the opening of follow-up sections in `process_user_input`;
  - `add_question_type` and `add_gender_specific_questions`;
  - `get_current_question` and the section switching of `ask_next_question`.

Two sentences show how the matcher's containment test behaves:

- **"I have chest pain and shortness of breath".** The one-letter word "i" and the word "pain"
  are contained in many keywords (`keyword.includes(word)`). Four entries score 6, and the
  first of them in catalog order wins: "Cardiologist / Pulmonologist"
  (`MatcherExamples.ChestPainExample`).
- **"I have a headache".** The one-letter words "i" and "a" are contained in eight of the
  urination entry's ten keywords, more than any other entry scores, so the advice is
  "Urologist / General Physician" (`MatcherExamples.HeadacheExample`).

The catalog is a parameter `db` of the conversation functions; the app uses
`Catalog.SymptomDatabase`.

## Model

| member | source | states |
|---|---|---|
| Catalog.Specialists | src/data/symptoms.ts:3-54 | entry i of the list is the specialist of catalog entry i |
| Catalog.DatabaseWellFormed | src/data/symptoms.ts:3-54 | the catalog has ten entries, and every keyword is a non-empty lower-case word without white space |
| Catalog.EntryWellFormed | src/data/symptoms.ts:4-53 | each single entry's keywords are non-empty lower-case words |
| Catalog.SpecialistsDistinct | src/data/symptoms.ts:6-51 | no two entries name the same specialist |
| Catalog.KeywordCounts | src/data/symptoms.ts:3-54 | the anxiety entry has 11 keywords, strictly more than any other entry |
| Catalog.LabelsNonEmpty | src/data/symptoms.ts:6-51 | no entry has an empty specialist |
| Catalog.PainEntries | src/data/symptoms.ts:12-42 | "pain" is a keyword of exactly the chest, urination, knee and stomach entries |
| Catalog.StomachEntries | src/data/symptoms.ts:17-42 | "stomach" is a keyword of exactly the urination and stomach entries |
| Catalog.SkinEntries | src/data/symptoms.ts:22-47 | "skin" is a keyword of exactly the child-fever and acne entries |
| Text.ToLower | src/utils/symptomMatcher.ts:10 | the result has the input's length, with every character lower-cased in place |
| Text.ToLowerIsLowerCase | src/utils/symptomMatcher.ts:10 | lower-casing gives a lower-case text and is idempotent |
| Text.TrimSpec | src/utils/symptomMatcher.ts:10 | trimming gives a slice of the input, cut only at white space, with no white space at either end |
| Text.TrimUnique | src/App.tsx:17 | any slice that removes only white space and leaves none at its ends is the trimmed text |
| Text.TrimPadding | src/App.tsx:120 | white space added around a text does not change its trimmed form |
| Text.TrimToLowerCommute | src/App.tsx:17 | trimming and lower-casing commute |
| Text.Split | src/utils/symptomMatcher.ts:11 | splitting at white space gives at least one piece, and no piece contains white space; which pieces they are is fixed by `Splitting.SplitWord` and `Splitting.SplitRun` |
| Splitting.SplitWord | src/utils/symptomMatcher.ts:11 | a text without white space is a single piece |
| Splitting.SplitRun | src/utils/symptomMatcher.ts:11 | a maximal white-space run `w` between `a` and `b` separates them: the pieces of `a + w + b` are those of `a` followed by those of `b`, whatever the run's length or characters |
| Splitting.SplitAround | src/utils/symptomMatcher.ts:11 | the same by position: the maximal run `s[i..j]` splits `s` into the pieces of `s[..i]` followed by those of `s[j..]` |
| Text.SplitOn | src/App.tsx:53 | splitting at a character gives pieces without it that join back to the input |
| Text.Utf16Length | src/App.tsx:48 | JavaScript's `length` lies between the character count and twice it |
| Text.Utf16LengthOfBmp | src/App.tsx:48 | on text without characters above U+FFFF, `length` is the character count |
| Text.Utf16LengthPointwise | src/App.tsx:48 | `length` depends only on which characters lie above U+FFFF |
| Text.StripBlankIff | medi_wizard.py:294-296 | Python's `strip()` leaves nothing exactly when every character is Python white space, the ASCII separators `\x1c`-`\x1f` included |
| Text.StripEdges | medi_wizard.py:294 | `strip()` never lengthens the text and leaves no Python white space at either end |
| Text.UnitSeparatorStripped | medi_wizard.py:294-296 | "\x1f" is blank to Python's `strip()` but not to JavaScript's `trim()` |
| Text.ContainsIffOccurs | src/utils/symptomMatcher.ts:39-40 | `includes` holds exactly when the needle occurs at some position |
| Matcher.Tokenize | src/utils/symptomMatcher.ts:10-11 | the normalised input splits into at least one word, none containing white space; `Matcher.TokenizeRun` and `Matcher.TokenizeSentence` say which words |
| Matcher.TokenizeSentence | src/utils/symptomMatcher.ts:10-11 | words without white space joined by single spaces tokenise back to those words, lower-cased |
| Matcher.TokenizeRun | src/utils/symptomMatcher.ts:10-11 | for an input with no white space at its ends, any maximal white-space run separates words: the words of `a + w + b` are those of `a` followed by those of `b` |
| Matcher.CountMatches | src/utils/symptomMatcher.ts:32-49 | the count is the number of keyword positions some input word hits, so at most the number of keywords |
| Matcher.KeywordHitIff | src/utils/symptomMatcher.ts:37-41 | a keyword is hit exactly when some word contains it or is contained in it |
| Matcher.KeywordHitAppend | src/utils/symptomMatcher.ts:37-41 | a keyword is hit by two word lists put together exactly when one of them hits it |
| Matcher.BestAfter | src/utils/symptomMatcher.ts:13-24 | after k entries there is no winner exactly when every score is below 2; otherwise the winner scores at least 2, no entry scores more, and every earlier entry scores strictly less |
| Matcher.MatchWords | src/utils/symptomMatcher.ts:9-27 | the result is null exactly when no entry reaches 2 matches; otherwise it is the specialist of a winning entry |
| Matcher.WinnerIsReturned | src/utils/symptomMatcher.ts:19-26 | conversely, whenever entry b is the winner, its specialist is returned |
| Matcher.BestIsUnique | src/utils/symptomMatcher.ts:20 | there is at most one winner, so ties go to the first entry in catalog order |
| Matcher.MatchMonotone | src/utils/symptomMatcher.ts:37-44 | if some words match an entry, any word list containing all of them matches too |
| Matcher.MatchMonotoneAppend | src/utils/symptomMatcher.ts:9-27 | words that match keep matching when more words are appended |
| Matcher.MatchIgnoresCase | src/utils/symptomMatcher.ts:10 | the match does not depend on the case of the input |
| Matcher.TokenizeBlank | src/utils/symptomMatcher.ts:10-11 | a blank input tokenises to the single empty word |
| Matcher.EmptyWordHitsAll | src/utils/symptomMatcher.ts:40 | the single empty word hits every keyword, so it scores the full keyword count |
| Matcher.BlankInputScoresAll | src/utils/symptomMatcher.ts:15-24 | for a blank input every entry scores its full keyword count |
| Matcher.Distinct | src/utils/symptomMatcher.ts:55 | the result has no duplicates and holds exactly the input's elements |
| Matcher.DistinctKeepsOrder | src/utils/symptomMatcher.ts:55 | the elements appear in the order of their first occurrence |
| Matcher.DistinctOfDistinct | src/utils/symptomMatcher.ts:55 | a list without duplicates is returned unchanged |
| Matcher.AllSpecialistsAreCatalogLabels | src/utils/symptomMatcher.ts:54-56 | `getAllSpecialists` is the catalog's ten specialists in catalog order |
| MatcherExamples.ChestPainExample | src/utils/symptomMatcher.ts:9-27 | "I have chest pain and shortness of breath" gives "Cardiologist / Pulmonologist" |
| MatcherExamples.ChestWinner | src/data/symptoms.ts:9-13 | for that sentence the chest entry is the winner |
| MatcherExamples.HeadacheExample | src/utils/symptomMatcher.ts:9-27 | "I have a headache" gives "Urologist / General Physician" |
| MatcherExamples.HeadacheWinner | src/data/symptoms.ts:14-18 | for that sentence the urination entry is the winner |
| MatcherExamples.EmptyInputExample | src/utils/symptomMatcher.ts:9-27 | the empty text gives "Psychiatrist / Clinical Psychologist", the entry with the most keywords |
| Numbers.Digits | src/App.tsx:63 | the count is the length of the maximal run of digits from a position |
| Numbers.NumericChars | src/App.tsx:63 | every text `Number` accepts consists of white space, digits, signs, the point and the letters of exponents, radix prefixes, hex digits and `Infinity` |
| Numbers.OtherCharRejected | src/App.tsx:63-66 | any other character makes the age answer NaN |
| Numbers.DigitsAreNumeric | src/App.tsx:63 | a non-empty run of digits is a number |
| Numbers.NumericIgnoresPadding | src/App.tsx:63 | white space around the answer does not change whether it is a number |
| Numbers.TwentyFiveIsNumeric | src/App.tsx:63 | "25" is accepted as an age |
| Numbers.PaddedAgeIsNumeric | src/App.tsx:63 | " 25 " is accepted as an age |
| Numbers.WordIsNotNumeric | src/App.tsx:63-66 | "abc" is rejected |
| Numbers.AgeWithUnitIsNotNumeric | src/App.tsx:63-66 | "25 years" is rejected |
| Numbers.FractionIsNumeric | src/App.tsx:63 | "2.5e1" is accepted |
| Numbers.LonePointIsNotNumeric | src/App.tsx:63-66 | "." is rejected |
| Numbers.HexIsNumeric | src/App.tsx:63 | "0x1F" is accepted |
| Numbers.SignedHexIsNotNumeric | src/App.tsx:63-66 | "-0x1F" is rejected |
| Numbers.InfinityIsNumeric | src/App.tsx:63 | "Infinity" is accepted |
| Names.GreetingOnlyIff | src/App.tsx:24-27 | an answer is only the greeting g exactly when it equals g, starts with g and a space, ends with a space and g, or equals g without its space |
| Names.AnyGreetingOnlyIff | src/App.tsx:23-28 | `some` over a greeting list holds exactly when one of the greetings matches |
| Names.IsOnlyGreetingIff | src/App.tsx:17-28 | the greeting test holds exactly when the trimmed, lower-cased answer matches one of the six greetings |
| Names.FirstFit | src/App.tsx:37-44 | the first alternative of a pattern, in order, that matches at its anchor, or none when no alternative matches |
| Names.StripLeadingGreetingSpec | src/App.tsx:37-38 | with no leading greeting the text is unchanged; otherwise a greeting in any case and the longest following run of commas and white space are removed |
| Names.StripIntroSpec | src/App.tsx:40-41 | with no leading introduction followed by white space the text is unchanged; otherwise the phrase and the whole run of white space after it are removed |
| Names.StripTrailingGreetingSpec | src/App.tsx:43-44 | with no trailing greeting the text is unchanged; otherwise the greeting and the longest run of commas and white space before it are removed |
| Names.RemoveFirst | src/App.tsx:27 | without the character the text is unchanged; otherwise only its first occurrence is removed |
| Names.TitleCaseIsTitled | src/App.tsx:53-55 | after capitalisation each word starts with an upper-case letter and continues in lower case |
| Names.TitleCaseIdempotent | src/App.tsx:53-55 | capitalising twice is the same as capitalising once |
| Names.TitleCaseKeepsSpace | src/App.tsx:53-55 | capitalisation keeps the length and the white space positions |
| Names.StrippedEdges | src/App.tsx:46 | after the punctuation is removed and the text trimmed, neither end is white space |
| Names.TitleCaseChars | src/App.tsx:53-55 | capitalisation keeps the length, upper-cases each character that starts the text or follows a space, and lower-cases every other |
| Names.TitleCaseKeepsUnits | src/App.tsx:53-55 | capitalisation keeps the UTF-16 length |
| Names.ExtractName | src/App.tsx:35-55 | there is no name exactly when the stripped text is shorter than two UTF-16 code units, JavaScript's `length`; a name is the stripped text character by character, capitalised at word starts and lower-cased elsewhere, with no white space at its ends |
| Names.NameFacts | src/App.tsx:48-55 | capitalising text that is at least two UTF-16 code units long and has no white space at its ends gives a name for it (`IsNameFor`): as long, at least two code units, titled, capitalised character by character, no white space at its ends |
| Names.NameAnswer | src/App.tsx:21-55 | an answer that is only a greeting gives no name; any other answer gives the extracted name |
| NameExamples.HiJohnName | src/App.tsx:35-55 | "hi, john" gives the name "John" |
| NameExamples.JaneName | src/App.tsx:35-55 | "my name is JANE doe" gives "Jane Doe" |
| NameExamples.HilaryName | src/App.tsx:37-38 | "Hilary" gives "Lary", because the greeting pattern has no word boundary |
| NameExamples.SachiName | src/App.tsx:43-44 | "Sachi" gives "Sac" for the same reason at the end |
| NameExamples.EmojiName | src/App.tsx:48 | a single character above U+FFFF has `length` 2, so it is accepted as the name, unchanged |
| NameExamples.NewName | src/App.tsx:21-55 | "new" is accepted as the name "New" |
| NameExamples.HelloJohnRejected | src/App.tsx:23-33 | "hello John" counts as only a greeting, so no name is taken |
| NameExamples.DrSmithRejected | src/App.tsx:23-33 | "DR. SMITH HI" ends with a greeting, so it counts as only a greeting and no name is taken |
| Conversation.HandleUserInfo | src/App.tsx:16-86 | it answers (returns a non-null reply) exactly in the three intake states |
| Conversation.HandleSymptomAnalysis | src/App.tsx:98-109 | the description is appended to the log, and the advice is the match of the whole log joined with ". " |
| Conversation.Route | src/App.tsx:126-160 | the intake branch is taken exactly in the intake states and carries `handleUserInfo`'s answer; the "didn't understand" branch is unreachable |
| Conversation.StartNewConsultation | src/App.tsx:111-116 | the user record, the question and the symptom log return to their initial values |
| Conversation.Respond | src/App.tsx:126-163 | the symptom log is kept, emptied, or extended by exactly the typed text |
| Conversation.Submit | src/App.tsx:118-163 | blank input changes nothing; otherwise the transcript grows by the typed text and one reply, keeping what was there |
| Conversation.Label | src/App.tsx:88-95 | the label is never empty: a non-empty match is recommended as itself; no match, or an empty one, which JavaScript treats as false, gives "General Physician" |
| Conversation.AnalyzeSymptoms | src/App.tsx:88-96 | the advice names a non-empty matched specialist in bold, and otherwise "General Physician" in bold |
| Conversation.EmptyMatchFallsBack | src/App.tsx:91 | an empty-string match gives the same advice as no match |
| Conversation.MatchRecommends | src/App.tsx:88-95 | with a catalog without empty labels, the advice names a specialist exactly when the matcher returns one |
| Conversation.ShippedMatchRecommends | src/utils/symptomMatcher.ts:26 | with the shipped catalog, every match the matcher returns is recommended as such |
| Conversation.RepliesHaveWords | src/App.tsx:130-131 | no reply is empty, so `handleUserInfo(input) \|\| ''` is non-empty exactly when it answers |
| Conversation.AdviceNamesSpecialist | src/App.tsx:104-106 | the advice text names the specialist in bold and links to the symptom checker |
| ConversationLemmas.IntakeAnswersEverything | src/App.tsx:129-135 | in an intake state every non-blank turn is answered by `handleUserInfo`, and the symptom log is kept |
| ConversationLemmas.NewStartsOver | src/App.tsx:137-141 | in a symptom state any text containing "new", in any case, restarts the consultation |
| ConversationLemmas.GreetingChangesNothing | src/App.tsx:142-147 | in a symptom state a text containing "hi" or "hello" but not "new" leaves the state unchanged and greets the user by name |
| ConversationLemmas.DescriptionIsAnalysed | src/App.tsx:149-151 | any other text in a symptom state is logged, matched with the whole log, and moves to the additional-symptoms state |
| ConversationLemmas.NameQuestion | src/App.tsx:21-60 | the name question moves on exactly when a name is extracted, storing exactly the name `NameAnswer` gives, capitalised and at least two UTF-16 code units long; a greeting-only answer asks again |
| ConversationLemmas.AgeQuestion | src/App.tsx:62-70 | the age question moves on exactly when `Number` accepts the answer, storing the answer as typed |
| ConversationLemmas.GenderQuestion | src/App.tsx:72-80 | the gender question moves on exactly when the trimmed, lower-cased answer is "male" or "female", storing that form |
| ConversationLemmas.InitialIsValid | src/App.tsx:7-14 | the initial state satisfies the session invariant |
| ConversationLemmas.SubmitKeepsValid | src/App.tsx:118-163 | every turn keeps the invariant: intake answers arrive in order, and past intake the name is capitalised, the age numeric and the gender "male" or "female" |
| ConversationLemmas.RunKeepsValid | src/App.tsx:118-163 | any sequence of turns keeps the invariant |
| ConversationLemmas.GreetingUsesName | src/App.tsx:143-144 | in a reachable symptom state the greeting quotes the stored name |
| ConversationExamples.NewIsAName | src/App.tsx:129-135 | at the name question "new" is taken as the name, not as a restart |
| ConversationExamples.HelloJohnAskedAgain | src/App.tsx:30-33 | "hello John" at the name question asks for the name again |
| ConversationExamples.AgeWithUnitAskedAgain | src/App.tsx:63-66 | "25 years" at the age question asks again |
| ConversationExamples.PaddedAgeStoredAsTyped | src/App.tsx:67 | " 25 " is accepted and stored with its spaces |
| ConversationExamples.PaddedGenderNormalised | src/App.tsx:73-77 | " Female " is accepted and stored as "female" |
| ConversationExamples.ManAskedAgain | src/App.tsx:73-76 | "man" at the gender question asks again |
| ConversationExamples.ChillsIsAGreeting | src/App.tsx:142-147 | "chills", in a symptom state, contains "hi" and is answered with a greeting instead of being analysed |
| ConversationExamples.NewPainStartsOver | src/App.tsx:139-141 | "I have NEW pain" restarts the consultation |
| ConversationExamples.FirstDescription | src/App.tsx:149-151 | "fever" as the first description is analysed alone |
| ConversationExamples.SecondDescription | src/App.tsx:99-104 | "cough" after "fever" is analysed as "fever. cough" |
| WizardData.Questions | medi_wizard.py:48-86 | a section has questions exactly when it is one of the six; initial has 8, pain 4, the others 3 |
| WizardData.FollowUpsAreSections | medi_wizard.py:372 | the five follow-up names are sections other than initial |
| WizardData.GenderSpecific | medi_wizard.py:87-89 | only "female" has gender-specific questions |
| WizardData.Triggers | medi_wizard.py:315-328 | exactly the five follow-up sections have trigger words |
| WizardData.ShippedCodesKnown | medi_wizard.py:98-150 | every doctor code of the symptom table is a key of the doctor table |
| WizardData.ShippedNamesDistinct | medi_wizard.py:98-118 | no two doctor codes map to the same doctor |
| WizardAnalysis.HitCodes | medi_wizard.py:442-451 | the codes one answer yields are codes of the table |
| WizardAnalysis.HitCodesIff | medi_wizard.py:442-451 | a code is yielded exactly when a phrase listing it occurs in the lower-cased, non-empty answer |
| WizardAnalysis.EmptyAnswersIgnored | medi_wizard.py:442-443 | unanswered and empty answers do not change the codes |
| WizardAnalysis.Codes | medi_wizard.py:437-455 | the set of codes is never empty |
| WizardAnalysis.CodesIff | medi_wizard.py:437-455 | a code is collected exactly when some answer mentions a phrase listing it, or it is "general" and no answer mentions any phrase |
| WizardAnalysis.AnswerCodes | medi_wizard.py:448-451 | the loop over the table collects exactly the codes of one answer |
| WizardAnalysis.FindCodes | medi_wizard.py:437-455 | the loops over all answers, in any order, collect exactly the codes |
| WizardAnalysis.DoctorList | medi_wizard.py:458 | one doctor per code: every code's doctor is listed and every listed doctor is some code's, without repeats when codes have distinct doctors |
| WizardAnalysis.AnalyzeSymptoms | medi_wizard.py:435-458 | a non-empty list with one doctor per collected code; without duplicates when every code is known and no two codes share a doctor |
| WizardAnalysis.ShippedCodesHaveDoctors | medi_wizard.py:98-150 | with the shipped tables every collected code has its own doctor entry, so the default is never needed |
| WizardFlow.GetCurrentQuestion | medi_wizard.py:355-363 | as written: a question is found exactly when the section is set and the index is below the section's length |
| WizardFlow.AnsweredQuestion | medi_wizard.py:355-363 | repaired: a question is found exactly when the section is set and 0 < index <= length |
| WizardFlow.Store | medi_wizard.py:302-308 | with a section and a positive index the section is added and the answer stored under the question; every other entry is kept; without a question no answer changes |
| WizardFlow.AddQuestionType | medi_wizard.py:337-344 | a known section is added with no answers if missing; an unknown name changes nothing; existing entries are kept |
| WizardFlow.AnyIn | medi_wizard.py:315 | `any(term in symptoms ...)` holds exactly when some word occurs in the text |
| WizardFlow.OpenFollowUps | medi_wizard.py:311-328 | each follow-up section whose trigger words occur in the lower-cased answer is present afterwards; existing entries are kept; only follow-up sections are added, empty |
| WizardFlow.Unanswered | medi_wizard.py:350-353 | each listed question is recorded as unanswered; every other entry is kept |
| WizardFlow.AddGenderSpecific | medi_wizard.py:346-353 | for "female", in any case, the pregnancy question is recorded unanswered in the initial section; otherwise nothing changes |
| WizardFlow.GenderCheck | medi_wizard.py:330-332 | at most the initial section is added, and only the pregnancy entry of it may change |
| WizardFlow.FirstEligible | medi_wizard.py:372-387 | the first section of the follow-up order that may be started, or the end of the order |
| WizardFlow.NextSection | medi_wizard.py:368-390 | moving between sections keeps the answers and the gender |
| WizardFlow.AskNextQuestion | medi_wizard.py:365-399 | the answers are kept; a question asked is the one at the new index of an active section; otherwise the recommendation is given and the section becomes "new_consultation" |
| WizardFlow.ProcessUserInputAsWritten | medi_wizard.py:292-335 | input is ignored exactly when it consists of Python white space only, which `strip()` removes, the ASCII separators `\x1c`-`\x1f` included |
| WizardFlow.ProcessUserInputGenderFixed | medi_wizard.py:292-335 | with only the gender lookup of line 331 repaired: input is ignored exactly when it is Python white space only, and the handler never raises |
| WizardFlow.ProcessUserInput | medi_wizard.py:292-335 | repaired: input is ignored exactly when it is Python white space only, and the handler never raises |
| WizardLemmas.AddQuestionTypeIdempotent | medi_wizard.py:337-344 | adding a section twice is the same as adding it once |
| WizardLemmas.AskWithinSection | medi_wizard.py:393-396 | inside a section the next question is asked and the index advances by one |
| WizardLemmas.InitialExhausted | medi_wizard.py:368-379 | after the initial questions the first opened follow-up section starts at its first question; with none opened the recommendation is given |
| WizardLemmas.FollowUpExhausted | medi_wizard.py:380-390 | after a follow-up section the first other opened section with no answers starts; with none left the recommendation is given |
| WizardLemmas.FirstAnswerOpensSections | medi_wizard.py:311-328 | repaired: after the first answer, every section whose trigger words occur in it is opened |
| WizardLemmas.CurrentQuestionAfterAsking | medi_wizard.py:355-363 | as written: after a question is asked the lookup finds it, except after the last question of a section, when it finds nothing |
| WizardLemmas.LastAnswerDropped | medi_wizard.py:302-308 | as written: the answer to a section's last question leaves the stored answers unchanged |
| WizardLemmas.GenderFixedAdvances | medi_wizard.py:302-335 | with only the gender lookup repaired, a non-blank answer to an initial question before the last moves the cursor to the next one |
| WizardLemmas.GenderFixedWalks | medi_wizard.py:292-335 | so non-blank answers walk the cursor through the initial questions, one per answer |
| WizardLemmas.GenderFixedAgrees | medi_wizard.py:329-331 | away from the first answer, repairing the gender lookup changes nothing |
| WizardLemmas.LatentLastAnswerDropped | medi_wizard.py:355-363 | with only the gender lookup repaired, seven non-blank answers from the first initial question reach the eighth, and the answer to it leaves the stored answers unchanged |
| WizardLemmas.AnsweredAfterAsking | medi_wizard.py:355-363 | repaired: after any question is asked the lookup finds that question |
| WizardLemmas.EveryAnswerStored | medi_wizard.py:302-308 | repaired: every non-blank answer is stored, stripped, under the question just asked |
| WizardLemmas.GreetAsksFirst | medi_wizard.py:263-272 | the greeting is followed by the first initial question |
| WizardLemmas.FirstAnswerRaises | medi_wizard.py:302-332 | as written: the first answer calls `.lower()` on the missing gender and the handler raises with the cursor unmoved, the answer stored under the first question |
| WizardLemmas.StuckAtFirstQuestion | medi_wizard.py:311-335 | as written: no sequence of inputs gets past the first question |
| WizardLemmas.FirstAnswerAdvances | medi_wizard.py:330-335 | repaired: the first answer leads to the second initial question |

## Left out

- Rendering is not modelled: the JSX layout, the markdown-style bold text, the icons and the
  input box. Replies are kept as `Reply` values, and `Words` spells each one out.
- The one-second `setTimeout` in `handleSubmit` is not modelled; each turn is one atomic
  step. A second submission inside the delay would read stale React state. That concurrency
  is out of scope.
- `toLowerCase`, `trim`, `\s` and `Number` are modelled on ASCII only. Unicode case mapping and
  the non-ASCII white space of ECMA-262 are not modelled. On ASCII, `trim` and `\s` remove tab,
  line feed, vertical tab, form feed, carriage return and space.
- `startNewConsultation` does not clear the transcript in the code, and the model keeps it too.
- The Python user interface is not modelled: tkinter, customtkinter, PIL images, the window
  and its widgets, and the `_MEIPASS` path lookup.
- `random.choice` of a caring response in `give_recommendation` is left out, together with
  the wording of the recommendation. The model records only that a recommendation is given
  and that the section becomes "new_consultation".
- The turns after the recommendation are modelled but not characterised by a lemma. In the
  "new_consultation" state, `Store` gives that section an entry and `AskNextQuestion`
  recommends again. The code has no handler that starts a new consultation when the user types
  "new".
- The iteration order of Python sets and dicts is not modelled. `FindCodes` takes the answers
  in any order, and `DoctorList` lists the doctors in any order.
- Python `str.lower` and `str.strip` are modelled on ASCII only. On ASCII, `strip` removes what
  `trim` does and also the separators `\x1c`-`\x1f`, which `Text.Strip` models. The non-ASCII
  white space that Python also strips is not modelled.
- setup.py, vite.config.ts and src/types.ts are packaging and type declarations with no
  behaviour. They are not part of this model beyond the `UserInfo` record.
- Conversation.Respond: states only what happens to the symptom log. The other branches are
  characterised one by one in `ConversationLemmas`.

## Findings

| source | as written | input that shows it | evidently intended | confidence | as-written member | corrected member |
|---|---|---|---|---|---|---|
| medi_wizard.py:355-363 | `get_current_question` returns None when `question_index >= len(...)`. But `ask_next_question` has already advanced the index past the question it asked, so after the last question of a section the lookup fails and lines 306-308 store nothing | latent as written, since the first answer already raises (next row). Once line 331 is repaired, answering "chest pain" to the eighth initial question, or to the last question of any follow-up section | the answer to the question just asked (`questions[t][index - 1]`) is stored for every `1 <= index <= len` | high; not executed | WizardLemmas.LastAnswerDropped, WizardLemmas.LatentLastAnswerDropped | WizardLemmas.EveryAnswerStored |
| medi_wizard.py:331 | `self.user_profile.get("gender", "")` returns None: the key exists and is never assigned, so `.lower()` raises AttributeError on the first answer. The handler stops before `ask_next_question`, so the assistant asks nothing more; every later answer overwrites the first answer and raises again | any non-blank first answer, e.g. "I have a headache" | an unknown gender counts as "" and the consultation moves on to the second initial question | high; not executed | WizardLemmas.StuckAtFirstQuestion | WizardLemmas.FirstAnswerAdvances |
