/**
  The tables of the desktop assistant's `load_medical_data`: the questions of each section,
  the gender-specific question, the words that open a follow-up section, and the two tables
  that turn symptom phrases into doctor codes and doctor codes into doctors.
 */
module WizardData {
  // ---------------------------------------------------------------------------
  // Questions

  const InitialQuestions: seq<string> := [
    "Can you tell me what symptoms you have?",
    "How long have you had these symptoms?",
    "Is the pain or problem getting worse, better, or staying the same?",
    "Do you have a fever, chills, or feel very tired?",
    "Is anything making it better or worse?",
    "Have you had this problem before?",
    "Are you taking any medicine now?",
    "Do you have any known health problems (like diabetes, asthma, heart issues)?"
  ]

  const PainQuestions: seq<string> := [
    "Where exactly do you feel the pain?",
    "Is the pain sharp, dull, throbbing, or burning?",
    "Does the pain come and go or is it always there?",
    "Can you rate the pain from 1 (mild) to 10 (very bad)?"
  ]

  const StomachQuestions: seq<string> := [
    "Are you feeling nauseous or have you vomited?",
    "Do you have diarrhea or constipation?",
    "Have you noticed blood in your stool or when you go to the toilet?"
  ]

  const BreathingQuestions: seq<string> := [
    "Do you feel short of breath when resting or only after activity?",
    "Do you hear any wheezing or whistling when you breathe?",
    "Are you coughing a lot? Is it dry or with mucus?"
  ]

  const DizzinessQuestions: seq<string> := [
    "Did it happen suddenly or slowly?",
    "Did you fall or hurt yourself?",
    "Did you lose consciousness (black out)?"
  ]

  const MentalQuestions: seq<string> := [
    "Have you been feeling sad, anxious, or stressed a lot lately?",
    "Are you having trouble sleeping or eating?",
    "Do you feel like you're not interested in things anymore?"
  ]

  /** The keys of `questions`: the initial section and the five follow-up sections. */
  predicate IsQuestionType(t: string) {
    t == "initial" || t == "pain" || t == "stomach" || t == "breathing" || t == "dizziness" || t == "mental"
  }

  /** `questions.get(t, [])`. */
  function Questions(t: string): (qs: seq<string>)
    ensures |qs| > 0 <==> IsQuestionType(t)
    ensures t == "initial" ==> |qs| == 8
    ensures t == "pain" ==> |qs| == 4
    ensures IsQuestionType(t) && t != "initial" && t != "pain" ==> |qs| == 3
  {
    if t == "initial" then InitialQuestions
    else if t == "pain" then PainQuestions
    else if t == "stomach" then StomachQuestions
    else if t == "breathing" then BreathingQuestions
    else if t == "dizziness" then DizzinessQuestions
    else if t == "mental" then MentalQuestions
    else []
  }

  /** The order in which follow-up sections are taken once the initial questions run out. */
  const FollowUpOrder: seq<string> := ["pain", "stomach", "breathing", "dizziness", "mental"]

  /** The follow-up sections are sections, and none of them is the initial one. */
  lemma FollowUpsAreSections()
    ensures forall i :: 0 <= i < |FollowUpOrder| ==> IsQuestionType(FollowUpOrder[i]) && FollowUpOrder[i] != "initial"
  {
  }

  const PregnancyQuestion: string := "Are you pregnant or could you be pregnant?"

  /** `gender_specific.get(g)`: only "female" has questions of its own. */
  function GenderSpecific(g: string): (qs: seq<string>)
    ensures |qs| > 0 <==> g == "female"
  {
    if g == "female" then [PregnancyQuestion] else []
  }

  /** The words that, found in the first answer, open each follow-up section. */
  function Triggers(t: string): (words: seq<string>)
    ensures |words| > 0 <==> t in FollowUpOrder
  {
    if t == "pain" then ["pain", "ache", "hurt", "sore"]
    else if t == "stomach" then ["stomach", "nausea", "vomit", "diarrhea", "constipation"]
    else if t == "breathing" then ["breath", "cough", "wheeze", "lung"]
    else if t == "dizziness" then ["dizzy", "faint", "vertigo", "balance"]
    else if t == "mental" then ["sad", "depress", "anxious", "anxiety", "stress", "mental"]
    else []
  }

  // ---------------------------------------------------------------------------
  // Doctors

  /** `doctor_recommendations`: doctor code to the doctor named in the advice. */
  const DoctorRecommendations: map<string, string> := map[
    "general" := "general physician",
    "stomach" := "gastroenterologist",
    "skin" := "dermatologist",
    "breathing" := "pulmonologist",
    "mental" := "psychiatrist or therapist",
    "head" := "neurologist",
    "heart" := "cardiologist",
    "joint" := "rheumatologist",
    "eye" := "ophthalmologist",
    "ear" := "otolaryngologist (ENT)",
    "pregnancy" := "obstetrician",
    "children" := "pediatrician",
    "hormone" := "endocrinologist",
    "kidney" := "nephrologist",
    "bone" := "orthopedist",
    "allergy" := "allergist",
    "urinary" := "urologist",
    "female" := "gynecologist"
  ]

  /** One entry of `symptom_doctor_map`: a phrase and the doctor codes it points to. */
  datatype Rule = Rule(phrase: string, codes: seq<string>)

  const SymptomDoctorMap: seq<Rule> := [
    Rule("headache", ["general", "head"]),
    Rule("migraine", ["head"]),
    Rule("fever", ["general"]),
    Rule("chest pain", ["heart", "general"]),
    Rule("shortness of breath", ["breathing", "heart"]),
    Rule("cough", ["breathing", "general"]),
    Rule("stomach pain", ["stomach", "general"]),
    Rule("nausea", ["stomach"]),
    Rule("vomiting", ["stomach"]),
    Rule("diarrhea", ["stomach"]),
    Rule("constipation", ["stomach"]),
    Rule("rash", ["skin", "allergy"]),
    Rule("itching", ["skin", "allergy"]),
    Rule("joint pain", ["joint", "bone"]),
    Rule("muscle pain", ["general", "bone"]),
    Rule("back pain", ["bone", "general"]),
    Rule("fatigue", ["general", "hormone"]),
    Rule("depression", ["mental"]),
    Rule("anxiety", ["mental"]),
    Rule("dizziness", ["head", "general"]),
    Rule("fainting", ["general", "heart"]),
    Rule("bleeding", ["general"]),
    Rule("weight loss", ["general", "hormone"]),
    Rule("weight gain", ["hormone", "general"]),
    Rule("blurry vision", ["eye"]),
    Rule("hearing loss", ["ear"]),
    Rule("sore throat", ["general", "ear"]),
    Rule("urination problems", ["urinary", "kidney"]),
    Rule("pregnant", ["pregnancy"])
  ]

  /** `names.get(code, "general physician")`. */
  function DoctorName(names: map<string, string>, code: string): string {
    if code in names then names[code] else "general physician"
  }

  /** Every code a rule lists has a doctor. */
  predicate CodesKnown(table: seq<Rule>, names: map<string, string>) {
    forall k, c :: 0 <= k < |table| && c in table[k].codes ==> c in names
  }

  /** No two codes name the same doctor. */
  predicate NamesDistinct(names: map<string, string>) {
    forall a, b :: a in names && b in names && a != b ==> names[a] != names[b]
  }

  // ---------------------------------------------------------------------------
  // The tables as shipped

  /** Every code in `symptom_doctor_map` is a key of `doctor_recommendations`, so the default
      of the lookup is never used. */
  lemma ShippedCodesKnown()
    ensures CodesKnown(SymptomDoctorMap, DoctorRecommendations)
  {
  }

  /** The doctors of `doctor_recommendations` are pairwise different. */
  lemma ShippedNamesDistinct()
    ensures NamesDistinct(DoctorRecommendations)
  {
    var m := DoctorRecommendations;
    forall a | a in m ensures forall b :: b in m && b != a ==> m[b] != m[a] {
      DoctorDiffers(a);
    }
  }

  /** The doctor of code `a` is named by no other code. */
  lemma DoctorDiffers(a: string)
    requires a in DoctorRecommendations
    ensures var m := DoctorRecommendations; forall b :: b in m && b != a ==> m[b] != m[a]
  {
  }
}
