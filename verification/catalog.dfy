/**
  The specialist catalog of the web app (`src/data/symptoms.ts`): a fixed, ordered list of
  symptom profiles, each with a description, a specialist label and a keyword list. The
  order matters: the matcher breaks ties in favour of the earlier entry.
 */
module Catalog {
  import opened Text

  /** One symptom profile (`SymptomEntry` in `src/types.ts`). */
  datatype SymptomEntry = SymptomEntry(symptoms: string, specialist: string, keywords: seq<string>)

  const Headaches := SymptomEntry(
      "Frequent headaches and blurry vision",
      "Neurologist / Ophthalmologist",
      ["frequent", "headaches", "blurry", "vision", "headache", "head", "eye", "sight"])
  const ChestPain := SymptomEntry(
      "Chest pain and shortness of breath",
      "Cardiologist / Pulmonologist",
      ["chest", "pain", "shortness", "breath", "breathing", "heart", "lung", "breathe"])
  const Urination := SymptomEntry(
      "Burning sensation during urination and lower abdominal pain",
      "Urologist / General Physician",
      ["burning", "sensation", "urination", "lower", "abdominal", "pain", "urine", "pee", "stomach", "abdomen"])
  const ChildFever := SymptomEntry(
      "High fever and rash in a child",
      "Pediatrician",
      ["high", "fever", "rash", "child", "kid", "baby", "temperature", "hot", "skin"])
  const KneePain := SymptomEntry(
      "Persistent knee pain and morning stiffness",
      "Orthopedic Doctor / Rheumatologist",
      ["persistent", "knee", "pain", "morning", "stiffness", "joint", "bone", "stiff", "ache"])
  const Anxiety := SymptomEntry(
      "Anxiety, trouble sleeping, and loss of appetite",
      "Psychiatrist / Clinical Psychologist",
      ["anxiety", "trouble", "sleeping", "loss", "appetite", "anxious", "sleep", "insomnia", "worried", "stress", "mental"])
  const NeckLump := SymptomEntry(
      "Lump in the neck",
      "ENT Specialist / General Surgeon",
      ["lump", "neck", "swelling", "bump", "mass", "throat"])
  const StomachPain := SymptomEntry(
      "Stomach pain, nausea, and diarrhea",
      "Gastroenterologist",
      ["stomach", "pain", "nausea", "diarrhea", "belly", "gut", "digestive", "bowel", "vomit"])
  const Acne := SymptomEntry(
      "Severe acne and oily skin",
      "Dermatologist",
      ["severe", "acne", "oily", "skin", "pimples", "breakout", "face", "dermal"])
  const Menstrual := SymptomEntry(
      "Irregular menstrual cycles and hormonal issues",
      "Gynecologist / Endocrinologist",
      ["irregular", "menstrual", "cycles", "hormonal", "issues", "period", "hormone", "menstruation", "female"])

  /** The catalog in its listed order. */
  const SymptomDatabase: seq<SymptomEntry> := [
    Headaches, ChestPain, Urination, ChildFever, KneePain,
    Anxiety, NeckLump, StomachPain, Acne, Menstrual
  ]

  /** The catalog's specialist labels, entry by entry. */
  function Specialists(db: seq<SymptomEntry>): (r: seq<string>)
    ensures |r| == |db|
    ensures forall i :: 0 <= i < |db| ==> r[i] == db[i].specialist
  {
    if |db| == 0 then [] else [db[0].specialist] + Specialists(db[1..])
  }

  /** A keyword as the catalog writes it: a non-empty word of lower-case ASCII letters. */
  predicate WellFormedKeyword(k: string) {
    |k| > 0 && forall i :: 0 <= i < |k| ==> 'a' <= k[i] <= 'z'
  }

  /** Such a keyword has no whitespace and is its own lower-case form. */
  lemma WellFormedKeywordIsWord(k: string)
    requires WellFormedKeyword(k)
    ensures NoSpace(k) && IsLowerCase(k)
  {
  }

  /** The invariant every catalog entry satisfies: a non-empty list of well-formed keywords. */
  predicate WellFormedEntry(e: SymptomEntry) {
    |e.keywords| > 0 && forall j :: 0 <= j < |e.keywords| ==> WellFormedKeyword(e.keywords[j])
  }

  predicate NoDuplicates(xs: seq<string>) {
    forall i, j :: 0 <= i < j < |xs| ==> xs[i] != xs[j]
  }

  /** The catalog has ten entries, each with a non-empty list of lower-case single-word keywords. */
  lemma DatabaseWellFormed()
    ensures |SymptomDatabase| == 10
    ensures forall i :: 0 <= i < |SymptomDatabase| ==> WellFormedEntry(SymptomDatabase[i])
  {
    forall i | 0 <= i < |SymptomDatabase| ensures WellFormedEntry(SymptomDatabase[i]) {
      EntryWellFormed(i);
    }
  }

  lemma EntryWellFormed(i: nat)
    requires i < |SymptomDatabase|
    ensures WellFormedEntry(SymptomDatabase[i])
  {
    // one lemma per entry keeps each proof obligation about a single literal keyword list
    if i == 0 { Entry0WellFormed(); }
    else if i == 1 { Entry1WellFormed(); }
    else if i == 2 { Entry2WellFormed(); }
    else if i == 3 { Entry3WellFormed(); }
    else if i == 4 { Entry4WellFormed(); }
    else if i == 5 { Entry5WellFormed(); }
    else if i == 6 { Entry6WellFormed(); }
    else if i == 7 { Entry7WellFormed(); }
    else if i == 8 { Entry8WellFormed(); }
    else { Entry9WellFormed(); }
  }

  lemma Entry0WellFormed()
    ensures WellFormedEntry(SymptomDatabase[0])
  {
    var ks := SymptomDatabase[0].keywords;
    forall j | 0 <= j < |ks| ensures WellFormedKeyword(ks[j]) {
      if j == 0 { assert WellFormedKeyword(ks[0]); }
      else if j == 1 { assert WellFormedKeyword(ks[1]); }
      else if j == 2 { assert WellFormedKeyword(ks[2]); }
      else if j == 3 { assert WellFormedKeyword(ks[3]); }
      else if j == 4 { assert WellFormedKeyword(ks[4]); }
      else if j == 5 { assert WellFormedKeyword(ks[5]); }
      else if j == 6 { assert WellFormedKeyword(ks[6]); }
      else { assert WellFormedKeyword(ks[7]); }
    }
  }

  lemma Entry1WellFormed()
    ensures WellFormedEntry(SymptomDatabase[1])
  {
    var ks := SymptomDatabase[1].keywords;
    forall j | 0 <= j < |ks| ensures WellFormedKeyword(ks[j]) {
      if j == 0 { assert WellFormedKeyword(ks[0]); }
      else if j == 1 { assert WellFormedKeyword(ks[1]); }
      else if j == 2 { assert WellFormedKeyword(ks[2]); }
      else if j == 3 { assert WellFormedKeyword(ks[3]); }
      else if j == 4 { assert WellFormedKeyword(ks[4]); }
      else if j == 5 { assert WellFormedKeyword(ks[5]); }
      else if j == 6 { assert WellFormedKeyword(ks[6]); }
      else { assert WellFormedKeyword(ks[7]); }
    }
  }

  lemma Entry2WellFormed()
    ensures WellFormedEntry(SymptomDatabase[2])
  {
    var ks := SymptomDatabase[2].keywords;
    forall j | 0 <= j < |ks| ensures WellFormedKeyword(ks[j]) {
      if j == 0 { assert WellFormedKeyword(ks[0]); }
      else if j == 1 { assert WellFormedKeyword(ks[1]); }
      else if j == 2 { assert WellFormedKeyword(ks[2]); }
      else if j == 3 { assert WellFormedKeyword(ks[3]); }
      else if j == 4 { assert WellFormedKeyword(ks[4]); }
      else if j == 5 { assert WellFormedKeyword(ks[5]); }
      else if j == 6 { assert WellFormedKeyword(ks[6]); }
      else if j == 7 { assert WellFormedKeyword(ks[7]); }
      else if j == 8 { assert WellFormedKeyword(ks[8]); }
      else { assert WellFormedKeyword(ks[9]); }
    }
  }

  lemma Entry3WellFormed()
    ensures WellFormedEntry(SymptomDatabase[3])
  {
    var ks := SymptomDatabase[3].keywords;
    forall j | 0 <= j < |ks| ensures WellFormedKeyword(ks[j]) {
      if j == 0 { assert WellFormedKeyword(ks[0]); }
      else if j == 1 { assert WellFormedKeyword(ks[1]); }
      else if j == 2 { assert WellFormedKeyword(ks[2]); }
      else if j == 3 { assert WellFormedKeyword(ks[3]); }
      else if j == 4 { assert WellFormedKeyword(ks[4]); }
      else if j == 5 { assert WellFormedKeyword(ks[5]); }
      else if j == 6 { assert WellFormedKeyword(ks[6]); }
      else if j == 7 { assert WellFormedKeyword(ks[7]); }
      else { assert WellFormedKeyword(ks[8]); }
    }
  }

  lemma Entry4WellFormed()
    ensures WellFormedEntry(SymptomDatabase[4])
  {
    var ks := SymptomDatabase[4].keywords;
    forall j | 0 <= j < |ks| ensures WellFormedKeyword(ks[j]) {
      if j == 0 { assert WellFormedKeyword(ks[0]); }
      else if j == 1 { assert WellFormedKeyword(ks[1]); }
      else if j == 2 { assert WellFormedKeyword(ks[2]); }
      else if j == 3 { assert WellFormedKeyword(ks[3]); }
      else if j == 4 { assert WellFormedKeyword(ks[4]); }
      else if j == 5 { assert WellFormedKeyword(ks[5]); }
      else if j == 6 { assert WellFormedKeyword(ks[6]); }
      else if j == 7 { assert WellFormedKeyword(ks[7]); }
      else { assert WellFormedKeyword(ks[8]); }
    }
  }

  lemma Entry5WellFormed()
    ensures WellFormedEntry(SymptomDatabase[5])
  {
    var ks := SymptomDatabase[5].keywords;
    forall j | 0 <= j < |ks| ensures WellFormedKeyword(ks[j]) {
      if j == 0 { assert WellFormedKeyword(ks[0]); }
      else if j == 1 { assert WellFormedKeyword(ks[1]); }
      else if j == 2 { assert WellFormedKeyword(ks[2]); }
      else if j == 3 { assert WellFormedKeyword(ks[3]); }
      else if j == 4 { assert WellFormedKeyword(ks[4]); }
      else if j == 5 { assert WellFormedKeyword(ks[5]); }
      else if j == 6 { assert WellFormedKeyword(ks[6]); }
      else if j == 7 { assert WellFormedKeyword(ks[7]); }
      else if j == 8 { assert WellFormedKeyword(ks[8]); }
      else if j == 9 { assert WellFormedKeyword(ks[9]); }
      else { assert WellFormedKeyword(ks[10]); }
    }
  }

  lemma Entry6WellFormed()
    ensures WellFormedEntry(SymptomDatabase[6])
  {
    var ks := SymptomDatabase[6].keywords;
    forall j | 0 <= j < |ks| ensures WellFormedKeyword(ks[j]) {
      if j == 0 { assert WellFormedKeyword(ks[0]); }
      else if j == 1 { assert WellFormedKeyword(ks[1]); }
      else if j == 2 { assert WellFormedKeyword(ks[2]); }
      else if j == 3 { assert WellFormedKeyword(ks[3]); }
      else if j == 4 { assert WellFormedKeyword(ks[4]); }
      else { assert WellFormedKeyword(ks[5]); }
    }
  }

  lemma Entry7WellFormed()
    ensures WellFormedEntry(SymptomDatabase[7])
  {
    var ks := SymptomDatabase[7].keywords;
    forall j | 0 <= j < |ks| ensures WellFormedKeyword(ks[j]) {
      if j == 0 { assert WellFormedKeyword(ks[0]); }
      else if j == 1 { assert WellFormedKeyword(ks[1]); }
      else if j == 2 { assert WellFormedKeyword(ks[2]); }
      else if j == 3 { assert WellFormedKeyword(ks[3]); }
      else if j == 4 { assert WellFormedKeyword(ks[4]); }
      else if j == 5 { assert WellFormedKeyword(ks[5]); }
      else if j == 6 { assert WellFormedKeyword(ks[6]); }
      else if j == 7 { assert WellFormedKeyword(ks[7]); }
      else { assert WellFormedKeyword(ks[8]); }
    }
  }

  lemma Entry8WellFormed()
    ensures WellFormedEntry(SymptomDatabase[8])
  {
    var ks := SymptomDatabase[8].keywords;
    forall j | 0 <= j < |ks| ensures WellFormedKeyword(ks[j]) {
      if j == 0 { assert WellFormedKeyword(ks[0]); }
      else if j == 1 { assert WellFormedKeyword(ks[1]); }
      else if j == 2 { assert WellFormedKeyword(ks[2]); }
      else if j == 3 { assert WellFormedKeyword(ks[3]); }
      else if j == 4 { assert WellFormedKeyword(ks[4]); }
      else if j == 5 { assert WellFormedKeyword(ks[5]); }
      else if j == 6 { assert WellFormedKeyword(ks[6]); }
      else { assert WellFormedKeyword(ks[7]); }
    }
  }

  lemma Entry9WellFormed()
    ensures WellFormedEntry(SymptomDatabase[9])
  {
    var ks := SymptomDatabase[9].keywords;
    forall j | 0 <= j < |ks| ensures WellFormedKeyword(ks[j]) {
      if j == 0 { assert WellFormedKeyword(ks[0]); }
      else if j == 1 { assert WellFormedKeyword(ks[1]); }
      else if j == 2 { assert WellFormedKeyword(ks[2]); }
      else if j == 3 { assert WellFormedKeyword(ks[3]); }
      else if j == 4 { assert WellFormedKeyword(ks[4]); }
      else if j == 5 { assert WellFormedKeyword(ks[5]); }
      else if j == 6 { assert WellFormedKeyword(ks[6]); }
      else if j == 7 { assert WellFormedKeyword(ks[7]); }
      else { assert WellFormedKeyword(ks[8]); }
    }
  }

  /** The ten specialist labels are pairwise distinct. */
  lemma SpecialistsDistinct()
    ensures NoDuplicates(Specialists(SymptomDatabase))
  {
    // any two labels already differ in length or in their first letter
    assert forall i, j :: 0 <= i < j < 10 ==>
      |SymptomDatabase[i].specialist| != |SymptomDatabase[j].specialist| ||
      SymptomDatabase[i].specialist[0] != SymptomDatabase[j].specialist[0];
  }

  /** Every specialist label is a non-empty string. */
  lemma LabelsNonEmpty()
    ensures forall i :: 0 <= i < |SymptomDatabase| ==> SymptomDatabase[i].specialist != ""
  {
    assert forall i :: 0 <= i < 10 ==> |SymptomDatabase[i].specialist| > 0;
  }

  /** The keyword lists' lengths; entry 6 (anxiety) alone has the longest list. */
  lemma KeywordCounts()
    ensures forall i :: 0 <= i < |SymptomDatabase| && i != 5 ==> |SymptomDatabase[i].keywords| < |SymptomDatabase[5].keywords|
    ensures |SymptomDatabase[5].keywords| == 11
  {
  }

  /** "pain" is listed by entries 2, 3, 5 and 8 (counting from 1) and by no other. */
  lemma PainEntries()
    ensures forall i :: 0 <= i < |SymptomDatabase| ==> ("pain" in SymptomDatabase[i].keywords <==> i in {1, 2, 4, 7})
  {
    PainEntriesBetween0And5();
    PainEntriesBetween5And10();
  }

  lemma PainEntriesBetween0And5()
    ensures forall i :: 0 <= i < 5 ==> ("pain" in SymptomDatabase[i].keywords <==> i in {1, 2, 4, 7})
  {
    forall i | 0 <= i < 5 ensures "pain" in SymptomDatabase[i].keywords <==> i in {1, 2, 4, 7} {
      if i == 0 { assert "pain" !in Headaches.keywords; }
      else if i == 1 { assert "pain" == ChestPain.keywords[1]; }
      else if i == 2 { assert "pain" == Urination.keywords[5]; }
      else if i == 3 { assert "pain" !in ChildFever.keywords; }
      else { assert "pain" == KneePain.keywords[2]; }
    }
  }

  lemma PainEntriesBetween5And10()
    ensures forall i :: 5 <= i < 10 ==> ("pain" in SymptomDatabase[i].keywords <==> i in {1, 2, 4, 7})
  {
    forall i | 5 <= i < 10 ensures "pain" in SymptomDatabase[i].keywords <==> i in {1, 2, 4, 7} {
      if i == 5 { assert "pain" !in Anxiety.keywords; }
      else if i == 6 { assert "pain" !in NeckLump.keywords; }
      else if i == 7 { assert "pain" == StomachPain.keywords[1]; }
      else if i == 8 { assert "pain" !in Acne.keywords; }
      else { assert "pain" !in Menstrual.keywords; }
    }
  }

  /** "stomach" is listed by entries 3 and 8 and by no other. */
  lemma StomachEntries()
    ensures forall i :: 0 <= i < |SymptomDatabase| ==> ("stomach" in SymptomDatabase[i].keywords <==> i in {2, 7})
  {
    StomachEntriesBetween0And5();
    StomachEntriesBetween5And10();
  }

  lemma StomachEntriesBetween0And5()
    ensures forall i :: 0 <= i < 5 ==> ("stomach" in SymptomDatabase[i].keywords <==> i in {2, 7})
  {
    forall i | 0 <= i < 5 ensures "stomach" in SymptomDatabase[i].keywords <==> i in {2, 7} {
      if i == 0 { assert "stomach" !in Headaches.keywords; }
      else if i == 1 { assert "stomach" !in ChestPain.keywords; }
      else if i == 2 { assert "stomach" == Urination.keywords[8]; }
      else if i == 3 { assert "stomach" !in ChildFever.keywords; }
      else { assert "stomach" !in KneePain.keywords; }
    }
  }

  lemma StomachEntriesBetween5And10()
    ensures forall i :: 5 <= i < 10 ==> ("stomach" in SymptomDatabase[i].keywords <==> i in {2, 7})
  {
    forall i | 5 <= i < 10 ensures "stomach" in SymptomDatabase[i].keywords <==> i in {2, 7} {
      if i == 5 { assert "stomach" !in Anxiety.keywords; }
      else if i == 6 { assert "stomach" !in NeckLump.keywords; }
      else if i == 7 { assert "stomach" == StomachPain.keywords[0]; }
      else if i == 8 { assert "stomach" !in Acne.keywords; }
      else { assert "stomach" !in Menstrual.keywords; }
    }
  }

  /** "skin" is listed by entries 4 and 9 and by no other. */
  lemma SkinEntries()
    ensures forall i :: 0 <= i < |SymptomDatabase| ==> ("skin" in SymptomDatabase[i].keywords <==> i in {3, 8})
  {
    SkinEntriesBetween0And5();
    SkinEntriesBetween5And10();
  }

  lemma SkinEntriesBetween0And5()
    ensures forall i :: 0 <= i < 5 ==> ("skin" in SymptomDatabase[i].keywords <==> i in {3, 8})
  {
    forall i | 0 <= i < 5 ensures "skin" in SymptomDatabase[i].keywords <==> i in {3, 8} {
      if i == 0 { assert "skin" !in Headaches.keywords; }
      else if i == 1 { assert "skin" !in ChestPain.keywords; }
      else if i == 2 { assert "skin" !in Urination.keywords; }
      else if i == 3 { assert "skin" == ChildFever.keywords[8]; }
      else { assert "skin" !in KneePain.keywords; }
    }
  }

  lemma SkinEntriesBetween5And10()
    ensures forall i :: 5 <= i < 10 ==> ("skin" in SymptomDatabase[i].keywords <==> i in {3, 8})
  {
    forall i | 5 <= i < 10 ensures "skin" in SymptomDatabase[i].keywords <==> i in {3, 8} {
      if i == 5 { assert "skin" !in Anxiety.keywords; }
      else if i == 6 { assert "skin" !in NeckLump.keywords; }
      else if i == 7 { assert "skin" !in StomachPain.keywords; }
      else if i == 8 { assert "skin" == Acne.keywords[3]; }
      else { assert "skin" !in Menstrual.keywords; }
    }
  }
}
