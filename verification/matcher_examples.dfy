/**
  Worked examples of the matcher on the catalog. Each example sentence is tokenised, its hits
  are tabulated keyword by keyword (every word list is split into two halves so that each
  hit or miss is a small computation), and the winner follows from the scores.
 */
module MatcherExamples {
  import opened Options
  import opened Text
  import opened Catalog
  import opened Matcher

  // ---------------------------------------------------------------------------
  // "I have chest pain and shortness of breath"

  /** The words of the sentence as typed. */
  const ChestRaw: seq<string> := ["I", "have", "chest", "pain", "and", "shortness", "of", "breath"]
  /** Its tokens, in two halves. */
  const ChestFront: seq<string> := ["i", "have", "chest", "pain"]
  const ChestBack: seq<string> := ["and", "shortness", "of", "breath"]
  const ChestWords: seq<string> := ChestFront + ChestBack

  /** Tokenising the sentence gives its words lower-cased. */
  lemma ChestTokens(raw: seq<string>)
    requires raw == ChestRaw
    ensures Tokenize(Join(raw, " ")) == ChestWords
  {
    ChestAreWords(raw);
    ChestFirstLower(raw);
    ChestRestLower(raw);
    TokenizeLowered(raw, ChestWords);
  }

  lemma ChestAreWords(raw: seq<string>)
    requires raw == ChestRaw
    ensures forall i :: 0 <= i < |raw| ==> |raw[i]| > 0 && NoSpace(raw[i])
  {
  }

  lemma ChestFirstLower(raw: seq<string>)
    requires raw == ChestRaw
    ensures ToLower(raw[0]) == ChestWords[0]
  {
  }

  lemma ChestRestLower(raw: seq<string>)
    requires raw == ChestRaw
    ensures forall i :: 1 <= i < |raw| ==> IsLowerCase(raw[i]) && raw[i] == ChestWords[i]
  {
  }

  lemma ChestHeadachesMisses2(words: seq<string>, ks: seq<string>)
    requires words == ChestWords && ks == Headaches.keywords
    ensures !KeywordHit(words, ks[2])
  {
    var k := ks[2];
    assert k == "blurry";
    forall i | 0 <= i < |words| ensures !Contains(words[i], k) && !Contains(k, words[i]) {
      if i == 0 { assert words[i] == "i"; LongerNotContained("i", "blurry"); MissingCharNotContained("blurry", "i", 'i'); }
      else if i == 1 { assert words[i] == "have"; LongerNotContained("have", "blurry"); MissingCharNotContained("blurry", "have", 'h'); }
      else if i == 2 { assert words[i] == "chest"; LongerNotContained("chest", "blurry"); MissingCharNotContained("blurry", "chest", 'c'); }
      else if i == 3 { assert words[i] == "pain"; LongerNotContained("pain", "blurry"); MissingCharNotContained("blurry", "pain", 'p'); }
      else if i == 4 { assert words[i] == "and"; LongerNotContained("and", "blurry"); MissingCharNotContained("blurry", "and", 'a'); }
      else if i == 5 { assert words[i] == "shortness"; MissingCharNotContained("shortness", "blurry", 'b'); LongerNotContained("blurry", "shortness"); }
      else if i == 6 { assert words[i] == "of"; LongerNotContained("of", "blurry"); MissingCharNotContained("blurry", "of", 'o'); }
      else { assert words[i] == "breath"; MissingCharNotContained("breath", "blurry", 'l'); MissingCharNotContained("blurry", "breath", 'e'); }
    }
    MissedByAll(words, k);
  }

  lemma ChestHeadachesMisses5(words: seq<string>, ks: seq<string>)
    requires words == ChestWords && ks == Headaches.keywords
    ensures !KeywordHit(words, ks[5])
  {
    var k := ks[5];
    assert k == "head";
    forall i | 0 <= i < |words| ensures !Contains(words[i], k) && !Contains(k, words[i]) {
      if i == 0 { assert words[i] == "i"; LongerNotContained("i", "head"); MissingCharNotContained("head", "i", 'i'); }
      else if i == 1 { assert words[i] == "have"; MissingCharNotContained("have", "head", 'd'); MissingCharNotContained("head", "have", 'v'); }
      else if i == 2 { assert words[i] == "chest"; MissingCharNotContained("chest", "head", 'a'); LongerNotContained("head", "chest"); }
      else if i == 3 { assert words[i] == "pain"; MissingCharNotContained("pain", "head", 'h'); MissingCharNotContained("head", "pain", 'p'); }
      else if i == 4 { assert words[i] == "and"; LongerNotContained("and", "head"); MissingCharNotContained("head", "and", 'n'); }
      else if i == 5 { assert words[i] == "shortness"; MissingCharNotContained("shortness", "head", 'a'); LongerNotContained("head", "shortness"); }
      else if i == 6 { assert words[i] == "of"; LongerNotContained("of", "head"); MissingCharNotContained("head", "of", 'o'); }
      else { assert words[i] == "breath"; MissingCharNotContained("breath", "head", 'd'); LongerNotContained("head", "breath"); }
    }
    MissedByAll(words, k);
  }

  lemma ChestHeadachesMisses6(words: seq<string>, ks: seq<string>)
    requires words == ChestWords && ks == Headaches.keywords
    ensures !KeywordHit(words, ks[6])
  {
    var k := ks[6];
    assert k == "eye";
    forall i | 0 <= i < |words| ensures !Contains(words[i], k) && !Contains(k, words[i]) {
      if i == 0 { assert words[i] == "i"; LongerNotContained("i", "eye"); MissingCharNotContained("eye", "i", 'i'); }
      else if i == 1 { assert words[i] == "have"; MissingCharNotContained("have", "eye", 'y'); LongerNotContained("eye", "have"); }
      else if i == 2 { assert words[i] == "chest"; MissingCharNotContained("chest", "eye", 'y'); LongerNotContained("eye", "chest"); }
      else if i == 3 { assert words[i] == "pain"; MissingCharNotContained("pain", "eye", 'e'); LongerNotContained("eye", "pain"); }
      else if i == 4 { assert words[i] == "and"; MissingCharNotContained("and", "eye", 'e'); MissingCharNotContained("eye", "and", 'a'); }
      else if i == 5 { assert words[i] == "shortness"; MissingCharNotContained("shortness", "eye", 'y'); LongerNotContained("eye", "shortness"); }
      else if i == 6 { assert words[i] == "of"; LongerNotContained("of", "eye"); MissingCharNotContained("eye", "of", 'o'); }
      else { assert words[i] == "breath"; MissingCharNotContained("breath", "eye", 'y'); LongerNotContained("eye", "breath"); }
    }
    MissedByAll(words, k);
  }

  lemma ChestCount0(words: seq<string>, ks: seq<string>)
    requires |ks| == 8
    requires !KeywordHit(words, ks[2]) && !KeywordHit(words, ks[5]) && !KeywordHit(words, ks[6])
    ensures CountMatches(words, ks) <= 5
  {
    CountAtMost(words, ks, {2, 5, 6});
  }

  lemma ChestScore0(words: seq<string>)
    requires words == ChestWords
    ensures Score(SymptomDatabase, words, 0) <= 5
  {
    var ks := Headaches.keywords;
    ChestHeadachesMisses2(words, ks); ChestHeadachesMisses5(words, ks); ChestHeadachesMisses6(words, ks);
    ChestCount0(words, ks);
  }

  lemma ChestChestPainHits0(words: seq<string>, ks: seq<string>)
    requires words == ChestWords && ks == ChestPain.keywords
    ensures KeywordHit(words, ks[0])
  {
    HitByWord(words, 2, ks[0]);
  }

  lemma ChestChestPainHits1(words: seq<string>, ks: seq<string>)
    requires words == ChestWords && ks == ChestPain.keywords
    ensures KeywordHit(words, ks[1])
  {
    HitByWord(words, 0, ks[1]);
  }

  lemma ChestChestPainHits2(words: seq<string>, ks: seq<string>)
    requires words == ChestWords && ks == ChestPain.keywords
    ensures KeywordHit(words, ks[2])
  {
    HitByWord(words, 5, ks[2]);
  }

  lemma ChestChestPainHits3(words: seq<string>, ks: seq<string>)
    requires words == ChestWords && ks == ChestPain.keywords
    ensures KeywordHit(words, ks[3])
  {
    HitByWord(words, 7, ks[3]);
  }

  lemma ChestChestPainHits4(words: seq<string>, ks: seq<string>)
    requires words == ChestWords && ks == ChestPain.keywords
    ensures KeywordHit(words, ks[4])
  {
    HitByWord(words, 0, ks[4]);
  }

  lemma ChestChestPainHits7(words: seq<string>, ks: seq<string>)
    requires words == ChestWords && ks == ChestPain.keywords
    ensures KeywordHit(words, ks[7])
  {
    HitByWord(words, 7, ks[7]);
  }

  lemma ChestCount1(words: seq<string>, ks: seq<string>)
    requires |ks| == 8
    requires KeywordHit(words, ks[0]) && KeywordHit(words, ks[1]) && KeywordHit(words, ks[2]) && KeywordHit(words, ks[3]) && KeywordHit(words, ks[4]) && KeywordHit(words, ks[7])
    ensures CountMatches(words, ks) >= 6
  {
    CountAtLeast(words, ks, {0, 1, 2, 3, 4, 7});
  }

  lemma ChestScore1(words: seq<string>)
    requires words == ChestWords
    ensures Score(SymptomDatabase, words, 1) >= 6
  {
    var ks := ChestPain.keywords;
    ChestChestPainHits0(words, ks); ChestChestPainHits1(words, ks); ChestChestPainHits2(words, ks); ChestChestPainHits3(words, ks); ChestChestPainHits4(words, ks); ChestChestPainHits7(words, ks);
    ChestCount1(words, ks);
  }

  lemma ChestUrinationMisses3(words: seq<string>, ks: seq<string>)
    requires words == ChestWords && ks == Urination.keywords
    ensures !KeywordHit(words, ks[3])
  {
    var k := ks[3];
    assert k == "lower";
    forall i | 0 <= i < |words| ensures !Contains(words[i], k) && !Contains(k, words[i]) {
      if i == 0 { assert words[i] == "i"; LongerNotContained("i", "lower"); MissingCharNotContained("lower", "i", 'i'); }
      else if i == 1 { assert words[i] == "have"; LongerNotContained("have", "lower"); MissingCharNotContained("lower", "have", 'h'); }
      else if i == 2 { assert words[i] == "chest"; MissingCharNotContained("chest", "lower", 'l'); MissingCharNotContained("lower", "chest", 'c'); }
      else if i == 3 { assert words[i] == "pain"; LongerNotContained("pain", "lower"); MissingCharNotContained("lower", "pain", 'p'); }
      else if i == 4 { assert words[i] == "and"; LongerNotContained("and", "lower"); MissingCharNotContained("lower", "and", 'a'); }
      else if i == 5 { assert words[i] == "shortness"; MissingCharNotContained("shortness", "lower", 'l'); LongerNotContained("lower", "shortness"); }
      else if i == 6 { assert words[i] == "of"; LongerNotContained("of", "lower"); MissingCharNotContained("lower", "of", 'f'); }
      else { assert words[i] == "breath"; MissingCharNotContained("breath", "lower", 'l'); LongerNotContained("lower", "breath"); }
    }
    MissedByAll(words, k);
  }

  lemma ChestUrinationMisses7(words: seq<string>, ks: seq<string>)
    requires words == ChestWords && ks == Urination.keywords
    ensures !KeywordHit(words, ks[7])
  {
    var k := ks[7];
    assert k == "pee";
    forall i | 0 <= i < |words| ensures !Contains(words[i], k) && !Contains(k, words[i]) {
      if i == 0 { assert words[i] == "i"; LongerNotContained("i", "pee"); MissingCharNotContained("pee", "i", 'i'); }
      else if i == 1 { assert words[i] == "have"; MissingCharNotContained("have", "pee", 'p'); LongerNotContained("pee", "have"); }
      else if i == 2 { assert words[i] == "chest"; MissingCharNotContained("chest", "pee", 'p'); LongerNotContained("pee", "chest"); }
      else if i == 3 { assert words[i] == "pain"; MissingCharNotContained("pain", "pee", 'e'); LongerNotContained("pee", "pain"); }
      else if i == 4 { assert words[i] == "and"; MissingCharNotContained("and", "pee", 'p'); MissingCharNotContained("pee", "and", 'a'); }
      else if i == 5 { assert words[i] == "shortness"; MissingCharNotContained("shortness", "pee", 'p'); LongerNotContained("pee", "shortness"); }
      else if i == 6 { assert words[i] == "of"; LongerNotContained("of", "pee"); MissingCharNotContained("pee", "of", 'o'); }
      else { assert words[i] == "breath"; MissingCharNotContained("breath", "pee", 'p'); LongerNotContained("pee", "breath"); }
    }
    MissedByAll(words, k);
  }

  lemma ChestUrinationMisses8(words: seq<string>, ks: seq<string>)
    requires words == ChestWords && ks == Urination.keywords
    ensures !KeywordHit(words, ks[8])
  {
    var k := ks[8];
    assert k == "stomach";
    forall i | 0 <= i < |words| ensures !Contains(words[i], k) && !Contains(k, words[i]) {
      if i == 0 { assert words[i] == "i"; LongerNotContained("i", "stomach"); MissingCharNotContained("stomach", "i", 'i'); }
      else if i == 1 { assert words[i] == "have"; LongerNotContained("have", "stomach"); MissingCharNotContained("stomach", "have", 'v'); }
      else if i == 2 { assert words[i] == "chest"; LongerNotContained("chest", "stomach"); MissingCharNotContained("stomach", "chest", 'e'); }
      else if i == 3 { assert words[i] == "pain"; LongerNotContained("pain", "stomach"); MissingCharNotContained("stomach", "pain", 'p'); }
      else if i == 4 { assert words[i] == "and"; LongerNotContained("and", "stomach"); MissingCharNotContained("stomach", "and", 'n'); }
      else if i == 5 { assert words[i] == "shortness"; MissingCharNotContained("shortness", "stomach", 'm'); LongerNotContained("stomach", "shortness"); }
      else if i == 6 { assert words[i] == "of"; LongerNotContained("of", "stomach"); MissingCharNotContained("stomach", "of", 'f'); }
      else { assert words[i] == "breath"; LongerNotContained("breath", "stomach"); MissingCharNotContained("stomach", "breath", 'b'); }
    }
    MissedByAll(words, k);
  }

  lemma ChestUrinationMisses9(words: seq<string>, ks: seq<string>)
    requires words == ChestWords && ks == Urination.keywords
    ensures !KeywordHit(words, ks[9])
  {
    var k := ks[9];
    assert k == "abdomen";
    forall i | 0 <= i < |words| ensures !Contains(words[i], k) && !Contains(k, words[i]) {
      if i == 0 { assert words[i] == "i"; LongerNotContained("i", "abdomen"); MissingCharNotContained("abdomen", "i", 'i'); }
      else if i == 1 { assert words[i] == "have"; LongerNotContained("have", "abdomen"); MissingCharNotContained("abdomen", "have", 'h'); }
      else if i == 2 { assert words[i] == "chest"; LongerNotContained("chest", "abdomen"); MissingCharNotContained("abdomen", "chest", 'c'); }
      else if i == 3 { assert words[i] == "pain"; LongerNotContained("pain", "abdomen"); MissingCharNotContained("abdomen", "pain", 'p'); }
      else if i == 4 { assert words[i] == "and"; LongerNotContained("and", "abdomen"); assert !Contains("abdomen", "and"); }
      else if i == 5 { assert words[i] == "shortness"; MissingCharNotContained("shortness", "abdomen", 'a'); LongerNotContained("abdomen", "shortness"); }
      else if i == 6 { assert words[i] == "of"; LongerNotContained("of", "abdomen"); MissingCharNotContained("abdomen", "of", 'f'); }
      else { assert words[i] == "breath"; LongerNotContained("breath", "abdomen"); MissingCharNotContained("abdomen", "breath", 'r'); }
    }
    MissedByAll(words, k);
  }

  lemma ChestCount2(words: seq<string>, ks: seq<string>)
    requires |ks| == 10
    requires !KeywordHit(words, ks[3]) && !KeywordHit(words, ks[7]) && !KeywordHit(words, ks[8]) && !KeywordHit(words, ks[9])
    ensures CountMatches(words, ks) <= 6
  {
    CountAtMost(words, ks, {3, 7, 8, 9});
  }

  lemma ChestScore2(words: seq<string>)
    requires words == ChestWords
    ensures Score(SymptomDatabase, words, 2) <= 6
  {
    var ks := Urination.keywords;
    ChestUrinationMisses3(words, ks); ChestUrinationMisses7(words, ks); ChestUrinationMisses8(words, ks); ChestUrinationMisses9(words, ks);
    ChestCount2(words, ks);
  }

  lemma ChestChildFeverMisses2(words: seq<string>, ks: seq<string>)
    requires words == ChestWords && ks == ChildFever.keywords
    ensures !KeywordHit(words, ks[2])
  {
    var k := ks[2];
    assert k == "rash";
    forall i | 0 <= i < |words| ensures !Contains(words[i], k) && !Contains(k, words[i]) {
      if i == 0 { assert words[i] == "i"; LongerNotContained("i", "rash"); MissingCharNotContained("rash", "i", 'i'); }
      else if i == 1 { assert words[i] == "have"; MissingCharNotContained("have", "rash", 'r'); MissingCharNotContained("rash", "have", 'v'); }
      else if i == 2 { assert words[i] == "chest"; MissingCharNotContained("chest", "rash", 'r'); LongerNotContained("rash", "chest"); }
      else if i == 3 { assert words[i] == "pain"; MissingCharNotContained("pain", "rash", 'r'); MissingCharNotContained("rash", "pain", 'p'); }
      else if i == 4 { assert words[i] == "and"; LongerNotContained("and", "rash"); MissingCharNotContained("rash", "and", 'n'); }
      else if i == 5 { assert words[i] == "shortness"; MissingCharNotContained("shortness", "rash", 'a'); LongerNotContained("rash", "shortness"); }
      else if i == 6 { assert words[i] == "of"; LongerNotContained("of", "rash"); MissingCharNotContained("rash", "of", 'o'); }
      else { assert words[i] == "breath"; MissingCharNotContained("breath", "rash", 's'); LongerNotContained("rash", "breath"); }
    }
    MissedByAll(words, k);
  }

  lemma ChestChildFeverMisses5(words: seq<string>, ks: seq<string>)
    requires words == ChestWords && ks == ChildFever.keywords
    ensures !KeywordHit(words, ks[5])
  {
    var k := ks[5];
    assert k == "baby";
    forall i | 0 <= i < |words| ensures !Contains(words[i], k) && !Contains(k, words[i]) {
      if i == 0 { assert words[i] == "i"; LongerNotContained("i", "baby"); MissingCharNotContained("baby", "i", 'i'); }
      else if i == 1 { assert words[i] == "have"; MissingCharNotContained("have", "baby", 'b'); MissingCharNotContained("baby", "have", 'h'); }
      else if i == 2 { assert words[i] == "chest"; MissingCharNotContained("chest", "baby", 'b'); LongerNotContained("baby", "chest"); }
      else if i == 3 { assert words[i] == "pain"; MissingCharNotContained("pain", "baby", 'b'); MissingCharNotContained("baby", "pain", 'p'); }
      else if i == 4 { assert words[i] == "and"; LongerNotContained("and", "baby"); MissingCharNotContained("baby", "and", 'n'); }
      else if i == 5 { assert words[i] == "shortness"; MissingCharNotContained("shortness", "baby", 'b'); LongerNotContained("baby", "shortness"); }
      else if i == 6 { assert words[i] == "of"; LongerNotContained("of", "baby"); MissingCharNotContained("baby", "of", 'o'); }
      else { assert words[i] == "breath"; MissingCharNotContained("breath", "baby", 'y'); LongerNotContained("baby", "breath"); }
    }
    MissedByAll(words, k);
  }

  lemma ChestChildFeverMisses7(words: seq<string>, ks: seq<string>)
    requires words == ChestWords && ks == ChildFever.keywords
    ensures !KeywordHit(words, ks[7])
  {
    var k := ks[7];
    assert k == "hot";
    forall i | 0 <= i < |words| ensures !Contains(words[i], k) && !Contains(k, words[i]) {
      if i == 0 { assert words[i] == "i"; LongerNotContained("i", "hot"); MissingCharNotContained("hot", "i", 'i'); }
      else if i == 1 { assert words[i] == "have"; MissingCharNotContained("have", "hot", 'o'); LongerNotContained("hot", "have"); }
      else if i == 2 { assert words[i] == "chest"; MissingCharNotContained("chest", "hot", 'o'); LongerNotContained("hot", "chest"); }
      else if i == 3 { assert words[i] == "pain"; MissingCharNotContained("pain", "hot", 'h'); LongerNotContained("hot", "pain"); }
      else if i == 4 { assert words[i] == "and"; MissingCharNotContained("and", "hot", 'h'); MissingCharNotContained("hot", "and", 'a'); }
      else if i == 5 { assert words[i] == "shortness"; assert !Contains("shortness", "hot"); LongerNotContained("hot", "shortness"); }
      else if i == 6 { assert words[i] == "of"; LongerNotContained("of", "hot"); MissingCharNotContained("hot", "of", 'f'); }
      else { assert words[i] == "breath"; MissingCharNotContained("breath", "hot", 'o'); LongerNotContained("hot", "breath"); }
    }
    MissedByAll(words, k);
  }

  lemma ChestCount3(words: seq<string>, ks: seq<string>)
    requires |ks| == 9
    requires !KeywordHit(words, ks[2]) && !KeywordHit(words, ks[5]) && !KeywordHit(words, ks[7])
    ensures CountMatches(words, ks) <= 6
  {
    CountAtMost(words, ks, {2, 5, 7});
  }

  lemma ChestScore3(words: seq<string>)
    requires words == ChestWords
    ensures Score(SymptomDatabase, words, 3) <= 6
  {
    var ks := ChildFever.keywords;
    ChestChildFeverMisses2(words, ks); ChestChildFeverMisses5(words, ks); ChestChildFeverMisses7(words, ks);
    ChestCount3(words, ks);
  }

  lemma ChestKneePainMisses1(words: seq<string>, ks: seq<string>)
    requires words == ChestWords && ks == KneePain.keywords
    ensures !KeywordHit(words, ks[1])
  {
    var k := ks[1];
    assert k == "knee";
    forall i | 0 <= i < |words| ensures !Contains(words[i], k) && !Contains(k, words[i]) {
      if i == 0 { assert words[i] == "i"; LongerNotContained("i", "knee"); MissingCharNotContained("knee", "i", 'i'); }
      else if i == 1 { assert words[i] == "have"; MissingCharNotContained("have", "knee", 'k'); MissingCharNotContained("knee", "have", 'h'); }
      else if i == 2 { assert words[i] == "chest"; MissingCharNotContained("chest", "knee", 'k'); LongerNotContained("knee", "chest"); }
      else if i == 3 { assert words[i] == "pain"; MissingCharNotContained("pain", "knee", 'k'); MissingCharNotContained("knee", "pain", 'p'); }
      else if i == 4 { assert words[i] == "and"; LongerNotContained("and", "knee"); MissingCharNotContained("knee", "and", 'a'); }
      else if i == 5 { assert words[i] == "shortness"; MissingCharNotContained("shortness", "knee", 'k'); LongerNotContained("knee", "shortness"); }
      else if i == 6 { assert words[i] == "of"; LongerNotContained("of", "knee"); MissingCharNotContained("knee", "of", 'o'); }
      else { assert words[i] == "breath"; MissingCharNotContained("breath", "knee", 'k'); LongerNotContained("knee", "breath"); }
    }
    MissedByAll(words, k);
  }

  lemma ChestKneePainMisses6(words: seq<string>, ks: seq<string>)
    requires words == ChestWords && ks == KneePain.keywords
    ensures !KeywordHit(words, ks[6])
  {
    var k := ks[6];
    assert k == "bone";
    forall i | 0 <= i < |words| ensures !Contains(words[i], k) && !Contains(k, words[i]) {
      if i == 0 { assert words[i] == "i"; LongerNotContained("i", "bone"); MissingCharNotContained("bone", "i", 'i'); }
      else if i == 1 { assert words[i] == "have"; MissingCharNotContained("have", "bone", 'b'); MissingCharNotContained("bone", "have", 'h'); }
      else if i == 2 { assert words[i] == "chest"; MissingCharNotContained("chest", "bone", 'b'); LongerNotContained("bone", "chest"); }
      else if i == 3 { assert words[i] == "pain"; MissingCharNotContained("pain", "bone", 'b'); MissingCharNotContained("bone", "pain", 'p'); }
      else if i == 4 { assert words[i] == "and"; LongerNotContained("and", "bone"); MissingCharNotContained("bone", "and", 'a'); }
      else if i == 5 { assert words[i] == "shortness"; MissingCharNotContained("shortness", "bone", 'b'); LongerNotContained("bone", "shortness"); }
      else if i == 6 { assert words[i] == "of"; LongerNotContained("of", "bone"); MissingCharNotContained("bone", "of", 'f'); }
      else { assert words[i] == "breath"; MissingCharNotContained("breath", "bone", 'o'); LongerNotContained("bone", "breath"); }
    }
    MissedByAll(words, k);
  }

  lemma ChestKneePainMisses8(words: seq<string>, ks: seq<string>)
    requires words == ChestWords && ks == KneePain.keywords
    ensures !KeywordHit(words, ks[8])
  {
    var k := ks[8];
    assert k == "ache";
    forall i | 0 <= i < |words| ensures !Contains(words[i], k) && !Contains(k, words[i]) {
      if i == 0 { assert words[i] == "i"; LongerNotContained("i", "ache"); MissingCharNotContained("ache", "i", 'i'); }
      else if i == 1 { assert words[i] == "have"; MissingCharNotContained("have", "ache", 'c'); MissingCharNotContained("ache", "have", 'v'); }
      else if i == 2 { assert words[i] == "chest"; MissingCharNotContained("chest", "ache", 'a'); LongerNotContained("ache", "chest"); }
      else if i == 3 { assert words[i] == "pain"; MissingCharNotContained("pain", "ache", 'c'); MissingCharNotContained("ache", "pain", 'p'); }
      else if i == 4 { assert words[i] == "and"; LongerNotContained("and", "ache"); MissingCharNotContained("ache", "and", 'n'); }
      else if i == 5 { assert words[i] == "shortness"; MissingCharNotContained("shortness", "ache", 'a'); LongerNotContained("ache", "shortness"); }
      else if i == 6 { assert words[i] == "of"; LongerNotContained("of", "ache"); MissingCharNotContained("ache", "of", 'o'); }
      else { assert words[i] == "breath"; MissingCharNotContained("breath", "ache", 'c'); LongerNotContained("ache", "breath"); }
    }
    MissedByAll(words, k);
  }

  lemma ChestCount4(words: seq<string>, ks: seq<string>)
    requires |ks| == 9
    requires !KeywordHit(words, ks[1]) && !KeywordHit(words, ks[6]) && !KeywordHit(words, ks[8])
    ensures CountMatches(words, ks) <= 6
  {
    CountAtMost(words, ks, {1, 6, 8});
  }

  lemma ChestScore4(words: seq<string>)
    requires words == ChestWords
    ensures Score(SymptomDatabase, words, 4) <= 6
  {
    var ks := KneePain.keywords;
    ChestKneePainMisses1(words, ks); ChestKneePainMisses6(words, ks); ChestKneePainMisses8(words, ks);
    ChestCount4(words, ks);
  }

  lemma ChestAnxietyMisses1(words: seq<string>, ks: seq<string>)
    requires words == ChestWords && ks == Anxiety.keywords
    ensures !KeywordHit(words, ks[1])
  {
    var k := ks[1];
    assert k == "trouble";
    forall i | 0 <= i < |words| ensures !Contains(words[i], k) && !Contains(k, words[i]) {
      if i == 0 { assert words[i] == "i"; LongerNotContained("i", "trouble"); MissingCharNotContained("trouble", "i", 'i'); }
      else if i == 1 { assert words[i] == "have"; LongerNotContained("have", "trouble"); MissingCharNotContained("trouble", "have", 'h'); }
      else if i == 2 { assert words[i] == "chest"; LongerNotContained("chest", "trouble"); MissingCharNotContained("trouble", "chest", 'c'); }
      else if i == 3 { assert words[i] == "pain"; LongerNotContained("pain", "trouble"); MissingCharNotContained("trouble", "pain", 'p'); }
      else if i == 4 { assert words[i] == "and"; LongerNotContained("and", "trouble"); MissingCharNotContained("trouble", "and", 'a'); }
      else if i == 5 { assert words[i] == "shortness"; MissingCharNotContained("shortness", "trouble", 'u'); LongerNotContained("trouble", "shortness"); }
      else if i == 6 { assert words[i] == "of"; LongerNotContained("of", "trouble"); MissingCharNotContained("trouble", "of", 'f'); }
      else { assert words[i] == "breath"; LongerNotContained("breath", "trouble"); MissingCharNotContained("trouble", "breath", 'a'); }
    }
    MissedByAll(words, k);
  }

  lemma ChestAnxietyMisses3(words: seq<string>, ks: seq<string>)
    requires words == ChestWords && ks == Anxiety.keywords
    ensures !KeywordHit(words, ks[3])
  {
    var k := ks[3];
    assert k == "loss";
    forall i | 0 <= i < |words| ensures !Contains(words[i], k) && !Contains(k, words[i]) {
      if i == 0 { assert words[i] == "i"; LongerNotContained("i", "loss"); MissingCharNotContained("loss", "i", 'i'); }
      else if i == 1 { assert words[i] == "have"; MissingCharNotContained("have", "loss", 'l'); MissingCharNotContained("loss", "have", 'h'); }
      else if i == 2 { assert words[i] == "chest"; MissingCharNotContained("chest", "loss", 'l'); LongerNotContained("loss", "chest"); }
      else if i == 3 { assert words[i] == "pain"; MissingCharNotContained("pain", "loss", 'l'); MissingCharNotContained("loss", "pain", 'p'); }
      else if i == 4 { assert words[i] == "and"; LongerNotContained("and", "loss"); MissingCharNotContained("loss", "and", 'a'); }
      else if i == 5 { assert words[i] == "shortness"; MissingCharNotContained("shortness", "loss", 'l'); LongerNotContained("loss", "shortness"); }
      else if i == 6 { assert words[i] == "of"; LongerNotContained("of", "loss"); MissingCharNotContained("loss", "of", 'f'); }
      else { assert words[i] == "breath"; MissingCharNotContained("breath", "loss", 'l'); LongerNotContained("loss", "breath"); }
    }
    MissedByAll(words, k);
  }

  lemma ChestAnxietyMisses6(words: seq<string>, ks: seq<string>)
    requires words == ChestWords && ks == Anxiety.keywords
    ensures !KeywordHit(words, ks[6])
  {
    var k := ks[6];
    assert k == "sleep";
    forall i | 0 <= i < |words| ensures !Contains(words[i], k) && !Contains(k, words[i]) {
      if i == 0 { assert words[i] == "i"; LongerNotContained("i", "sleep"); MissingCharNotContained("sleep", "i", 'i'); }
      else if i == 1 { assert words[i] == "have"; LongerNotContained("have", "sleep"); MissingCharNotContained("sleep", "have", 'h'); }
      else if i == 2 { assert words[i] == "chest"; MissingCharNotContained("chest", "sleep", 'l'); MissingCharNotContained("sleep", "chest", 'c'); }
      else if i == 3 { assert words[i] == "pain"; LongerNotContained("pain", "sleep"); MissingCharNotContained("sleep", "pain", 'a'); }
      else if i == 4 { assert words[i] == "and"; LongerNotContained("and", "sleep"); MissingCharNotContained("sleep", "and", 'a'); }
      else if i == 5 { assert words[i] == "shortness"; MissingCharNotContained("shortness", "sleep", 'l'); LongerNotContained("sleep", "shortness"); }
      else if i == 6 { assert words[i] == "of"; LongerNotContained("of", "sleep"); MissingCharNotContained("sleep", "of", 'o'); }
      else { assert words[i] == "breath"; MissingCharNotContained("breath", "sleep", 's'); LongerNotContained("sleep", "breath"); }
    }
    MissedByAll(words, k);
  }

  lemma ChestAnxietyMisses9(words: seq<string>, ks: seq<string>)
    requires words == ChestWords && ks == Anxiety.keywords
    ensures !KeywordHit(words, ks[9])
  {
    var k := ks[9];
    assert k == "stress";
    forall i | 0 <= i < |words| ensures !Contains(words[i], k) && !Contains(k, words[i]) {
      if i == 0 { assert words[i] == "i"; LongerNotContained("i", "stress"); MissingCharNotContained("stress", "i", 'i'); }
      else if i == 1 { assert words[i] == "have"; LongerNotContained("have", "stress"); MissingCharNotContained("stress", "have", 'h'); }
      else if i == 2 { assert words[i] == "chest"; LongerNotContained("chest", "stress"); MissingCharNotContained("stress", "chest", 'c'); }
      else if i == 3 { assert words[i] == "pain"; LongerNotContained("pain", "stress"); MissingCharNotContained("stress", "pain", 'p'); }
      else if i == 4 { assert words[i] == "and"; LongerNotContained("and", "stress"); MissingCharNotContained("stress", "and", 'a'); }
      else if i == 5 { assert words[i] == "shortness"; assert !Contains("shortness", "stress"); LongerNotContained("stress", "shortness"); }
      else if i == 6 { assert words[i] == "of"; LongerNotContained("of", "stress"); MissingCharNotContained("stress", "of", 'o'); }
      else { assert words[i] == "breath"; MissingCharNotContained("breath", "stress", 's'); MissingCharNotContained("stress", "breath", 'b'); }
    }
    MissedByAll(words, k);
  }

  lemma ChestAnxietyMisses10(words: seq<string>, ks: seq<string>)
    requires words == ChestWords && ks == Anxiety.keywords
    ensures !KeywordHit(words, ks[10])
  {
    var k := ks[10];
    assert k == "mental";
    forall i | 0 <= i < |words| ensures !Contains(words[i], k) && !Contains(k, words[i]) {
      if i == 0 { assert words[i] == "i"; LongerNotContained("i", "mental"); MissingCharNotContained("mental", "i", 'i'); }
      else if i == 1 { assert words[i] == "have"; LongerNotContained("have", "mental"); MissingCharNotContained("mental", "have", 'h'); }
      else if i == 2 { assert words[i] == "chest"; LongerNotContained("chest", "mental"); MissingCharNotContained("mental", "chest", 'c'); }
      else if i == 3 { assert words[i] == "pain"; LongerNotContained("pain", "mental"); MissingCharNotContained("mental", "pain", 'p'); }
      else if i == 4 { assert words[i] == "and"; LongerNotContained("and", "mental"); MissingCharNotContained("mental", "and", 'd'); }
      else if i == 5 { assert words[i] == "shortness"; MissingCharNotContained("shortness", "mental", 'm'); LongerNotContained("mental", "shortness"); }
      else if i == 6 { assert words[i] == "of"; LongerNotContained("of", "mental"); MissingCharNotContained("mental", "of", 'o'); }
      else { assert words[i] == "breath"; MissingCharNotContained("breath", "mental", 'm'); MissingCharNotContained("mental", "breath", 'b'); }
    }
    MissedByAll(words, k);
  }

  lemma ChestCount5(words: seq<string>, ks: seq<string>)
    requires |ks| == 11
    requires !KeywordHit(words, ks[1]) && !KeywordHit(words, ks[3]) && !KeywordHit(words, ks[6]) && !KeywordHit(words, ks[9]) && !KeywordHit(words, ks[10])
    ensures CountMatches(words, ks) <= 6
  {
    CountAtMost(words, ks, {1, 3, 6, 9, 10});
  }

  lemma ChestScore5(words: seq<string>)
    requires words == ChestWords
    ensures Score(SymptomDatabase, words, 5) <= 6
  {
    var ks := Anxiety.keywords;
    ChestAnxietyMisses1(words, ks); ChestAnxietyMisses3(words, ks); ChestAnxietyMisses6(words, ks); ChestAnxietyMisses9(words, ks); ChestAnxietyMisses10(words, ks);
    ChestCount5(words, ks);
  }

  lemma ChestStomachPainMisses4(words: seq<string>, ks: seq<string>)
    requires words == ChestWords && ks == StomachPain.keywords
    ensures !KeywordHit(words, ks[4])
  {
    var k := ks[4];
    assert k == "belly";
    forall i | 0 <= i < |words| ensures !Contains(words[i], k) && !Contains(k, words[i]) {
      if i == 0 { assert words[i] == "i"; LongerNotContained("i", "belly"); MissingCharNotContained("belly", "i", 'i'); }
      else if i == 1 { assert words[i] == "have"; LongerNotContained("have", "belly"); MissingCharNotContained("belly", "have", 'h'); }
      else if i == 2 { assert words[i] == "chest"; MissingCharNotContained("chest", "belly", 'b'); MissingCharNotContained("belly", "chest", 'c'); }
      else if i == 3 { assert words[i] == "pain"; LongerNotContained("pain", "belly"); MissingCharNotContained("belly", "pain", 'p'); }
      else if i == 4 { assert words[i] == "and"; LongerNotContained("and", "belly"); MissingCharNotContained("belly", "and", 'a'); }
      else if i == 5 { assert words[i] == "shortness"; MissingCharNotContained("shortness", "belly", 'b'); LongerNotContained("belly", "shortness"); }
      else if i == 6 { assert words[i] == "of"; LongerNotContained("of", "belly"); MissingCharNotContained("belly", "of", 'o'); }
      else { assert words[i] == "breath"; MissingCharNotContained("breath", "belly", 'l'); LongerNotContained("belly", "breath"); }
    }
    MissedByAll(words, k);
  }

  lemma ChestStomachPainMisses5(words: seq<string>, ks: seq<string>)
    requires words == ChestWords && ks == StomachPain.keywords
    ensures !KeywordHit(words, ks[5])
  {
    var k := ks[5];
    assert k == "gut";
    forall i | 0 <= i < |words| ensures !Contains(words[i], k) && !Contains(k, words[i]) {
      if i == 0 { assert words[i] == "i"; LongerNotContained("i", "gut"); MissingCharNotContained("gut", "i", 'i'); }
      else if i == 1 { assert words[i] == "have"; MissingCharNotContained("have", "gut", 'g'); LongerNotContained("gut", "have"); }
      else if i == 2 { assert words[i] == "chest"; MissingCharNotContained("chest", "gut", 'g'); LongerNotContained("gut", "chest"); }
      else if i == 3 { assert words[i] == "pain"; MissingCharNotContained("pain", "gut", 'g'); LongerNotContained("gut", "pain"); }
      else if i == 4 { assert words[i] == "and"; MissingCharNotContained("and", "gut", 'g'); MissingCharNotContained("gut", "and", 'a'); }
      else if i == 5 { assert words[i] == "shortness"; MissingCharNotContained("shortness", "gut", 'g'); LongerNotContained("gut", "shortness"); }
      else if i == 6 { assert words[i] == "of"; LongerNotContained("of", "gut"); MissingCharNotContained("gut", "of", 'o'); }
      else { assert words[i] == "breath"; MissingCharNotContained("breath", "gut", 'g'); LongerNotContained("gut", "breath"); }
    }
    MissedByAll(words, k);
  }

  lemma ChestStomachPainMisses7(words: seq<string>, ks: seq<string>)
    requires words == ChestWords && ks == StomachPain.keywords
    ensures !KeywordHit(words, ks[7])
  {
    var k := ks[7];
    assert k == "bowel";
    forall i | 0 <= i < |words| ensures !Contains(words[i], k) && !Contains(k, words[i]) {
      if i == 0 { assert words[i] == "i"; LongerNotContained("i", "bowel"); MissingCharNotContained("bowel", "i", 'i'); }
      else if i == 1 { assert words[i] == "have"; LongerNotContained("have", "bowel"); MissingCharNotContained("bowel", "have", 'h'); }
      else if i == 2 { assert words[i] == "chest"; MissingCharNotContained("chest", "bowel", 'b'); MissingCharNotContained("bowel", "chest", 'c'); }
      else if i == 3 { assert words[i] == "pain"; LongerNotContained("pain", "bowel"); MissingCharNotContained("bowel", "pain", 'p'); }
      else if i == 4 { assert words[i] == "and"; LongerNotContained("and", "bowel"); MissingCharNotContained("bowel", "and", 'a'); }
      else if i == 5 { assert words[i] == "shortness"; MissingCharNotContained("shortness", "bowel", 'b'); LongerNotContained("bowel", "shortness"); }
      else if i == 6 { assert words[i] == "of"; LongerNotContained("of", "bowel"); MissingCharNotContained("bowel", "of", 'f'); }
      else { assert words[i] == "breath"; MissingCharNotContained("breath", "bowel", 'o'); LongerNotContained("bowel", "breath"); }
    }
    MissedByAll(words, k);
  }

  lemma ChestCount7(words: seq<string>, ks: seq<string>)
    requires |ks| == 9
    requires !KeywordHit(words, ks[4]) && !KeywordHit(words, ks[5]) && !KeywordHit(words, ks[7])
    ensures CountMatches(words, ks) <= 6
  {
    CountAtMost(words, ks, {4, 5, 7});
  }

  lemma ChestScore7(words: seq<string>)
    requires words == ChestWords
    ensures Score(SymptomDatabase, words, 7) <= 6
  {
    var ks := StomachPain.keywords;
    ChestStomachPainMisses4(words, ks); ChestStomachPainMisses5(words, ks); ChestStomachPainMisses7(words, ks);
    ChestCount7(words, ks);
  }

  lemma ChestAcneMisses1(words: seq<string>, ks: seq<string>)
    requires words == ChestWords && ks == Acne.keywords
    ensures !KeywordHit(words, ks[1])
  {
    var k := ks[1];
    assert k == "acne";
    forall i | 0 <= i < |words| ensures !Contains(words[i], k) && !Contains(k, words[i]) {
      if i == 0 { assert words[i] == "i"; LongerNotContained("i", "acne"); MissingCharNotContained("acne", "i", 'i'); }
      else if i == 1 { assert words[i] == "have"; MissingCharNotContained("have", "acne", 'c'); MissingCharNotContained("acne", "have", 'h'); }
      else if i == 2 { assert words[i] == "chest"; MissingCharNotContained("chest", "acne", 'a'); LongerNotContained("acne", "chest"); }
      else if i == 3 { assert words[i] == "pain"; MissingCharNotContained("pain", "acne", 'c'); MissingCharNotContained("acne", "pain", 'p'); }
      else if i == 4 { assert words[i] == "and"; LongerNotContained("and", "acne"); MissingCharNotContained("acne", "and", 'd'); }
      else if i == 5 { assert words[i] == "shortness"; MissingCharNotContained("shortness", "acne", 'a'); LongerNotContained("acne", "shortness"); }
      else if i == 6 { assert words[i] == "of"; LongerNotContained("of", "acne"); MissingCharNotContained("acne", "of", 'o'); }
      else { assert words[i] == "breath"; MissingCharNotContained("breath", "acne", 'c'); LongerNotContained("acne", "breath"); }
    }
    MissedByAll(words, k);
  }

  lemma ChestAcneMisses6(words: seq<string>, ks: seq<string>)
    requires words == ChestWords && ks == Acne.keywords
    ensures !KeywordHit(words, ks[6])
  {
    var k := ks[6];
    assert k == "face";
    forall i | 0 <= i < |words| ensures !Contains(words[i], k) && !Contains(k, words[i]) {
      if i == 0 { assert words[i] == "i"; LongerNotContained("i", "face"); MissingCharNotContained("face", "i", 'i'); }
      else if i == 1 { assert words[i] == "have"; MissingCharNotContained("have", "face", 'f'); MissingCharNotContained("face", "have", 'h'); }
      else if i == 2 { assert words[i] == "chest"; MissingCharNotContained("chest", "face", 'f'); LongerNotContained("face", "chest"); }
      else if i == 3 { assert words[i] == "pain"; MissingCharNotContained("pain", "face", 'f'); MissingCharNotContained("face", "pain", 'p'); }
      else if i == 4 { assert words[i] == "and"; LongerNotContained("and", "face"); MissingCharNotContained("face", "and", 'n'); }
      else if i == 5 { assert words[i] == "shortness"; MissingCharNotContained("shortness", "face", 'f'); LongerNotContained("face", "shortness"); }
      else if i == 6 { assert words[i] == "of"; LongerNotContained("of", "face"); MissingCharNotContained("face", "of", 'o'); }
      else { assert words[i] == "breath"; MissingCharNotContained("breath", "face", 'f'); LongerNotContained("face", "breath"); }
    }
    MissedByAll(words, k);
  }

  lemma ChestCount8(words: seq<string>, ks: seq<string>)
    requires |ks| == 8
    requires !KeywordHit(words, ks[1]) && !KeywordHit(words, ks[6])
    ensures CountMatches(words, ks) <= 6
  {
    CountAtMost(words, ks, {1, 6});
  }

  lemma ChestScore8(words: seq<string>)
    requires words == ChestWords
    ensures Score(SymptomDatabase, words, 8) <= 6
  {
    var ks := Acne.keywords;
    ChestAcneMisses1(words, ks); ChestAcneMisses6(words, ks);
    ChestCount8(words, ks);
  }

  lemma ChestMenstrualMisses2(words: seq<string>, ks: seq<string>)
    requires words == ChestWords && ks == Menstrual.keywords
    ensures !KeywordHit(words, ks[2])
  {
    var k := ks[2];
    assert k == "cycles";
    forall i | 0 <= i < |words| ensures !Contains(words[i], k) && !Contains(k, words[i]) {
      if i == 0 { assert words[i] == "i"; LongerNotContained("i", "cycles"); MissingCharNotContained("cycles", "i", 'i'); }
      else if i == 1 { assert words[i] == "have"; LongerNotContained("have", "cycles"); MissingCharNotContained("cycles", "have", 'h'); }
      else if i == 2 { assert words[i] == "chest"; LongerNotContained("chest", "cycles"); MissingCharNotContained("cycles", "chest", 'h'); }
      else if i == 3 { assert words[i] == "pain"; LongerNotContained("pain", "cycles"); MissingCharNotContained("cycles", "pain", 'p'); }
      else if i == 4 { assert words[i] == "and"; LongerNotContained("and", "cycles"); MissingCharNotContained("cycles", "and", 'a'); }
      else if i == 5 { assert words[i] == "shortness"; MissingCharNotContained("shortness", "cycles", 'c'); LongerNotContained("cycles", "shortness"); }
      else if i == 6 { assert words[i] == "of"; LongerNotContained("of", "cycles"); MissingCharNotContained("cycles", "of", 'o'); }
      else { assert words[i] == "breath"; MissingCharNotContained("breath", "cycles", 'c'); MissingCharNotContained("cycles", "breath", 'b'); }
    }
    MissedByAll(words, k);
  }

  lemma ChestMenstrualMisses6(words: seq<string>, ks: seq<string>)
    requires words == ChestWords && ks == Menstrual.keywords
    ensures !KeywordHit(words, ks[6])
  {
    var k := ks[6];
    assert k == "hormone";
    forall i | 0 <= i < |words| ensures !Contains(words[i], k) && !Contains(k, words[i]) {
      if i == 0 { assert words[i] == "i"; LongerNotContained("i", "hormone"); MissingCharNotContained("hormone", "i", 'i'); }
      else if i == 1 { assert words[i] == "have"; LongerNotContained("have", "hormone"); MissingCharNotContained("hormone", "have", 'a'); }
      else if i == 2 { assert words[i] == "chest"; LongerNotContained("chest", "hormone"); MissingCharNotContained("hormone", "chest", 'c'); }
      else if i == 3 { assert words[i] == "pain"; LongerNotContained("pain", "hormone"); MissingCharNotContained("hormone", "pain", 'p'); }
      else if i == 4 { assert words[i] == "and"; LongerNotContained("and", "hormone"); MissingCharNotContained("hormone", "and", 'a'); }
      else if i == 5 { assert words[i] == "shortness"; MissingCharNotContained("shortness", "hormone", 'm'); LongerNotContained("hormone", "shortness"); }
      else if i == 6 { assert words[i] == "of"; LongerNotContained("of", "hormone"); MissingCharNotContained("hormone", "of", 'f'); }
      else { assert words[i] == "breath"; LongerNotContained("breath", "hormone"); MissingCharNotContained("hormone", "breath", 'b'); }
    }
    MissedByAll(words, k);
  }

  lemma ChestMenstrualMisses8(words: seq<string>, ks: seq<string>)
    requires words == ChestWords && ks == Menstrual.keywords
    ensures !KeywordHit(words, ks[8])
  {
    var k := ks[8];
    assert k == "female";
    forall i | 0 <= i < |words| ensures !Contains(words[i], k) && !Contains(k, words[i]) {
      if i == 0 { assert words[i] == "i"; LongerNotContained("i", "female"); MissingCharNotContained("female", "i", 'i'); }
      else if i == 1 { assert words[i] == "have"; LongerNotContained("have", "female"); MissingCharNotContained("female", "have", 'h'); }
      else if i == 2 { assert words[i] == "chest"; LongerNotContained("chest", "female"); MissingCharNotContained("female", "chest", 'c'); }
      else if i == 3 { assert words[i] == "pain"; LongerNotContained("pain", "female"); MissingCharNotContained("female", "pain", 'p'); }
      else if i == 4 { assert words[i] == "and"; LongerNotContained("and", "female"); MissingCharNotContained("female", "and", 'n'); }
      else if i == 5 { assert words[i] == "shortness"; MissingCharNotContained("shortness", "female", 'f'); LongerNotContained("female", "shortness"); }
      else if i == 6 { assert words[i] == "of"; LongerNotContained("of", "female"); MissingCharNotContained("female", "of", 'o'); }
      else { assert words[i] == "breath"; MissingCharNotContained("breath", "female", 'f'); MissingCharNotContained("female", "breath", 'b'); }
    }
    MissedByAll(words, k);
  }

  lemma ChestCount9(words: seq<string>, ks: seq<string>)
    requires |ks| == 9
    requires !KeywordHit(words, ks[2]) && !KeywordHit(words, ks[6]) && !KeywordHit(words, ks[8])
    ensures CountMatches(words, ks) <= 6
  {
    CountAtMost(words, ks, {2, 6, 8});
  }

  lemma ChestScore9(words: seq<string>)
    requires words == ChestWords
    ensures Score(SymptomDatabase, words, 9) <= 6
  {
    var ks := Menstrual.keywords;
    ChestMenstrualMisses2(words, ks); ChestMenstrualMisses6(words, ks); ChestMenstrualMisses8(words, ks);
    ChestCount9(words, ks);
  }

  /** Entry 1 scores at least 6, every other entry at most 6, and every earlier
      entry less. */
  lemma ChestWinner(words: seq<string>)
    requires words == ChestWords
    ensures IsBest(SymptomDatabase, words, |SymptomDatabase|, 1)
  {
    ChestScore1(words);
    var top := Score(SymptomDatabase, words, 1);
    forall i | 0 <= i < |SymptomDatabase|
      ensures Score(SymptomDatabase, words, i) <= top
      ensures i < 1 ==> Score(SymptomDatabase, words, i) < top
    {
      if i == 0 { ChestScore0(words); }
      else if i == 1 {  }
      else if i == 2 { ChestScore2(words); }
      else if i == 3 { ChestScore3(words); }
      else if i == 4 { ChestScore4(words); }
      else if i == 5 { ChestScore5(words); }
      else if i == 6 {  }
      else if i == 7 { ChestScore7(words); }
      else if i == 8 { ChestScore8(words); }
      else { ChestScore9(words); }
    }
  }

  /** Entries 2, 3, 5 and 6 (1-based) all score 6: "i" hits every keyword with an "i" and
      "pain" hits three entries, so the chest-pain entry wins only because it comes first. */
  lemma ChestPainExample(raw: seq<string>)
    requires raw == ChestRaw
    ensures MatchSymptoms(Join(raw, " ")) == Some("Cardiologist / Pulmonologist")
  {
    ChestTokens(raw);
    ChestMatch(Tokenize(Join(raw, " ")));
  }

  lemma ChestMatch(words: seq<string>)
    requires words == ChestWords
    ensures MatchWords(SymptomDatabase, words) == Some(ChestPain.specialist)
  {
    ChestWinner(words);
    WinnerIsReturned(SymptomDatabase, words, 1);
  }

  // ---------------------------------------------------------------------------
  // "I have a headache"

  /** The words of the sentence as typed. */
  const HeadacheRaw: seq<string> := ["I", "have", "a", "headache"]
  /** Its tokens, in two halves. */
  const HeadacheFront: seq<string> := ["i", "have"]
  const HeadacheBack: seq<string> := ["a", "headache"]
  const HeadacheWords: seq<string> := HeadacheFront + HeadacheBack

  /** Tokenising the sentence gives its words lower-cased. */
  lemma HeadacheTokens(raw: seq<string>)
    requires raw == HeadacheRaw
    ensures Tokenize(Join(raw, " ")) == HeadacheWords
  {
    HeadacheAreWords(raw);
    HeadacheFirstLower(raw);
    HeadacheRestLower(raw);
    TokenizeLowered(raw, HeadacheWords);
  }

  lemma HeadacheAreWords(raw: seq<string>)
    requires raw == HeadacheRaw
    ensures forall i :: 0 <= i < |raw| ==> |raw[i]| > 0 && NoSpace(raw[i])
  {
  }

  lemma HeadacheFirstLower(raw: seq<string>)
    requires raw == HeadacheRaw
    ensures ToLower(raw[0]) == HeadacheWords[0]
  {
  }

  lemma HeadacheRestLower(raw: seq<string>)
    requires raw == HeadacheRaw
    ensures forall i :: 1 <= i < |raw| ==> IsLowerCase(raw[i]) && raw[i] == HeadacheWords[i]
  {
  }

  lemma HeadacheHeadachesMisses6(words: seq<string>, ks: seq<string>)
    requires words == HeadacheWords && ks == Headaches.keywords
    ensures !KeywordHit(words, ks[6])
  {
    var k := ks[6];
    assert k == "eye";
    forall i | 0 <= i < |words| ensures !Contains(words[i], k) && !Contains(k, words[i]) {
      if i == 0 { assert words[i] == "i"; LongerNotContained("i", "eye"); MissingCharNotContained("eye", "i", 'i'); }
      else if i == 1 { assert words[i] == "have"; MissingCharNotContained("have", "eye", 'y'); LongerNotContained("eye", "have"); }
      else if i == 2 { assert words[i] == "a"; LongerNotContained("a", "eye"); MissingCharNotContained("eye", "a", 'a'); }
      else { assert words[i] == "headache"; MissingCharNotContained("headache", "eye", 'y'); LongerNotContained("eye", "headache"); }
    }
    MissedByAll(words, k);
  }

  lemma HeadacheCount0(words: seq<string>, ks: seq<string>)
    requires |ks| == 8
    requires !KeywordHit(words, ks[6])
    ensures CountMatches(words, ks) <= 7
  {
    CountAtMost(words, ks, {6});
  }

  lemma HeadacheScore0(words: seq<string>)
    requires words == HeadacheWords
    ensures Score(SymptomDatabase, words, 0) <= 7
  {
    var ks := Headaches.keywords;
    HeadacheHeadachesMisses6(words, ks);
    HeadacheCount0(words, ks);
  }

  lemma HeadacheChestPainMisses6(words: seq<string>, ks: seq<string>)
    requires words == HeadacheWords && ks == ChestPain.keywords
    ensures !KeywordHit(words, ks[6])
  {
    var k := ks[6];
    assert k == "lung";
    forall i | 0 <= i < |words| ensures !Contains(words[i], k) && !Contains(k, words[i]) {
      if i == 0 { assert words[i] == "i"; LongerNotContained("i", "lung"); MissingCharNotContained("lung", "i", 'i'); }
      else if i == 1 { assert words[i] == "have"; MissingCharNotContained("have", "lung", 'l'); MissingCharNotContained("lung", "have", 'h'); }
      else if i == 2 { assert words[i] == "a"; LongerNotContained("a", "lung"); MissingCharNotContained("lung", "a", 'a'); }
      else { assert words[i] == "headache"; MissingCharNotContained("headache", "lung", 'l'); LongerNotContained("lung", "headache"); }
    }
    MissedByAll(words, k);
  }

  lemma HeadacheCount1(words: seq<string>, ks: seq<string>)
    requires |ks| == 8
    requires !KeywordHit(words, ks[6])
    ensures CountMatches(words, ks) <= 7
  {
    CountAtMost(words, ks, {6});
  }

  lemma HeadacheScore1(words: seq<string>)
    requires words == HeadacheWords
    ensures Score(SymptomDatabase, words, 1) <= 7
  {
    var ks := ChestPain.keywords;
    HeadacheChestPainMisses6(words, ks);
    HeadacheCount1(words, ks);
  }

  lemma HeadacheUrinationHits0(words: seq<string>, ks: seq<string>)
    requires words == HeadacheWords && ks == Urination.keywords
    ensures KeywordHit(words, ks[0])
  {
    HitByWord(words, 0, ks[0]);
  }

  lemma HeadacheUrinationHits1(words: seq<string>, ks: seq<string>)
    requires words == HeadacheWords && ks == Urination.keywords
    ensures KeywordHit(words, ks[1])
  {
    HitByWord(words, 0, ks[1]);
  }

  lemma HeadacheUrinationHits2(words: seq<string>, ks: seq<string>)
    requires words == HeadacheWords && ks == Urination.keywords
    ensures KeywordHit(words, ks[2])
  {
    HitByWord(words, 0, ks[2]);
  }

  lemma HeadacheUrinationHits4(words: seq<string>, ks: seq<string>)
    requires words == HeadacheWords && ks == Urination.keywords
    ensures KeywordHit(words, ks[4])
  {
    HitByWord(words, 0, ks[4]);
  }

  lemma HeadacheUrinationHits5(words: seq<string>, ks: seq<string>)
    requires words == HeadacheWords && ks == Urination.keywords
    ensures KeywordHit(words, ks[5])
  {
    HitByWord(words, 0, ks[5]);
  }

  lemma HeadacheUrinationHits6(words: seq<string>, ks: seq<string>)
    requires words == HeadacheWords && ks == Urination.keywords
    ensures KeywordHit(words, ks[6])
  {
    HitByWord(words, 0, ks[6]);
  }

  lemma HeadacheUrinationHits8(words: seq<string>, ks: seq<string>)
    requires words == HeadacheWords && ks == Urination.keywords
    ensures KeywordHit(words, ks[8])
  {
    HitByWord(words, 2, ks[8]);
  }

  lemma HeadacheUrinationHits9(words: seq<string>, ks: seq<string>)
    requires words == HeadacheWords && ks == Urination.keywords
    ensures KeywordHit(words, ks[9])
  {
    HitByWord(words, 2, ks[9]);
  }

  lemma HeadacheCount2(words: seq<string>, ks: seq<string>)
    requires |ks| == 10
    requires KeywordHit(words, ks[0]) && KeywordHit(words, ks[1]) && KeywordHit(words, ks[2]) && KeywordHit(words, ks[4]) && KeywordHit(words, ks[5]) && KeywordHit(words, ks[6]) && KeywordHit(words, ks[8]) && KeywordHit(words, ks[9])
    ensures CountMatches(words, ks) >= 8
  {
    CountAtLeast(words, ks, {0, 1, 2, 4, 5, 6, 8, 9});
  }

  lemma HeadacheScore2(words: seq<string>)
    requires words == HeadacheWords
    ensures Score(SymptomDatabase, words, 2) >= 8
  {
    var ks := Urination.keywords;
    HeadacheUrinationHits0(words, ks); HeadacheUrinationHits1(words, ks); HeadacheUrinationHits2(words, ks); HeadacheUrinationHits4(words, ks); HeadacheUrinationHits5(words, ks); HeadacheUrinationHits6(words, ks); HeadacheUrinationHits8(words, ks); HeadacheUrinationHits9(words, ks);
    HeadacheCount2(words, ks);
  }

  lemma HeadacheChildFeverMisses7(words: seq<string>, ks: seq<string>)
    requires words == HeadacheWords && ks == ChildFever.keywords
    ensures !KeywordHit(words, ks[7])
  {
    var k := ks[7];
    assert k == "hot";
    forall i | 0 <= i < |words| ensures !Contains(words[i], k) && !Contains(k, words[i]) {
      if i == 0 { assert words[i] == "i"; LongerNotContained("i", "hot"); MissingCharNotContained("hot", "i", 'i'); }
      else if i == 1 { assert words[i] == "have"; MissingCharNotContained("have", "hot", 'o'); LongerNotContained("hot", "have"); }
      else if i == 2 { assert words[i] == "a"; LongerNotContained("a", "hot"); MissingCharNotContained("hot", "a", 'a'); }
      else { assert words[i] == "headache"; MissingCharNotContained("headache", "hot", 'o'); LongerNotContained("hot", "headache"); }
    }
    MissedByAll(words, k);
  }

  lemma HeadacheCount3(words: seq<string>, ks: seq<string>)
    requires |ks| == 9
    requires !KeywordHit(words, ks[7])
    ensures CountMatches(words, ks) <= 8
  {
    CountAtMost(words, ks, {7});
  }

  lemma HeadacheScore3(words: seq<string>)
    requires words == HeadacheWords
    ensures Score(SymptomDatabase, words, 3) <= 8
  {
    var ks := ChildFever.keywords;
    HeadacheChildFeverMisses7(words, ks);
    HeadacheCount3(words, ks);
  }

  lemma HeadacheKneePainMisses1(words: seq<string>, ks: seq<string>)
    requires words == HeadacheWords && ks == KneePain.keywords
    ensures !KeywordHit(words, ks[1])
  {
    var k := ks[1];
    assert k == "knee";
    forall i | 0 <= i < |words| ensures !Contains(words[i], k) && !Contains(k, words[i]) {
      if i == 0 { assert words[i] == "i"; LongerNotContained("i", "knee"); MissingCharNotContained("knee", "i", 'i'); }
      else if i == 1 { assert words[i] == "have"; MissingCharNotContained("have", "knee", 'k'); MissingCharNotContained("knee", "have", 'h'); }
      else if i == 2 { assert words[i] == "a"; LongerNotContained("a", "knee"); MissingCharNotContained("knee", "a", 'a'); }
      else { assert words[i] == "headache"; MissingCharNotContained("headache", "knee", 'k'); LongerNotContained("knee", "headache"); }
    }
    MissedByAll(words, k);
  }

  lemma HeadacheCount4(words: seq<string>, ks: seq<string>)
    requires |ks| == 9
    requires !KeywordHit(words, ks[1])
    ensures CountMatches(words, ks) <= 8
  {
    CountAtMost(words, ks, {1});
  }

  lemma HeadacheScore4(words: seq<string>)
    requires words == HeadacheWords
    ensures Score(SymptomDatabase, words, 4) <= 8
  {
    var ks := KneePain.keywords;
    HeadacheKneePainMisses1(words, ks);
    HeadacheCount4(words, ks);
  }

  lemma HeadacheAnxietyMisses3(words: seq<string>, ks: seq<string>)
    requires words == HeadacheWords && ks == Anxiety.keywords
    ensures !KeywordHit(words, ks[3])
  {
    var k := ks[3];
    assert k == "loss";
    forall i | 0 <= i < |words| ensures !Contains(words[i], k) && !Contains(k, words[i]) {
      if i == 0 { assert words[i] == "i"; LongerNotContained("i", "loss"); MissingCharNotContained("loss", "i", 'i'); }
      else if i == 1 { assert words[i] == "have"; MissingCharNotContained("have", "loss", 'l'); MissingCharNotContained("loss", "have", 'h'); }
      else if i == 2 { assert words[i] == "a"; LongerNotContained("a", "loss"); MissingCharNotContained("loss", "a", 'a'); }
      else { assert words[i] == "headache"; MissingCharNotContained("headache", "loss", 'l'); LongerNotContained("loss", "headache"); }
    }
    MissedByAll(words, k);
  }

  lemma HeadacheAnxietyMisses6(words: seq<string>, ks: seq<string>)
    requires words == HeadacheWords && ks == Anxiety.keywords
    ensures !KeywordHit(words, ks[6])
  {
    var k := ks[6];
    assert k == "sleep";
    forall i | 0 <= i < |words| ensures !Contains(words[i], k) && !Contains(k, words[i]) {
      if i == 0 { assert words[i] == "i"; LongerNotContained("i", "sleep"); MissingCharNotContained("sleep", "i", 'i'); }
      else if i == 1 { assert words[i] == "have"; LongerNotContained("have", "sleep"); MissingCharNotContained("sleep", "have", 'h'); }
      else if i == 2 { assert words[i] == "a"; LongerNotContained("a", "sleep"); MissingCharNotContained("sleep", "a", 'a'); }
      else { assert words[i] == "headache"; MissingCharNotContained("headache", "sleep", 's'); LongerNotContained("sleep", "headache"); }
    }
    MissedByAll(words, k);
  }

  lemma HeadacheAnxietyMisses9(words: seq<string>, ks: seq<string>)
    requires words == HeadacheWords && ks == Anxiety.keywords
    ensures !KeywordHit(words, ks[9])
  {
    var k := ks[9];
    assert k == "stress";
    forall i | 0 <= i < |words| ensures !Contains(words[i], k) && !Contains(k, words[i]) {
      if i == 0 { assert words[i] == "i"; LongerNotContained("i", "stress"); MissingCharNotContained("stress", "i", 'i'); }
      else if i == 1 { assert words[i] == "have"; LongerNotContained("have", "stress"); MissingCharNotContained("stress", "have", 'h'); }
      else if i == 2 { assert words[i] == "a"; LongerNotContained("a", "stress"); MissingCharNotContained("stress", "a", 'a'); }
      else { assert words[i] == "headache"; MissingCharNotContained("headache", "stress", 's'); LongerNotContained("stress", "headache"); }
    }
    MissedByAll(words, k);
  }

  lemma HeadacheCount5(words: seq<string>, ks: seq<string>)
    requires |ks| == 11
    requires !KeywordHit(words, ks[3]) && !KeywordHit(words, ks[6]) && !KeywordHit(words, ks[9])
    ensures CountMatches(words, ks) <= 8
  {
    CountAtMost(words, ks, {3, 6, 9});
  }

  lemma HeadacheScore5(words: seq<string>)
    requires words == HeadacheWords
    ensures Score(SymptomDatabase, words, 5) <= 8
  {
    var ks := Anxiety.keywords;
    HeadacheAnxietyMisses3(words, ks); HeadacheAnxietyMisses6(words, ks); HeadacheAnxietyMisses9(words, ks);
    HeadacheCount5(words, ks);
  }

  lemma HeadacheStomachPainMisses5(words: seq<string>, ks: seq<string>)
    requires words == HeadacheWords && ks == StomachPain.keywords
    ensures !KeywordHit(words, ks[5])
  {
    var k := ks[5];
    assert k == "gut";
    forall i | 0 <= i < |words| ensures !Contains(words[i], k) && !Contains(k, words[i]) {
      if i == 0 { assert words[i] == "i"; LongerNotContained("i", "gut"); MissingCharNotContained("gut", "i", 'i'); }
      else if i == 1 { assert words[i] == "have"; MissingCharNotContained("have", "gut", 'g'); LongerNotContained("gut", "have"); }
      else if i == 2 { assert words[i] == "a"; LongerNotContained("a", "gut"); MissingCharNotContained("gut", "a", 'a'); }
      else { assert words[i] == "headache"; MissingCharNotContained("headache", "gut", 'g'); LongerNotContained("gut", "headache"); }
    }
    MissedByAll(words, k);
  }

  lemma HeadacheCount7(words: seq<string>, ks: seq<string>)
    requires |ks| == 9
    requires !KeywordHit(words, ks[5])
    ensures CountMatches(words, ks) <= 8
  {
    CountAtMost(words, ks, {5});
  }

  lemma HeadacheScore7(words: seq<string>)
    requires words == HeadacheWords
    ensures Score(SymptomDatabase, words, 7) <= 8
  {
    var ks := StomachPain.keywords;
    HeadacheStomachPainMisses5(words, ks);
    HeadacheCount7(words, ks);
  }

  lemma HeadacheMenstrualMisses2(words: seq<string>, ks: seq<string>)
    requires words == HeadacheWords && ks == Menstrual.keywords
    ensures !KeywordHit(words, ks[2])
  {
    var k := ks[2];
    assert k == "cycles";
    forall i | 0 <= i < |words| ensures !Contains(words[i], k) && !Contains(k, words[i]) {
      if i == 0 { assert words[i] == "i"; LongerNotContained("i", "cycles"); MissingCharNotContained("cycles", "i", 'i'); }
      else if i == 1 { assert words[i] == "have"; LongerNotContained("have", "cycles"); MissingCharNotContained("cycles", "have", 'h'); }
      else if i == 2 { assert words[i] == "a"; LongerNotContained("a", "cycles"); MissingCharNotContained("cycles", "a", 'a'); }
      else { assert words[i] == "headache"; MissingCharNotContained("headache", "cycles", 'y'); LongerNotContained("cycles", "headache"); }
    }
    MissedByAll(words, k);
  }

  lemma HeadacheCount9(words: seq<string>, ks: seq<string>)
    requires |ks| == 9
    requires !KeywordHit(words, ks[2])
    ensures CountMatches(words, ks) <= 8
  {
    CountAtMost(words, ks, {2});
  }

  lemma HeadacheScore9(words: seq<string>)
    requires words == HeadacheWords
    ensures Score(SymptomDatabase, words, 9) <= 8
  {
    var ks := Menstrual.keywords;
    HeadacheMenstrualMisses2(words, ks);
    HeadacheCount9(words, ks);
  }

  /** Entry 2 scores at least 8, every other entry at most 8, and every earlier
      entry less. */
  lemma HeadacheWinner(words: seq<string>)
    requires words == HeadacheWords
    ensures IsBest(SymptomDatabase, words, |SymptomDatabase|, 2)
  {
    HeadacheScore2(words);
    var top := Score(SymptomDatabase, words, 2);
    forall i | 0 <= i < |SymptomDatabase|
      ensures Score(SymptomDatabase, words, i) <= top
      ensures i < 2 ==> Score(SymptomDatabase, words, i) < top
    {
      if i == 0 { HeadacheScore0(words); }
      else if i == 1 { HeadacheScore1(words); }
      else if i == 2 {  }
      else if i == 3 { HeadacheScore3(words); }
      else if i == 4 { HeadacheScore4(words); }
      else if i == 5 { HeadacheScore5(words); }
      else if i == 6 {  }
      else if i == 7 { HeadacheScore7(words); }
      else if i == 8 {  }
      else { HeadacheScore9(words); }
    }
  }

  /** The one-letter words "i" and "a" hit eight of the urination entry's ten keywords, more
      than any other entry, so a headache is sent to the urologist. */
  lemma HeadacheExample(raw: seq<string>)
    requires raw == HeadacheRaw
    ensures MatchSymptoms(Join(raw, " ")) == Some("Urologist / General Physician")
  {
    HeadacheTokens(raw);
    HeadacheMatch(Tokenize(Join(raw, " ")));
  }

  lemma HeadacheMatch(words: seq<string>)
    requires words == HeadacheWords
    ensures MatchWords(SymptomDatabase, words) == Some(Urination.specialist)
  {
    HeadacheWinner(words);
    WinnerIsReturned(SymptomDatabase, words, 2);
  }

  /** A sentence of single words whose first word lower-cases to `words[0]` and whose other
      words are already lower-case tokenises to `words`. */
  lemma TokenizeLowered(raw: seq<string>, words: seq<string>)
    requires |raw| == |words| >= 1
    requires forall i :: 0 <= i < |raw| ==> |raw[i]| > 0 && NoSpace(raw[i])
    requires ToLower(raw[0]) == words[0]
    requires forall i :: 1 <= i < |raw| ==> IsLowerCase(raw[i]) && raw[i] == words[i]
    ensures Tokenize(Join(raw, " ")) == words
  {
    TokenizeSentence(raw);
    LowerAllOfTail(raw, words);
  }

  /** Every word of a sentence but the first is already lower-case and the first lower-cases
      to `words[0]`: lower-casing the sentence gives `words`. */
  lemma LowerAllOfTail(raw: seq<string>, words: seq<string>)
    requires |raw| == |words| >= 1
    requires ToLower(raw[0]) == words[0]
    requires forall i :: 1 <= i < |raw| ==> IsLowerCase(raw[i]) && raw[i] == words[i]
    ensures LowerAll(raw) == words
  {
    forall i | 1 <= i < |raw| ensures LowerAll(raw)[i] == words[i] {
      ToLowerOfLowerCase(raw[i]);
    }
  }

  // ---------------------------------------------------------------------------
  // The empty input

  /** Empty input scores every entry its full keyword count; the anxiety entry has the most
      keywords, eleven, so it wins. */
  lemma EmptyInputExample()
    ensures MatchSymptoms("") == Some("Psychiatrist / Clinical Psychologist")
  {
    var words := Tokenize("");
    TokenizeBlank("");
    KeywordCounts();
    forall i | 0 <= i < |SymptomDatabase| ensures Score(SymptomDatabase, words, i) == |SymptomDatabase[i].keywords| {
      BlankInputScoresAll(SymptomDatabase, "", i);
    }
    assert IsBest(SymptomDatabase, words, |SymptomDatabase|, 5);
    WinnerIsReturned(SymptomDatabase, words, 5);
  }
}
