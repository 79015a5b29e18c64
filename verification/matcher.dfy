/**
  The symptom matcher of the web app (`src/utils/symptomMatcher.ts`): free text is
  lower-cased, trimmed and split into words; every catalog entry is scored by how many of
  its keywords some word hits (equal to, containing, or contained in the keyword); the
  entry with the strictly highest score of at least two wins, the earlier entry on a tie.
 */
module Matcher {
  import opened Options
  import opened Text
  import opened Splitting
  import opened Catalog

  /** An entry needs at least this many keyword hits to be recommended. */
  const Threshold: nat := 2

  /** The label the conversation falls back to when nothing matches (`getFallbackRecommendation`). */
  const FallbackRecommendation: string := "General Physician"

  /** The normalisation of `matchSymptoms`: lower-case, trim, split on whitespace runs. */
  function Tokenize(input: string): (words: seq<string>)
    ensures |words| >= 1
    ensures forall i :: 0 <= i < |words| ==> NoSpace(words[i])
  {
    Split(Trim(ToLower(input)))
  }

  /** The test `countMatches` applies to one input word and one keyword. */
  predicate WordHits(word: string, keyword: string) {
    word == keyword || Contains(word, keyword) || Contains(keyword, word)
  }

  /** `inputWords.some(word => ...)`: some word hits the keyword. */
  predicate KeywordHit(words: seq<string>, keyword: string) {
    |words| > 0 && (WordHits(words[0], keyword) || KeywordHit(words[1..], keyword))
  }

  /** Positions of the keywords that some word hits. */
  function HitIndices(words: seq<string>, keywords: seq<string>): set<nat> {
    set j: nat | j < |keywords| && KeywordHit(words, keywords[j])
  }

  /** `countMatches`: the loop over the keywords, one increment per keyword that is hit. */
  function CountMatches(words: seq<string>, keywords: seq<string>): (n: nat)
    ensures n <= |keywords|
    ensures n == |HitIndices(words, keywords)|
  {
    if |keywords| == 0 then 0
    else
      var last := |keywords| - 1;
      var init := keywords[..last];
      var n := CountMatches(words, init) + if KeywordHit(words, keywords[last]) then 1 else 0;
      assert HitIndices(words, keywords) ==
        HitIndices(words, init) + if KeywordHit(words, keywords[last]) then {last} else {};
      n
  }

  /** Conversely, whenever an entry wins, the matcher returns its specialist. */
  lemma WinnerIsReturned(db: seq<SymptomEntry>, words: seq<string>, b: nat)
    requires b < |db| && IsBest(db, words, |db|, b)
    ensures MatchWords(db, words) == Some(db[b].specialist)
  {
    var r := MatchWords(db, words);
    assert r.Some?;
    var b' :| 0 <= b' < |db| && IsBest(db, words, |db|, b') && r.value == db[b'].specialist;
    BestIsUnique(db, words, |db|, b, b');
  }

  /** A score is the number of keyword positions hit: any set naming exactly those positions
      has the score as its size. */
  lemma CountFromHits(words: seq<string>, keywords: seq<string>, hits: set<nat>)
    requires forall j :: j in hits ==> j < |keywords|
    requires forall j :: 0 <= j < |keywords| ==> (KeywordHit(words, keywords[j]) <==> j in hits)
    ensures CountMatches(words, keywords) == |hits|
  {
    assert HitIndices(words, keywords) == hits;
  }

  /** Each keyword position known to be hit adds one to the least possible score. */
  lemma CountAtLeast(words: seq<string>, keywords: seq<string>, hits: set<nat>)
    requires forall j :: j in hits ==> j < |keywords| && KeywordHit(words, keywords[j])
    ensures CountMatches(words, keywords) >= |hits|
  {
    SubsetCardinality(hits, HitIndices(words, keywords));
  }

  /** Each keyword position known to be missed takes one off the greatest possible score. */
  lemma CountAtMost(words: seq<string>, keywords: seq<string>, misses: set<nat>)
    requires forall j :: j in misses ==> j < |keywords| && !KeywordHit(words, keywords[j])
    ensures CountMatches(words, keywords) <= |keywords| - |misses|
  {
    var all := Positions(|keywords|);
    assert HitIndices(words, keywords) <= all - misses;
    SubsetCardinality(HitIndices(words, keywords), all - misses);
    assert all == (all - misses) + misses;
  }

  /** The positions `0 .. n - 1`. */
  function Positions(n: nat): (r: set<nat>)
    ensures |r| == n
    ensures forall j :: j in r <==> 0 <= j < n
  {
    if n == 0 then {} else Positions(n - 1) + {n - 1}
  }

  /** The score `matchSymptoms` computes for entry `i`. */
  function Score(db: seq<SymptomEntry>, words: seq<string>, i: nat): nat
    requires i < |db|
  {
    CountMatches(words, db[i].keywords)
  }

  /** Entry `b` is the winner among the first `k` entries: it qualifies, no entry scores more,
      and every earlier entry scores strictly less. */
  predicate IsBest(db: seq<SymptomEntry>, words: seq<string>, k: nat, b: nat)
    requires b < k <= |db|
  {
    && Score(db, words, b) >= Threshold
    && (forall i :: 0 <= i < k ==> Score(db, words, i) <= Score(db, words, b))
    && (forall i :: 0 <= i < b ==> Score(db, words, i) < Score(db, words, b))
  }

  /** `bestMatch` once the loop of `matchSymptoms` has visited the first `k` entries: the
      position of the recorded entry, replaced only by a strictly greater qualifying score. */
  function BestAfter(db: seq<SymptomEntry>, words: seq<string>, k: nat): (r: Option<nat>)
    requires k <= |db|
    ensures r.None? <==> forall i :: 0 <= i < k ==> Score(db, words, i) < Threshold
    ensures r.Some? ==> r.value < k && IsBest(db, words, k, r.value)
  {
    if k == 0 then None
    else
      var prev := BestAfter(db, words, k - 1);
      var count := Score(db, words, k - 1);
      if count >= Threshold && (prev.None? || count > Score(db, words, prev.value)) then
        NewBest(db, words, k, prev);
        Some(k - 1)
      else
        KeepBest(db, words, k, prev);
        prev
  }

  /** The step of `BestAfter` that records entry `k - 1`: it beats every earlier entry. */
  lemma NewBest(db: seq<SymptomEntry>, words: seq<string>, k: nat, prev: Option<nat>)
    requires 0 < k <= |db|
    requires prev.None? <==> forall i :: 0 <= i < k - 1 ==> Score(db, words, i) < Threshold
    requires prev.Some? ==> prev.value < k - 1 && IsBest(db, words, k - 1, prev.value)
    requires Score(db, words, k - 1) >= Threshold
    requires prev.Some? ==> Score(db, words, k - 1) > Score(db, words, prev.value)
    ensures IsBest(db, words, k, k - 1)
  {
    var count := Score(db, words, k - 1);
    forall i | 0 <= i < k - 1 ensures Score(db, words, i) < count {
      if prev.Some? {
        assert Score(db, words, i) <= Score(db, words, prev.value);
      }
    }
  }

  /** The step of `BestAfter` that keeps what it had: entry `k - 1` does not beat it. */
  lemma KeepBest(db: seq<SymptomEntry>, words: seq<string>, k: nat, prev: Option<nat>)
    requires 0 < k <= |db|
    requires prev.None? <==> forall i :: 0 <= i < k - 1 ==> Score(db, words, i) < Threshold
    requires prev.Some? ==> prev.value < k - 1 && IsBest(db, words, k - 1, prev.value)
    requires !(Score(db, words, k - 1) >= Threshold &&
               (prev.None? || Score(db, words, k - 1) > Score(db, words, prev.value)))
    ensures prev.None? <==> forall i :: 0 <= i < k ==> Score(db, words, i) < Threshold
    ensures prev.Some? ==> prev.value < k && IsBest(db, words, k, prev.value)
  {
    if prev.Some? {
      var b := prev.value;
      assert Score(db, words, b) >= Threshold;
      assert Score(db, words, k - 1) <= Score(db, words, b);
      assert !(forall i :: 0 <= i < k ==> Score(db, words, i) < Threshold) by {
        assert !(Score(db, words, b) < Threshold);
      }
    } else {
      assert Score(db, words, k - 1) < Threshold;
    }
  }

  /** `matchSymptoms` over an arbitrary catalog, on already normalised words. */
  function MatchWords(db: seq<SymptomEntry>, words: seq<string>): (r: Option<string>)
    ensures r.None? <==> forall i :: 0 <= i < |db| ==> Score(db, words, i) < Threshold
    ensures r.Some? ==> exists b :: 0 <= b < |db| && IsBest(db, words, |db|, b) && r.value == db[b].specialist
  {
    match BestAfter(db, words, |db|)
    case None => None
    case Some(b) => Some(db[b].specialist)
  }

  /** `SymptomMatcher.matchSymptoms(userInput)`. */
  function MatchSymptoms(userInput: string): Option<string> {
    MatchWords(SymptomDatabase, Tokenize(userInput))
  }

  // ---------------------------------------------------------------------------
  // Properties of the matcher

  /** There is at most one winner, so the result is determined by the scores alone. */
  lemma BestIsUnique(db: seq<SymptomEntry>, words: seq<string>, k: nat, b1: nat, b2: nat)
    requires b1 < k <= |db| && b2 < k
    requires IsBest(db, words, k, b1) && IsBest(db, words, k, b2)
    ensures b1 == b2
  {
  }

  /** A keyword is hit exactly when some word contains it or is contained in it; the equality
      test of the source adds nothing. */
  lemma {:induction false} KeywordHitIff(words: seq<string>, keyword: string)
    ensures KeywordHit(words, keyword) <==>
      exists i :: 0 <= i < |words| && (Contains(words[i], keyword) || Contains(keyword, words[i]))
    decreases |words|
  {
    if |words| > 0 {
      ContainsSelf(keyword);
      KeywordHitIff(words[1..], keyword);
      if KeywordHit(words[1..], keyword) {
        var i :| 0 <= i < |words[1..]| && (Contains(words[1..][i], keyword) || Contains(keyword, words[1..][i]));
        assert words[1..][i] == words[i + 1];
      }
      forall i | 1 <= i < |words| && (Contains(words[i], keyword) || Contains(keyword, words[i]))
        ensures KeywordHit(words[1..], keyword)
      {
        assert words[1..][i - 1] == words[i];
      }
    }
  }

  /** A keyword that no word contains and that contains no word is missed. */
  lemma MissedByAll(words: seq<string>, keyword: string)
    requires forall i :: 0 <= i < |words| ==> !Contains(words[i], keyword) && !Contains(keyword, words[i])
    ensures !KeywordHit(words, keyword)
  {
    KeywordHitIff(words, keyword);
  }

  /** Hits over a concatenation of word lists are the hits of either part. */
  lemma {:induction false} KeywordHitAppend(a: seq<string>, b: seq<string>, keyword: string)
    ensures KeywordHit(a + b, keyword) <==> KeywordHit(a, keyword) || KeywordHit(b, keyword)
    decreases |a|
  {
    if |a| == 0 {
      assert a + b == b;
    } else {
      assert (a + b)[1..] == a[1..] + b;
      KeywordHitAppend(a[1..], b, keyword);
    }
  }

  /** One word hitting the keyword is enough. */
  lemma {:induction false} HitByWord(words: seq<string>, i: nat, keyword: string)
    requires i < |words| && WordHits(words[i], keyword)
    ensures KeywordHit(words, keyword)
    decreases i
  {
    if i > 0 {
      assert words[1..][i - 1] == words[i];
      HitByWord(words[1..], i - 1, keyword);
    }
  }

  /** A sentence of non-empty words separated by single spaces tokenises to its words,
      lower-cased. */
  lemma TokenizeSentence(ws: seq<string>)
    requires |ws| >= 1
    requires forall i :: 0 <= i < |ws| ==> |ws[i]| > 0 && NoSpace(ws[i])
    ensures Tokenize(Join(ws, " ")) == LowerAll(ws)
  {
    var lw := LowerAll(ws);
    LowerKeepsWords(ws);
    ToLowerJoin(ws, " ");
    assert ToLower(" ") == " ";
    TrimJoinUnchanged(lw);
    SplitJoin(lw);
  }

  /** Every maximal white-space run of a trimmed input separates words: the words of
      `a + w + b` are those of `a` followed by those of `b`, whatever white space `w` is. */
  lemma TokenizeRun(a: string, w: string, b: string)
    requires Separates(a, w, b)
    requires |a| > 0 && !IsSpace(a[0]) && |b| > 0 && !IsSpace(b[|b| - 1])
    ensures Tokenize(a + w + b) == Tokenize(a) + Tokenize(b)
  {
    var s := a + w + b;
    RunEnds(a, w, b);
    TokenizeTrimmed(a);
    TokenizeTrimmed(b);
    TokenizeTrimmed(s);
    LowerRun(a, w, b);
    SplitParts(ToLower(s), ToLower(a), ToLower(w), ToLower(b));
  }

  /** The ends of `a + w + b` are those of `a` and `b`. */
  lemma RunEnds(a: string, w: string, b: string)
    requires |a| > 0 && |b| > 0
    ensures var s := a + w + b; s[0] == a[0] && s[|s| - 1] == b[|b| - 1]
  {
  }

  /** An input with no white space at its ends is only lower-cased before splitting. */
  lemma TokenizeTrimmed(s: string)
    requires |s| > 0 && !IsSpace(s[0]) && !IsSpace(s[|s| - 1])
    ensures Tokenize(s) == Split(ToLower(s))
  {
    TrimToLowerCommute(s);
    TrimUnchanged(s);
  }

  /** Lower-casing keeps a maximal run maximal, and distributes over the three parts. */
  lemma LowerRun(a: string, w: string, b: string)
    requires Separates(a, w, b)
    ensures ToLower(a + w + b) == ToLower(a) + ToLower(w) + ToLower(b)
    ensures Separates(ToLower(a), ToLower(w), ToLower(b))
  {
    ToLowerAppend(a + w, b);
    ToLowerAppend(a, w);
    var la, lw, lb := ToLower(a), ToLower(w), ToLower(b);
    forall k | 0 <= k < |lw| ensures IsSpace(lw[k]) {
      assert lw[k] == LowerChar(w[k]);
    }
    if |a| > 0 {
      assert la[|a| - 1] == LowerChar(a[|a| - 1]);
    }
    if |b| > 0 {
      assert lb[0] == LowerChar(b[0]);
    }
  }

  lemma LowerKeepsWords(ws: seq<string>)
    requires forall i :: 0 <= i < |ws| ==> |ws[i]| > 0 && NoSpace(ws[i])
    ensures forall i :: 0 <= i < |ws| ==> |LowerAll(ws)[i]| > 0 && NoSpace(LowerAll(ws)[i])
  {
    forall i | 0 <= i < |ws| ensures |LowerAll(ws)[i]| > 0 && NoSpace(LowerAll(ws)[i]) {
      var w := ws[i];
      assert forall k :: 0 <= k < |w| ==> ToLower(w)[k] == LowerChar(w[k]);
    }
  }

  /** A word contained in a keyword hits it: in particular a one-letter word such as "a" or "i"
      hits every keyword that has that letter. */
  lemma ContainedWordHits(words: seq<string>, i: nat, keyword: string)
    requires i < |words| && Contains(keyword, words[i])
    ensures KeywordHit(words, keyword)
  {
    KeywordHitIff(words, keyword);
  }

  /** Hits depend only on which words occur, so adding words (in any place) keeps every hit. */
  lemma KeywordHitMonotone(words: seq<string>, more: seq<string>, keyword: string)
    requires forall w :: w in words ==> w in more
    requires KeywordHit(words, keyword)
    ensures KeywordHit(more, keyword)
  {
    KeywordHitIff(words, keyword);
    KeywordHitIff(more, keyword);
    var i :| 0 <= i < |words| && (Contains(words[i], keyword) || Contains(keyword, words[i]));
    assert words[i] in more;
    var j :| 0 <= j < |more| && more[j] == words[i];
  }

  /** A score never drops when words are added. */
  lemma CountMonotone(words: seq<string>, more: seq<string>, keywords: seq<string>)
    requires forall w :: w in words ==> w in more
    ensures CountMatches(words, keywords) <= CountMatches(more, keywords)
  {
    forall j | j in HitIndices(words, keywords) ensures j in HitIndices(more, keywords) {
      KeywordHitMonotone(words, more, keywords[j]);
    }
    SubsetCardinality(HitIndices(words, keywords), HitIndices(more, keywords));
  }

  lemma SubsetCardinality(a: set<nat>, b: set<nat>)
    requires a <= b
    ensures |a| <= |b|
  {
    assert b == a + (b - a);
  }

  /** Adding words never turns a recommendation into none: once some entry qualifies, it keeps
      qualifying. */
  lemma MatchMonotone(db: seq<SymptomEntry>, words: seq<string>, more: seq<string>)
    requires forall w :: w in words ==> w in more
    requires MatchWords(db, words).Some?
    ensures MatchWords(db, more).Some?
  {
    var i :| 0 <= i < |db| && Score(db, words, i) >= Threshold;
    CountMonotone(words, more, db[i].keywords);
    assert Score(db, more, i) >= Threshold;
  }

  /** In particular, appending words to a word list that is recommended keeps it recommended. */
  lemma MatchMonotoneAppend(db: seq<SymptomEntry>, words: seq<string>, extra: seq<string>)
    requires MatchWords(db, words).Some?
    ensures MatchWords(db, words + extra).Some?
  {
    MatchMonotone(db, words, words + extra);
  }

  /** The input's case does not matter: the matcher sees only its lower-case form. */
  lemma MatchIgnoresCase(userInput: string)
    ensures MatchSymptoms(ToLower(userInput)) == MatchSymptoms(userInput)
  {
    ToLowerIsLowerCase(userInput);
  }

  /** Empty or whitespace-only input splits to the single empty word. */
  lemma TokenizeBlank(userInput: string)
    requires forall k :: 0 <= k < |userInput| ==> IsSpace(userInput[k])
    ensures Tokenize(userInput) == [""]
  {
    var l := ToLower(userInput);
    assert forall k :: 0 <= k < |l| ==> IsSpace(l[k]);
    TrimAllSpace(l);
  }

  /** The empty word is contained in every keyword, so it hits all of them. */
  lemma {:induction false} EmptyWordHitsAll(keywords: seq<string>)
    ensures CountMatches([""], keywords) == |keywords|
    decreases |keywords|
  {
    if |keywords| > 0 {
      ContainsEmpty(keywords[|keywords| - 1]);
      EmptyWordHitsAll(keywords[..|keywords| - 1]);
    }
  }

  /** On blank input every entry scores its full keyword count. */
  lemma BlankInputScoresAll(db: seq<SymptomEntry>, userInput: string, i: nat)
    requires forall k :: 0 <= k < |userInput| ==> IsSpace(userInput[k])
    requires i < |db|
    ensures Score(db, Tokenize(userInput), i) == |db[i].keywords|
  {
    TokenizeBlank(userInput);
    EmptyWordHitsAll(db[i].keywords);
  }

  // ---------------------------------------------------------------------------
  // Listing the specialists

  /** `[...new Set(xs)]`: the distinct strings of `xs`, each kept where it first occurs. */
  function Distinct(xs: seq<string>): (r: seq<string>)
    ensures NoDuplicates(r)
    ensures forall x :: x in r <==> x in xs
  {
    if |xs| == 0 then []
    else
      var p := Distinct(xs[..|xs| - 1]);
      var x := xs[|xs| - 1];
      if x in p then p else p + [x]
  }

  /** Position of the first occurrence of `x` in `xs`. */
  function FirstIndex(xs: seq<string>, x: string): (i: nat)
    requires x in xs
    ensures i < |xs| && xs[i] == x && x !in xs[..i]
  {
    if xs[0] == x then 0 else 1 + FirstIndex(xs[1..], x)
  }

  lemma {:induction false} FirstIndexUnique(xs: seq<string>, x: string, i: nat)
    requires i < |xs| && xs[i] == x && x !in xs[..i]
    ensures FirstIndex(xs, x) == i
    decreases i
  {
    if i > 0 {
      assert xs[..i][0] == xs[0];
      assert xs[1..][..i - 1] == xs[..i][1..];
      FirstIndexUnique(xs[1..], x, i - 1);
    }
  }

  /** Appending an element leaves the first occurrences already present unchanged. */
  lemma FirstIndexExtends(init: seq<string>, x: string)
    ensures forall y :: y in init ==> FirstIndex(init + [x], y) == FirstIndex(init, y)
    ensures x !in init ==> FirstIndex(init + [x], x) == |init|
  {
    forall y | y in init ensures FirstIndex(init + [x], y) == FirstIndex(init, y) {
      var i := FirstIndex(init, y);
      assert (init + [x])[..i] == init[..i];
      FirstIndexUnique(init + [x], y, i);
    }
    if x !in init {
      assert (init + [x])[..|init|] == init;
      FirstIndexUnique(init + [x], x, |init|);
    }
  }

  /** The distinct strings come out in the order of their first occurrences. */
  lemma {:induction false} DistinctKeepsOrder(xs: seq<string>)
    ensures forall i, j :: 0 <= i < j < |Distinct(xs)| ==>
      FirstIndex(xs, Distinct(xs)[i]) < FirstIndex(xs, Distinct(xs)[j])
    decreases |xs|
  {
    if |xs| > 0 {
      var init := xs[..|xs| - 1];
      var x := xs[|xs| - 1];
      assert xs == init + [x];
      DistinctKeepsOrder(init);
      FirstIndexExtends(init, x);
      var p := Distinct(init);
      if x !in p {
        assert Distinct(xs) == p + [x];
        forall i | 0 <= i < |p| ensures FirstIndex(xs, p[i]) < FirstIndex(xs, x) {
          assert p[i] in init;
        }
      }
    }
  }

  /** A list without duplicates is its own `[...new Set(...)]`. */
  lemma {:induction false} DistinctOfDistinct(xs: seq<string>)
    requires NoDuplicates(xs)
    ensures Distinct(xs) == xs
    decreases |xs|
  {
    if |xs| > 0 {
      var init := xs[..|xs| - 1];
      DistinctOfDistinct(init);
      assert xs[|xs| - 1] !in init;
      assert init + [xs[|xs| - 1]] == xs;
    }
  }

  /** `getAllSpecialists`. */
  function GetAllSpecialists(): seq<string> {
    Distinct(Specialists(SymptomDatabase))
  }

  /** `getAllSpecialists` lists the ten catalog labels once each, in catalog order. */
  lemma AllSpecialistsAreCatalogLabels()
    ensures GetAllSpecialists() == Specialists(SymptomDatabase)
    ensures |GetAllSpecialists()| == 10
  {
    SpecialistsDistinct();
    DistinctOfDistinct(Specialists(SymptomDatabase));
  }
}
